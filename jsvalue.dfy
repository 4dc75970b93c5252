/**
 * The JavaScript values the core passes around: handler results, cached
 * entries of the per-request store, response bodies and error bodies.
 * A plain object is a sequence of its own (key, value) pairs, with
 * distinct keys, in insertion order. JavaScript keeps that order for keys
 * that are not array indices, and lists array-index keys first.
 */
module Js {
  import opened Wrappers
  import opened Strings

  datatype JsValue =
    | Undefined
    | Null
    | Bool(b: bool)
    | Num(n: int)
    | Str(s: string)
    | Arr(items: seq<JsValue>)
    | Obj(fields: seq<(string, JsValue)>)
      /** Any other object (a Buffer, a stream, a Date); `tag` names its kind. */
    | Opaque(tag: string)

  type Props = seq<(string, JsValue)>

  /** JavaScript's truthiness (`!!v`). */
  predicate Truthy(v: JsValue) {
    match v
    case Undefined => false
    case Null => false
    case Bool(b) => b
    case Num(n) => n != 0
    case Str(s) => s != []
    case _ => true
  }

  /** The `typeof` operator. */
  function TypeOf(v: JsValue): string {
    match v
    case Undefined => "undefined"
    case Bool(_) => "boolean"
    case Num(_) => "number"
    case Str(_) => "string"
    case _ => "object"
  }

  /** `String(v)`: how a value turns into text when concatenated or coerced. */
  function ToJsString(v: JsValue): string
    decreases v
  {
    match v
    case Undefined => "undefined"
    case Null => "null"
    case Bool(b) => if b then "true" else "false"
    case Num(n) => IntToString(n)
    case Str(s) => s
    case Arr(items) =>
      Join(seq(|items|, i requires 0 <= i < |items| =>
        if items[i].Undefined? || items[i].Null? then "" else ToJsString(items[i])), ",")
    case Obj(_) => "[object Object]"
    case Opaque(_) => "[object Object]"
  }

  lemma ToJsStringOfStr(s: string)
    ensures ToJsString(Str(s)) == s
  {
  }

  // ---------------------------------------------------------------------------
  // Plain objects

  function Keys(fs: Props): (ks: seq<string>)
    ensures |ks| == |fs|
    ensures forall i :: 0 <= i < |fs| ==> ks[i] == fs[i].0
  {
    seq(|fs|, i requires 0 <= i < |fs| => fs[i].0)
  }

  predicate Distinct(ks: seq<string>) {
    forall i, j :: 0 <= i < j < |ks| ==> ks[i] != ks[j]
  }

  /** A well-formed object: no key appears twice. */
  predicate WellFormed(fs: Props) {
    Distinct(Keys(fs))
  }

  predicate Has(fs: Props, k: string) {
    k in Keys(fs)
  }

  /** `o[k]`: the value stored under `k`, or undefined. */
  function Get(fs: Props, k: string): (v: JsValue)
    ensures !Has(fs, k) ==> v == Undefined
  {
    if fs == [] then Undefined
    else if fs[0].0 == k then fs[0].1
    else Get(fs[1..], k)
  }

  /** `o[k]` finds the first pair with key `k`. */
  lemma {:induction false} GetFirst(fs: Props, k: string, i: nat)
    requires i < |fs| && fs[i].0 == k
    requires forall j :: 0 <= j < i ==> fs[j].0 != k
    ensures Get(fs, k) == fs[i].1
  {
    if i > 0 {
      GetFirst(fs[1..], k, i - 1);
    }
  }

  /** Every first pair with key `k` is the one `o[k]` finds. */
  lemma GetFirstEach(fs: Props, k: string)
    ensures forall i :: 0 <= i < |fs| && fs[i].0 == k && (forall j :: 0 <= j < i ==> fs[j].0 != k)
              ==> Get(fs, k) == fs[i].1
  {
    forall i | 0 <= i < |fs| && fs[i].0 == k && (forall j :: 0 <= j < i ==> fs[j].0 != k) {
      GetFirst(fs, k, i);
    }
  }

  /** The keys of a non-empty object are its first key and the keys of the rest. */
  lemma KeysCons(fs: Props)
    requires fs != []
    ensures Keys(fs) == [fs[0].0] + Keys(fs[1..])
  {
  }

  /** `o[k] = v`: an existing key keeps its place, a new key goes last. */
  function Put(fs: Props, k: string, v: JsValue): (r: Props)
  {
    if fs == [] then [(k, v)]
    else if fs[0].0 == k then [(k, v)] + fs[1..]
    else [fs[0]] + Put(fs[1..], k, v)
  }

  /** `delete o[k]`. */
  function Delete(fs: Props, k: string): (r: Props)
    ensures |r| <= |fs|
  {
    if fs == [] then []
    else if fs[0].0 == k then Delete(fs[1..], k)
    else [fs[0]] + Delete(fs[1..], k)
  }

  /** `{...a, ...b}`: the properties of `b` assigned over `a`, in order. */
  function Spread(a: Props, b: Props): Props
    decreases |b|
  {
    if b == [] then a else Spread(Put(a, b[0].0, b[0].1), b[1..])
  }

  /** Reading back a key just written gives the value written. */
  lemma {:induction false} GetPutSame(fs: Props, k: string, v: JsValue)
    ensures Get(Put(fs, k, v), k) == v
  {
    if fs != [] && fs[0].0 != k {
      GetPutSame(fs[1..], k, v);
    }
  }

  /** Writing one key leaves every other key as it was. */
  lemma {:induction false} GetPutOther(fs: Props, k: string, v: JsValue, k': string)
    requires k' != k
    ensures Get(Put(fs, k, v), k') == Get(fs, k')
  {
    if fs != [] && fs[0].0 != k {
      GetPutOther(fs[1..], k, v, k');
    }
  }

  /** Overwriting an existing key keeps the key order; a new key is appended. */
  lemma PutKeys(fs: Props, k: string, v: JsValue)
    ensures Has(fs, k) ==> Keys(Put(fs, k, v)) == Keys(fs)
    ensures !Has(fs, k) ==> Keys(Put(fs, k, v)) == Keys(fs) + [k]
  {
    if Has(fs, k) {
      PutKeysPresent(fs, k, v);
    } else {
      PutAbsent(fs, k, v);
      assert Keys(fs + [(k, v)]) == Keys(fs) + [k];
    }
  }

  lemma {:induction false} PutKeysPresent(fs: Props, k: string, v: JsValue)
    requires Has(fs, k)
    ensures Keys(Put(fs, k, v)) == Keys(fs)
  {
    HasCons(fs, k);
    if fs[0].0 != k {
      PutKeysPresent(fs[1..], k, v);
      var p := Put(fs, k, v);
      assert p == [fs[0]] + Put(fs[1..], k, v);
      assert p[1..] == Put(fs[1..], k, v);
      KeysCons(p);
      KeysCons(fs);
    }
  }

  /** Assigning a key the object lacks appends one pair at the end. */
  lemma {:induction false} PutAbsent(fs: Props, k: string, v: JsValue)
    requires !Has(fs, k)
    ensures Put(fs, k, v) == fs + [(k, v)]
  {
    if fs != [] {
      HasCons(fs, k);
      PutAbsent(fs[1..], k, v);
      assert fs == [fs[0]] + fs[1..];
    }
  }

  /** A second write to the same key replaces the first. */
  lemma {:induction false} PutPut(fs: Props, k: string, a: JsValue, b: JsValue)
    ensures Put(Put(fs, k, a), k, b) == Put(fs, k, b)
  {
    if fs != [] && fs[0].0 != k {
      PutPut(fs[1..], k, a, b);
    }
  }

  /** Writing back the value a key already holds changes nothing. */
  lemma {:induction false} PutGetSame(fs: Props, k: string)
    requires Has(fs, k)
    ensures Put(fs, k, Get(fs, k)) == fs
  {
    if fs[0].0 != k {
      HasCons(fs, k);
      PutGetSame(fs[1..], k);
      assert Get(fs, k) == Get(fs[1..], k);
      assert fs == [fs[0]] + fs[1..];
    }
  }

  /** A key is in a non-empty object when it is the first key or a key of the rest. */
  lemma HasCons(fs: Props, k: string)
    requires fs != []
    ensures Has(fs, k) <==> fs[0].0 == k || Has(fs[1..], k)
  {
    KeysCons(fs);
  }

  /** Assignment keeps an object well formed. */
  lemma PutWellFormed(fs: Props, k: string, v: JsValue)
    requires WellFormed(fs)
    ensures WellFormed(Put(fs, k, v))
  {
    PutKeys(fs, k, v);
  }

  /** After `delete o[k]` the key is gone. */
  lemma {:induction false} GetDeleteSame(fs: Props, k: string)
    ensures !Has(Delete(fs, k), k)
    ensures Get(Delete(fs, k), k) == Undefined
  {
    if fs != [] {
      GetDeleteSame(fs[1..], k);
      if fs[0].0 != k {
        var d := Delete(fs, k);
        assert d == [fs[0]] + Delete(fs[1..], k);
        assert d[1..] == Delete(fs[1..], k);
        HasCons(d, k);
      }
    }
  }

  /** `delete o[k]` leaves every other key as it was. */
  lemma {:induction false} GetDeleteOther(fs: Props, k: string, k': string)
    requires k' != k
    ensures Get(Delete(fs, k), k') == Get(fs, k')
  {
    if fs != [] {
      GetDeleteOther(fs[1..], k, k');
    }
  }

  /** Deleting a key undoes writing it. */
  lemma {:induction false} DeletePut(fs: Props, k: string, v: JsValue)
    ensures Delete(Put(fs, k, v), k) == Delete(fs, k)
  {
    if fs != [] && fs[0].0 != k {
      DeletePut(fs[1..], k, v);
    }
  }

  /** Deleting an absent key changes nothing. */
  lemma {:induction false} DeleteAbsent(fs: Props, k: string)
    requires !Has(fs, k)
    ensures Delete(fs, k) == fs
  {
    if fs != [] {
      HasCons(fs, k);
      DeleteAbsent(fs[1..], k);
    }
  }

  /** In a spread the right-hand object wins for its own keys, the left one for the rest. */
  lemma {:induction false} GetSpread(a: Props, b: Props, k: string)
    requires WellFormed(b)
    ensures Get(Spread(a, b), k) == if Has(b, k) then Get(b, k) else Get(a, k)
    decreases |b|
  {
    if b != [] {
      var rest := b[1..];
      assert Keys(b) == [b[0].0] + Keys(rest);
      assert WellFormed(rest) by {
        forall i, j | 0 <= i < j < |rest| ensures Keys(rest)[i] != Keys(rest)[j] {
          assert Keys(b)[i + 1] != Keys(b)[j + 1];
        }
      }
      GetSpread(Put(a, b[0].0, b[0].1), rest, k);
      if k == b[0].0 {
        assert !Has(rest, k) by {
          forall j | 0 <= j < |rest| ensures Keys(rest)[j] != k {
            assert Keys(b)[0] != Keys(b)[j + 1];
          }
        }
        GetPutSame(a, k, b[0].1);
      } else {
        GetPutOther(a, b[0].0, b[0].1, k);
      }
    }
  }
}
