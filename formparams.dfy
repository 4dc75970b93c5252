/**
 * The grouping of `application/x-www-form-urlencoded` entries into a plain
 * object, written out twice in the source: by `getAllSearchParams`
 * (src/composables/search-params.ts) and by `urlEncodedParser`
 * (src/composables/body.ts). A name ending in `[]` collects every value
 * in an array; any other name keeps the last value given for it.
 */
module FormParams {
  import opened Strings
  import opened Js

  /** `isArrayParam(name)`: `name.endsWith('[]')`. */
  predicate IsArrayParam(name: string) {
    EndsWith(name, "[]")
  }

  /** `(result[key] || [])` for an array name. */
  function Items(v: JsValue): seq<JsValue> {
    if v.Arr? then v.items else []
  }

  /** One iteration of the grouping loop. */
  function GroupStep(acc: Props, e: (string, string)): Props {
    if IsArrayParam(e.0) then Put(acc, e.0, Arr(Items(Get(acc, e.0)) + [Str(e.1)]))
    else Put(acc, e.0, Str(e.1))
  }

  /** The object the grouping loop builds from `entries`, in order. */
  function Grouped(entries: seq<(string, string)>): Props
    decreases |entries|
  {
    if entries == [] then []
    else GroupStep(Grouped(entries[..|entries| - 1]), entries[|entries| - 1])
  }

  /** One more entry is one more step of the loop. */
  lemma GroupedSnoc(entries: seq<(string, string)>, e: (string, string))
    ensures Grouped(entries + [e]) == GroupStep(Grouped(entries), e)
  {
    assert (entries + [e])[..|entries|] == entries;
  }

  /** Every value given for `k`, in order. */
  function ValuesOf(entries: seq<(string, string)>, k: string): seq<JsValue>
    decreases |entries|
  {
    if entries == [] then []
    else
      var last := entries[|entries| - 1];
      ValuesOf(entries[..|entries| - 1], k) + (if last.0 == k then [Str(last.1)] else [])
  }

  /** The last value given for `k`, or undefined when there is none. */
  function LastValue(entries: seq<(string, string)>, k: string): JsValue
    decreases |entries|
  {
    if entries == [] then Undefined
    else if entries[|entries| - 1].0 == k then Str(entries[|entries| - 1].1)
    else LastValue(entries[..|entries| - 1], k)
  }

  /**
   * What the grouped object holds for a name: every value of an array
   * name, in order (nothing when it never occurs), and the last value of
   * any other name.
   */
  lemma {:induction false} GroupedGet(entries: seq<(string, string)>, k: string)
    ensures Get(Grouped(entries), k)
            == if IsArrayParam(k)
               then (if ValuesOf(entries, k) == [] then Undefined else Arr(ValuesOf(entries, k)))
               else LastValue(entries, k)
    decreases |entries|
  {
    if entries != [] {
      var init := entries[..|entries| - 1];
      var e := entries[|entries| - 1];
      GroupedGet(init, k);
      var acc := Grouped(init);
      if e.0 == k {
        if IsArrayParam(k) {
          GetPutSame(acc, k, Arr(Items(Get(acc, k)) + [Str(e.1)]));
        } else {
          GetPutSame(acc, k, Str(e.1));
        }
      } else {
        if IsArrayParam(e.0) {
          GetPutOther(acc, e.0, Arr(Items(Get(acc, e.0)) + [Str(e.1)]), k);
        } else {
          GetPutOther(acc, e.0, Str(e.1), k);
        }
      }
    }
  }

  /** The grouped object never lists a name twice. */
  lemma {:induction false} GroupedWellFormed(entries: seq<(string, string)>)
    ensures WellFormed(Grouped(entries))
    decreases |entries|
  {
    if entries != [] {
      var init := entries[..|entries| - 1];
      var e := entries[|entries| - 1];
      GroupedWellFormed(init);
      if IsArrayParam(e.0) {
        PutWellFormed(Grouped(init), e.0, Arr(Items(Get(Grouped(init), e.0)) + [Str(e.1)]));
      } else {
        PutWellFormed(Grouped(init), e.0, Str(e.1));
      }
    }
  }

  /** The grouping loop, run over the entries in order. */
  method GroupEntries(entries: seq<(string, string)>) returns (result: Props)
    ensures result == Grouped(entries)
  {
    result := [];
    var i := 0;
    while i < |entries|
      invariant 0 <= i <= |entries|
      invariant result == Grouped(entries[..i])
    {
      var (key, value) := entries[i];
      if IsArrayParam(key) {
        var a := Items(Get(result, key)) + [Str(value)];
        result := Put(result, key, Arr(a));
      } else {
        result := Put(result, key, Str(value));
      }
      assert entries[..i + 1][..i] == entries[..i];
      i := i + 1;
    }
    assert entries[..i] == entries;
  }
}
