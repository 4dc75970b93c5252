/**
 * The ambient request context (src/composables/core.ts): one module-wide
 * slot holding the current request's context, and the per-request store
 * (`customContext`) in which every composable keeps its cache under a
 * private key `'__' + name`.
 */
module Context {
  import opened Wrappers
  import opened Js
  import opened Errors

  /** The private caches of `TInnerCacheObjects`. */
  datatype Namespace =
    | SearchParams | Cookies | Accept | Authorization | SetHeader
    | SetCookies | Status | Response | Body

  function Name(ns: Namespace): string {
    match ns
    case SearchParams => "searchParams"
    case Cookies => "cookies"
    case Accept => "accept"
    case Authorization => "authorization"
    case SetHeader => "setHeader"
    case SetCookies => "setCookies"
    case Status => "status"
    case Response => "response"
    case Body => "body"
  }

  /** The key a namespace is stored under in the per-request store. */
  function Key(ns: Namespace): string {
    "__" + Name(ns)
  }

  /** Distinct namespaces never share a key, so each cache is private to its composable. */
  lemma KeyInjective(a: Namespace, b: Namespace)
    requires a != b
    ensures Key(a) != Key(b)
  {
    assert Key(a)[2..] == Name(a) && Key(b)[2..] == Name(b);
  }

  /** The parts of Node's `IncomingMessage` the core reads; header names are lower case. */
  datatype Request = Request(httpMethod: Option<string>, url: Option<string>, headers: map<string, string>, body: string)

  /** `req.headers[name]`. */
  function Header(req: Request, name: string): (r: Option<string>)
    ensures r.Some? <==> name in req.headers
    ensures r.Some? ==> r.value == req.headers[name]
  {
    if name in req.headers then Some(req.headers[name]) else None
  }

  /** One `writeHead(status, headers).end(body)` on the raw response. */
  datatype Written = Written(status: int, headers: Props, body: string)

  /** Node's `ServerResponse`, reduced to the responses written to it. */
  class ResponseSink {
    var writes: seq<Written>

    constructor()
      ensures writes == []
    {
      writes := [];
    }

    method WriteHead(w: Written)
      modifies this
      ensures writes == old(writes) + [w]
    {
      writes := writes + [w];
    }
  }

  // ---------------------------------------------------------------------------
  // The per-request store as a value

  /** The fields of a cache object; anything that is not a plain object has none. */
  function RecordOf(v: JsValue): Props {
    if v.Obj? then v.fields else []
  }

  function ValueIn(st: Props, ns: Namespace): JsValue {
    Get(st, Key(ns))
  }

  function FieldIn(st: Props, ns: Namespace, f: string): JsValue {
    Get(RecordOf(ValueIn(st, ns)), f)
  }

  /** `cc['__' + name] || {}`. */
  function UsedValue(v: JsValue): (u: JsValue)
    ensures Truthy(u)
    ensures Truthy(v) ==> u == v
    ensures !Truthy(v) ==> u == Obj([])
  {
    if Truthy(v) then v else Obj([])
  }

  /** The store after `useCacheObject(name)`. */
  function UseIn(st: Props, ns: Namespace): Props {
    Put(st, Key(ns), UsedValue(ValueIn(st, ns)))
  }

  /** The store after `cache[f] = v` on the plain-object cache of `ns`. */
  function WithField(st: Props, ns: Namespace, f: string, v: JsValue): Props {
    Put(st, Key(ns), Obj(Put(RecordOf(ValueIn(st, ns)), f, v)))
  }

  /** The store after `delete cache[f]` on the plain-object cache of `ns`. */
  function WithoutField(st: Props, ns: Namespace, f: string): Props {
    Put(st, Key(ns), Obj(Delete(RecordOf(ValueIn(st, ns)), f)))
  }

  /**
   * What `clearCacheObject` leaves in place of `v`: an object is emptied in
   * place, an array spliced to nothing, a string replaced by the empty
   * string, and anything else by a fresh object. `null` is an 'object'
   * with no keys, so it stays. Any other object is kept as it is.
   */
  function ClearedValue(v: JsValue): JsValue {
    match v
    case Obj(_) => Obj([])
    case Arr(_) => Arr([])
    case Null => Null
    case Opaque(_) => v
    case Str(_) => Str("")
    case _ => Obj([])
  }

  function ClearIn(st: Props, ns: Namespace): Props {
    Put(st, Key(ns), ClearedValue(ValueIn(st, ns)))
  }

  /** A second write to the same field of a cache replaces the first. */
  lemma WithFieldTwice(st: Props, ns: Namespace, f: string, a: JsValue, b: JsValue)
    ensures WithField(WithField(st, ns, f, a), ns, f, b) == WithField(st, ns, f, b)
  {
    var r := RecordOf(ValueIn(st, ns));
    GetPutSame(st, Key(ns), Obj(Put(r, f, a)));
    PutPut(r, f, a, b);
    PutPut(st, Key(ns), Obj(Put(r, f, a)), Obj(Put(r, f, b)));
  }

  /** Obtaining a cache that is already a plain object changes nothing. */
  lemma UseInObj(st: Props, ns: Namespace)
    requires ValueIn(st, ns).Obj?
    ensures UseIn(st, ns) == st
  {
    PutGetSame(st, Key(ns));
  }

  /** Reading a field right after writing it gives the value written. */
  lemma FieldInWithFieldSame(st: Props, ns: Namespace, f: string, v: JsValue)
    ensures FieldIn(WithField(st, ns, f, v), ns, f) == v
  {
    GetPutSame(st, Key(ns), Obj(Put(RecordOf(ValueIn(st, ns)), f, v)));
    GetPutSame(RecordOf(ValueIn(st, ns)), f, v);
  }

  /** Writing one field of one cache leaves every other field of every cache as it was. */
  lemma FieldInWithFieldOther(st: Props, ns: Namespace, f: string, v: JsValue, ns': Namespace, f': string)
    requires ns' != ns || f' != f
    ensures FieldIn(WithField(st, ns, f, v), ns', f') == FieldIn(st, ns', f')
  {
    var nv := Obj(Put(RecordOf(ValueIn(st, ns)), f, v));
    if ns' == ns {
      GetPutSame(st, Key(ns), nv);
      GetPutOther(RecordOf(ValueIn(st, ns)), f, v, f');
    } else {
      KeyInjective(ns, ns');
      GetPutOther(st, Key(ns), nv, Key(ns'));
    }
  }

  /** Writing a field of one cache leaves every other cache as it was. */
  lemma ValueInWithFieldOther(st: Props, ns: Namespace, f: string, v: JsValue, ns': Namespace)
    requires ns' != ns
    ensures ValueIn(WithField(st, ns, f, v), ns') == ValueIn(st, ns')
  {
    KeyInjective(ns, ns');
    GetPutOther(st, Key(ns), Obj(Put(RecordOf(ValueIn(st, ns)), f, v)), Key(ns'));
  }

  /** Deleting a field leaves it undefined and every other field of every cache as it was. */
  lemma FieldInWithoutField(st: Props, ns: Namespace, f: string, ns': Namespace, f': string)
    ensures FieldIn(WithoutField(st, ns, f), ns, f) == Undefined
    ensures ns' != ns || f' != f ==> FieldIn(WithoutField(st, ns, f), ns', f') == FieldIn(st, ns', f')
  {
    var nv := Obj(Delete(RecordOf(ValueIn(st, ns)), f));
    GetPutSame(st, Key(ns), nv);
    GetDeleteSame(RecordOf(ValueIn(st, ns)), f);
    if ns' == ns {
      if f' != f {
        GetDeleteOther(RecordOf(ValueIn(st, ns)), f, f');
      }
    } else {
      KeyInjective(ns, ns');
      GetPutOther(st, Key(ns), nv, Key(ns'));
    }
  }

  /** Creating a cache never changes what any cache field reads as. */
  lemma FieldInUseIn(st: Props, ns: Namespace, ns': Namespace, f: string)
    ensures FieldIn(UseIn(st, ns), ns', f) == FieldIn(st, ns', f)
  {
    GetPutSame(st, Key(ns), UsedValue(ValueIn(st, ns)));
    if ns' != ns {
      KeyInjective(ns, ns');
      GetPutOther(st, Key(ns), UsedValue(ValueIn(st, ns)), Key(ns'));
    }
  }

  /** After clearing, a cache that was a plain object, or missing, reads every field as undefined. */
  lemma FieldInClearIn(st: Props, ns: Namespace, f: string)
    requires !ValueIn(st, ns).Arr? && !ValueIn(st, ns).Opaque?
    ensures FieldIn(ClearIn(st, ns), ns, f) == Undefined
  {
    var c := ClearedValue(ValueIn(st, ns));
    assert c == Obj([]) || c == Str("") || c == Null;
    GetPutSame(st, Key(ns), c);
    assert ValueIn(ClearIn(st, ns), ns) == c;
  }

  /** Clearing one cache leaves the other caches as they were. */
  lemma ValueInClearInOther(st: Props, ns: Namespace, ns': Namespace)
    requires ns' != ns
    ensures ValueIn(ClearIn(st, ns), ns') == ValueIn(st, ns')
  {
    KeyInjective(ns, ns');
    GetPutOther(st, Key(ns), ClearedValue(ValueIn(st, ns)), Key(ns'));
  }

  /** A cache created once is reused: a second `useCacheObject` changes nothing. */
  lemma UseInIdempotent(st: Props, ns: Namespace)
    ensures UseIn(UseIn(st, ns), ns) == UseIn(st, ns)
  {
    GetPutSame(st, Key(ns), UsedValue(ValueIn(st, ns)));
    PutPut(st, Key(ns), UsedValue(ValueIn(st, ns)), UsedValue(ValueIn(st, ns)));
  }

  /** After clearing a cache, the next `useCacheObject` hands out an empty cache. */
  lemma UseAfterClear(st: Props, ns: Namespace, f: string)
    requires ValueIn(st, ns).Obj? || ValueIn(st, ns).Str? || !Truthy(ValueIn(st, ns))
    ensures ValueIn(UseIn(ClearIn(st, ns), ns), ns) == Obj([])
  {
    var c := ClearIn(st, ns);
    GetPutSame(st, Key(ns), ClearedValue(ValueIn(st, ns)));
    GetPutSame(c, Key(ns), UsedValue(ValueIn(c, ns)));
  }

  /** A field set on a cache that lacked it and deleted again leaves the cache's fields as they were. */
  lemma WithoutWithField(st: Props, ns: Namespace, f: string, v: JsValue)
    requires !Has(RecordOf(ValueIn(st, ns)), f)
    ensures RecordOf(ValueIn(WithoutField(WithField(st, ns, f, v), ns, f), ns)) == RecordOf(ValueIn(st, ns))
  {
    var fs := RecordOf(ValueIn(st, ns));
    GetPutSame(st, Key(ns), Obj(Put(fs, f, v)));
    GetPutSame(WithField(st, ns, f, v), Key(ns), Obj(Delete(Put(fs, f, v), f)));
    DeletePut(fs, f, v);
    DeleteAbsent(fs, f);
  }

  /** Whatever a cache held, after clearing it has no fields. */
  lemma RecordOfClearIn(st: Props, ns: Namespace)
    ensures RecordOf(ValueIn(ClearIn(st, ns), ns)) == []
  {
    GetPutSame(st, Key(ns), ClearedValue(ValueIn(st, ns)));
  }

  // ---------------------------------------------------------------------------
  // Objects deleted key by key

  /** The pairs of `fs` whose key is not in `ks`. */
  function Without(fs: Props, ks: seq<string>): (r: Props)
  {
    if fs == [] then []
    else if fs[0].0 in ks then Without(fs[1..], ks)
    else [fs[0]] + Without(fs[1..], ks)
  }

  lemma {:induction false} DeleteWithout(fs: Props, ks: seq<string>, k: string)
    ensures Delete(Without(fs, ks), k) == Without(fs, ks + [k])
  {
    if fs != [] {
      DeleteWithout(fs[1..], ks, k);
    }
  }

  lemma {:induction false} WithoutAllKeys(fs: Props, ks: seq<string>)
    requires forall i :: 0 <= i < |fs| ==> fs[i].0 in ks
    ensures Without(fs, ks) == []
  {
    if fs != [] {
      WithoutAllKeys(fs[1..], ks);
    }
  }

  lemma {:induction false} WithoutNone(fs: Props)
    ensures Without(fs, []) == fs
  {
    if fs != [] {
      WithoutNone(fs[1..]);
    }
  }

  /** `for (const key in o) delete o[key]`: the object left after deleting its keys one by one is empty. */
  method DeleteEachKey(fs: Props) returns (rest: Props)
    ensures rest == []
  {
    var ks := Keys(fs);
    rest := fs;
    var i := 0;
    WithoutNone(fs);
    while i < |ks|
      invariant 0 <= i <= |ks|
      invariant rest == Without(fs, ks[..i])
    {
      DeleteWithout(fs, ks[..i], ks[i]);
      assert ks[..i + 1] == ks[..i] + [ks[i]];
      rest := Delete(rest, ks[i]);
      i := i + 1;
    }
    assert ks[..i] == ks;
    WithoutAllKeys(fs, ks);
  }

  /** The per-request store (`customContext`): a plain object shared by every composable. */
  class CustomContext {
    var entries: Props

    constructor(entries: Props)
      ensures this.entries == entries
    {
      this.entries := entries;
    }

    function Value(ns: Namespace): JsValue
      reads this
    {
      ValueIn(entries, ns)
    }

    function Field(ns: Namespace, f: string): JsValue
      reads this
    {
      FieldIn(entries, ns, f)
    }

    /**
     * The framework only ever puts plain objects in its caches; user code
     * writing a private `'__'` key with something else is outside the model.
     */
    predicate Sound(ns: Namespace)
      reads this
    {
      !Truthy(Value(ns)) || Value(ns).Obj?
    }

    /** `useCacheObject(name)` on this store. */
    method Use(ns: Namespace)
      modifies this
      ensures entries == UseIn(old(entries), ns)
      ensures old(Sound(ns)) ==> Value(ns).Obj?
    {
      entries := Put(entries, Key(ns), UsedValue(Value(ns)));
      GetPutSame(old(entries), Key(ns), UsedValue(old(Value(ns))));
    }

    /** `cache[f] = v` on a cache handed out by `Use`. */
    method SetField(ns: Namespace, f: string, v: JsValue)
      requires Value(ns).Obj?
      modifies this
      ensures entries == WithField(old(entries), ns, f, v)
      ensures Value(ns).Obj?
    {
      entries := Put(entries, Key(ns), Obj(Put(Value(ns).fields, f, v)));
      GetPutSame(old(entries), Key(ns), Obj(Put(old(Value(ns)).fields, f, v)));
    }

    /** `delete cache[f]` on a cache handed out by `Use`. */
    method DeleteField(ns: Namespace, f: string)
      requires Value(ns).Obj?
      modifies this
      ensures entries == WithoutField(old(entries), ns, f)
      ensures Value(ns).Obj?
    {
      entries := Put(entries, Key(ns), Obj(Delete(Value(ns).fields, f)));
      GetPutSame(old(entries), Key(ns), Obj(Delete(old(Value(ns)).fields, f)));
    }

    /** `clearCacheObject(name)` on this store; a plain object loses its keys one by one. */
    method Clear(ns: Namespace)
      modifies this
      ensures entries == ClearIn(old(entries), ns)
    {
      var v := Value(ns);
      if v.Null? || v.Opaque? {
        PutGetSame(entries, Key(ns));
        return;
      }
      var cleared: JsValue;
      if v.Obj? {
        var rest := DeleteEachKey(v.fields);
        cleared := Obj(rest);
      } else if v.Arr? {
        cleared := Arr([]);
      } else if v.Str? {
        cleared := Str("");
      } else {
        cleared := Obj([]);
      }
      entries := Put(entries, Key(ns), cleared);
    }
  }

  /** What `setCurrentHttpContext` records. */
  datatype HttpContext = HttpContext(req: Request, res: ResponseSink, params: Props, custom: CustomContext)

  const OutsideRequest := "Use HTTP hooks only synchronously within the runtime of the request."

  /** The module-level `currentHttpContext` variable. */
  class HttpContextSlot {
    var current: Option<HttpContext>

    constructor()
      ensures current == None
    {
      current := None;
    }

    method Set(c: HttpContext)
      modifies this
      ensures current == Some(c)
    {
      current := Some(c);
    }

    method Clear()
      modifies this
      ensures current == None
    {
      current := None;
    }

    /** `useCurrentHttpContext().getCtx()`: the context, or a panic outside a request. */
    function UseCurrentHttpContext(): (r: Result<HttpContext, JsError>)
      reads this
      ensures r.Success? <==> current.Some?
      ensures r.Success? ==> r.value == current.value
      ensures r.Failure? ==> r.error == Panic(OutsideRequest)
    {
      match current
      case Some(c) => Success(c)
      case None => Failure(Panic(OutsideRequest))
    }

    /** `restoreCtx()` of a context captured earlier: makes it current again. */
    method RestoreCtx(c: HttpContext)
      modifies this
      ensures current == Some(c)
    {
      current := Some(c);
    }

    /** `useCacheObject(name)`: the cache of the current request, created when missing. */
    method UseCacheObject(ns: Namespace) returns (r: Result<CustomContext, JsError>)
      modifies if current.Some? then {current.value.custom} else {}
      ensures current == old(current)
      ensures r.Success? <==> current.Some?
      ensures r.Failure? ==> r.error == Panic(OutsideRequest)
      ensures r.Success? ==>
                (r.value == current.value.custom && r.value.entries == UseIn(old(r.value.entries), ns))
    {
      match current {
        case None =>
          r := Failure(Panic(OutsideRequest));
        case Some(c) =>
          c.custom.Use(ns);
          r := Success(c.custom);
      }
    }

    /** `clearCacheObject(name)` on the current request's store. */
    method ClearCacheObject(ns: Namespace) returns (r: Result<CustomContext, JsError>)
      modifies if current.Some? then {current.value.custom} else {}
      ensures current == old(current)
      ensures r.Success? <==> current.Some?
      ensures r.Failure? ==> r.error == Panic(OutsideRequest)
      ensures r.Success? ==>
                (r.value == current.value.custom && r.value.entries == ClearIn(old(r.value.entries), ns))
    {
      match current {
        case None =>
          r := Failure(Panic(OutsideRequest));
        case Some(c) =>
          c.custom.Clear(ns);
          r := Success(c.custom);
      }
    }
  }
}
