/**
 * `useRequest`, `useResponse` and `useRouteParams`
 * (src/composables/req-res.ts). Each operation works on the context the
 * composable was obtained in; obtaining it outside a request fails as
 * `HttpContextSlot.UseCurrentHttpContext` does.
 */
module ReqRes {
  import opened Wrappers
  import opened Js
  import opened Context
  import opened Errors

  /** The store after the caches `nss` are obtained in order. */
  function UseAll(st: Props, nss: seq<Namespace>): Props
    decreases |nss|
  {
    if nss == [] then st else UseAll(UseIn(st, nss[0]), nss[1..])
  }

  /**
   * Obtaining a composable: each `useCacheObject` it calls, in order, on the
   * current request's store; outside a request the first of them panics.
   */
  method UseCaches(slot: HttpContextSlot, nss: seq<Namespace>) returns (r: Result<HttpContext, JsError>)
    modifies if slot.current.Some? then {slot.current.value.custom} else {}
    ensures slot.current == old(slot.current)
    ensures r.Success? <==> slot.current.Some?
    ensures r.Failure? ==> r.error == Panic(OutsideRequest)
    ensures r.Success? ==>
              (r.value == slot.current.value
               && r.value.custom.entries == UseAll(old(r.value.custom.entries), nss))
  {
    r := slot.UseCurrentHttpContext();
    if r.Success? {
      UseEach(r.value.custom, nss);
    }
  }

  /** The `useCacheObject` calls of one composable, on one store. */
  method UseEach(custom: CustomContext, nss: seq<Namespace>)
    modifies custom
    ensures custom.entries == UseAll(old(custom.entries), nss)
  {
    ghost var st0 := custom.entries;
    var i := 0;
    while i < |nss|
      invariant 0 <= i <= |nss|
      invariant custom.entries == UseAll(st0, nss[..i])
    {
      UseAllNext(st0, nss, i);
      custom.Use(nss[i]);
      i := i + 1;
    }
    assert nss[..i] == nss;
  }

  /** One more `useCacheObject` call extends the prefix of calls made. */
  lemma UseAllNext(st: Props, nss: seq<Namespace>, i: nat)
    requires i < |nss|
    ensures UseAll(st, nss[..i + 1]) == UseIn(UseAll(st, nss[..i]), nss[i])
  {
    assert nss[..i + 1] == nss[..i] + [nss[i]];
    UseAllSnoc(st, nss[..i], nss[i]);
  }

  lemma {:induction false} UseAllSnoc(st: Props, nss: seq<Namespace>, ns: Namespace)
    ensures UseAll(st, nss + [ns]) == UseIn(UseAll(st, nss), ns)
    decreases |nss|
  {
    if nss != [] {
      assert (nss + [ns])[1..] == nss[1..] + [ns];
      UseAllSnoc(UseIn(st, nss[0]), nss[1..], ns);
    }
  }

  /** Every private cache is missing or a plain object, as the framework itself leaves them. */
  predicate AllSound(st: Props) {
    forall ns: Namespace :: !Truthy(ValueIn(st, ns)) || ValueIn(st, ns).Obj?
  }

  /** Obtaining one cache makes it a plain object and leaves the other caches as they were. */
  lemma UseInSound(st: Props, ns: Namespace)
    requires AllSound(st)
    ensures AllSound(UseIn(st, ns))
    ensures ValueIn(UseIn(st, ns), ns).Obj?
    ensures forall ns' :: ns' != ns ==> ValueIn(UseIn(st, ns), ns') == ValueIn(st, ns')
  {
    GetPutSame(st, Key(ns), UsedValue(ValueIn(st, ns)));
    forall ns' | ns' != ns
      ensures ValueIn(UseIn(st, ns), ns') == ValueIn(st, ns')
    {
      KeyInjective(ns, ns');
      GetPutOther(st, Key(ns), UsedValue(ValueIn(st, ns)), Key(ns'));
    }
  }

  /**
   * Obtaining caches keeps the store sound, leaves every cache obtained (or
   * already present) a plain object, and changes no field of any cache.
   */
  lemma {:induction false} UseAllSound(st: Props, nss: seq<Namespace>)
    requires AllSound(st)
    ensures AllSound(UseAll(st, nss))
    ensures forall i :: 0 <= i < |nss| ==> ValueIn(UseAll(st, nss), nss[i]).Obj?
    ensures forall ns :: ValueIn(st, ns).Obj? ==> ValueIn(UseAll(st, nss), ns).Obj?
    ensures forall ns, f :: FieldIn(UseAll(st, nss), ns, f) == FieldIn(st, ns, f)
    decreases |nss|
  {
    if nss != [] {
      var st1 := UseIn(st, nss[0]);
      assert UseAll(st, nss) == UseAll(st1, nss[1..]);
      UseInSound(st, nss[0]);
      UseAllSound(st1, nss[1..]);
      forall i | 0 <= i < |nss|
        ensures ValueIn(UseAll(st, nss), nss[i]).Obj?
      {
        if i > 0 {
          assert nss[1..][i - 1] == nss[i];
        }
      }
      forall ns, f
        ensures FieldIn(UseAll(st, nss), ns, f) == FieldIn(st, ns, f)
      {
        FieldInUseIn(st, nss[0], ns, f);
      }
    }
  }

  /** Writing a field of a plain-object cache keeps the store sound and leaves the other caches as they were. */
  lemma WithFieldSound(st: Props, ns: Namespace, f: string, v: JsValue)
    requires AllSound(st)
    ensures AllSound(WithField(st, ns, f, v))
    ensures ValueIn(WithField(st, ns, f, v), ns).Obj?
    ensures forall ns' :: ns' != ns ==> ValueIn(WithField(st, ns, f, v), ns') == ValueIn(st, ns')
  {
    var nv := Obj(Put(RecordOf(ValueIn(st, ns)), f, v));
    GetPutSame(st, Key(ns), nv);
    forall ns' | ns' != ns
      ensures ValueIn(WithField(st, ns, f, v), ns') == ValueIn(st, ns')
    {
      KeyInjective(ns, ns');
      GetPutOther(st, Key(ns), nv, Key(ns'));
    }
  }

  /** `useRequest()`: creates the `'body'` cache. */
  method UseRequest(slot: HttpContextSlot) returns (r: Result<HttpContext, JsError>)
    modifies if slot.current.Some? then {slot.current.value.custom} else {}
    ensures slot.current == old(slot.current)
    ensures r.Success? <==> slot.current.Some?
    ensures r.Failure? ==> r.error == Panic(OutsideRequest)
    ensures r.Success? ==>
              (r.value == slot.current.value
               && r.value.custom.entries == UseIn(old(r.value.custom.entries), Body))
  {
    r := UseCaches(slot, [Body]);
  }

  /** `useResponse()`: creates the `'response'` and `'status'` caches. */
  method UseResponse(slot: HttpContextSlot) returns (r: Result<HttpContext, JsError>)
    modifies if slot.current.Some? then {slot.current.value.custom} else {}
    ensures slot.current == old(slot.current)
    ensures r.Success? <==> slot.current.Some?
    ensures r.Failure? ==> r.error == Panic(OutsideRequest)
    ensures r.Success? ==>
              (r.value == slot.current.value
               && r.value.custom.entries == UseIn(UseIn(old(r.value.custom.entries), Response), Status))
  {
    r := UseCaches(slot, [Response, Status]);
  }

  /** The parts of the request `useRequest` exposes. */
  function Url(ctx: HttpContext): Option<string> {
    ctx.req.url
  }

  function Method(ctx: HttpContext): Option<string> {
    ctx.req.httpMethod
  }

  function Headers(ctx: HttpContext): map<string, string> {
    ctx.req.headers
  }

  /**
   * `rawBody()`: the body is read once and kept in the `value` field of the
   * `'body'` cache, which the body parser shares.
   */
  method RawBody(ctx: HttpContext) returns (body: JsValue)
    requires ctx.custom.Sound(Body)
    modifies ctx.custom
    ensures old(ctx.custom.Field(Body, "value")).Undefined? ==>
              body == Str(ctx.req.body)
              && ctx.custom.entries == WithField(UseIn(old(ctx.custom.entries), Body), Body, "value", body)
    ensures !old(ctx.custom.Field(Body, "value")).Undefined? ==>
              body == old(ctx.custom.Field(Body, "value"))
              && ctx.custom.entries == UseIn(old(ctx.custom.entries), Body)
  {
    FieldInUseIn(ctx.custom.entries, Body, Body, "value");
    ctx.custom.Use(Body);
    if ctx.custom.Field(Body, "value").Undefined? {
      ctx.custom.SetField(Body, "value", Str(ctx.req.body));
      FieldInWithFieldSame(old(UseIn(ctx.custom.entries, Body)), Body, "value", Str(ctx.req.body));
    }
    body := ctx.custom.Field(Body, "value");
  }

  /** `status(code?)`: a non-zero code is stored; the stored code is returned. */
  method StatusCode(ctx: HttpContext, code: int := 0) returns (r: JsValue)
    requires ctx.custom.Sound(Status)
    modifies ctx.custom
    ensures code != 0 ==>
              r == Num(code)
              && ctx.custom.entries == WithField(UseIn(old(ctx.custom.entries), Status), Status, "code", Num(code))
    ensures code == 0 ==>
              r == old(ctx.custom.Field(Status, "code"))
              && ctx.custom.entries == UseIn(old(ctx.custom.entries), Status)
  {
    FieldInUseIn(ctx.custom.entries, Status, Status, "code");
    ctx.custom.Use(Status);
    if code != 0 {
      ghost var before := ctx.custom.entries;
      ctx.custom.SetField(Status, "code", Num(code));
      FieldInWithFieldSame(before, Status, "code", Num(code));
    }
    r := ctx.custom.Field(Status, "code");
  }

  /**
   * `rawResponse(options?)`: hands out the raw response and, unless
   * `passthrough` is set, marks the request as responded.
   */
  method RawResponse(ctx: HttpContext, passthrough: Option<bool>) returns (res: ResponseSink)
    requires ctx.custom.Sound(Response)
    modifies ctx.custom
    ensures res == ctx.res
    ensures passthrough != Some(true) ==>
              ctx.custom.entries == WithField(UseIn(old(ctx.custom.entries), Response), Response, "responded", Bool(true))
              && HasResponded(ctx)
    ensures passthrough == Some(true) ==>
              ctx.custom.entries == UseIn(old(ctx.custom.entries), Response)
              && (HasResponded(ctx) <==> old(HasResponded(ctx)))
  {
    FieldInUseIn(ctx.custom.entries, Response, Response, "responded");
    ctx.custom.Use(Response);
    if passthrough != Some(true) {
      ghost var before := ctx.custom.entries;
      ctx.custom.SetField(Response, "responded", Bool(true));
      FieldInWithFieldSame(before, Response, "responded", Bool(true));
    }
    res := ctx.res;
  }

  /** `hasResponded()`, read as a condition. */
  predicate HasResponded(ctx: HttpContext)
    reads ctx.custom
  {
    Truthy(ctx.custom.Field(Response, "responded"))
  }

  /** `routeParams`: the params object the context was installed with. */
  function RouteParams(ctx: HttpContext): Props {
    ctx.params
  }

  /** `getRouteParam(name)`: one route parameter, undefined when absent. */
  function GetRouteParam(ctx: HttpContext, name: string): (v: JsValue)
    ensures !Has(ctx.params, name) ==> v == Undefined
    ensures forall i :: (0 <= i < |ctx.params| && ctx.params[i].0 == name
                         && (forall j :: 0 <= j < i ==> ctx.params[j].0 != name)) ==> v == ctx.params[i].1
  {
    GetFirstEach(ctx.params, name);
    Get(RouteParams(ctx), name)
  }
}
