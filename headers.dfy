/**
 * `useHeaders` and `useSetHeaders` (src/composables/headers.ts). The
 * staged response headers live in the `'setHeader'` cache, and the
 * `headers` object handed out is that cache itself.
 */
module Headers {
  import opened Wrappers
  import opened Js
  import opened Context
  import opened Errors
  import opened ReqRes

  /** `useHeaders()`: obtained through `useRequest`. */
  method UseHeaders(slot: HttpContextSlot) returns (r: Result<map<string, string>, JsError>)
    modifies if slot.current.Some? then {slot.current.value.custom} else {}
    ensures slot.current == old(slot.current)
    ensures r.Success? <==> slot.current.Some?
    ensures r.Failure? ==> r.error == Panic(OutsideRequest)
    ensures r.Success? ==>
              (r.value == slot.current.value.req.headers
               && slot.current.value.custom.entries == UseIn(old(slot.current.value.custom.entries), Body))
  {
    var c := UseRequest(slot);
    if c.Failure? {
      return Failure(c.error);
    }
    r := Success(c.value.req.headers);
  }

  /** `useSetHeaders()`: creates the `'setHeader'` cache. */
  method UseSetHeaders(slot: HttpContextSlot) returns (r: Result<HttpContext, JsError>)
    modifies if slot.current.Some? then {slot.current.value.custom} else {}
    ensures slot.current == old(slot.current)
    ensures r.Success? <==> slot.current.Some?
    ensures r.Failure? ==> r.error == Panic(OutsideRequest)
    ensures r.Success? ==>
              (r.value == slot.current.value
               && r.value.custom.entries == UseIn(old(r.value.custom.entries), Namespace.SetHeader))
  {
    r := UseCaches(slot, [Namespace.SetHeader]);
  }

  /** The `headers` object: the staged headers, in the order they were first set. */
  function StagedHeaders(ctx: HttpContext): Props
    reads ctx.custom
  {
    RecordOf(ctx.custom.Value(Namespace.SetHeader))
  }

  /** `setHeader(name, value)`: the value is staged as its `toString()`. */
  method SetHeader(ctx: HttpContext, name: string, value: JsValue)
    requires value.Str? || value.Num?
    requires ctx.custom.Value(Namespace.SetHeader).Obj?
    modifies ctx.custom
    ensures ctx.custom.entries == WithField(old(ctx.custom.entries), Namespace.SetHeader, name, Str(ToJsString(value)))
    ensures ctx.custom.Value(Namespace.SetHeader).Obj?
    ensures Get(StagedHeaders(ctx), name) == Str(ToJsString(value))
    ensures forall k :: k != name ==> Get(StagedHeaders(ctx), k) == Get(old(StagedHeaders(ctx)), k)
  {
    ctx.custom.SetField(Namespace.SetHeader, name, Str(ToJsString(value)));
    FieldInWithFieldSame(old(ctx.custom.entries), Namespace.SetHeader, name, Str(ToJsString(value)));
    forall k | k != name
      ensures Get(StagedHeaders(ctx), k) == Get(old(StagedHeaders(ctx)), k)
    {
      FieldInWithFieldOther(old(ctx.custom.entries), Namespace.SetHeader, name, Str(ToJsString(value)), Namespace.SetHeader, k);
    }
  }

  /** `removeHeader(name)`: the header is no longer staged. */
  method RemoveHeader(ctx: HttpContext, name: string)
    requires ctx.custom.Value(Namespace.SetHeader).Obj?
    modifies ctx.custom
    ensures ctx.custom.entries == WithoutField(old(ctx.custom.entries), Namespace.SetHeader, name)
    ensures ctx.custom.Value(Namespace.SetHeader).Obj?
    ensures Get(StagedHeaders(ctx), name) == Undefined
    ensures forall k :: k != name ==> Get(StagedHeaders(ctx), k) == Get(old(StagedHeaders(ctx)), k)
  {
    ctx.custom.DeleteField(Namespace.SetHeader, name);
    FieldInWithoutField(old(ctx.custom.entries), Namespace.SetHeader, name, Namespace.SetHeader, name);
    forall k | k != name
      ensures Get(StagedHeaders(ctx), k) == Get(old(StagedHeaders(ctx)), k)
    {
      FieldInWithoutField(old(ctx.custom.entries), Namespace.SetHeader, name, Namespace.SetHeader, k);
    }
  }

  /** `setContentType(value)`. */
  method SetContentType(ctx: HttpContext, value: string)
    requires ctx.custom.Value(Namespace.SetHeader).Obj?
    modifies ctx.custom
    ensures ctx.custom.entries == WithField(old(ctx.custom.entries), Namespace.SetHeader, "Content-Type", Str(value))
    ensures Get(StagedHeaders(ctx), "Content-Type") == Str(value)
  {
    SetHeader(ctx, "Content-Type", Str(value));
  }

  /** `enableCors(origin = '*')`. */
  method EnableCors(ctx: HttpContext, origin: string := "*")
    requires ctx.custom.Value(Namespace.SetHeader).Obj?
    modifies ctx.custom
    ensures ctx.custom.entries == WithField(old(ctx.custom.entries), Namespace.SetHeader, "Access-Control-Allow-Origin", Str(origin))
    ensures Get(StagedHeaders(ctx), "Access-Control-Allow-Origin") == Str(origin)
  {
    SetHeader(ctx, "Access-Control-Allow-Origin", Str(origin));
  }
}
