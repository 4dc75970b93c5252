/**
 * `useAccept` (src/composables/header-accept.ts): content negotiation on
 * the request's `Accept` header by substring search, memoised per MIME
 * type in the `'accept'` cache.
 */
module Accept {
  import opened Wrappers
  import opened Strings
  import opened Js
  import opened Context
  import opened Errors
  import opened ReqRes

  const ApplicationJson := "application/json"
  const ApplicationXml := "application/xml"
  const TextPlain := "text/plain"
  const TextHtml := "text/html"

  /**
   * Whether an `Accept` header admits `mime`: the header is present and
   * non-empty, and it is `*` `/` `*` exactly or mentions `mime` anywhere.
   */
  function AcceptMatch(accept: Option<string>, mime: string): (b: bool)
    ensures b <==> accept.Some? && accept.value != ""
                   && (accept.value == "*/*" || Contains(accept.value, mime))
  {
    match accept
    case None => false
    case Some(a) => a != "" && (a == "*/*" || IndexOf(a, mime) >= 0)
  }

  /** A header that lists a type admits it, whatever surrounds it. */
  lemma AcceptListed(pre: string, mime: string, post: string)
    requires mime != []
    ensures AcceptMatch(Some(pre + mime + post), mime)
  {
    var a := pre + mime + post;
    assert OccursAt(a, mime, |pre|) by {
      assert a[|pre|..|pre| + |mime|] == mime;
    }
    ContainsIff(a, mime);
  }

  /** A header that does not mention a type, and is not the wildcard, refuses it. */
  lemma AcceptAbsent(a: string, mime: string)
    requires a != "*/*"
    requires forall i :: 0 <= i <= |a| - |mime| ==> !OccursAt(a, mime, i)
    ensures !AcceptMatch(Some(a), mime)
  {
    ContainsIff(a, mime);
  }

  /** Every boolean in the `'accept'` cache is what the request's header gives for that type. */
  ghost predicate AcceptAgrees(st: Props, req: Request) {
    forall m :: FieldIn(st, Namespace.Accept, m).Bool? ==>
      FieldIn(st, Namespace.Accept, m).b == AcceptMatch(Header(req, "accept"), m)
  }

  /** A request's `'accept'` cache, when first handed out, holds no boolean and so agrees with any header. */
  lemma AcceptFreshAgrees(st: Props, req: Request)
    requires !Truthy(ValueIn(st, Namespace.Accept))
    ensures AcceptAgrees(UseIn(st, Namespace.Accept), req)
  {
    GetPutSame(st, Key(Namespace.Accept), Obj([]));
  }

  /** Caching the header's answer for one type keeps the cache in agreement with the header. */
  lemma AcceptAgreesWrite(st: Props, req: Request, mime: string)
    requires AcceptAgrees(st, req)
    ensures AcceptAgrees(WithField(st, Namespace.Accept, mime, Bool(AcceptMatch(Header(req, "accept"), mime))), req)
  {
    var v := Bool(AcceptMatch(Header(req, "accept"), mime));
    forall m | FieldIn(WithField(st, Namespace.Accept, mime, v), Namespace.Accept, m).Bool?
      ensures FieldIn(WithField(st, Namespace.Accept, mime, v), Namespace.Accept, m).b
              == AcceptMatch(Header(req, "accept"), m)
    {
      if m == mime {
        FieldInWithFieldSame(st, Namespace.Accept, mime, v);
      } else {
        FieldInWithFieldOther(st, Namespace.Accept, mime, v, Namespace.Accept, m);
      }
    }
  }

  /** `useAccept()`: obtained through `useHeaders`, then the `'accept'` cache. */
  method UseAccept(slot: HttpContextSlot) returns (r: Result<HttpContext, JsError>)
    modifies if slot.current.Some? then {slot.current.value.custom} else {}
    ensures slot.current == old(slot.current)
    ensures r.Success? <==> slot.current.Some?
    ensures r.Failure? ==> r.error == Panic(OutsideRequest)
    ensures r.Success? ==>
              (r.value == slot.current.value
               && r.value.custom.entries == UseAll(old(r.value.custom.entries), [Body, Namespace.Accept]))
  {
    r := UseCaches(slot, [Body, Namespace.Accept]);
  }

  /**
   * `accepts(mime)`: a boolean already cached for `mime` is returned as it
   * is; otherwise the answer is computed, cached and returned.
   */
  method Accepts(ctx: HttpContext, mime: string) returns (b: bool)
    requires ctx.custom.Value(Namespace.Accept).Obj?
    modifies ctx.custom
    ensures old(ctx.custom.Field(Namespace.Accept, mime)).Bool? ==>
              b == old(ctx.custom.Field(Namespace.Accept, mime)).b
              && ctx.custom.entries == old(ctx.custom.entries)
    ensures !old(ctx.custom.Field(Namespace.Accept, mime)).Bool? ==>
              b == AcceptMatch(Header(ctx.req, "accept"), mime)
              && ctx.custom.entries
                 == WithField(old(ctx.custom.entries), Namespace.Accept, mime, Bool(b))
    ensures ctx.custom.Value(Namespace.Accept).Obj?
    ensures ctx.custom.Field(Namespace.Accept, mime) == Bool(b)
    ensures old(AcceptAgrees(ctx.custom.entries, ctx.req)) ==>
              AcceptAgrees(ctx.custom.entries, ctx.req) && b == AcceptMatch(Header(ctx.req, "accept"), mime)
  {
    var cached := ctx.custom.Field(Namespace.Accept, mime);
    if cached.Bool? {
      b := cached.b;
    } else {
      b := AcceptMatch(Header(ctx.req, "accept"), mime);
      ctx.custom.SetField(Namespace.Accept, mime, Bool(b));
      FieldInWithFieldSame(old(ctx.custom.entries), Namespace.Accept, mime, Bool(b));
      if AcceptAgrees(old(ctx.custom.entries), ctx.req) {
        AcceptAgreesWrite(old(ctx.custom.entries), ctx.req, mime);
      }
    }
  }

  /** `acceptsJson()`: `accepts` of the JSON type. */
  method AcceptsJson(ctx: HttpContext) returns (b: bool)
    requires ctx.custom.Value(Namespace.Accept).Obj?
    modifies ctx.custom
    ensures old(ctx.custom.Field(Namespace.Accept, ApplicationJson)).Bool? ==>
              b == old(ctx.custom.Field(Namespace.Accept, ApplicationJson)).b
              && ctx.custom.entries == old(ctx.custom.entries)
    ensures !old(ctx.custom.Field(Namespace.Accept, ApplicationJson)).Bool? ==>
              b == AcceptMatch(Header(ctx.req, "accept"), ApplicationJson)
              && ctx.custom.entries
                 == WithField(old(ctx.custom.entries), Namespace.Accept, ApplicationJson, Bool(b))
    ensures ctx.custom.Value(Namespace.Accept).Obj?
    ensures ctx.custom.Field(Namespace.Accept, ApplicationJson) == Bool(b)
    ensures old(AcceptAgrees(ctx.custom.entries, ctx.req)) ==>
              AcceptAgrees(ctx.custom.entries, ctx.req) && b == AcceptMatch(Header(ctx.req, "accept"), ApplicationJson)
  {
    b := Accepts(ctx, ApplicationJson);
  }

  /** `acceptsXml()`: `accepts` of the XML type. */
  method AcceptsXml(ctx: HttpContext) returns (b: bool)
    requires ctx.custom.Value(Namespace.Accept).Obj?
    modifies ctx.custom
    ensures old(ctx.custom.Field(Namespace.Accept, ApplicationXml)).Bool? ==>
              b == old(ctx.custom.Field(Namespace.Accept, ApplicationXml)).b
              && ctx.custom.entries == old(ctx.custom.entries)
    ensures !old(ctx.custom.Field(Namespace.Accept, ApplicationXml)).Bool? ==>
              b == AcceptMatch(Header(ctx.req, "accept"), ApplicationXml)
              && ctx.custom.entries
                 == WithField(old(ctx.custom.entries), Namespace.Accept, ApplicationXml, Bool(b))
    ensures ctx.custom.Value(Namespace.Accept).Obj?
    ensures ctx.custom.Field(Namespace.Accept, ApplicationXml) == Bool(b)
    ensures old(AcceptAgrees(ctx.custom.entries, ctx.req)) ==>
              AcceptAgrees(ctx.custom.entries, ctx.req) && b == AcceptMatch(Header(ctx.req, "accept"), ApplicationXml)
  {
    b := Accepts(ctx, ApplicationXml);
  }

  /** `acceptsText()`: `accepts` of plain text. */
  method AcceptsText(ctx: HttpContext) returns (b: bool)
    requires ctx.custom.Value(Namespace.Accept).Obj?
    modifies ctx.custom
    ensures old(ctx.custom.Field(Namespace.Accept, TextPlain)).Bool? ==>
              b == old(ctx.custom.Field(Namespace.Accept, TextPlain)).b
              && ctx.custom.entries == old(ctx.custom.entries)
    ensures !old(ctx.custom.Field(Namespace.Accept, TextPlain)).Bool? ==>
              b == AcceptMatch(Header(ctx.req, "accept"), TextPlain)
              && ctx.custom.entries
                 == WithField(old(ctx.custom.entries), Namespace.Accept, TextPlain, Bool(b))
    ensures ctx.custom.Value(Namespace.Accept).Obj?
    ensures ctx.custom.Field(Namespace.Accept, TextPlain) == Bool(b)
    ensures old(AcceptAgrees(ctx.custom.entries, ctx.req)) ==>
              AcceptAgrees(ctx.custom.entries, ctx.req) && b == AcceptMatch(Header(ctx.req, "accept"), TextPlain)
  {
    b := Accepts(ctx, TextPlain);
  }

  /** `acceptsHtml()`: `accepts` of HTML. */
  method AcceptsHtml(ctx: HttpContext) returns (b: bool)
    requires ctx.custom.Value(Namespace.Accept).Obj?
    modifies ctx.custom
    ensures old(ctx.custom.Field(Namespace.Accept, TextHtml)).Bool? ==>
              b == old(ctx.custom.Field(Namespace.Accept, TextHtml)).b
              && ctx.custom.entries == old(ctx.custom.entries)
    ensures !old(ctx.custom.Field(Namespace.Accept, TextHtml)).Bool? ==>
              b == AcceptMatch(Header(ctx.req, "accept"), TextHtml)
              && ctx.custom.entries
                 == WithField(old(ctx.custom.entries), Namespace.Accept, TextHtml, Bool(b))
    ensures ctx.custom.Value(Namespace.Accept).Obj?
    ensures ctx.custom.Field(Namespace.Accept, TextHtml) == Bool(b)
    ensures old(AcceptAgrees(ctx.custom.entries, ctx.req)) ==>
              AcceptAgrees(ctx.custom.entries, ctx.req) && b == AcceptMatch(Header(ctx.req, "accept"), TextHtml)
  {
    b := Accepts(ctx, TextHtml);
  }
}
