/**
 * `BaseHttpResponse.respond()` (src/response/core.ts): the one step that
 * sends a response. It refuses a request that was already answered, merges
 * the staged headers and cookies, renders the body with the response's
 * renderer, settles the status, marks the request answered and writes the
 * status, the headers (with `Content-Length` first) and the body.
 */
module Respond {
  import opened Wrappers
  import opened Strings
  import opened Js
  import opened Host
  import opened Errors
  import opened Context
  import opened ReqRes
  import opened Headers
  import opened Cookies
  import opened HttpResponse
  import ResponseRenderer
  import opened ErrorRenderer

  const AlreadySent := "The response was already sent."
  const ContentLength := "Content-Length"

  /** What rendering yields: the status the renderer set, the headers after it, and the text. */
  datatype Rendering = Rendering(status: int, headers: Props, text: string)

  /**
   * What `renderer.render(response)` does to a response with `status`,
   * `body` and `headers`; `f` is the format an error renderer negotiates.
   */
  function Rendered(renderer: Renderer, h: Host, f: Format, status: int, body: JsValue, headers: Props): Rendering {
    match renderer
    case BaseRenderer =>
      Rendering(status, ResponseRenderer.BaseHeaders(headers, body), ResponseRenderer.BaseText(h, body))
    case HttpErrorRenderer =>
      Rendering(ErrorStatus(body), Put(headers, ContentTypeHeader, Str(FormatType(f))), FormText(h, f, body))
  }

  /** The headers handed to `writeHead`: `Content-Length` of the text, then the response's own. */
  function WireHeaders(h: Host, text: string, headers: Props): Props {
    Spread([(ContentLength, Num(h.byteLength(text)))], headers)
  }

  /** The staged headers of a store. */
  function StagedIn(st: Props): Props {
    RecordOf(ValueIn(st, Namespace.SetHeader))
  }

  /** The rendered staged cookies of a store. */
  function CookiesIn(h: Host, st: Props): seq<string> {
    RenderedCookies(h, RecordOf(ValueIn(st, SetCookies)))
  }

  /**
   * Everything `respond()` sends for a response with `status`, `body` and
   * `headers`, against the store `st` of a request `req`.
   */
  function Sent(renderer: Renderer, h: Host, st: Props, req: Request, status: int, body: JsValue, headers: Props): Written {
    var merged := MergedHeaders(StagedIn(st), headers, CookiesIn(h, st));
    var out := Rendered(renderer, h, Chosen(st, req), status, body, merged);
    var code := MergedStatus(out.status, FieldIn(st, Namespace.Status, "code"), req.httpMethod, out.text);
    Written(code, WireHeaders(h, out.text, out.headers), out.text)
  }

  /** Obtaining a cache never changes the fields any cache reads as. */
  lemma RecordOfUseIn(st: Props, ns: Namespace, ns': Namespace)
    ensures RecordOf(ValueIn(UseIn(st, ns), ns')) == RecordOf(ValueIn(st, ns'))
  {
    GetPutSame(st, Key(ns), UsedValue(ValueIn(st, ns)));
    if ns' != ns {
      KeyInjective(ns, ns');
      GetPutOther(st, Key(ns), UsedValue(ValueIn(st, ns)), Key(ns'));
    }
  }

  /** One `useCacheObject` call keeps the store sound and every field, hence what `respond` would send. */
  lemma UseInKeeps(st: Props, ns: Namespace, req: Request, h: Host)
    requires AllSound(st)
    ensures AllSound(UseIn(st, ns))
    ensures FieldIn(UseIn(st, ns), Namespace.Status, "code") == FieldIn(st, Namespace.Status, "code")
    ensures FieldIn(UseIn(st, ns), Namespace.Response, "responded") == FieldIn(st, Namespace.Response, "responded")
    ensures StagedIn(UseIn(st, ns)) == StagedIn(st)
    ensures CookiesIn(h, UseIn(st, ns)) == CookiesIn(h, st)
    ensures Chosen(UseIn(st, ns), req) == Chosen(st, req)
  {
    UseInSound(st, ns);
    FieldInUseIn(st, ns, Namespace.Status, "code");
    FieldInUseIn(st, ns, Namespace.Response, "responded");
    UseInKeepsStaged(st, ns, h);
    UseInKeepsChosen(st, ns, req);
  }

  /** One `useCacheObject` call keeps the staged headers and cookies. */
  lemma UseInKeepsStaged(st: Props, ns: Namespace, h: Host)
    requires AllSound(st)
    ensures StagedIn(UseIn(st, ns)) == StagedIn(st)
    ensures CookiesIn(h, UseIn(st, ns)) == CookiesIn(h, st)
  {
    RecordOfUseIn(st, ns, Namespace.SetHeader);
    RecordOfUseIn(st, ns, SetCookies);
  }

  /** One `useCacheObject` call keeps the memoised `Accept` answers. */
  lemma UseInKeepsChosen(st: Props, ns: Namespace, req: Request)
    requires AllSound(st)
    ensures Chosen(UseIn(st, ns), req) == Chosen(st, req)
  {
    FieldInUseIn(st, ns, Namespace.Accept, Accept.ApplicationJson);
    FieldInUseIn(st, ns, Namespace.Accept, Accept.TextHtml);
    FieldInUseIn(st, ns, Namespace.Accept, Accept.TextPlain);
  }

  /** The caches `mergeStatus` may obtain keep the store sound. */
  lemma MergeStatusStore(st: Props, req: Request, h: Host)
    requires AllSound(st)
    ensures var s2 := UseIn(UseIn(st, Namespace.Response), Namespace.Status);
      AllSound(s2) && AllSound(UseIn(s2, Namespace.Body))
  {
    UseInKeeps(st, Namespace.Response, req, h);
    UseInKeeps(UseIn(st, Namespace.Response), Namespace.Status, req, h);
    UseInKeeps(UseIn(UseIn(st, Namespace.Response), Namespace.Status), Namespace.Body, req, h);
  }

  /** The render step, dispatched on the response's renderer. */
  method RenderWith(slot: HttpContextSlot, ctx: HttpContext, response: BaseHttpResponse, h: Host) returns (text: string)
    requires slot.current == Some(ctx) && AllSound(ctx.custom.entries)
    modifies response, ctx.custom
    ensures slot.current == Some(ctx)
    ensures var out := Rendered(response.renderer, h, Chosen(old(ctx.custom.entries), ctx.req),
                                old(response.status), old(response.body), old(response.headers));
            text == out.text && response.status == out.status && response.headers == out.headers
    ensures response.body == old(response.body)
    ensures AllSound(ctx.custom.entries)
    ensures FieldIn(ctx.custom.entries, Namespace.Status, "code") == FieldIn(old(ctx.custom.entries), Namespace.Status, "code")
  {
    match response.renderer {
      case BaseRenderer =>
        text := ResponseRenderer.Render(response, h);
      case HttpErrorRenderer =>
        // `render` inside the request: the branch of `ErrorRenderer.Render` with a current context
        text := ErrorRenderer.RenderIn(ctx, response, h);
        assert FieldIn(ctx.custom.entries, Namespace.Status, "code") == FieldIn(old(ctx.custom.entries), Namespace.Status, "code");
    }
  }

  /** `mergeHeaders()` then `renderer.render(this)`, as one step. */
  method MergeAndRender(slot: HttpContextSlot, ctx: HttpContext, response: BaseHttpResponse, h: Host) returns (text: string)
    requires slot.current == Some(ctx) && AllSound(ctx.custom.entries)
    modifies response, ctx.custom
    ensures slot.current == Some(ctx)
    ensures var st := old(ctx.custom.entries);
      var out := Rendered(response.renderer, h, Chosen(st, ctx.req), old(response.status), old(response.body),
                          MergedHeaders(StagedIn(st), old(response.headers), CookiesIn(h, st)));
      text == out.text && response.status == out.status && response.headers == out.headers
    ensures AllSound(ctx.custom.entries)
    ensures FieldIn(ctx.custom.entries, Namespace.Status, "code") == FieldIn(old(ctx.custom.entries), Namespace.Status, "code")
  {
    ghost var st := ctx.custom.entries;
    var m := response.MergeHeaders(slot, h);
    UseInKeeps(st, Namespace.SetHeader, ctx.req, h);
    UseInKeeps(UseIn(st, Namespace.SetHeader), SetCookies, ctx.req, h);
    text := RenderWith(slot, ctx, response, h);
  }

  /** `mergeStatus(renderedBody)`, then `rawResponse().writeHead(...).end(renderedBody)`. */
  method Finish(slot: HttpContextSlot, ctx: HttpContext, response: BaseHttpResponse, h: Host, text: string)
    requires slot.current == Some(ctx) && AllSound(ctx.custom.entries)
    modifies response, ctx.custom, ctx.res
    ensures slot.current == Some(ctx)
    ensures response.status
            == MergedStatus(old(response.status), FieldIn(old(ctx.custom.entries), Namespace.Status, "code"), ctx.req.httpMethod, text)
    ensures response.headers == old(response.headers)
    ensures ctx.res.writes == old(ctx.res.writes) + [Written(response.status, WireHeaders(h, text, response.headers), text)]
    ensures HasResponded(ctx) && AllSound(ctx.custom.entries)
  {
    ghost var sink := ctx.res.writes;
    MergeStatusIn(slot, ctx, response, h, text);
    ghost var st3 := ctx.custom.entries;
    assert ctx.res.writes == sink;
    UseInSound(st3, Namespace.Response);
    WithFieldSound(UseIn(st3, Namespace.Response), Namespace.Response, "responded", Bool(true));
    var res := RawResponse(ctx, None);
    assert res.writes == sink;
    res.WriteHead(Written(response.status, WireHeaders(h, text, response.headers), text));
  }

  /** `this.mergeStatus(renderedBody)` inside the request `ctx`: the store stays sound. */
  method MergeStatusIn(slot: HttpContextSlot, ctx: HttpContext, response: BaseHttpResponse, h: Host, text: string)
    requires slot.current == Some(ctx) && AllSound(ctx.custom.entries)
    modifies response, ctx.custom
    ensures slot.current == Some(ctx)
    ensures response.status
            == MergedStatus(old(response.status), FieldIn(old(ctx.custom.entries), Namespace.Status, "code"), ctx.req.httpMethod, text)
    ensures response.headers == old(response.headers)
    ensures AllSound(ctx.custom.entries)
  {
    MergeStatusStore(ctx.custom.entries, ctx.req, h);
    var s := response.MergeStatus(slot, text);
  }

  /**
   * `response.respond()`: outside a request, or for a request already
   * answered, it panics and nothing is written; otherwise exactly one
   * response is written, the one `Sent` describes, and the request is
   * marked answered.
   */
  method Respond(slot: HttpContextSlot, response: BaseHttpResponse, h: Host) returns (r: Result<(), JsError>)
    requires slot.current.Some? ==> AllSound(slot.current.value.custom.entries)
    modifies response
    modifies if slot.current.Some? then {slot.current.value.custom, slot.current.value.res} else {}
    ensures slot.current == old(slot.current)
    ensures slot.current.None? ==> r == Failure(Panic(OutsideRequest))
    ensures slot.current.Some? ==> AllSound(slot.current.value.custom.entries)
    ensures slot.current.Some? && old(HasResponded(slot.current.value)) ==>
              r == Failure(Panic(AlreadySent)) && slot.current.value.res.writes == old(slot.current.value.res.writes)
    ensures slot.current.Some? && !old(HasResponded(slot.current.value)) ==>
              var ctx := slot.current.value;
              r == Success(())
              && HasResponded(ctx)
              && ctx.res.writes
                 == old(ctx.res.writes)
                    + [Sent(response.renderer, h, old(ctx.custom.entries), ctx.req,
                            old(response.status), old(response.body), old(response.headers))]
  {
    match slot.current {
      case None =>
        var c := UseResponse(slot);
        r := Failure(c.error);
      case Some(ctx) =>
        r := RespondIn(slot, ctx, response, h);
    }
  }

  /** `respond()` inside the request `ctx`. */
  method RespondIn(slot: HttpContextSlot, ctx: HttpContext, response: BaseHttpResponse, h: Host) returns (r: Result<(), JsError>)
    requires slot.current == Some(ctx) && AllSound(ctx.custom.entries)
    modifies response, ctx.custom, ctx.res
    ensures slot.current == Some(ctx) && AllSound(ctx.custom.entries)
    ensures old(HasResponded(ctx)) ==> r == Failure(Panic(AlreadySent)) && ctx.res.writes == old(ctx.res.writes)
    ensures !old(HasResponded(ctx)) ==>
              r == Success(())
              && HasResponded(ctx)
              && ctx.res.writes
                 == old(ctx.res.writes)
                    + [Sent(response.renderer, h, old(ctx.custom.entries), ctx.req,
                            old(response.status), old(response.body), old(response.headers))]
  {
    ghost var st0 := ctx.custom.entries;
    ghost var sink := ctx.res.writes;
    ghost var status, body, headers := response.status, response.body, response.headers;
    // `useResponse()` inside the request: its two `useCacheObject` calls
    ctx.custom.Use(Namespace.Response);
    ctx.custom.Use(Namespace.Status);
    UsedForResponse(st0, ctx.req, h);
    if HasResponded(ctx) {
      return Failure(Panic(AlreadySent));
    }
    assert ctx.res.writes == sink && response.status == status && response.body == body && response.headers == headers;
    SendFresh(slot, ctx, response, h, st0);
    assert ctx.res.writes == sink + [Sent(response.renderer, h, st0, ctx.req, status, body, headers)];
    r := Success(());
  }

  /** Obtaining the `response` and `status` caches keeps the store sound and what `respond` sends. */
  lemma UsedForResponse(st0: Props, req: Request, h: Host)
    requires AllSound(st0)
    ensures var st := UseIn(UseIn(st0, Namespace.Response), Namespace.Status);
            AllSound(st) && SameView(st, st0, req, h)
            && FieldIn(st, Namespace.Response, "responded") == FieldIn(st0, Namespace.Response, "responded")
  {
    UseInKeeps(st0, Namespace.Response, req, h);
    UseInKeeps(UseIn(st0, Namespace.Response), Namespace.Status, req, h);
  }

  /** Whether two stores make `respond` send the same thing. */
  predicate SameView(st: Props, st0: Props, req: Request, h: Host) {
    StagedIn(st) == StagedIn(st0) && CookiesIn(h, st) == CookiesIn(h, st0)
    && Chosen(st, req) == Chosen(st0, req)
    && FieldIn(st, Namespace.Status, "code") == FieldIn(st0, Namespace.Status, "code")
  }

  /**
   * The part of `respond()` after its checks: merge, render, merge the
   * status and write, for a request not answered yet.
   */
  method SendFresh(slot: HttpContextSlot, ctx: HttpContext, response: BaseHttpResponse, h: Host, ghost st0: Props)
    requires slot.current == Some(ctx) && AllSound(ctx.custom.entries) && !HasResponded(ctx)
    requires SameView(ctx.custom.entries, st0, ctx.req, h)
    modifies response, ctx.custom, ctx.res
    ensures slot.current == Some(ctx)
    ensures HasResponded(ctx) && AllSound(ctx.custom.entries)
    ensures ctx.res.writes
            == old(ctx.res.writes)
               + [Sent(response.renderer, h, st0, ctx.req, old(response.status), old(response.body), old(response.headers))]
  {
    ghost var st1 := ctx.custom.entries;
    ghost var sink := ctx.res.writes;
    ghost var code := FieldIn(st0, Namespace.Status, "code");
    var text := MergeAndRender(slot, ctx, response, h);
    ghost var out := Rendered(response.renderer, h, Chosen(st0, ctx.req), old(response.status), old(response.body),
                              MergedHeaders(StagedIn(st0), old(response.headers), CookiesIn(h, st0)));
    assert text == out.text && response.status == out.status && response.headers == out.headers;
    assert ctx.res.writes == sink;
    assert ctx.custom.Field(Namespace.Status, "code") == code;
    Finish(slot, ctx, response, h, text);
    assert Written(response.status, WireHeaders(h, text, response.headers), text)
           == Sent(response.renderer, h, st0, ctx.req, old(response.status), old(response.body), old(response.headers));
  }
}
