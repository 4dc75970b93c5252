/**
 * `ProstoHttpServer.processRequest` and `processHandlers` (src/server.ts):
 * the walk along the handlers of the matched route, and the 404 answer when
 * no route matches. Each handler is given by what calling it comes to; what
 * it does to the request's caches meanwhile is not part of this model.
 */
module Server {
  import opened Wrappers
  import opened Js
  import opened Host
  import opened Errors
  import opened Context
  import opened ReqRes
  import opened HttpResponse
  import opened Factory
  import opened Respond
  import opened ErrorRenderer
  import ResponseRenderer

  const ServerHeader := "Server"

  /** The `Server` header every request is seeded with. */
  function Banner(h: Host): string {
    "@prostojs/http v" + h.version
  }

  /** The custom context a request starts with: `{ __setHeader: { Server: ... } }`. */
  function Seed(h: Host): Props {
    [(Key(Namespace.SetHeader), Obj([(ServerHeader, Str(Banner(h)))]))]
  }

  /** The seeded store is sound, and the only header it stages is `Server`. */
  lemma SeedStages(h: Host)
    ensures AllSound(Seed(h))
    ensures StagedIn(Seed(h)) == [(ServerHeader, Str(Banner(h)))]
  {
    var st := Seed(h);
    forall ns: Namespace
      ensures !Truthy(ValueIn(st, ns)) || ValueIn(st, ns).Obj?
    {
      if ns != Namespace.SetHeader {
        KeyInjective(ns, Namespace.SetHeader);
        assert !Has(st, Key(ns));
      }
    }
  }

  /** What the matched route supplies: its params and its handlers, each by what calling it comes to. */
  datatype Route = Route(params: Props, handlers: seq<Outcome>)

  /**
   * Whether the walk stops at handler `i`: the last handler always settles
   * the request; an earlier one only by returning something that is not an
   * `Error`.
   */
  predicate Settles(outcomes: seq<Outcome>, i: nat)
    requires i < |outcomes|
  {
    i == |outcomes| - 1 || (outcomes[i].Returns? && !outcomes[i].value.ErrorValue?)
  }

  /** The first handler from `i` on that settles the request, or `|outcomes|` if none does. */
  function DecisiveFrom(outcomes: seq<Outcome>, i: nat): (k: nat)
    requires i <= |outcomes|
    ensures i <= k <= |outcomes|
    ensures forall j :: i <= j < k ==> !Settles(outcomes, j)
    ensures k < |outcomes| ==> Settles(outcomes, k)
    ensures i < |outcomes| ==> k < |outcomes|
    decreases |outcomes| - i
  {
    if i == |outcomes| || Settles(outcomes, i) then i else DecisiveFrom(outcomes, i + 1)
  }

  /** The handler whose outcome answers the request. */
  function Decisive(outcomes: seq<Outcome>): nat
  {
    DecisiveFrom(outcomes, 0)
  }

  /** What `createResponseFrom` is given for an outcome: the value returned, or the error thrown. */
  function Answer(o: Outcome): Returned {
    match o
    case Returns(v) => v
    case Throws(e) => ErrorValue(e)
  }

  /**
   * Handlers that throw or return an `Error` before a handler that returns
   * an ordinary value or a response are skipped, and that handler's value
   * answers the request, whatever handlers follow it.
   */
  lemma {:induction false} SkipsErrors(skipped: seq<Outcome>, v: Returned, more: seq<Outcome>)
    requires forall j :: 0 <= j < |skipped| ==> skipped[j].Throws? || skipped[j].value.ErrorValue?
    requires !v.ErrorValue?
    ensures var os := skipped + [Returns(v)] + more;
      Decisive(os) == |skipped| && Answer(os[Decisive(os)]) == v
  {
    var os := skipped + [Returns(v)] + more;
    var k := Decisive(os);
    assert os[|skipped|] == Returns(v);
    assert Settles(os, |skipped|);
  }

  /** With only errors before it, the last handler answers the request with what it returned or threw. */
  lemma {:induction false} LastAnswers(skipped: seq<Outcome>, o: Outcome)
    requires forall j :: 0 <= j < |skipped| ==> skipped[j].Throws? || skipped[j].value.ErrorValue?
    ensures Decisive(skipped + [o]) == |skipped|
    ensures o.Throws? ==> Answer((skipped + [o])[Decisive(skipped + [o])]) == ErrorValue(o.error)
  {
    var os := skipped + [o];
    var k := Decisive(os);
  }

  /** A response as `respond()` finds it: its renderer, status, body and headers. */
  datatype Draft = Draft(renderer: Renderer, status: int, body: JsValue, headers: Props)

  /**
   * The response `createResponseFrom` makes of an answer `d`: a fresh one
   * for a value or an error, the handler's own response as it stands
   * otherwise.
   */
  function DraftOf(d: Returned, h: Host): Draft
    reads if d.ResponseValue? then {d.response} else {}
  {
    match d
    case Plain(v) => Draft(BaseRenderer, 0, v, [])
    case ErrorValue(e) => Draft(HttpErrorRenderer, 0, Obj(ErrorResponseBody(h, e)), [])
    case ResponseValue(x) => Draft(x.renderer, x.status, x.body, x.headers)
  }

  /** What `respond()` writes for a draft against the store `st` of a request `req`. */
  function Reply(dr: Draft, h: Host, st: Props, req: Request): Written {
    Sent(dr.renderer, h, st, req, dr.status, dr.body, dr.headers)
  }

  /** Spreading objects without duplicate keys over one gives one without duplicate keys. */
  lemma {:induction false} SpreadWellFormed(a: Props, b: Props)
    requires WellFormed(a)
    ensures WellFormed(Spread(a, b))
    decreases |b|
  {
    if b != [] {
      PutWellFormed(a, b[0].0, b[0].1);
      SpreadWellFormed(Put(a, b[0].0, b[0].1), b[1..]);
    }
  }

  /**
   * The `Server` header seeded for the request reaches the written answer,
   * unless the response sets a `Server` header of its own.
   */
  lemma ServerHeaderReaches(dr: Draft, h: Host, req: Request)
    requires WellFormed(dr.headers) && !Has(dr.headers, ServerHeader)
    ensures Get(Reply(dr, h, Seed(h), req).headers, ServerHeader) == Str(Banner(h))
  {
    var st := Seed(h);
    SeedStages(h);
    var own := dr.headers;
    var merged := MergedHeaders(StagedIn(st), own, CookiesIn(h, st));
    MergedHeadersGet(StagedIn(st), own, CookiesIn(h, st), ServerHeader);
    assert Get(merged, ServerHeader) == Str(Banner(h));
    assert WellFormed(StagedIn(st));
    SpreadWellFormed(StagedIn(st), own);
    PutWellFormed(Spread(StagedIn(st), own), SetCookieHeader, Arr(SpreadOf(Get(own, SetCookieHeader)) + StrsOf(CookiesIn(h, st))));
    var out := Rendered(dr.renderer, h, Chosen(st, req), dr.status, dr.body, merged);
    if dr.renderer.HttpErrorRenderer? {
      GetPutOther(merged, ContentTypeHeader, Str(FormatType(Chosen(st, req))), ServerHeader);
      PutWellFormed(merged, ContentTypeHeader, Str(FormatType(Chosen(st, req))));
    } else if out.headers != merged {
      GetPutOther(merged, ContentTypeHeader, Str(ResponseRenderer.BaseType(dr.body).value), ServerHeader);
      PutWellFormed(merged, ContentTypeHeader, Str(ResponseRenderer.BaseType(dr.body).value));
    }
    assert Get(out.headers, ServerHeader) == Str(Banner(h));
    GetSpread([(ContentLength, Num(h.byteLength(out.text)))], out.headers, ServerHeader);
  }

  /**
   * Obtaining the two caches `createResponseFrom` reads changes nothing
   * `respond()` sends.
   */
  lemma ReplyAfterCreate(dr: Draft, h: Host, st: Props, req: Request)
    requires AllSound(st)
    ensures Sent(dr.renderer, h, UseIn(UseIn(st, Namespace.Response), Namespace.Status), req, dr.status, dr.body, dr.headers)
            == Reply(dr, h, st, req)
  {
    UseInKeeps(st, Namespace.Response, req, h);
    UseInKeeps(UseIn(st, Namespace.Response), Namespace.Status, req, h);
  }

  /** `respond()` on the response made from a store `st0`: it writes what `Reply` says. */
  method SendMade(slot: HttpContextSlot, resp: BaseHttpResponse, ghost dr: Draft, h: Host, ghost st0: Props)
    requires slot.current.Some? && AllSound(st0)
    requires dr == Draft(resp.renderer, resp.status, resp.body, resp.headers)
    requires slot.current.value.custom.entries == UseIn(UseIn(st0, Namespace.Response), Namespace.Status)
    requires !HasResponded(slot.current.value)
    modifies resp
    modifies if slot.current.Some? then {slot.current.value.custom, slot.current.value.res} else {}
    ensures slot.current == old(slot.current)
    ensures AllSound(slot.current.value.custom.entries) && HasResponded(slot.current.value)
    ensures slot.current.value.res.writes == old(slot.current.value.res.writes) + [Reply(dr, h, st0, slot.current.value.req)]
  {
    var c := slot.current.value;
    UseInSound(st0, Namespace.Response);
    UseInSound(UseIn(st0, Namespace.Response), Namespace.Status);
    ReplyAfterCreate(dr, h, st0, c.req);
    assert resp.renderer == dr.renderer && resp.status == dr.status && resp.body == dr.body && resp.headers == dr.headers;
    var sent := Respond.Respond(slot, resp, h);
  }

  /**
   * `createResponseFrom(d)?.respond()` inside the request installed in the
   * slot: unless the request was already answered, the response made of `d`
   * is written.
   */
  method RespondWith(slot: HttpContextSlot, c: HttpContext, d: Returned, h: Host, ghost dr: Draft)
    requires slot.current == Some(c) && AllSound(c.custom.entries)
    requires dr == DraftOf(d, h)
    modifies c.custom, c.res
    modifies if d.ResponseValue? then {d.response} else {}
    ensures slot.current == Some(c)
    ensures AllSound(c.custom.entries) && HasResponded(c)
    ensures old(HasResponded(c)) ==> c.res.writes == old(c.res.writes)
    ensures !old(HasResponded(c)) ==> c.res.writes == old(c.res.writes) + [Reply(dr, h, old(c.custom.entries), c.req)]
  {
    ghost var st0 := c.custom.entries;
    var x := CreateResponseFrom(slot, d, h);
    if x.value.Some? {
      var resp := x.value.value;
      assert dr == Draft(resp.renderer, resp.status, resp.body, resp.headers);
      SendMade(slot, resp, dr, h, st0);
    } else {
      UseInSound(st0, Namespace.Response);
      UseInSound(UseIn(st0, Namespace.Response), Namespace.Status);
    }
  }

  /** The responses the handlers return themselves. */
  function Responses(outcomes: seq<Outcome>): set<BaseHttpResponse> {
    set i | 0 <= i < |outcomes| && outcomes[i].Returns? && outcomes[i].value.ResponseValue? :: outcomes[i].value.response
  }

  /**
   * The step that settles the request on outcome `o`: with the context
   * installed, `createResponseFrom` of the value returned or the error
   * thrown, `respond()`, and the context cleared again.
   */
  method Settle(slot: HttpContextSlot, c: HttpContext, o: Outcome, h: Host)
    requires AllSound(c.custom.entries)
    modifies slot, c.custom, c.res
    modifies if o.Returns? && o.value.ResponseValue? then {o.value.response} else {}
    ensures slot.current == None && HasResponded(c) && AllSound(c.custom.entries)
    ensures old(HasResponded(c)) ==> c.res.writes == old(c.res.writes)
    ensures !old(HasResponded(c)) ==>
              c.res.writes == old(c.res.writes) + [Reply(old(DraftOf(Answer(o), h)), h, old(c.custom.entries), c.req)]
  {
    slot.Set(c);
    RespondWith(slot, c, Answer(o), h, DraftOf(Answer(o), h));
    slot.Clear();
  }

  /**
   * `processHandlers`: each handler is called with the context installed,
   * which is cleared again as soon as the call returns. The walk stops at
   * the handler `Decisive` names: its value, or the error it threw, is
   * turned into a response and sent with the context installed, unless the
   * request was already answered. The slot is left empty.
   */
  method ProcessHandlers(slot: HttpContextSlot, c: HttpContext, outcomes: seq<Outcome>, h: Host)
    requires AllSound(c.custom.entries)
    modifies slot, c.custom, c.res, Responses(outcomes)
    ensures outcomes == [] ==> slot.current == old(slot.current) && c.res.writes == old(c.res.writes)
    ensures outcomes != [] ==> slot.current == None && HasResponded(c) && AllSound(c.custom.entries)
    ensures outcomes != [] && old(HasResponded(c)) ==> c.res.writes == old(c.res.writes)
    ensures outcomes != [] && !old(HasResponded(c)) ==>
              c.res.writes
              == old(c.res.writes) + [Reply(old(DraftOf(Answer(outcomes[Decisive(outcomes)]), h)), h, old(c.custom.entries), c.req)]
  {
    ghost var sink := c.res.writes;
    ghost var st := c.custom.entries;
    ghost var responded := HasResponded(c);
    var i := 0;
    while i < |outcomes|
      invariant i <= Decisive(outcomes)
      invariant i > 0 ==> slot.current == None
      invariant i == 0 ==> slot.current == old(slot.current)
      invariant c.custom.entries == st && c.res.writes == sink
      invariant unchanged(Responses(outcomes))
    {
      slot.Set(c);
      // `const promise = handler()`: what the call comes to is `outcomes[i]`
      slot.Clear();
      if i == |outcomes| - 1 || (outcomes[i].Returns? && !outcomes[i].value.ErrorValue?) {
        assert Settles(outcomes, i) && i == Decisive(outcomes);
        ghost var dr := DraftOf(Answer(outcomes[i]), h);
        assert dr == old(DraftOf(Answer(outcomes[Decisive(outcomes)]), h));
        assert responded == HasResponded(c);
        Settle(slot, c, outcomes[i], h);
        assert !responded ==> c.res.writes == sink + [Reply(dr, h, st, c.req)];
        break;
      }
      i := i + 1;
    }
  }

  /**
   * `processRequest`: a fresh store seeded with the `Server` header; with a
   * matched route its handlers are walked, otherwise a 404 error response
   * is sent. Either way exactly one response is written and the slot is
   * left empty.
   */
  method ProcessRequest(slot: HttpContextSlot, req: Request, res: ResponseSink, found: Option<Route>, h: Host)
    modifies slot, res
    modifies if found.Some? then Responses(found.value.handlers) else {}
    ensures found.None? ==>
              slot.current == None
              && res.writes
                 == old(res.writes) + [Sent(HttpErrorRenderer, h, Seed(h), req, 0, Obj(ErrorBody(h, 404, Text(""))), [])]
    ensures found.Some? && found.value.handlers != [] ==>
              var hs := found.value.handlers;
              slot.current == None
              && res.writes == old(res.writes) + [Reply(old(DraftOf(Answer(hs[Decisive(hs)]), h)), h, Seed(h), req)]
  {
    var custom := new CustomContext(Seed(h));
    SeedStages(h);
    if found.Some? {
      var c := HttpContext(req, res, found.value.params, custom);
      FieldInSeed(h);
      ProcessHandlers(slot, c, found.value.handlers, h);
    } else {
      var c := HttpContext(req, res, [], custom);
      FieldInSeed(h);
      var err := new ProstoHttpError(404);
      NotFoundReply(err, h, req);
      Settle(slot, c, Throws(HttpError(err)), h);
    }
  }

  /** The reply to an unmatched route is the 404 error response. */
  lemma NotFoundReply(err: ProstoHttpError, h: Host, req: Request)
    requires err.code == 404 && err.source == Text("")
    ensures Reply(DraftOf(Answer(Throws(HttpError(err))), h), h, Seed(h), req)
            == Sent(HttpErrorRenderer, h, Seed(h), req, 0, Obj(ErrorBody(h, 404, Text(""))), [])
  {
  }

  /** A fresh request has not been answered. */
  lemma FieldInSeed(h: Host)
    ensures !Truthy(FieldIn(Seed(h), Namespace.Response, "responded"))
  {
    KeyInjective(Namespace.Response, Namespace.SetHeader);
  }
}
