/**
 * `HttpErrorRenderer` (src/errors/error-renderer.ts): renders an error body
 * as JSON, HTML or plain text, whichever the request's `Accept` header
 * admits first in that order (JSON when it admits none of them), and sets
 * the response status from the body's `statusCode`.
 */
module ErrorRenderer {
  import opened Wrappers
  import opened Strings
  import opened Js
  import opened Host
  import opened Errors
  import opened Context
  import opened ReqRes
  import opened Accept
  import opened HttpResponse

  datatype Format = JsonFormat | HtmlFormat | TextFormat

  /** The content type each format is sent with. */
  function FormatType(f: Format): string {
    match f
    case JsonFormat => Accept.ApplicationJson
    case HtmlFormat => Accept.TextHtml
    case TextFormat => Accept.TextPlain
  }

  /** The format an `Accept` header calls for: JSON, else HTML, else text, else JSON. */
  function Negotiated(accept: Option<string>): Format {
    if AcceptMatch(accept, Accept.ApplicationJson) then JsonFormat
    else if AcceptMatch(accept, Accept.TextHtml) then HtmlFormat
    else if AcceptMatch(accept, Accept.TextPlain) then TextFormat
    else JsonFormat
  }

  /** `accepts(mime)` answered from the store `st`: a cached boolean, or else the header. */
  function AcceptedIn(st: Props, req: Request, mime: string): bool {
    var cached := FieldIn(st, Namespace.Accept, mime);
    if cached.Bool? then cached.b else AcceptMatch(Header(req, "accept"), mime)
  }

  /** The format `render` picks against the store `st`. */
  function Chosen(st: Props, req: Request): Format {
    if AcceptedIn(st, req, Accept.ApplicationJson) then JsonFormat
    else if AcceptedIn(st, req, Accept.TextHtml) then HtmlFormat
    else if AcceptedIn(st, req, Accept.TextPlain) then TextFormat
    else JsonFormat
  }

  /** Against a cache that agrees with the header, the format chosen is the one the header calls for. */
  lemma ChosenNegotiated(st: Props, req: Request)
    requires AcceptAgrees(st, req)
    ensures Chosen(st, req) == Negotiated(Header(req, "accept"))
  {
    assert AcceptedIn(st, req, Accept.ApplicationJson) == AcceptMatch(Header(req, "accept"), Accept.ApplicationJson);
    assert AcceptedIn(st, req, Accept.TextHtml) == AcceptMatch(Header(req, "accept"), Accept.TextHtml);
    assert AcceptedIn(st, req, Accept.TextPlain) == AcceptMatch(Header(req, "accept"), Accept.TextPlain);
  }

  /** `(response.body || {})[k]`. */
  function DataField(data: JsValue, k: string): JsValue {
    Get(RecordOf(data), k)
  }

  /** `httpStatusCodes[v]` for the `statusCode` of a body. */
  function ReasonOf(h: Host, v: JsValue): JsValue {
    if v.Num? then StatusTextValue(h, v.n) else Undefined
  }

  /** `renderJson`: the three fields in a JSON template, interpolated without escaping. */
  function JsonText(data: JsValue): string {
    "{\"statusCode\":" + ToJsString(DataField(data, "statusCode"))
    + ",\"error\":\"" + ToJsString(DataField(data, "error"))
    + "\",\"message\":\"" + ToJsString(DataField(data, "message")) + "\"}"
  }

  /** `renderText`: `code reason`, a newline, then the message. */
  function PlainText(h: Host, data: JsValue): string {
    var code := DataField(data, "statusCode");
    ToJsString(code) + " " + ToJsString(ReasonOf(h, code)) + "\n" + ToJsString(DataField(data, "message"))
  }

  /** `renderHtml`: a small page with the code, its reason phrase, the message and the package version. */
  function HtmlText(h: Host, data: JsValue): string {
    var code := ToJsString(DataField(data, "statusCode"));
    var reason := ToJsString(ReasonOf(h, DataField(data, "statusCode")));
    "<html style=\"background-color: #333; color: #bbb;\">"
    + "<head><title>" + code + " " + reason + "</title></head>"
    + "<body><center><h1>" + code + " " + reason + "</h1></center>"
    + "<center><h4>" + ToJsString(DataField(data, "message")) + "</h1></center><hr color=\"#666\">"
    + "<center style=\"color: #666;\"> @prostojs/http v" + h.version + " </center>"
    + "</body></html>"
  }

  function FormText(h: Host, f: Format, data: JsValue): string {
    match f
    case JsonFormat => JsonText(data)
    case HtmlFormat => HtmlText(h, data)
    case TextFormat => PlainText(h, data)
  }

  /** `response.body?.statusCode || 500`. */
  function ErrorStatus(body: JsValue): int {
    var code := DataField(body, "statusCode");
    if code.Num? && code.n != 0 then code.n else 500
  }

  /**
   * The `accepts` calls of `render`, in order, stopping at the first type
   * admitted; each answer not yet cached is cached.
   */
  method Choose(ctx: HttpContext) returns (f: Format)
    requires AllSound(ctx.custom.entries) && ctx.custom.Value(Namespace.Accept).Obj?
    modifies ctx.custom
    ensures f == Chosen(old(ctx.custom.entries), ctx.req)
    ensures AllSound(ctx.custom.entries) && ctx.custom.Value(Namespace.Accept).Obj?
    ensures forall ns, g :: ns != Namespace.Accept ==> FieldIn(ctx.custom.entries, ns, g) == FieldIn(old(ctx.custom.entries), ns, g)
    ensures old(AcceptAgrees(ctx.custom.entries, ctx.req)) ==> AcceptAgrees(ctx.custom.entries, ctx.req)
  {
    ghost var st0 := ctx.custom.entries;
    var json := AcceptStep(ctx, Accept.ApplicationJson);
    if json {
      return JsonFormat;
    }
    ghost var st1 := ctx.custom.entries;
    assert |Accept.TextHtml| != |Accept.ApplicationJson| && |Accept.TextPlain| != |Accept.ApplicationJson|;
    assert FieldIn(ctx.custom.entries, Namespace.Accept, Accept.TextHtml) == FieldIn(st0, Namespace.Accept, Accept.TextHtml);
    assert FieldIn(ctx.custom.entries, Namespace.Accept, Accept.TextPlain) == FieldIn(st0, Namespace.Accept, Accept.TextPlain);
    var html := AcceptStep(ctx, Accept.TextHtml);
    if html {
      return HtmlFormat;
    }
    assert |Accept.TextPlain| != |Accept.TextHtml|;
    assert FieldIn(ctx.custom.entries, Namespace.Accept, Accept.TextPlain) == FieldIn(st1, Namespace.Accept, Accept.TextPlain);
    var text := AcceptStep(ctx, Accept.TextPlain);
    f := if text then TextFormat else JsonFormat;
  }

  /** One `accepts(mime)` call, with what it keeps of the store. */
  method AcceptStep(ctx: HttpContext, mime: string) returns (b: bool)
    requires AllSound(ctx.custom.entries) && ctx.custom.Value(Namespace.Accept).Obj?
    modifies ctx.custom
    ensures b == AcceptedIn(old(ctx.custom.entries), ctx.req, mime)
    ensures AllSound(ctx.custom.entries) && ctx.custom.Value(Namespace.Accept).Obj?
    ensures forall ns, g :: ns != Namespace.Accept || g != mime ==> FieldIn(ctx.custom.entries, ns, g) == FieldIn(old(ctx.custom.entries), ns, g)
    ensures old(AcceptAgrees(ctx.custom.entries, ctx.req)) ==> AcceptAgrees(ctx.custom.entries, ctx.req)
  {
    ghost var st := ctx.custom.entries;
    b := Accepts(ctx, mime);
    if !old(ctx.custom.Field(Namespace.Accept, mime)).Bool? {
      WithFieldSound(st, Namespace.Accept, mime, Bool(b));
      forall ns, g | ns != Namespace.Accept || g != mime
        ensures FieldIn(ctx.custom.entries, ns, g) == FieldIn(st, ns, g)
      {
        FieldInWithFieldOther(st, Namespace.Accept, mime, Bool(b), ns, g);
      }
    }
  }

  /** The text and content type of an error response in the format `f`. */
  method RenderAs(response: BaseHttpResponse, h: Host, f: Format) returns (s: string)
    modifies response
    ensures s == FormText(h, f, response.body)
    ensures response.headers == Put(old(response.headers), ContentTypeHeader, Str(FormatType(f)))
    ensures response.status == old(response.status) && response.body == old(response.body)
  {
    response.SetContentType(FormatType(f));
    s := FormText(h, f, response.body);
  }

  /** What obtaining `useAccept` does to a sound store: nothing any later read can tell. */
  lemma UseAcceptStore(st0: Props, req: Request)
    requires AllSound(st0)
    ensures var st := UseAll(st0, [Namespace.Body, Namespace.Accept]);
      AllSound(st) && ValueIn(st, Namespace.Accept).Obj?
      && (forall ns, g :: FieldIn(st, ns, g) == FieldIn(st0, ns, g))
      && Chosen(st, req) == Chosen(st0, req)
      && (AcceptAgrees(st0, req) ==> AcceptAgrees(st, req))
  {
    var st := UseAll(st0, [Namespace.Body, Namespace.Accept]);
    UseAllSound(st0, [Namespace.Body, Namespace.Accept]);
    assert [Namespace.Body, Namespace.Accept][1] == Namespace.Accept;
    assert AcceptedIn(st, req, Accept.ApplicationJson) == AcceptedIn(st0, req, Accept.ApplicationJson);
    assert AcceptedIn(st, req, Accept.TextHtml) == AcceptedIn(st0, req, Accept.TextHtml);
    assert AcceptedIn(st, req, Accept.TextPlain) == AcceptedIn(st0, req, Accept.TextPlain);
  }

  /**
   * `render(response)`: outside a request `useAccept` panics; otherwise the
   * status comes from the body, the format from the request's `Accept`
   * header (or what is cached for it), and the content type from the format.
   */
  method Render(slot: HttpContextSlot, response: BaseHttpResponse, h: Host) returns (r: Result<string, JsError>)
    requires slot.current.Some? ==> AllSound(slot.current.value.custom.entries)
    modifies response, if slot.current.Some? then {slot.current.value.custom} else {}
    ensures slot.current == old(slot.current)
    ensures r.Success? <==> slot.current.Some?
    ensures r.Failure? ==>
              r.error == Panic(OutsideRequest)
              && response.status == old(response.status) && response.headers == old(response.headers)
    ensures response.body == old(response.body)
    ensures r.Success? ==>
              var ctx := slot.current.value;
              var f := Chosen(old(ctx.custom.entries), ctx.req);
              r.value == FormText(h, f, response.body)
              && response.status == ErrorStatus(response.body)
              && response.headers == Put(old(response.headers), ContentTypeHeader, Str(FormatType(f)))
    ensures slot.current.Some? ==>
              var ctx := slot.current.value;
              AllSound(ctx.custom.entries)
              && (forall ns, g :: ns != Namespace.Accept ==> FieldIn(ctx.custom.entries, ns, g) == FieldIn(old(ctx.custom.entries), ns, g))
              && (old(AcceptAgrees(ctx.custom.entries, ctx.req)) ==> AcceptAgrees(ctx.custom.entries, ctx.req))
  {
    match slot.current {
      case None =>
        var c := UseAccept(slot);
        r := Failure(c.error);
      case Some(ctx) =>
        var s := RenderIn(ctx, response, h);
        r := Success(s);
    }
  }

  /** `render(response)` inside the request `ctx`. */
  method RenderIn(ctx: HttpContext, response: BaseHttpResponse, h: Host) returns (s: string)
    requires AllSound(ctx.custom.entries)
    modifies response, ctx.custom
    ensures var f := Chosen(old(ctx.custom.entries), ctx.req);
            s == FormText(h, f, response.body)
            && response.status == ErrorStatus(response.body)
            && response.headers == Put(old(response.headers), ContentTypeHeader, Str(FormatType(f)))
    ensures response.body == old(response.body)
    ensures AllSound(ctx.custom.entries)
    ensures forall ns, g :: ns != Namespace.Accept ==> FieldIn(ctx.custom.entries, ns, g) == FieldIn(old(ctx.custom.entries), ns, g)
    ensures old(AcceptAgrees(ctx.custom.entries, ctx.req)) ==> AcceptAgrees(ctx.custom.entries, ctx.req)
  {
    // `useAccept()` inside the request: its `useCacheObject` calls
    UseEach(ctx.custom, [Namespace.Body, Namespace.Accept]);
    UseAcceptStore(old(ctx.custom.entries), ctx.req);
    response.SetStatus(ErrorStatus(response.body));
    var f := Choose(ctx);
    s := RenderAs(response, h, f);
  }

  /** The JSON form of an error built from a message. */
  lemma JsonTextOfError(h: Host, code: int, msg: string)
    ensures JsonText(Obj(ErrorBody(h, code, Text(msg))))
            == "{\"statusCode\":" + IntToString(code) + ",\"error\":\"" + ToJsString(StatusTextValue(h, code))
               + "\",\"message\":\"" + msg + "\"}"
  {
    ErrorBodyFields(h, code, Text(msg));
  }

  /** The text form of an error built from a message. */
  lemma PlainTextOfError(h: Host, code: int, msg: string)
    ensures PlainText(h, Obj(ErrorBody(h, code, Text(msg))))
            == IntToString(code) + " " + ToJsString(StatusTextValue(h, code)) + "\n" + msg
  {
    ErrorBodyFields(h, code, Text(msg));
  }

  /** The status an error response takes is the error's code, or 500 for code 0. */
  lemma ErrorStatusOfError(h: Host, code: int, source: ErrorSource)
    ensures ErrorStatus(Obj(ErrorBody(h, code, source))) == if code != 0 then code else 500
  {
    ErrorBodyFields(h, code, source);
  }

  /** The reason phrase of a 405. */
  lemma Reason405(h: Host)
    requires h.statusText(405) == Some("Method Not Allowed")
    ensures IntToString(405) == "405"
    ensures ToJsString(StatusTextValue(h, 405)) == "Method Not Allowed"
  {
    assert NatToString(40) == "40";
  }

  /** A 405 with message `test message`, asked for as JSON. */
  lemma JsonText405(h: Host)
    requires h.statusText(405) == Some("Method Not Allowed")
    ensures JsonText(Obj(ErrorBody(h, 405, Text("test message"))))
            == "{\"statusCode\":405,\"error\":\"Method Not Allowed\",\"message\":\"test message\"}"
  {
    JsonTextOfError(h, 405, "test message");
    Reason405(h);
    JsonLiteral405();
  }

  lemma JsonLiteral405()
    ensures "{\"statusCode\":" + "405" + ",\"error\":\"" + "Method Not Allowed" + "\",\"message\":\"" + "test message" + "\"}"
            == "{\"statusCode\":405,\"error\":\"Method Not Allowed\",\"message\":\"test message\"}"
  {
    JsonLiteral405Head();
    var c := "{\"statusCode\":405,\"error\":\"Method Not Allowed";
    var d := c + "\",\"message\":\"";
    assert d == "{\"statusCode\":405,\"error\":\"Method Not Allowed\",\"message\":\"";
    var e := d + "test message";
    assert e == "{\"statusCode\":405,\"error\":\"Method Not Allowed\",\"message\":\"test message";
  }

  lemma JsonLiteral405Head()
    ensures "{\"statusCode\":" + "405" + ",\"error\":\"" + "Method Not Allowed"
            == "{\"statusCode\":405,\"error\":\"Method Not Allowed"
  {
    var a := "{\"statusCode\":" + "405";
    assert a == "{\"statusCode\":405";
    var b := a + ",\"error\":\"";
    assert b == "{\"statusCode\":405,\"error\":\"";
  }

  /** A 405 with message `test message`, asked for as plain text. */
  lemma PlainText405(h: Host)
    requires h.statusText(405) == Some("Method Not Allowed")
    ensures PlainText(h, Obj(ErrorBody(h, 405, Text("test message")))) == "405 Method Not Allowed\ntest message"
  {
    PlainTextOfError(h, 405, "test message");
    Reason405(h);
    TextLiteral405();
  }

  lemma TextLiteral405()
    ensures "405" + " " + "Method Not Allowed" + "\n" + "test message" == "405 Method Not Allowed\ntest message"
  {
    var a := "405" + " " + "Method Not Allowed";
    assert a == "405 Method Not Allowed";
    var b := a + "\n";
    assert b == "405 Method Not Allowed\n";
  }

  /** An `Accept` of `application/json` gets JSON, `text/plain` gets text and `text/html` gets HTML. */
  lemma NegotiatedExamples()
    ensures Negotiated(Some("application/json")) == JsonFormat
    ensures Negotiated(Some("text/plain")) == TextFormat
    ensures Negotiated(Some("text/html")) == HtmlFormat
    ensures Negotiated(None) == JsonFormat
  {
    AcceptListed("", Accept.ApplicationJson, "");
    AcceptListed("", Accept.TextHtml, "");
    AcceptListed("", Accept.TextPlain, "");
    ShorterNotContains("text/plain", Accept.ApplicationJson);
    ShorterNotContains("text/html", Accept.ApplicationJson);
    NotContainsHtml();
  }

  lemma NotContainsHtml()
    ensures !AcceptMatch(Some("text/plain"), Accept.TextHtml)
  {
    var a := "text/plain";
    forall i | 0 <= i <= |a| - |Accept.TextHtml|
      ensures !OccursAt(a, Accept.TextHtml, i)
    {
      if i == 0 {
        assert a[0..9][5] == 'p';
      } else {
        assert a[1..10][0] == 'e';
      }
    }
    AcceptAbsent(a, Accept.TextHtml);
  }
}
