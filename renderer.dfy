/**
 * `BaseHttpResponseRenderer` (src/response/renderer.ts): turns a response
 * body into the text sent, and picks a content type when the response has
 * none of its own.
 */
module ResponseRenderer {
  import opened Wrappers
  import opened Strings
  import opened Js
  import opened Host
  import opened HttpResponse

  const TextPlain := "text/plain"
  const ApplicationJson := "application/json"

  /** The text of a body: a primitive as `toString()`, nothing for undefined, an object as JSON. */
  function BaseText(h: Host, body: JsValue): string {
    match body
    case Undefined => ""
    case Str(_) => ToJsString(body)
    case Bool(_) => ToJsString(body)
    case Num(_) => ToJsString(body)
    case _ => h.jsonStringify(body)
  }

  /** The content type a body calls for: plain text for a primitive, JSON for an object, none for undefined. */
  function BaseType(body: JsValue): Option<string> {
    match body
    case Undefined => None
    case Str(_) => Some(TextPlain)
    case Bool(_) => Some(TextPlain)
    case Num(_) => Some(TextPlain)
    case _ => Some(ApplicationJson)
  }

  /** The headers after rendering: a content type is added only when the response has none. */
  function BaseHeaders(hs: Props, body: JsValue): Props {
    if BaseType(body).Some? && !Truthy(Get(hs, ContentTypeHeader)) then Put(hs, ContentTypeHeader, Str(BaseType(body).value))
    else hs
  }

  /** `render(response)`. */
  method Render(response: BaseHttpResponse, h: Host) returns (s: string)
    modifies response
    ensures s == BaseText(h, response.body)
    ensures response.headers == BaseHeaders(old(response.headers), response.body)
    ensures response.status == old(response.status) && response.body == old(response.body)
  {
    var body := response.body;
    if body.Str? || body.Bool? || body.Num? {
      if !Truthy(response.GetContentType()) {
        response.SetContentType(TextPlain);
      }
      return ToJsString(body);
    }
    if body.Undefined? {
      return "";
    }
    if !Truthy(response.GetContentType()) {
      response.SetContentType(ApplicationJson);
    }
    s := h.jsonStringify(body);
  }

  /**
   * A content type the response already has is never replaced; a body
   * that is defined always leaves with one; no other header changes.
   */
  lemma BaseHeadersKeep(hs: Props, body: JsValue)
    ensures Truthy(Get(hs, ContentTypeHeader)) ==> BaseHeaders(hs, body) == hs
    ensures !body.Undefined? ==> Truthy(Get(BaseHeaders(hs, body), ContentTypeHeader))
    ensures forall k :: k != ContentTypeHeader ==> Get(BaseHeaders(hs, body), k) == Get(hs, k)
  {
    if BaseType(body).Some? && !Truthy(Get(hs, ContentTypeHeader)) {
      GetPutSame(hs, ContentTypeHeader, Str(BaseType(body).value));
      forall k | k != ContentTypeHeader
        ensures Get(BaseHeaders(hs, body), k) == Get(hs, k)
      {
        GetPutOther(hs, ContentTypeHeader, Str(BaseType(body).value), k);
      }
    }
  }

  /** A string body is sent as it is, and only an undefined body (or an empty string) sends nothing. */
  lemma BaseTextOfString(h: Host, s: string)
    ensures BaseText(h, Str(s)) == s
    ensures BaseText(h, Undefined) == ""
  {
  }

  /** A numeric body is sent as decimal text that `parseInt` reads back as the same number. */
  lemma BaseTextOfNumber(h: Host, n: int)
    ensures ParseInt(BaseText(h, Num(n))) == Some(n)
  {
    if n >= 0 {
      ParseIntNatToString(n);
    } else {
      var t := BaseText(h, Num(n));
      assert t == "-" + NatToString(-n);
      assert LeadingSpace(t) == 0;
      assert t[0..] == t;
      assert t[1..] == NatToString(-n);
      ParseUnsignedNatToString(-n);
    }
  }
}
