/**
 * `BaseHttpResponse` (src/response/core.ts): a response under construction,
 * holding its own status, body and headers, and the two steps that fold the
 * request's staged headers, cookies and status into it before it is sent.
 * Rendering and sending (`respond`) are in the Respond module, because the
 * renderers read and update the response.
 */
module HttpResponse {
  import opened Wrappers
  import opened Js
  import opened Host
  import opened Errors
  import opened Context
  import opened ReqRes
  import opened Headers
  import opened Cookies

  const SetCookieHeader := "Set-Cookie"
  const ContentTypeHeader := "Content-Type"

  /** `defaultStatus[method] || 200`: the status of a response with a body and no status of its own. */
  function DefaultStatus(httpMethod: Option<string>): int {
    if httpMethod == Some("POST") || httpMethod == Some("PUT") then 201
    else if httpMethod == Some("PATCH") || httpMethod == Some("DELETE") then 202
    else 200
  }

  /** The default status is always a success code, and a creation only for `POST` and `PUT`. */
  lemma DefaultStatusSuccess(httpMethod: Option<string>)
    ensures 200 <= DefaultStatus(httpMethod) <= 202
    ensures DefaultStatus(httpMethod) == 201 <==> httpMethod == Some("POST") || httpMethod == Some("PUT")
    ensures DefaultStatus(httpMethod) == 202 <==> httpMethod == Some("PATCH") || httpMethod == Some("DELETE")
  {
  }

  /**
   * The status `mergeStatus` settles on: the response's own status, else the
   * code stored through `useResponse().status(code)`, else the method's
   * default when the rendered body is non-empty and 204 when it is empty.
   */
  function MergedStatus(own: int, stored: JsValue, httpMethod: Option<string>, rendered: string): int {
    if own != 0 then own
    else if stored.Num? && stored.n != 0 then stored.n
    else if rendered != "" then DefaultStatus(httpMethod)
    else 204
  }

  /**
   * A merged status is never 0, a status already chosen is kept, and
   * merging a second time changes nothing.
   */
  lemma MergedStatusSettles(own: int, stored: JsValue, httpMethod: Option<string>, rendered: string)
    ensures MergedStatus(own, stored, httpMethod, rendered) != 0
    ensures own != 0 ==> MergedStatus(own, stored, httpMethod, rendered) == own
    ensures var s := MergedStatus(own, stored, httpMethod, rendered);
      MergedStatus(s, stored, httpMethod, rendered) == s
    ensures own == 0 && !Truthy(stored) ==>
              (MergedStatus(own, stored, httpMethod, rendered) == 204 <==> rendered == "")
  {
  }

  /**
   * `[...(v || [])]` on a value of the response's own headers: an array
   * spreads into its items, a string into its characters. The setters only
   * ever store strings and arrays there.
   */
  function SpreadOf(v: JsValue): seq<JsValue> {
    if !Truthy(v) then []
    else if v.Arr? then v.items
    else if v.Str? then seq(|v.s|, i requires 0 <= i < |v.s| => Str([v.s[i]]))
    else []
  }

  function StrsOf(ss: seq<string>): (r: seq<JsValue>)
    ensures |r| == |ss|
    ensures forall i :: 0 <= i < |ss| ==> r[i] == Str(ss[i])
  {
    seq(|ss|, i requires 0 <= i < |ss| => Str(ss[i]))
  }

  /**
   * `mergeHeaders`: the staged headers, overridden by the response's own
   * headers, then `Set-Cookie` as the response's own cookies followed by
   * the staged ones.
   */
  function MergedHeaders(staged: Props, own: Props, cookies: seq<string>): Props {
    Put(Spread(staged, own), SetCookieHeader, Arr(SpreadOf(Get(own, SetCookieHeader)) + StrsOf(cookies)))
  }

  /**
   * In the merged headers the response's own value of a header wins over
   * the staged one, and `Set-Cookie` carries the cookies of both, the
   * response's own first.
   */
  lemma MergedHeadersGet(staged: Props, own: Props, cookies: seq<string>, k: string)
    requires WellFormed(own)
    ensures k != SetCookieHeader ==>
              Get(MergedHeaders(staged, own, cookies), k) == if Has(own, k) then Get(own, k) else Get(staged, k)
    ensures Get(MergedHeaders(staged, own, cookies), SetCookieHeader)
            == Arr(SpreadOf(Get(own, SetCookieHeader)) + StrsOf(cookies))
  {
    var v := Arr(SpreadOf(Get(own, SetCookieHeader)) + StrsOf(cookies));
    GetPutSame(Spread(staged, own), SetCookieHeader, v);
    if k != SetCookieHeader {
      GetPutOther(Spread(staged, own), SetCookieHeader, v, k);
      GetSpread(staged, own, k);
    }
  }

  /**
   * `cookies.push(c)` on `_headers['Set-Cookie'] || []`: the cookie is
   * appended to the array; a string already stored there has no `push`,
   * which is a TypeError.
   */
  function WithCookie(hs: Props, c: string): Result<Props, JsError> {
    var cur := Get(hs, SetCookieHeader);
    if !Truthy(cur) then Success(Put(hs, SetCookieHeader, Arr([Str(c)])))
    else if cur.Arr? then Success(Put(hs, SetCookieHeader, Arr(cur.items + [Str(c)])))
    else Failure(PlainError(NoPush))
  }

  const NoPush := "cookies.push is not a function"

  /**
   * Adding a cookie succeeds exactly when `Set-Cookie` holds no string, keeps
   * every cookie already there and puts the new one last, and leaves every
   * other header as it was.
   */
  lemma WithCookieAppends(hs: Props, c: string)
    ensures WithCookie(hs, c).Success? <==> !Truthy(Get(hs, SetCookieHeader)) || Get(hs, SetCookieHeader).Arr?
    ensures WithCookie(hs, c).Success? ==>
              Get(WithCookie(hs, c).value, SetCookieHeader) == Arr(SpreadOf(Get(hs, SetCookieHeader)) + [Str(c)])
              && forall k :: k != SetCookieHeader ==> Get(WithCookie(hs, c).value, k) == Get(hs, k)
    ensures WithCookie(hs, c).Failure? ==> WithCookie(hs, c).error == PlainError(NoPush)
  {
    var cur := Get(hs, SetCookieHeader);
    if !Truthy(cur) || cur.Arr? {
      var v := Arr(SpreadOf(cur) + [Str(c)]);
      assert SpreadOf(cur) + [Str(c)] == if !Truthy(cur) then [Str(c)] else cur.items + [Str(c)];
      assert WithCookie(hs, c).value == Put(hs, SetCookieHeader, v);
      GetPutSame(hs, SetCookieHeader, v);
      forall k | k != SetCookieHeader
        ensures Get(Put(hs, SetCookieHeader, v), k) == Get(hs, k)
      {
        GetPutOther(hs, SetCookieHeader, v, k);
      }
    }
  }

  class BaseHttpResponse {
    const renderer: Renderer
    var status: int
    var body: JsValue
    var headers: Props

    /** `new BaseHttpResponse(renderer = baseRenderer)`: no status, no body, no headers. */
    constructor(renderer: Renderer := BaseRenderer)
      ensures this.renderer == renderer
      ensures status == 0 && body == Undefined && headers == []
    {
      this.renderer := renderer;
      status := 0;
      body := Undefined;
      headers := [];
    }

    method SetStatus(value: int)
      modifies this
      ensures status == value
      ensures body == old(body) && headers == old(headers)
    {
      status := value;
    }

    method SetBody(value: JsValue)
      modifies this
      ensures body == value
      ensures status == old(status) && headers == old(headers)
    {
      body := value;
    }

    function GetContentType(): JsValue
      reads this
    {
      Get(headers, ContentTypeHeader)
    }

    method SetContentType(value: string)
      modifies this
      ensures headers == Put(old(headers), ContentTypeHeader, Str(value))
      ensures GetContentType() == Str(value)
      ensures status == old(status) && body == old(body)
    {
      Header(ContentTypeHeader, value);
    }

    /** `setCookie(name, value, attrs?)`: the rendered cookie is added to the response's own cookies. */
    method SetCookie(h: Host, name: string, value: string, attrs: Option<Props>) returns (r: Result<(), JsError>)
      modifies this
      ensures var w := WithCookie(old(headers), h.renderCookie(name, CookieData(value, attrs)));
        (r.Success? <==> w.Success?)
        && (w.Success? ==> headers == w.value)
        && (w.Failure? ==> r.error == w.error && headers == old(headers))
      ensures status == old(status) && body == old(body)
    {
      r := SetCookieRaw(h.renderCookie(name, CookieData(value, attrs)));
    }

    /** `setCookieRaw(rawValue)`: the text is added to the response's own cookies as it is. */
    method SetCookieRaw(rawValue: string) returns (r: Result<(), JsError>)
      modifies this
      ensures var w := WithCookie(old(headers), rawValue);
        (r.Success? <==> w.Success?)
        && (w.Success? ==> headers == w.value)
        && (w.Failure? ==> r.error == w.error && headers == old(headers))
      ensures status == old(status) && body == old(body)
    {
      var cookies := Get(headers, SetCookieHeader);
      if !Truthy(cookies) {
        cookies := Arr([]);
      }
      if !cookies.Arr? {
        return Failure(PlainError(NoPush));
      }
      assert cookies.items + [Str(rawValue)] == if !Truthy(Get(headers, SetCookieHeader)) then [Str(rawValue)] else Get(headers, SetCookieHeader).items + [Str(rawValue)];
      headers := Put(headers, SetCookieHeader, Arr(cookies.items + [Str(rawValue)]));
      r := Success(());
    }

    /** `header(name, value)`. */
    method Header(name: string, value: string)
      modifies this
      ensures headers == Put(old(headers), name, Str(value))
      ensures GetHeader(name) == Str(value)
      ensures forall k :: k != name ==> GetHeader(k) == old(GetHeader(k))
      ensures status == old(status) && body == old(body)
    {
      headers := Put(headers, name, Str(value));
      GetPutSame(old(headers), name, Str(value));
      forall k | k != name
        ensures Get(headers, k) == Get(old(headers), k)
      {
        GetPutOther(old(headers), name, Str(value), k);
      }
    }

    /** `setHeader(name, value)`: the same as `header`. */
    method SetHeader(name: string, value: string)
      modifies this
      ensures headers == Put(old(headers), name, Str(value))
      ensures status == old(status) && body == old(body)
    {
      Header(name, value);
    }

    function GetHeader(name: string): JsValue
      reads this
    {
      Get(headers, name)
    }

    /** `mergeHeaders()`: obtains the staged headers and cookies of the current request and folds them in. */
    method MergeHeaders(slot: HttpContextSlot, h: Host) returns (r: Result<(), JsError>)
      modifies this, if slot.current.Some? then {slot.current.value.custom} else {}
      ensures slot.current == old(slot.current)
      ensures r.Success? <==> slot.current.Some?
      ensures r.Failure? ==> r.error == Panic(OutsideRequest) && headers == old(headers)
      ensures r.Success? ==>
                var ctx := slot.current.value;
                ctx.custom.entries == UseIn(UseIn(old(ctx.custom.entries), Namespace.SetHeader), SetCookies)
                && headers == MergedHeaders(StagedHeaders(ctx), old(headers), CookiesOf(ctx, h))
      ensures status == old(status) && body == old(body)
    {
      var sh := UseSetHeaders(slot);
      if sh.Failure? {
        return Failure(sh.error);
      }
      var sc := UseSetCookies(slot);
      var ctx := sc.value;
      headers := MergedHeaders(StagedHeaders(ctx), headers, CookiesOf(ctx, h));
      r := Success(());
    }

    /**
     * `mergeStatus(renderedBody)`: a response without a status takes the
     * stored status code, else a default that depends on the method and on
     * whether the body is empty.
     */
    method MergeStatus(slot: HttpContextSlot, rendered: string) returns (r: Result<(), JsError>)
      requires slot.current.Some? ==> slot.current.value.custom.Sound(Namespace.Status)
      modifies this, if slot.current.Some? then {slot.current.value.custom} else {}
      ensures slot.current == old(slot.current)
      ensures r.Success? <==> old(status) != 0 || slot.current.Some?
      ensures r.Failure? ==> r.error == Panic(OutsideRequest) && status == old(status)
      ensures old(status) != 0 ==> status == old(status)
      ensures old(status) != 0 && slot.current.Some? ==>
                slot.current.value.custom.entries == old(slot.current.value.custom.entries)
      ensures old(status) == 0 && slot.current.Some? ==>
                var ctx := slot.current.value;
                var code := old(ctx.custom.Field(Namespace.Status, "code"));
                status == MergedStatus(0, code, Method(ctx), rendered)
                && ctx.custom.entries
                   == var st := UseIn(UseIn(old(ctx.custom.entries), Namespace.Response), Namespace.Status);
                      if code.Num? && code.n != 0 then st else UseIn(st, Namespace.Body)
      ensures body == old(body) && headers == old(headers)
    {
      if status == 0 {
        var code := StoredStatus(slot);
        if code.Failure? {
          return Failure(code.error);
        }
        status := if code.value.Num? && code.value.n != 0 then code.value.n else 0;
        if status == 0 {
          var c := UseRequest(slot);
          status := if rendered != "" then DefaultStatus(Method(c.value)) else 204;
        }
      }
      r := Success(());
    }
  }

  /** `useResponse().status()`: the status code stored for the current request. */
  method StoredStatus(slot: HttpContextSlot) returns (r: Result<JsValue, JsError>)
    requires slot.current.Some? ==> slot.current.value.custom.Sound(Namespace.Status)
    modifies if slot.current.Some? then {slot.current.value.custom} else {}
    ensures slot.current == old(slot.current)
    ensures r.Success? <==> slot.current.Some?
    ensures r.Failure? ==> r.error == Panic(OutsideRequest)
    ensures r.Success? ==>
              var ctx := slot.current.value;
              r.value == old(ctx.custom.Field(Namespace.Status, "code"))
              && ctx.custom.entries
                 == UseIn(UseIn(old(ctx.custom.entries), Namespace.Response), Namespace.Status)
  {
    var c := UseResponse(slot);
    if c.Failure? {
      return Failure(c.error);
    }
    var ctx := c.value;
    ghost var st0 := old(ctx.custom.entries);
    ghost var st1 := UseIn(st0, Namespace.Response);
    KeyInjective(Namespace.Response, Namespace.Status);
    GetPutOther(st0, Key(Namespace.Response), UsedValue(ValueIn(st0, Namespace.Response)), Key(Namespace.Status));
    GetPutSame(st1, Key(Namespace.Status), UsedValue(ValueIn(st1, Namespace.Status)));
    FieldInUseIn(st0, Namespace.Response, Namespace.Status, "code");
    FieldInUseIn(st1, Namespace.Status, Namespace.Status, "code");
    var code := StatusCode(ctx);
    UseInIdempotent(st1, Namespace.Status);
    r := Success(code);
  }
}
