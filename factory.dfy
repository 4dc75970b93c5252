/**
 * `createResponseFrom` (src/response/factory.ts): turns whatever a handler
 * produced into a response to send, or into nothing when the request has
 * already been answered.
 */
module Factory {
  import opened Wrappers
  import opened Strings
  import opened Js
  import opened Host
  import opened Errors
  import opened Context
  import opened ReqRes
  import opened HttpResponse
  import opened ErrorRenderer

  /** What a handler hands back: an ordinary value, an `Error`, or a response it built itself. */
  datatype Returned =
    | Plain(value: JsValue)
    | ErrorValue(error: JsError)
    | ResponseValue(response: BaseHttpResponse)

  /** What calling a handler comes to: the value its promise resolves to, or what it throws. */
  datatype Outcome = Returns(value: Returned) | Throws(error: JsError)

  /**
   * What a call of `createResponseFrom` comes to, as a handler outcome:
   * its panic is thrown, `null` is an ordinary value, a response is returned.
   */
  function OutcomeOf(x: Result<Option<BaseHttpResponse>, JsError>): Outcome {
    match x
    case Failure(e) => Throws(e)
    case Success(None) => Returns(Plain(Null))
    case Success(Some(resp)) => Returns(ResponseValue(resp))
  }

  /** The code of the `ProstoHttpError` an error is answered with: its own, or 500 for a plain `Error`. */
  function ErrorCode(e: JsError): int {
    match e
    case HttpError(err) => err.code
    case PlainError(_) => 500
  }

  /** What that `ProstoHttpError` was built from: its own source, or the plain error's message. */
  function ErrorSourceOf(e: JsError): ErrorSource {
    match e
    case HttpError(err) => err.source
    case PlainError(m) => Text(m)
  }

  /** The body of the response made for an error. */
  function ErrorResponseBody(h: Host, e: JsError): Props {
    ErrorBody(h, ErrorCode(e), ErrorSourceOf(e))
  }

  /**
   * A plain `Error` is answered as a 500 carrying its message; an HTTP
   * error with its own code and message.
   */
  lemma ErrorResponseBodyFields(h: Host, e: JsError)
    ensures e.PlainError? ==>
              Get(ErrorResponseBody(h, e), "statusCode") == Num(500)
              && Get(ErrorResponseBody(h, e), "message") == Str(e.message)
    ensures e.HttpError? ==>
              Get(ErrorResponseBody(h, e), "statusCode") == Num(e.err.code)
              && Get(ErrorResponseBody(h, e), "message") == Str(e.err.Message())
    ensures Get(ErrorResponseBody(h, e), "error") == StatusTextValue(h, ErrorCode(e))
  {
    ErrorBodyFields(h, ErrorCode(e), ErrorSourceOf(e));
  }

  /**
   * The response made for a plain `Error` is rendered with status 500 and,
   * as JSON, reports code 500 and the error's message.
   */
  lemma PlainErrorResponse(h: Host, msg: string)
    ensures ErrorStatus(Obj(ErrorResponseBody(h, PlainError(msg)))) == 500
    ensures JsonText(Obj(ErrorResponseBody(h, PlainError(msg))))
            == "{\"statusCode\":500,\"error\":\"" + ToJsString(StatusTextValue(h, 500))
               + "\",\"message\":\"" + msg + "\"}"
  {
    ErrorStatusOfError(h, 500, Text(msg));
    JsonTextOfError(h, 500, msg);
    Decimal500();
    JsonHead500();
  }

  lemma Decimal500()
    ensures IntToString(500) == "500"
  {
    assert NatToString(5) == "5";
    assert NatToString(50) == "50";
  }

  lemma JsonHead500()
    ensures "{\"statusCode\":" + "500" + ",\"error\":\"" == "{\"statusCode\":500,\"error\":\""
  {
    var a := "{\"statusCode\":" + "500";
    assert a == "{\"statusCode\":500";
  }

  /**
   * `createResponseFrom(data)`: nothing once the request has been answered;
   * otherwise an error response for an `Error`, the response itself for a
   * response, and a fresh response carrying any other value as its body.
   */
  method CreateResponseFrom(slot: HttpContextSlot, data: Returned, h: Host) returns (r: Result<Option<BaseHttpResponse>, JsError>)
    modifies if slot.current.Some? then {slot.current.value.custom} else {}
    ensures slot.current == old(slot.current)
    ensures r.Success? <==> slot.current.Some?
    ensures r.Failure? ==> r.error == Panic(OutsideRequest)
    ensures r.Success? ==>
              var ctx := slot.current.value;
              ctx.custom.entries == UseIn(UseIn(old(ctx.custom.entries), Namespace.Response), Namespace.Status)
              && (HasResponded(ctx) <==> old(HasResponded(ctx)))
              && (HasResponded(ctx) ==> r.value == None)
              && (!HasResponded(ctx) ==> r.value.Some?)
    ensures r.Success? && r.value.Some? ==>
              var resp := r.value.value;
              match data
              case ErrorValue(e) =>
                fresh(resp) && resp.renderer == HttpErrorRenderer
                && resp.body == Obj(ErrorResponseBody(h, e)) && resp.status == 0 && resp.headers == []
              case ResponseValue(x) => resp == x
              case Plain(v) =>
                fresh(resp) && resp.renderer == BaseRenderer
                && resp.body == v && resp.status == 0 && resp.headers == []
  {
    var c := UseResponse(slot);
    if c.Failure? {
      return Failure(c.error);
    }
    var ctx := c.value;
    FieldInUseIn(old(ctx.custom.entries), Namespace.Response, Namespace.Response, "responded");
    FieldInUseIn(UseIn(old(ctx.custom.entries), Namespace.Response), Namespace.Status, Namespace.Response, "responded");
    if HasResponded(ctx) {
      return Success(None);
    }
    match data {
      case ErrorValue(e) =>
        var resp := new BaseHttpResponse(HttpErrorRenderer);
        var httpError: ProstoHttpError;
        match e {
          case HttpError(err) =>
            httpError := err;
          case PlainError(m) =>
            httpError := new ProstoHttpError(500, Text(m));
        }
        resp.SetBody(Obj(httpError.Body(h)));
        r := Success(Some(resp));
      case ResponseValue(x) =>
        r := Success(Some(x));
      case Plain(v) =>
        var resp := new BaseHttpResponse();
        resp.SetBody(v);
        r := Success(Some(resp));
    }
  }
}
