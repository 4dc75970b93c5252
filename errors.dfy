/**
 * `ProstoHttpError` (src/errors/http-error.ts), the errors the core throws,
 * and `panic` (src/utils/panic.ts).
 */
module Errors {
  import opened Wrappers
  import opened Js
  import opened Host

  /** The two renderers a response can carry; both are stateless. */
  datatype Renderer = BaseRenderer | HttpErrorRenderer

  /** What an error was built from: a message, or a record that carries one. */
  datatype ErrorSource = Text(text: string) | Record(fields: Props)

  /** The `message` an `Error` built from `source` has. */
  function ErrorMessage(source: ErrorSource): (m: string)
    ensures source.Text? ==> m == source.text
  {
    match source
    case Text(s) => s
    case Record(fs) =>
      var m := Get(fs, "message");
      if m.Undefined? then "" else ToJsString(m)
  }

  /** `httpStatusCodes[code]` as a JavaScript value. */
  function StatusTextValue(h: Host, code: int): JsValue {
    match h.statusText(code)
    case Some(t) => Str(t)
    case None => Undefined
  }

  /**
   * The `body` getter: the fields of a record source, then `statusCode`,
   * `message` and `error` assigned over them.
   */
  function ErrorBody(h: Host, code: int, source: ErrorSource): Props {
    var base := if source.Record? then source.fields else [];
    Put(Put(Put(base, "statusCode", Num(code)), "message", Str(ErrorMessage(source))),
        "error", StatusTextValue(h, code))
  }

  /** Three assignments in a row to distinct keys: each key reads back its own value. */
  lemma PutThree(base: Props, k1: string, v1: JsValue, k2: string, v2: JsValue, k3: string, v3: JsValue)
    requires k1 != k2 && k1 != k3 && k2 != k3
    ensures var b := Put(Put(Put(base, k1, v1), k2, v2), k3, v3);
      Get(b, k1) == v1 && Get(b, k2) == v2 && Get(b, k3) == v3
      && (forall k :: k != k1 && k != k2 && k != k3 ==> Get(b, k) == Get(base, k))
  {
    var b1 := Put(base, k1, v1);
    var b2 := Put(b1, k2, v2);
    GetPutSame(b2, k3, v3);
    GetPutSame(b1, k2, v2);
    GetPutOther(b2, k3, v3, k2);
    GetPutSame(base, k1, v1);
    GetPutOther(b1, k2, v2, k1);
    GetPutOther(b2, k3, v3, k1);
    forall k | k != k1 && k != k2 && k != k3
      ensures Get(Put(b2, k3, v3), k) == Get(base, k)
    {
      GetPutOther(b2, k3, v3, k);
      GetPutOther(b1, k2, v2, k);
      GetPutOther(base, k1, v1, k);
    }
  }

  /**
   * The error body always reports the error's code, its message and the
   * reason phrase of the code, and keeps every other field of a record source.
   */
  lemma ErrorBodyFields(h: Host, code: int, source: ErrorSource)
    ensures Get(ErrorBody(h, code, source), "statusCode") == Num(code)
    ensures Get(ErrorBody(h, code, source), "message") == Str(ErrorMessage(source))
    ensures Get(ErrorBody(h, code, source), "error") == StatusTextValue(h, code)
    ensures source.Record? ==> forall k :: k != "statusCode" && k != "message" && k != "error" ==>
              Get(ErrorBody(h, code, source), k) == Get(source.fields, k)
  {
    var base := if source.Record? then source.fields else [];
    PutThree(base, "statusCode", Num(code), "message", Str(ErrorMessage(source)),
             "error", StatusTextValue(h, code));
  }

  /** A message-only error has exactly the three fields, in the order the object literal lists them. */
  lemma ErrorBodyTextKeys(h: Host, code: int, msg: string)
    ensures Keys(ErrorBody(h, code, Text(msg))) == ["statusCode", "message", "error"]
  {
    var b1: Props := [];
    PutKeys(b1, "statusCode", Num(code));
    var b2 := Put(b1, "statusCode", Num(code));
    PutKeys(b2, "message", Str(msg));
    var b3 := Put(b2, "message", Str(msg));
    PutKeys(b3, "error", StatusTextValue(h, code));
  }

  class ProstoHttpError {
    const code: int
    const source: ErrorSource
    var renderer: Option<Renderer>

    /** `new ProstoHttpError(code = 500, body = '')`. */
    constructor(code: int := 500, source: ErrorSource := Text(""))
      ensures this.code == code && this.source == source && renderer == None
    {
      this.code := code;
      this.source := source;
      renderer := None;
    }

    /** The `message` the error was constructed with. */
    function Message(): string {
      ErrorMessage(source)
    }

    /** The `body` getter. */
    function Body(h: Host): Props {
      ErrorBody(h, code, source)
    }

    method AttachRenderer(r: Renderer)
      requires r.HttpErrorRenderer?
      modifies this
      ensures renderer == Some(r)
    {
      renderer := Some(r);
    }

    function GetRenderer(): (r: Option<Renderer>)
      reads this
      ensures r == renderer
    {
      renderer
    }
  }

  /** An `Error` value: a plain one carries only its message. */
  datatype JsError = PlainError(message: string) | HttpError(err: ProstoHttpError)

  /** `panic(msg)`: the error it returns is a plain `Error` with that message. */
  function Panic(msg: string): (e: JsError)
    ensures e.PlainError? && e.message == msg
  {
    PlainError(msg)
  }
}
