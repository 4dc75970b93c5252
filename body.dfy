/**
 * `useBody` and `registerBodyCompressor` (src/composables/body.ts): the
 * request body's content-type tests, the `Content-Encoding` list and the
 * body decoder, each memoised in the `'body'` cache that `useRequest`
 * shares for the raw body.
 */
module BodyParser {
  import opened Wrappers
  import opened Strings
  import opened Js
  import opened Host
  import opened Context
  import opened Errors
  import opened ReqRes
  import opened FormParams
  import opened FormData

  /**
   * The MIME names the tests use; the `contentTypes` table they come from
   * (src/content-types.ts) is not part of this model.
   */
  const ApplicationJson := "application/json"
  const TextHtml := "text/html"
  const TextXml := "text/xml"
  const TextPlain := "text/plain"
  const MultipartFormData := "multipart/form-data"
  const UrlEncoded := "application/x-www-form-urlencoded"

  /** The request's `content-type` header. */
  function ContentType(ctx: HttpContext): Option<string> {
    Header(ctx.req, "content-type")
  }

  /** The request's `content-encoding` header. */
  function ContentEncoding(ctx: HttpContext): Option<string> {
    Header(ctx.req, "content-encoding")
  }

  /**
   * `contentIs(type)`: the Content-Type header, a missing one read as the
   * empty string, contains `type` (case-sensitively).
   */
  function ContentIs(contentType: Option<string>, t: string): (b: bool)
    ensures b <==> exists i :: OccursAt(contentType.GetOr(""), t, i)
  {
    ContainsIff(contentType.GetOr(""), t);
    Contains(contentType.GetOr(""), t)
  }

  // ---------------------------------------------------------------------------
  // Content-Encoding

  /** `.filter(p => !!p)`. */
  function NonEmpty(ps: seq<string>): (r: seq<string>)
    ensures forall i :: 0 <= i < |r| ==> r[i] != "" && r[i] in ps
  {
    if ps == [] then []
    else if ps[0] == "" then NonEmpty(ps[1..])
    else [ps[0]] + NonEmpty(ps[1..])
  }

  /** `.map(p => p.trim())`. */
  function TrimEach(ps: seq<string>): (r: seq<string>)
    ensures |r| == |ps| && forall i :: 0 <= i < |ps| ==> r[i] == Trim(ps[i])
  {
    seq(|ps|, i requires 0 <= i < |ps| => Trim(ps[i]))
  }

  /** `(contentEncoding || '').split(',').map(p => p.trim()).filter(p => !!p)`. */
  function EncodingList(contentEncoding: Option<string>): seq<string> {
    NonEmpty(TrimEach(Split(contentEncoding.GetOr(""), ",")))
  }

  /** The list as the array the cache holds. */
  function EncodingsValue(contentEncoding: Option<string>): JsValue {
    var l := EncodingList(contentEncoding);
    Arr(seq(|l|, i requires 0 <= i < |l| => Str(l[i])))
  }

  /** Every listed encoding is non-empty, has no outer white space and no comma. */
  lemma EncodingListClean(contentEncoding: Option<string>)
    ensures forall e :: e in EncodingList(contentEncoding) ==>
              e != "" && Trim(e) == e && !Contains(e, ",")
  {
    var pieces := Split(contentEncoding.GetOr(""), ",");
    SplitPiecesFree(contentEncoding.GetOr(""), ",");
    forall e | e in EncodingList(contentEncoding)
      ensures e != "" && Trim(e) == e && !Contains(e, ",")
    {
      PieceClean(pieces, e);
    }
  }

  /** A kept piece of comma-free pieces is clean. */
  lemma PieceClean(pieces: seq<string>, e: string)
    requires forall p :: p in pieces ==> !Contains(p, ",")
    requires e in NonEmpty(TrimEach(pieces))
    ensures e != "" && Trim(e) == e && !Contains(e, ",")
  {
    var trimmed := TrimEach(pieces);
    var i :| 0 <= i < |trimmed| && trimmed[i] == e;
    TrimmedClean(pieces[i]);
  }

  /** Trimming a piece with no comma gives a piece that stays so under trimming. */
  lemma TrimmedClean(p: string)
    requires !Contains(p, ",")
    ensures Trim(Trim(p)) == Trim(p) && !Contains(Trim(p), ",")
  {
    TrimIdempotent(p);
    var l := LeadingSpace(p);
    SliceNotContains(p, ",", l, l + |Trim(p)|);
  }

  /** Clean names already in a list keep their own filter. */
  lemma {:induction false} NonEmptyKeeps(ps: seq<string>)
    requires forall i :: 0 <= i < |ps| ==> ps[i] != ""
    decreases |ps|
    ensures NonEmpty(ps) == ps
  {
    if ps != [] {
      NonEmptyKeeps(ps[1..]);
    }
  }

  /** Trimming names that have no outer white space leaves the list as it is. */
  lemma TrimEachClean(es: seq<string>)
    requires forall i :: 0 <= i < |es| ==> Trim(es[i]) == es[i]
    ensures TrimEach(es) == es
  {
  }

  /**
   * A header written as clean names separated by commas lists exactly
   * those names, in order.
   */
  lemma EncodingListOfJoin(es: seq<string>)
    requires forall i :: 0 <= i < |es| ==> es[i] != "" && Trim(es[i]) == es[i] && !Contains(es[i], ",")
    ensures EncodingList(Some(Join(es, ","))) == es
  {
    var header := Join(es, ",");
    assert Some(header).GetOr("") == header;
    if es == [] {
      EmptySplit();
    } else {
      SplitJoin(es, ",");
      TrimEachClean(es);
      NonEmptyKeeps(es);
    }
  }

  lemma EmptySplit()
    ensures NonEmpty(TrimEach(Split("", ","))) == []
  {
    assert Split("", ",") == [""];
    TrimNoop("");
    assert TrimEach([""]) == [""];
  }

  /** `identity` alone is the list `['identity']`. */
  lemma EncodingListIdentity()
    ensures EncodingList(Some("identity")) == ["identity"]
  {
    var e := "identity";
    assert !Contains(e, ",") by {
      forall i ensures !OccursAt(e, ",", i) {
        if 0 <= i < |e| {
          assert e[i..i + 1] == [e[i]];
        }
      }
    }
    TrimNoop(e);
    assert Join([e], ",") == e;
    EncodingListOfJoin([e]);
  }

  /** The encodings `isCompressed()` counts as compressions. */
  const Compressions := ["deflate", "gzip", "br"]

  /** `['deflate', 'gzip', 'br'].includes(p)`. */
  predicate IsCompression(p: JsValue) {
    p.Str? && p.s in Compressions
  }

  /**
   * What `isCompressed()` leaves in the cache for an encodings array: left
   * undefined when it is empty, otherwise whether any entry is a
   * compression.
   */
  function CompressedFlag(parts: seq<JsValue>): JsValue {
    if parts == [] then Undefined
    else Bool(exists i :: 0 <= i < |parts| && IsCompression(parts[i]))
  }

  // ---------------------------------------------------------------------------
  // The cache

  /** `useBody()`: the `'body'` cache, obtained directly, through `useRequest` and through `useHeaders`. */
  method UseBody(slot: HttpContextSlot) returns (r: Result<HttpContext, JsError>)
    modifies if slot.current.Some? then {slot.current.value.custom} else {}
    ensures slot.current == old(slot.current)
    ensures r.Success? <==> slot.current.Some?
    ensures r.Failure? ==> r.error == Panic(OutsideRequest)
    ensures r.Success? ==>
              (r.value == slot.current.value
               && r.value.custom.entries == UseAll(old(r.value.custom.entries), [Body, Body, Body]))
  {
    r := UseCaches(slot, [Body, Body, Body]);
  }

  /** What the request determines for the cached fields the decoder reads; None for the others. */
  function Expected(req: Request, f: string): Option<JsValue> {
    var ct := Header(req, "content-type");
    if f == "isJson" then Some(Bool(ContentIs(ct, ApplicationJson)))
    else if f == "isHtml" then Some(Bool(ContentIs(ct, TextHtml)))
    else if f == "isXml" then Some(Bool(ContentIs(ct, TextXml)))
    else if f == "isText" then Some(Bool(ContentIs(ct, TextPlain)))
    else if f == "isFormData" then Some(Bool(ContentIs(ct, MultipartFormData)))
    else if f == "isUrlencoded" then Some(Bool(ContentIs(ct, UrlEncoded)))
    else if f == "contentEncodings" then Some(EncodingsValue(Header(req, "content-encoding")))
    else if f == "isCompressed" then Some(CompressedFlag(EncodingsValue(Header(req, "content-encoding")).items))
    else None
  }

  /** A cached field is either not computed yet or holds what it would be computed as. */
  predicate Agrees(st: Props, req: Request, f: string)
    requires Expected(req, f).Some?
  {
    FieldIn(st, Body, f).Undefined? || FieldIn(st, Body, f) == Expected(req, f).value
  }

  /**
   * The memoised content-type tests, encodings list and compression flag
   * hold nothing but what the request headers determine. Every memoising method keeps this.
   * The raw body is not constrained: a caller may seed it.
   */
  predicate ConsistentIn(req: Request, st: Props) {
    Agrees(st, req, "isJson") && Agrees(st, req, "isHtml") && Agrees(st, req, "isXml") && Agrees(st, req, "isText")
    && Agrees(st, req, "isFormData") && Agrees(st, req, "isUrlencoded") && Agrees(st, req, "contentEncodings")
    && Agrees(st, req, "isCompressed")
  }

  predicate Consistent(ctx: HttpContext)
    reads ctx.custom
  {
    ConsistentIn(ctx.req, ctx.custom.entries)
  }

  /** A request's `'body'` cache, when first handed out, holds nothing memoised and so is consistent. */
  lemma FreshConsistent(req: Request, st: Props)
    requires !Truthy(ValueIn(st, Body))
    ensures ConsistentIn(req, UseIn(st, Body))
  {
    GetPutSame(st, Key(Body), Obj([]));
  }

  /** Storing what the request determines, or any field the decoder does not read, keeps the cache consistent. */
  lemma ConsistentAfterWrite(req: Request, st: Props, f: string, v: JsValue)
    requires ConsistentIn(req, st)
    requires Expected(req, f).None? || Expected(req, f) == Some(v)
    ensures ConsistentIn(req, WithField(st, Body, f, v))
  {
    AgreesAfterWrite(req, st, f, v, "isJson");
    AgreesAfterWrite(req, st, f, v, "isHtml");
    AgreesAfterWrite(req, st, f, v, "isXml");
    AgreesAfterWrite(req, st, f, v, "isText");
    AgreesAfterWrite(req, st, f, v, "isFormData");
    AgreesAfterWrite(req, st, f, v, "isUrlencoded");
    AgreesAfterWrite(req, st, f, v, "contentEncodings");
    AgreesAfterWrite(req, st, f, v, "isCompressed");
  }

  /** One memoised field still agrees with the request after a write that keeps the cache consistent. */
  lemma AgreesAfterWrite(req: Request, st: Props, f: string, v: JsValue, g: string)
    requires Expected(req, g).Some? && Agrees(st, req, g)
    requires Expected(req, f).None? || Expected(req, f) == Some(v)
    ensures Agrees(WithField(st, Body, f, v), req, g)
  {
    if g == f {
      FieldInWithFieldSame(st, Body, f, v);
    } else {
      FieldInWithFieldOther(st, Body, f, v, Body, g);
    }
  }

  /** Writing one field of the cache leaves every other field as it was. */
  lemma OtherFieldsKept(st: Props, f: string, v: JsValue)
    ensures forall g :: g != f ==> FieldIn(WithField(st, Body, f, v), Body, g) == FieldIn(st, Body, g)
  {
    forall g | g != f
      ensures FieldIn(WithField(st, Body, f, v), Body, g) == FieldIn(st, Body, g)
    {
      FieldInWithFieldOther(st, Body, f, v, Body, g);
    }
  }

  /** A consistent cache holds, in any field the request determines, nothing but that value or nothing yet. */
  lemma CachedAgrees(req: Request, st: Props, f: string)
    requires ConsistentIn(req, st) && Expected(req, f).Some?
    ensures FieldIn(st, Body, f).Undefined? || FieldIn(st, Body, f) == Expected(req, f).value
  {
    assert f in {"isJson", "isHtml", "isXml", "isText", "isFormData", "isUrlencoded", "contentEncodings", "isCompressed"};
    assert Agrees(st, req, f);
  }

  // ---------------------------------------------------------------------------
  // The 'body' cache after each step

  /** `if (typeof cache[f] === 'undefined') cache[f] = v`, on the `'body'` cache. */
  function MemoIn(st: Props, f: string, v: JsValue): Props {
    if FieldIn(st, Body, f).Undefined? then WithField(st, Body, f, v) else st
  }

  /** The cache after `contentEncodings()`. */
  function EncodingsStore(st: Props, req: Request): Props {
    MemoIn(st, "contentEncodings", EncodingsValue(Header(req, "content-encoding")))
  }

  /** The entries `isCompressed()` scans: the cached encodings list. */
  function EncodingItems(st: Props): seq<JsValue> {
    var parts := FieldIn(st, Body, "contentEncodings");
    if parts.Arr? then parts.items else []
  }

  /** The cache after `isCompressed()` on a cache without the flag: the flag is written only when there is an entry. */
  function CompressedStore(st: Props, req: Request): Props {
    var listed := EncodingsStore(st, req);
    if EncodingItems(listed) == [] then listed
    else WithField(listed, Body, "isCompressed", CompressedFlag(EncodingItems(listed)))
  }

  /** The cache after `contentEncodings()` and `rawBody()`. */
  function RawReadStore(st: Props, req: Request): Props {
    MemoIn(EncodingsStore(st, req), "value", Str(req.body))
  }

  /** The cache after the non-JSON content-type tests: `isFormData()`, then `isUrlencoded()` unless that held. */
  function NonJsonStore(st: Props, req: Request): Props {
    var ct := Header(req, "content-type");
    var tested := MemoIn(st, "isFormData", Bool(ContentIs(ct, MultipartFormData)));
    if Truthy(FieldIn(tested, Body, "isFormData")) then tested
    else MemoIn(tested, "isUrlencoded", Bool(ContentIs(ct, UrlEncoded)))
  }

  /** The cache after the content-type tests: `isJson()`, then the others unless that held. */
  function DecodeStore(st: Props, req: Request): Props {
    var tested := MemoIn(st, "isJson", Bool(ContentIs(Header(req, "content-type"), ApplicationJson)));
    if Truthy(FieldIn(tested, Body, "isJson")) then tested else NonJsonStore(tested, req)
  }

  /** The cache after reading, uncompressing and decoding, before `parsed` is written. */
  function ReadStore(st: Props, req: Request, h: Host): Props {
    var encodings := FieldIn(EncodingsStore(st, req), Body, "contentEncodings");
    var read := RawReadStore(st, req);
    if h.uncompress(encodings, RawText(FieldIn(st, Body, "value"), req)).Failure? then read
    else DecodeStore(read, req)
  }

  /** The cache after `parseBody()` settles with `r`: a decoded body is kept in `parsed`. */
  function ParsedStore(st: Props, r: Result<JsValue, JsError>): Props {
    if r.Success? then WithField(st, Body, "parsed", r.value) else st
  }

  /** The fields of `'body'` that `parseBody()` may write. */
  const ParseFields: set<string> := {"value", "contentEncodings", "isJson", "isFormData", "isUrlencoded", "parsed"}

  /** Memoising one field of `'body'` leaves every other field and every other cache as it was. */
  lemma MemoInOther(st: Props, f: string, v: JsValue, ns: Namespace, g: string)
    requires ns != Body || g != f
    ensures FieldIn(MemoIn(st, f, v), ns, g) == FieldIn(st, ns, g)
    ensures ns != Body ==> ValueIn(MemoIn(st, f, v), ns) == ValueIn(st, ns)
  {
    if FieldIn(st, Body, f).Undefined? {
      FieldInWithFieldOther(st, Body, f, v, ns, g);
      if ns != Body {
        ValueInWithFieldOther(st, Body, f, v, ns);
      }
    }
  }

  /** Reading the raw body writes nothing but `contentEncodings` and `value`. */
  lemma RawReadFrame(st: Props, req: Request, ns: Namespace, g: string)
    requires ns != Body || (g != "contentEncodings" && g != "value")
    ensures FieldIn(RawReadStore(st, req), ns, g) == FieldIn(st, ns, g)
    ensures ns != Body ==> ValueIn(RawReadStore(st, req), ns) == ValueIn(st, ns)
  {
    MemoInOther(st, "contentEncodings", EncodingsValue(Header(req, "content-encoding")), ns, g);
    MemoInOther(EncodingsStore(st, req), "value", Str(req.body), ns, g);
  }

  /** The content-type tests write nothing but `isJson`, `isFormData` and `isUrlencoded`. */
  lemma DecodeFrame(st: Props, req: Request, ns: Namespace, g: string)
    requires ns != Body || (g != "isJson" && g != "isFormData" && g != "isUrlencoded")
    ensures FieldIn(DecodeStore(st, req), ns, g) == FieldIn(st, ns, g)
    ensures ns != Body ==> ValueIn(DecodeStore(st, req), ns) == ValueIn(st, ns)
  {
    var ct := Header(req, "content-type");
    var json := MemoIn(st, "isJson", Bool(ContentIs(ct, ApplicationJson)));
    MemoInOther(st, "isJson", Bool(ContentIs(ct, ApplicationJson)), ns, g);
    var form := MemoIn(json, "isFormData", Bool(ContentIs(ct, MultipartFormData)));
    MemoInOther(json, "isFormData", Bool(ContentIs(ct, MultipartFormData)), ns, g);
    MemoInOther(form, "isUrlencoded", Bool(ContentIs(ct, UrlEncoded)), ns, g);
    assert DecodeStore(st, req) == json || DecodeStore(st, req) == form
      || DecodeStore(st, req) == MemoIn(form, "isUrlencoded", Bool(ContentIs(ct, UrlEncoded)));
  }

  /**
   * `parseBody()` writes nothing but its own fields of `'body'`: every
   * other field and every other cache is as it was.
   */
  lemma ParseStoreFrame(st: Props, req: Request, h: Host, v: JsValue, ns: Namespace, g: string)
    requires ns != Body || g !in ParseFields
    ensures FieldIn(ReadStore(st, req, h), ns, g) == FieldIn(st, ns, g)
    ensures FieldIn(WithField(ReadStore(st, req, h), Body, "parsed", v), ns, g) == FieldIn(st, ns, g)
    ensures ns != Body ==> ValueIn(ReadStore(st, req, h), ns) == ValueIn(st, ns)
    ensures ns != Body ==> ValueIn(WithField(ReadStore(st, req, h), Body, "parsed", v), ns) == ValueIn(st, ns)
  {
    var read := RawReadStore(st, req);
    RawReadFrame(st, req, ns, g);
    DecodeFrame(read, req, ns, g);
    var done := ReadStore(st, req, h);
    assert done == read || done == DecodeStore(read, req);
    FieldInWithFieldOther(done, Body, "parsed", v, ns, g);
    if ns != Body {
      ValueInWithFieldOther(done, Body, "parsed", v, ns);
    }
  }

  /**
   * The memoising step shared by the content-type tests and `contentEncodings()`:
   * the cached field `f`, or else `v` stored there.
   */
  method Memoise(ctx: HttpContext, f: string, v: JsValue) returns (b: JsValue)
    requires ctx.custom.Value(Body).Obj?
    requires Expected(ctx.req, f).None? || Expected(ctx.req, f) == Some(v)
    modifies ctx.custom
    ensures ctx.custom.Value(Body).Obj?
    ensures old(ctx.custom.Field(Body, f)).Undefined? ==>
              b == v && ctx.custom.entries == WithField(old(ctx.custom.entries), Body, f, b)
    ensures !old(ctx.custom.Field(Body, f)).Undefined? ==>
              b == old(ctx.custom.Field(Body, f)) && ctx.custom.entries == old(ctx.custom.entries)
    ensures ctx.custom.Field(Body, f) == b
    ensures forall g :: g != f ==> ctx.custom.Field(Body, g) == old(ctx.custom.Field(Body, g))
    ensures old(Consistent(ctx)) && Expected(ctx.req, f).Some? ==> b == v && Consistent(ctx)
    ensures old(Consistent(ctx)) ==> Consistent(ctx)
    ensures ctx.custom.entries == MemoIn(old(ctx.custom.entries), f, v)
  {
    if ctx.custom.Field(Body, f).Undefined? {
      ghost var before := ctx.custom.entries;
      ctx.custom.SetField(Body, f, v);
      FieldInWithFieldSame(before, Body, f, v);
      OtherFieldsKept(before, f, v);
      if ConsistentIn(ctx.req, before) {
        ConsistentAfterWrite(ctx.req, before, f, v);
      }
    } else if ConsistentIn(ctx.req, ctx.custom.entries) && Expected(ctx.req, f).Some? {
      CachedAgrees(ctx.req, ctx.custom.entries, f);
    }
    b := ctx.custom.Field(Body, f);
  }

  /**
   * `isJson()` and its siblings: the cached answer, or else whether the
   * Content-Type contains `t`, stored in field `f`.
   */
  method IsType(ctx: HttpContext, f: string, t: string) returns (b: JsValue)
    requires ctx.custom.Value(Body).Obj?
    requires Expected(ctx.req, f).None? || Expected(ctx.req, f) == Some(Bool(ContentIs(ContentType(ctx), t)))
    modifies ctx.custom
    ensures ctx.custom.Value(Body).Obj?
    ensures old(ctx.custom.Field(Body, f)).Undefined? ==>
              b == Bool(ContentIs(ContentType(ctx), t))
              && ctx.custom.entries == WithField(old(ctx.custom.entries), Body, f, b)
    ensures !old(ctx.custom.Field(Body, f)).Undefined? ==>
              b == old(ctx.custom.Field(Body, f)) && ctx.custom.entries == old(ctx.custom.entries)
    ensures ctx.custom.Field(Body, f) == b
    ensures forall g :: g != f ==> ctx.custom.Field(Body, g) == old(ctx.custom.Field(Body, g))
    ensures old(Consistent(ctx)) ==> Consistent(ctx)
  {
    b := Memoise(ctx, f, Bool(ContentIs(ContentType(ctx), t)));
  }

  /** `isJson()`: whether the Content-Type names JSON, memoised in `isJson`. */
  method IsJson(ctx: HttpContext) returns (b: JsValue)
    requires ctx.custom.Value(Body).Obj?
    modifies ctx.custom
    ensures ctx.custom.Value(Body).Obj?
    ensures old(ctx.custom.Field(Body, "isJson")).Undefined? ==>
              b == Bool(ContentIs(ContentType(ctx), ApplicationJson))
              && ctx.custom.entries == WithField(old(ctx.custom.entries), Body, "isJson", b)
    ensures !old(ctx.custom.Field(Body, "isJson")).Undefined? ==>
              b == old(ctx.custom.Field(Body, "isJson")) && ctx.custom.entries == old(ctx.custom.entries)
    ensures ctx.custom.Field(Body, "isJson") == b
    ensures forall g :: g != "isJson" ==> ctx.custom.Field(Body, g) == old(ctx.custom.Field(Body, g))
    ensures old(Consistent(ctx)) ==> b == Bool(ContentIs(ContentType(ctx), ApplicationJson)) && Consistent(ctx)
  {
    b := IsType(ctx, "isJson", ApplicationJson);
  }

  /** `isHtml()`: whether the Content-Type names HTML, memoised in `isHtml`. */
  method IsHtml(ctx: HttpContext) returns (b: JsValue)
    requires ctx.custom.Value(Body).Obj?
    modifies ctx.custom
    ensures ctx.custom.Value(Body).Obj?
    ensures old(ctx.custom.Field(Body, "isHtml")).Undefined? ==>
              b == Bool(ContentIs(ContentType(ctx), TextHtml))
              && ctx.custom.entries == WithField(old(ctx.custom.entries), Body, "isHtml", b)
    ensures !old(ctx.custom.Field(Body, "isHtml")).Undefined? ==>
              b == old(ctx.custom.Field(Body, "isHtml")) && ctx.custom.entries == old(ctx.custom.entries)
    ensures ctx.custom.Field(Body, "isHtml") == b
    ensures forall g :: g != "isHtml" ==> ctx.custom.Field(Body, g) == old(ctx.custom.Field(Body, g))
    ensures old(Consistent(ctx)) ==> b == Bool(ContentIs(ContentType(ctx), TextHtml)) && Consistent(ctx)
  {
    b := IsType(ctx, "isHtml", TextHtml);
  }

  /** `isXml()`: whether the Content-Type names XML, memoised in `isXml`. */
  method IsXml(ctx: HttpContext) returns (b: JsValue)
    requires ctx.custom.Value(Body).Obj?
    modifies ctx.custom
    ensures ctx.custom.Value(Body).Obj?
    ensures old(ctx.custom.Field(Body, "isXml")).Undefined? ==>
              b == Bool(ContentIs(ContentType(ctx), TextXml))
              && ctx.custom.entries == WithField(old(ctx.custom.entries), Body, "isXml", b)
    ensures !old(ctx.custom.Field(Body, "isXml")).Undefined? ==>
              b == old(ctx.custom.Field(Body, "isXml")) && ctx.custom.entries == old(ctx.custom.entries)
    ensures ctx.custom.Field(Body, "isXml") == b
    ensures forall g :: g != "isXml" ==> ctx.custom.Field(Body, g) == old(ctx.custom.Field(Body, g))
    ensures old(Consistent(ctx)) ==> b == Bool(ContentIs(ContentType(ctx), TextXml)) && Consistent(ctx)
  {
    b := IsType(ctx, "isXml", TextXml);
  }

  /** `isText()`: whether the Content-Type names plain text, memoised in `isText`. */
  method IsText(ctx: HttpContext) returns (b: JsValue)
    requires ctx.custom.Value(Body).Obj?
    modifies ctx.custom
    ensures ctx.custom.Value(Body).Obj?
    ensures old(ctx.custom.Field(Body, "isText")).Undefined? ==>
              b == Bool(ContentIs(ContentType(ctx), TextPlain))
              && ctx.custom.entries == WithField(old(ctx.custom.entries), Body, "isText", b)
    ensures !old(ctx.custom.Field(Body, "isText")).Undefined? ==>
              b == old(ctx.custom.Field(Body, "isText")) && ctx.custom.entries == old(ctx.custom.entries)
    ensures ctx.custom.Field(Body, "isText") == b
    ensures forall g :: g != "isText" ==> ctx.custom.Field(Body, g) == old(ctx.custom.Field(Body, g))
    ensures old(Consistent(ctx)) ==> b == Bool(ContentIs(ContentType(ctx), TextPlain)) && Consistent(ctx)
  {
    b := IsType(ctx, "isText", TextPlain);
  }

  /** `isFormData()`: whether the Content-Type names multipart form data, memoised in `isFormData`. */
  method IsFormData(ctx: HttpContext) returns (b: JsValue)
    requires ctx.custom.Value(Body).Obj?
    modifies ctx.custom
    ensures ctx.custom.Value(Body).Obj?
    ensures old(ctx.custom.Field(Body, "isFormData")).Undefined? ==>
              b == Bool(ContentIs(ContentType(ctx), MultipartFormData))
              && ctx.custom.entries == WithField(old(ctx.custom.entries), Body, "isFormData", b)
    ensures !old(ctx.custom.Field(Body, "isFormData")).Undefined? ==>
              b == old(ctx.custom.Field(Body, "isFormData")) && ctx.custom.entries == old(ctx.custom.entries)
    ensures ctx.custom.Field(Body, "isFormData") == b
    ensures forall g :: g != "isFormData" ==> ctx.custom.Field(Body, g) == old(ctx.custom.Field(Body, g))
    ensures old(Consistent(ctx)) ==> b == Bool(ContentIs(ContentType(ctx), MultipartFormData)) && Consistent(ctx)
  {
    b := IsType(ctx, "isFormData", MultipartFormData);
  }

  /** `isUrlencoded()`: whether the Content-Type names URL-encoded form data, memoised in `isUrlencoded`. */
  method IsUrlencoded(ctx: HttpContext) returns (b: JsValue)
    requires ctx.custom.Value(Body).Obj?
    modifies ctx.custom
    ensures ctx.custom.Value(Body).Obj?
    ensures old(ctx.custom.Field(Body, "isUrlencoded")).Undefined? ==>
              b == Bool(ContentIs(ContentType(ctx), UrlEncoded))
              && ctx.custom.entries == WithField(old(ctx.custom.entries), Body, "isUrlencoded", b)
    ensures !old(ctx.custom.Field(Body, "isUrlencoded")).Undefined? ==>
              b == old(ctx.custom.Field(Body, "isUrlencoded")) && ctx.custom.entries == old(ctx.custom.entries)
    ensures ctx.custom.Field(Body, "isUrlencoded") == b
    ensures forall g :: g != "isUrlencoded" ==> ctx.custom.Field(Body, g) == old(ctx.custom.Field(Body, g))
    ensures old(Consistent(ctx)) ==> b == Bool(ContentIs(ContentType(ctx), UrlEncoded)) && Consistent(ctx)
  {
    b := IsType(ctx, "isUrlencoded", UrlEncoded);
  }

  /** `contentEncodings()`: the cached list, or the header's list, stored. */
  method ContentEncodings(ctx: HttpContext) returns (e: JsValue)
    requires ctx.custom.Value(Body).Obj?
    modifies ctx.custom
    ensures ctx.custom.Value(Body).Obj?
    ensures old(ctx.custom.Field(Body, "contentEncodings")).Undefined? ==>
              e == EncodingsValue(ContentEncoding(ctx))
              && ctx.custom.entries == WithField(old(ctx.custom.entries), Body, "contentEncodings", e)
    ensures !old(ctx.custom.Field(Body, "contentEncodings")).Undefined? ==>
              e == old(ctx.custom.Field(Body, "contentEncodings")) && ctx.custom.entries == old(ctx.custom.entries)
    ensures old(Consistent(ctx)) ==> e == EncodingsValue(ContentEncoding(ctx)) && Consistent(ctx)
    ensures forall g :: g != "contentEncodings" ==> ctx.custom.Field(Body, g) == old(ctx.custom.Field(Body, g))
    ensures ctx.custom.entries == EncodingsStore(old(ctx.custom.entries), ctx.req)
    ensures e == FieldIn(ctx.custom.entries, Body, "contentEncodings")
  {
    e := Memoise(ctx, "contentEncodings", EncodingsValue(ContentEncoding(ctx)));
  }

  /** The scan of `isCompressed()` over an encodings array, writing the flag once per entry. */
  method ScanEncodings(custom: CustomContext, items: seq<JsValue>) returns (b: JsValue)
    requires custom.Value(Body).Obj?
    modifies custom
    ensures custom.Value(Body).Obj?
    ensures b == CompressedFlag(items)
    ensures items == [] ==> custom.entries == old(custom.entries)
    ensures items != [] ==> custom.entries == WithField(old(custom.entries), Body, "isCompressed", b)
  {
    ghost var st0 := custom.entries;
    b := Undefined;
    var i := 0;
    while i < |items|
      invariant 0 <= i <= |items|
      invariant custom.Value(Body).Obj?
      invariant forall j :: 0 <= j < i ==> !IsCompression(items[j])
      invariant i == 0 ==> b == Undefined && custom.entries == st0
      invariant i > 0 ==> b == Bool(false) && custom.entries == WithField(st0, Body, "isCompressed", b)
    {
      var c := IsCompression(items[i]);
      custom.SetField(Body, "isCompressed", Bool(c));
      if i > 0 {
        WithFieldTwice(st0, Body, "isCompressed", Bool(false), Bool(c));
      }
      b := Bool(c);
      if c {
        assert CompressedFlag(items) == Bool(true) by {
          assert IsCompression(items[i]);
        }
        return;
      }
      NoneUpTo(items, i);
      i := i + 1;
    }
    NoCompression(items);
  }

  /** No compression before `i` nor at `i` is none up to `i + 1`. */
  lemma NoneUpTo(items: seq<JsValue>, i: nat)
    requires i < |items| && !IsCompression(items[i])
    requires forall j :: 0 <= j < i ==> !IsCompression(items[j])
    ensures forall j :: 0 <= j < i + 1 ==> !IsCompression(items[j])
  {
  }

  /** Without any compression among the entries, the flag is false, or undefined when there are none. */
  lemma NoCompression(items: seq<JsValue>)
    requires forall j :: 0 <= j < |items| ==> !IsCompression(items[j])
    ensures CompressedFlag(items) == if items == [] then Undefined else Bool(false)
  {
  }

  /**
   * `isCompressed()`: unless cached, the encodings are scanned in order,
   * the flag rewritten for each and the scan stopped at the first
   * compression. The `string[]` type of the cached list is assumed.
   */
  method IsCompressed(ctx: HttpContext) returns (b: JsValue)
    requires ctx.custom.Value(Body).Obj?
    requires ctx.custom.Field(Body, "contentEncodings").Undefined? || ctx.custom.Field(Body, "contentEncodings").Arr?
    modifies ctx.custom
    ensures ctx.custom.Value(Body).Obj?
    ensures !old(ctx.custom.Field(Body, "isCompressed")).Undefined? ==>
              b == old(ctx.custom.Field(Body, "isCompressed")) && ctx.custom.entries == old(ctx.custom.entries)
    ensures old(ctx.custom.Field(Body, "isCompressed")).Undefined? ==>
              b == CompressedFlag(EncodingItems(EncodingsStore(old(ctx.custom.entries), ctx.req)))
              && ctx.custom.entries == CompressedStore(old(ctx.custom.entries), ctx.req)
    ensures old(Consistent(ctx)) ==> b == CompressedFlag(EncodingsValue(ContentEncoding(ctx)).items) && Consistent(ctx)
  {
    if !ctx.custom.Field(Body, "isCompressed").Undefined? {
      if ConsistentIn(ctx.req, ctx.custom.entries) {
        CachedAgrees(ctx.req, ctx.custom.entries, "isCompressed");
      }
      return ctx.custom.Field(Body, "isCompressed");
    }
    var parts := ContentEncodings(ctx);
    ghost var start := ctx.custom.entries;
    var items := if parts.Arr? then parts.items else [];
    b := ScanEncodings(ctx.custom, items);
    if items != [] && ConsistentIn(ctx.req, start) {
      ConsistentAfterWrite(ctx.req, start, "isCompressed", b);
    }
  }

  // ---------------------------------------------------------------------------
  // Decoding

  /** Why `parseBody()` rejects: an error it throws, or a `ProstoHttpError` with a status. */
  datatype BodyFailure = Thrown(message: string) | Rejected(status: int, message: string)

  /**
   * What `parseBody()` produces for a request whose body has not been
   * decoded yet: the body, uncompressed, read as JSON, multipart form-data,
   * URL-encoded form or text, by the first content-type test that holds.
   */
  function DecodeBody(h: Host, req: Request, raw: string): Result<JsValue, BodyFailure> {
    match h.uncompress(EncodingsValue(Header(req, "content-encoding")), raw)
    case Failure(m) => Failure(Thrown(m))
    case Success(body) => DecodeText(h, Header(req, "content-type"), body)
  }

  /** The uncompressed body read by the parser the content type selects. */
  function DecodeText(h: Host, contentType: Option<string>, body: string): Result<JsValue, BodyFailure> {
    if ContentIs(contentType, ApplicationJson) then JsonOutcome(h.jsonParse(body))
    else if ContentIs(contentType, MultipartFormData) then FormOutcome(FormDataResult(h, contentType, body))
    else if ContentIs(contentType, UrlEncoded) then Success(Obj(Grouped(h.formEntries(Trim(body)))))
    else Success(Str(body))
  }

  /** `JSON.parse`: a syntax error is thrown as it is. */
  function JsonOutcome(p: Result<JsValue, string>): Result<JsValue, BodyFailure> {
    match p
    case Failure(m) => Failure(Thrown(m))
    case Success(v) => Success(v)
  }

  /** The multipart parser: a malformed header is a 400, a JSON part that does not parse is thrown as it is. */
  function FormOutcome(f: Result<Props, FormFailure>): Result<JsValue, BodyFailure> {
    match f
    case Failure(BadRequest(m)) => Failure(Rejected(400, m))
    case Failure(SyntaxError(m)) => Failure(Thrown(m))
    case Success(fields) => Success(Obj(fields))
  }

  /**
   * `(await rawBody()).toString()`: the request's body, or the text of what
   * the cache already holds.
   */
  function RawText(cached: JsValue, req: Request): string {
    if cached.Undefined? then req.body else ToJsString(cached)
  }

  /** The promise `parseBody()` returns settles as `d` says. */
  predicate Reports(r: Result<JsValue, JsError>, d: Result<JsValue, BodyFailure>) {
    match d
    case Success(v) => r == Success(v)
    case Failure(Thrown(m)) => r == Failure(PlainError(m))
    case Failure(Rejected(status, m)) =>
      r.Failure? && r.error.HttpError? && r.error.err.code == status && r.error.err.source == Text(m)
  }

  /** The chosen parser's outcome, once the body is uncompressed. */
  method Decode(ctx: HttpContext, h: Host, body: string) returns (r: Result<JsValue, JsError>)
    requires ctx.custom.Value(Body).Obj?
    modifies ctx.custom
    ensures ctx.custom.Value(Body).Obj?
    ensures ctx.custom.Field(Body, "parsed") == old(ctx.custom.Field(Body, "parsed"))
    ensures old(Consistent(ctx)) ==> Reports(r, DecodeText(h, ContentType(ctx), body)) && Consistent(ctx)
    ensures ctx.custom.entries == DecodeStore(old(ctx.custom.entries), ctx.req)
  {
    var json := IsJson(ctx);
    if Truthy(json) {
      var p := h.jsonParse(body);
      if p.Failure? {
        return Failure(PlainError(p.error));
      }
      return Success(p.value);
    }
    r := DecodeNonJson(ctx, h, body);
  }

  /** The parsers tried once the body is known not to be JSON. */
  method DecodeNonJson(ctx: HttpContext, h: Host, body: string) returns (r: Result<JsValue, JsError>)
    requires ctx.custom.Value(Body).Obj?
    modifies ctx.custom
    ensures ctx.custom.Value(Body).Obj?
    ensures ctx.custom.Field(Body, "parsed") == old(ctx.custom.Field(Body, "parsed"))
    ensures old(Consistent(ctx)) && !ContentIs(ContentType(ctx), ApplicationJson) ==>
              Reports(r, DecodeText(h, ContentType(ctx), body)) && Consistent(ctx)
    ensures ctx.custom.entries == NonJsonStore(old(ctx.custom.entries), ctx.req)
  {
    ghost var parsed := ctx.custom.Field(Body, "parsed");
    ghost var consistent := Consistent(ctx);
    var form := IsFormData(ctx);
    assert ctx.custom.Field(Body, "parsed") == parsed by {
      assert "parsed" != "isFormData";
    }
    assert consistent ==> form == Bool(ContentIs(ContentType(ctx), MultipartFormData));
    if Truthy(form) {
      r := DecodeForm(h, ContentType(ctx), body);
      return;
    }
    var urlencoded := IsUrlencoded(ctx);
    assert ctx.custom.Field(Body, "parsed") == parsed by {
      assert "parsed" != "isUrlencoded";
    }
    if Truthy(urlencoded) {
      var grouped := GroupEntries(h.formEntries(Trim(body)));
      r := Success(Obj(grouped));
    } else {
      r := Success(Str(body));
    }
  }

  /** The multipart branch: the parser's failures become a 400 or a thrown error. */
  method DecodeForm(h: Host, contentType: Option<string>, body: string) returns (r: Result<JsValue, JsError>)
    ensures Reports(r, FormOutcome(FormDataResult(h, contentType, body)))
  {
    var f := FormDataParser(h, contentType, body);
    match f {
      case Failure(BadRequest(m)) =>
        var e := new ProstoHttpError(400, Text(m));
        r := Failure(HttpError(e));
      case Failure(SyntaxError(m)) =>
        r := Failure(PlainError(m));
      case Success(fields) =>
        r := Success(Obj(fields));
    }
  }

  /**
   * `parseBody()`: the decoded body, computed once and kept in the cache's
   * `parsed` field; a failure leaves nothing cached.
   */
  method ParseBody(ctx: HttpContext, h: Host) returns (r: Result<JsValue, JsError>)
    requires ctx.custom.Value(Body).Obj?
    modifies ctx.custom
    ensures ctx.custom.Value(Body).Obj?
    ensures !old(ctx.custom.Field(Body, "parsed")).Undefined? ==>
              r == Success(old(ctx.custom.Field(Body, "parsed"))) && ctx.custom.entries == old(ctx.custom.entries)
    ensures old(ctx.custom.Field(Body, "parsed")).Undefined? && old(Consistent(ctx)) ==>
              Reports(r, DecodeBody(h, ctx.req, RawText(old(ctx.custom.Field(Body, "value")), ctx.req)))
              && Consistent(ctx)
              && ctx.custom.Field(Body, "parsed") == (if r.Success? then r.value else Undefined)
    ensures old(ctx.custom.Field(Body, "parsed")).Undefined? ==>
              ctx.custom.entries == ParsedStore(ReadStore(old(ctx.custom.entries), ctx.req, h), r)
  {
    if !ctx.custom.Field(Body, "parsed").Undefined? {
      return Success(ctx.custom.Field(Body, "parsed"));
    }
    r := ReadBody(ctx, h);
    if r.Success? {
      StoreParsed(ctx, r.value);
    }
  }

  /** `cache.parsed = v`: the decoded body is kept, and the cache stays consistent. */
  method StoreParsed(ctx: HttpContext, v: JsValue)
    requires ctx.custom.Value(Body).Obj?
    modifies ctx.custom
    ensures ctx.custom.Value(Body).Obj?
    ensures ctx.custom.entries == WithField(old(ctx.custom.entries), Body, "parsed", v)
    ensures ctx.custom.Field(Body, "parsed") == v
    ensures old(Consistent(ctx)) ==> Consistent(ctx)
  {
    ghost var before := ctx.custom.entries;
    ctx.custom.SetField(Body, "parsed", v);
    FieldInWithFieldSame(before, Body, "parsed", v);
    if ConsistentIn(ctx.req, before) {
      ConsistentAfterWrite(ctx.req, before, "parsed", v);
    }
  }

  /** The body of `parseBody()` under its cache test: read, uncompress, decode. */
  method ReadBody(ctx: HttpContext, h: Host) returns (r: Result<JsValue, JsError>)
    requires ctx.custom.Value(Body).Obj?
    modifies ctx.custom
    ensures ctx.custom.Value(Body).Obj?
    ensures ctx.custom.Field(Body, "parsed") == old(ctx.custom.Field(Body, "parsed"))
    ensures old(Consistent(ctx)) ==>
              Reports(r, DecodeBody(h, ctx.req, RawText(old(ctx.custom.Field(Body, "value")), ctx.req)))
              && Consistent(ctx)
    ensures ctx.custom.entries == ReadStore(old(ctx.custom.entries), ctx.req, h)
  {
    var encodings, text := ReadRaw(ctx);
    var u := h.uncompress(encodings, text);
    if u.Failure? {
      return Failure(PlainError(u.error));
    }
    r := Decode(ctx, h, u.value);
  }

  /** `contentEncodings()` and `(await rawBody()).toString()`, in that order. */
  method ReadRaw(ctx: HttpContext) returns (encodings: JsValue, text: string)
    requires ctx.custom.Value(Body).Obj?
    modifies ctx.custom
    ensures ctx.custom.Value(Body).Obj?
    ensures ctx.custom.Field(Body, "parsed") == old(ctx.custom.Field(Body, "parsed"))
    ensures old(Consistent(ctx)) ==>
              encodings == EncodingsValue(ContentEncoding(ctx)) && Consistent(ctx)
    ensures text == RawText(old(ctx.custom.Field(Body, "value")), ctx.req)
    ensures encodings == FieldIn(EncodingsStore(old(ctx.custom.entries), ctx.req), Body, "contentEncodings")
    ensures ctx.custom.entries == RawReadStore(old(ctx.custom.entries), ctx.req)
  {
    ghost var value0 := ctx.custom.Field(Body, "value");
    ghost var parsed0 := ctx.custom.Field(Body, "parsed");
    encodings := ContentEncodings(ctx);
    assert ctx.custom.Field(Body, "value") == value0 by {
      assert "value" != "contentEncodings";
    }
    assert ctx.custom.Field(Body, "parsed") == parsed0 by {
      assert "parsed" != "contentEncodings";
    }
    UseInObj(ctx.custom.entries, Body);
    ghost var before := ctx.custom.entries;
    var raw := RawBody(ctx);
    GetPutSame(before, Key(Body), Obj(Put(RecordOf(ValueIn(before, Body)), "value", raw)));
    if value0.Undefined? {
      if ConsistentIn(ctx.req, before) {
        ConsistentAfterWrite(ctx.req, before, "value", raw);
      }
      FieldInWithFieldOther(before, Body, "value", raw, Body, "parsed");
      ToJsStringOfStr(ctx.req.body);
    } else {
      assert ctx.custom.entries == before;
    }
    text := ToJsString(raw);
  }

  // ---------------------------------------------------------------------------
  // Which parser a Content-Type selects

  /** `application/json` bodies go to `JSON.parse`. */
  lemma JsonRequest(h: Host, body: string)
    ensures DecodeText(h, Some(ApplicationJson), body) == JsonOutcome(h.jsonParse(body))
  {
    assert OccursAt(ApplicationJson, ApplicationJson, 0);
  }

  /**
   * `application/x-www-form-urlencoded` bodies are grouped by name: an
   * array name collects its values, any other keeps its last one.
   */
  lemma UrlEncodedRequest(h: Host, body: string, k: string)
    ensures DecodeText(h, Some(UrlEncoded), body).Success?
    ensures var v := DecodeText(h, Some(UrlEncoded), body).value;
            var es := h.formEntries(Trim(body));
            v.Obj? && WellFormed(v.fields)
            && Get(v.fields, k)
               == if IsArrayParam(k)
                  then (if ValuesOf(es, k) == [] then Undefined else Arr(ValuesOf(es, k)))
                  else LastValue(es, k)
  {
    UrlEncodedSelected(h, body);
    GroupedGet(h.formEntries(Trim(body)), k);
    GroupedWellFormed(h.formEntries(Trim(body)));
  }

  /** An URL-encoded body is grouped into an object. */
  lemma UrlEncodedSelected(h: Host, body: string)
    ensures DecodeText(h, Some(UrlEncoded), body) == Success(Obj(Grouped(h.formEntries(Trim(body)))))
  {
    UrlEncodedNotJson();
    UrlEncodedNotMultipart();
    assert OccursAt(UrlEncoded, UrlEncoded, 0);
  }

  /** `application/x-www-form-urlencoded` does not contain `application/json`. */
  lemma UrlEncodedNotJson()
    ensures !Contains(UrlEncoded, ApplicationJson)
  {
    var s := UrlEncoded;
    assert forall i :: 0 <= i < |s| ==> s[i] != 'j';
    forall q ensures !OccursAt(s, ApplicationJson, q) {
      if 0 <= q && q + 16 <= |s| {
        assert s[q..q + 16][12] == s[q + 12];
      }
    }
    ContainsIff(s, ApplicationJson);
  }

  /** `application/x-www-form-urlencoded` does not contain `multipart/form-data`. */
  lemma UrlEncodedNotMultipart()
    ensures !Contains(UrlEncoded, MultipartFormData)
  {
    var s := UrlEncoded;
    assert forall i :: 0 <= i < |s| && s[i] == '/' ==> i == 11;
    forall q ensures !OccursAt(s, MultipartFormData, q) {
      if 0 <= q && q + 19 <= |s| {
        assert s[q..q + 19][9] == s[q + 9];
        assert s[q..q + 19][0] == s[q];
        assert s[2] == 'p';
      }
    }
    ContainsIff(s, MultipartFormData);
  }

  /**
   * A multipart request whose boundary has no `;` and no `/` goes to the
   * form-data parser, which splits the body on `--` and the boundary.
   */
  lemma MultipartRequest(h: Host, b: string, body: string)
    requires b != [] && forall i :: 0 <= i < |b| ==> b[i] != ';' && b[i] != '/'
    ensures DecodeText(h, Some(MultipartType(b)), body)
            == FormOutcome(FormDataResult(h, Some(MultipartType(b)), body))
    ensures Boundary(Some(MultipartType(b))) == "--" + b
  {
    MultipartNotJson(b);
    MultipartIsMultipart(b);
    MultipartBoundary(b);
  }

  /** A multipart type whose boundary has no `/` does not contain `application/json`. */
  lemma MultipartNotJson(b: string)
    requires forall i :: 0 <= i < |b| ==> b[i] != '/'
    ensures !Contains(MultipartType(b), ApplicationJson)
  {
    var s := MultipartType(b);
    var lit := MultipartLead;
    assert forall i :: 0 <= i < 30 ==> s[i] == lit[i];
    assert forall i :: 30 <= i < |s| ==> s[i] == b[i - 30];
    assert forall i :: 10 <= i < 30 ==> lit[i] != '/';
    forall q ensures !OccursAt(s, ApplicationJson, q) {
      if 0 <= q && q + 16 <= |s| {
        assert ApplicationJson[11] == '/';
        if q + 11 < 30 {
          assert s[q + 11] == lit[q + 11];
        } else {
          assert s[q + 11] == b[q + 11 - 30];
        }
        assert s[q..q + 16][11] == s[q + 11];
        assert s[q..q + 16] != ApplicationJson;
      }
    }
    ContainsIff(s, ApplicationJson);
  }

  /** A multipart type starts with `multipart/form-data`. */
  lemma MultipartIsMultipart(b: string)
    ensures OccursAt(MultipartType(b), MultipartFormData, 0)
  {
    var s := MultipartType(b);
    assert s[..19] == MultipartLead[..19];
  }

  // ---------------------------------------------------------------------------
  // Compressors

  const AlreadyRegistered := "\" already registered."

  /**
   * `registerBodyCompressor(name, compressor)` on the registry `reg`: a
   * name already bound panics, any other is bound to the compressor and
   * nothing else changes.
   */
  function Registered(reg: Props, name: string, compressor: JsValue): (r: Result<Props, JsError>)
    ensures r.Failure? <==> Truthy(Get(reg, name))
    ensures r.Failure? ==> r.error == Panic("Body compressor \"" + name + AlreadyRegistered)
    ensures r.Success? ==>
              Get(r.value, name) == compressor
              && forall k :: k != name ==> Get(r.value, k) == Get(reg, k)
  {
    if Truthy(Get(reg, name)) then Failure(Panic("Body compressor \"" + name + AlreadyRegistered))
    else
      GetPutSame(reg, name, compressor);
      assert forall k :: k != name ==> Get(Put(reg, name, compressor), k) == Get(reg, k) by {
        forall k | k != name {
          GetPutOther(reg, name, compressor, k);
        }
      }
      Success(Put(reg, name, compressor))
  }

  /** A name that was registered cannot be registered again. */
  lemma RegisterTwice(reg: Props, name: string, first: JsValue, second: JsValue)
    requires Truthy(first) && Registered(reg, name, first).Success?
    ensures Registered(Registered(reg, name, first).value, name, second).Failure?
  {
  }

  /** The module-level `compressors` record. */
  class Compressors {
    var registry: Props

    constructor(initial: Props)
      ensures registry == initial
    {
      registry := initial;
    }

    method Register(name: string, compressor: JsValue) returns (r: Result<(), JsError>)
      modifies this
      ensures Registered(old(registry), name, compressor).Failure? ==>
                r == Failure(Registered(old(registry), name, compressor).error) && registry == old(registry)
      ensures Registered(old(registry), name, compressor).Success? ==>
                r == Success(()) && registry == Registered(old(registry), name, compressor).value
    {
      if Truthy(Get(registry, name)) {
        return Failure(Panic("Body compressor \"" + name + AlreadyRegistered));
      }
      registry := Put(registry, name, compressor);
      r := Success(());
    }
  }
}
