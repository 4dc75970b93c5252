/**
 * `serveFile` (src/serve-file/serve-file.ts): answers a request with a file.
 * It validates the client's cached copy (If-None-Match, If-Modified-Since),
 * honours a single `bytes=` range (with If-Range), and stages the status
 * and the response headers through the request's composables. The stream
 * it resolves to is described by the file path and the byte window.
 */
module ServeFile {
  import opened Wrappers
  import opened Strings
  import opened Js
  import opened Host
  import opened Errors
  import opened Context
  import opened ReqRes
  import opened Headers

  const OctetStream := "application/octet-stream"

  /** `TServeFileOptions`: extra headers, an optional max age, and the base directory (`''` when absent). */
  datatype ServeOptions = ServeOptions(headers: seq<(string, string)>, maxAge: JsValue, baseDir: string)

  /** What `serveFile` resolves to: `''`, or a read stream over the whole file or over `[start, end]`. */
  datatype Served = NoBody | Stream(path: string, window: Option<(int, int)>)

  // ---------------------------------------------------------------------------
  // Validators

  /** The entity tag: `"<ino>-<size>-<mtime as ISO text>"`, quotes included. */
  function ETag(h: Host, st: FileStats): string {
    "\"" + NatToString(st.ino) + "-" + NatToString(st.size) + "-" + h.toIsoString(st.mtime) + "\""
  }

  /** `clientEtag.split(',').map(v => v.trim())`. */
  function EtagList(clientEtag: string): (parts: seq<string>)
    ensures |parts| == |Split(clientEtag, ",")|
    ensures forall i :: 0 <= i < |parts| ==> parts[i] == Trim(Split(clientEtag, ",")[i])
  {
    var ps := Split(clientEtag, ",");
    seq(|ps|, i requires 0 <= i < |ps| => Trim(ps[i]))
  }

  /**
   * `isNotModified(etag, lastModified, clientEtag, clientLM)`: with a client
   * entity-tag list, true exactly when one entry is the tag itself; without
   * one, true exactly when the client date is valid and strictly later than
   * the last modification.
   */
  predicate NotModified(h: Host, etag: string, lastModified: int, clientEtag: string, clientLM: string) {
    if clientEtag != "" then etag in EtagList(clientEtag)
    else h.parseDate(clientLM).Some? && h.parseDate(clientLM).value > lastModified
  }

  /** The loop of `isNotModified`, returning as soon as an entry matches. */
  method IsNotModified(h: Host, etag: string, lastModified: int, clientEtag: string, clientLM: string) returns (r: bool)
    ensures r == NotModified(h, etag, lastModified, clientEtag, clientLM)
  {
    if clientEtag != "" {
      var parts := EtagList(clientEtag);
      var i := 0;
      while i < |parts|
        invariant 0 <= i <= |parts|
        invariant etag !in parts[..i]
      {
        if etag == parts[i] {
          return true;
        }
        assert parts[..i + 1] == parts[..i] + [parts[i]];
        i := i + 1;
      }
      assert parts[..i] == parts;
      return false;
    }
    var date := h.parseDate(clientLM);
    if date.Some? && date.value > lastModified {
      return true;
    }
    return false;
  }

  // ---------------------------------------------------------------------------
  // Range

  /** The pieces of `range.trim().replace(/bytes=/, '').split('-')`. */
  function RangeParts(range: string): (parts: seq<string>)
    ensures |parts| >= 1
  {
    Split(ReplaceFirst(Trim(range), "bytes=", ""), "-")
  }

  /**
   * The window a `Range` header asks for, or None for a 416: `start` is
   * `parseInt` of the first piece; `end` is `parseInt` of the second, or the
   * last byte when it is missing or empty, and never past the last byte.
   */
  function RangeBounds(range: string, size: nat): Option<(int, int)> {
    var parts := RangeParts(range);
    var s := parts[0];
    var e := if |parts| > 1 then parts[1] else "";
    var start := ParseInt(s);
    var end := if e != "" then ParseInt(e) else Some(size - 1);
    var end' := if end.Some? then Some(Min(size - 1, end.value)) else None;
    if start.None? || end'.None? || start.value > end'.value then None
    else Some((start.value, end'.value))
  }

  function Min(a: int, b: int): int {
    if a <= b then a else b
  }

  /** `Content-Range: bytes <start>-<end>/<size>`. */
  function ContentRange(start: int, end: int, size: nat): string {
    "bytes " + IntToString(start) + "-" + IntToString(end) + "/" + NatToString(size)
  }

  // ---------------------------------------------------------------------------
  // Staged writes

  /** One write `serveFile` makes through a composable: `status(code)` or `setHeader(name, value)`. */
  datatype StoreWrite = StatusWrite(code: int) | HeaderWrite(name: string, value: string)

  /** What one write does to the per-request store. */
  function Step(st: Props, w: StoreWrite): Props {
    match w
    case StatusWrite(code) => WithField(UseIn(st, Namespace.Status), Namespace.Status, "code", Num(code))
    case HeaderWrite(name, value) => WithField(st, Namespace.SetHeader, name, Str(value))
  }

  /** The store after a sequence of writes, in order. */
  function Apply(st: Props, ws: seq<StoreWrite>): Props
    decreases |ws|
  {
    if ws == [] then st else Step(Apply(st, ws[..|ws| - 1]), ws[|ws| - 1])
  }

  /** The caches `serveFile` obtains after the file is found: `useResponse`, `useSetHeaders`, `useHeaders`, `useRequest`. */
  function Prelude(st: Props): Props {
    UseIn(UseIn(UseIn(UseIn(UseIn(st, Namespace.Response), Namespace.Status), Namespace.SetHeader), Body), Body)
  }

  /** The header `name` as the writes leave it: the value of the last write to it, or `before`. */
  function LastHeader(ws: seq<StoreWrite>, name: string, before: JsValue): JsValue
    decreases |ws|
  {
    if ws == [] then before
    else
      var w := ws[|ws| - 1];
      if w.HeaderWrite? && w.name == name then Str(w.value) else LastHeader(ws[..|ws| - 1], name, before)
  }

  /** The stored status code as the writes leave it: the last code written, or `before`. */
  function LastStatus(ws: seq<StoreWrite>, before: JsValue): JsValue
    decreases |ws|
  {
    if ws == [] then before
    else
      var w := ws[|ws| - 1];
      if w.StatusWrite? then Num(w.code) else LastStatus(ws[..|ws| - 1], before)
  }

  /** The writes of the caller's `options.headers`, in key order. */
  function CallerWrites(hs: seq<(string, string)>): (ws: seq<StoreWrite>)
    ensures |ws| == |hs|
    ensures forall i :: 0 <= i < |hs| ==> ws[i] == HeaderWrite(hs[i].0, hs[i].1)
  {
    seq(|hs|, i requires 0 <= i < |hs| => HeaderWrite(hs[i].0, hs[i].1))
  }

  /** `getMimeType(path) || 'application/octet-stream'`. */
  function MimeOr(h: Host, path: string): string {
    match h.mimeType(path)
    case Some(m) => if m != "" then m else OctetStream
    case None => OctetStream
  }

  /** The headers staged for a served file whose body is `size` bytes long. */
  function Staging(h: Host, st: FileStats, path: string, options: ServeOptions, size: int): seq<StoreWrite> {
    Fixed(h, st, path, options, size) + CallerWrites(options.headers)
  }

  /** `headers[name] || ''`. */
  function HeaderOr(headers: map<string, string>, name: string): string {
    if name in headers then headers[name] else ""
  }

  /** The body: nothing for HEAD, otherwise a stream over the window (or the whole file). */
  function BodyFor(httpMethod: Option<string>, path: string, window: Option<(int, int)>): Served {
    if httpMethod == Some("HEAD") then NoBody else Stream(path, window)
  }

  /** The If-Range validator does not match, so the range is ignored and the whole file is sent. */
  predicate IfRangeFails(h: Host, st: FileStats, headers: map<string, string>) {
    var ifRange := HeaderOr(headers, "if-range");
    var tag := if ifRange != "" && ifRange[0] == '"' then ifRange else "";
    var date := if tag != "" then "" else ifRange;
    ifRange != "" && !NotModified(h, ETag(h, st), st.mtime, tag, date)
  }

  /** The byte window served: the requested range when there is one, it is satisfiable and If-Range does not fail. */
  function Window(h: Host, st: FileStats, headers: map<string, string>): Option<(int, int)> {
    var range := HeaderOr(headers, "range");
    if range == "" || IfRangeFails(h, st, headers) then None else RangeBounds(range, st.size)
  }

  /** What `serveFile` does once the file is found: the writes it makes, and its result (None: 416 thrown). */
  datatype Decision = Decision(writes: seq<StoreWrite>, result: Option<Served>)

  /** The decision for an existing regular file `st` at `path`. */
  function Decide(h: Host, st: FileStats, path: string, httpMethod: Option<string>,
                  headers: map<string, string>, options: ServeOptions): Decision
  {
    var range := HeaderOr(headers, "range");
    if NotModified(h, ETag(h, st), st.mtime, HeaderOr(headers, "if-none-match"), HeaderOr(headers, "if-modified-since")) then
      Decision([StatusWrite(200), StatusWrite(304)], Some(NoBody))
    else if range != "" && RangeBounds(range, st.size).None? then
      Decision([StatusWrite(200)], None)
    else
      Decision(Lead(range, Window(h, st, headers), st.size) + Staging(h, st, path, options, ServedLength(h, st, headers)),
               Some(BodyFor(httpMethod, path, Window(h, st, headers))))
  }

  /** The number of bytes served: the window's length, or the whole file. */
  function ServedLength(h: Host, st: FileStats, headers: map<string, string>): int {
    var w := Window(h, st, headers);
    if w.Some? then w.value.1 - w.value.0 + 1 else st.size
  }

  /** The writes before the staged headers: `status(200)`, then the outcome of the range `range` with window `w`. */
  function Lead(range: string, w: Option<(int, int)>, size: nat): seq<StoreWrite> {
    if range == "" then [StatusWrite(200)]
    else if w.None? then [StatusWrite(200), StatusWrite(200)]
    else [StatusWrite(200), HeaderWrite("Content-Range", ContentRange(w.value.0, w.value.1, size)), StatusWrite(206)]
  }

  /** The lead leaves the status at 206 for a window and 200 otherwise, and stages only Content-Range, for a window. */
  lemma LeadWrites(range: string, w: Option<(int, int)>, size: nat, name: string, before: JsValue, code: JsValue)
    requires range == "" ==> w.None?
    ensures LastStatus(Lead(range, w, size), code) == Num(if w.Some? then 206 else 200)
    ensures name != "Content-Range" ==> LastHeader(Lead(range, w, size), name, before) == before
    ensures LastHeader(Lead(range, w, size), "Content-Range", before)
            == (match w
                case Some(w) => Str(ContentRange(w.0, w.1, size))
                case None => before)
  {
    var lead := Lead(range, w, size);
    var one := [StatusWrite(200)];
    assert one[..0] == [];
    if |lead| == 3 {
      var two := lead[..2];
      assert two[..1] == one;
      assert LastHeader(two, name, before) == (if name == "Content-Range" then Str(two[1].value) else before);
    } else if |lead| == 2 {
      assert lead[..1] == one;
    }
  }

  // ---------------------------------------------------------------------------
  // What the writes leave behind

  /** Applying writes one after another is applying their concatenation. */
  lemma {:induction false} ApplyAppend(st: Props, a: seq<StoreWrite>, b: seq<StoreWrite>)
    ensures Apply(st, a + b) == Apply(Apply(st, a), b)
    decreases |b|
  {
    if b != [] {
      assert (a + b)[..|a + b| - 1] == a + b[..|b| - 1];
      ApplyAppend(st, a, b[..|b| - 1]);
    } else {
      assert a + b == a;
    }
  }

  /**
   * After the writes, each staged header holds the value of the last write
   * to it (or what it held before), and the status code the last code written.
   */
  lemma {:induction false} ApplyFields(st: Props, ws: seq<StoreWrite>, name: string)
    ensures FieldIn(Apply(st, ws), Namespace.SetHeader, name) == LastHeader(ws, name, FieldIn(st, Namespace.SetHeader, name))
    ensures FieldIn(Apply(st, ws), Namespace.Status, "code") == LastStatus(ws, FieldIn(st, Namespace.Status, "code"))
    decreases |ws|
  {
    if ws != [] {
      var pre := Apply(st, ws[..|ws| - 1]);
      ApplyFields(st, ws[..|ws| - 1], name);
      match ws[|ws| - 1] {
        case StatusWrite(code) =>
          FieldInUseIn(pre, Namespace.Status, Namespace.SetHeader, name);
          FieldInUseIn(pre, Namespace.Status, Namespace.Status, "code");
          FieldInWithFieldOther(UseIn(pre, Namespace.Status), Namespace.Status, "code", Num(code), Namespace.SetHeader, name);
          FieldInWithFieldSame(UseIn(pre, Namespace.Status), Namespace.Status, "code", Num(code));
        case HeaderWrite(n, v) =>
          FieldInWithFieldOther(pre, Namespace.SetHeader, n, Str(v), Namespace.Status, "code");
          if n == name {
            FieldInWithFieldSame(pre, Namespace.SetHeader, n, Str(v));
          } else {
            FieldInWithFieldOther(pre, Namespace.SetHeader, n, Str(v), Namespace.SetHeader, name);
          }
      }
    }
  }

  /** The last write to a header in `a + b` is the last in `b`, or else the last in `a`. */
  lemma {:induction false} LastHeaderAppend(a: seq<StoreWrite>, b: seq<StoreWrite>, name: string, before: JsValue)
    ensures LastHeader(a + b, name, before) == LastHeader(b, name, LastHeader(a, name, before))
    ensures LastStatus(a + b, before) == LastStatus(b, LastStatus(a, before))
    decreases |b|
  {
    if b != [] {
      assert (a + b)[..|a + b| - 1] == a + b[..|b| - 1];
      LastHeaderAppend(a, b[..|b| - 1], name, before);
    } else {
      assert a + b == a;
    }
  }

  /** The caller sets `name` in `options.headers`. */
  predicate Overrides(hs: seq<(string, string)>, name: string) {
    exists i :: 0 <= i < |hs| && hs[i].0 == name
  }

  /**
   * The caller's headers are applied last: a name the caller does not set
   * keeps its value, and one it sets takes the caller's last value for it.
   * No caller header touches the status.
   */
  lemma CallerWritesLast(hs: seq<(string, string)>, name: string, before: JsValue, code: JsValue)
    ensures !Overrides(hs, name) ==> LastHeader(CallerWrites(hs), name, before) == before
    ensures forall i :: 0 <= i < |hs| && hs[i].0 == name && (forall j :: i < j < |hs| ==> hs[j].0 != name) ==>
              LastHeader(CallerWrites(hs), name, before) == Str(hs[i].1)
    ensures LastStatus(CallerWrites(hs), code) == code
  {
    if !Overrides(hs, name) {
      CallerUntouched(hs, name, before);
    }
    forall i | 0 <= i < |hs| && hs[i].0 == name && (forall j :: i < j < |hs| ==> hs[j].0 != name)
      ensures LastHeader(CallerWrites(hs), name, before) == Str(hs[i].1)
    {
      CallerLastAt(hs, name, before, i);
    }
    CallerNoStatus(hs, code);
  }

  /** The caller's writes without `name` leave it as it was. */
  lemma {:induction false} CallerUntouched(hs: seq<(string, string)>, name: string, before: JsValue)
    requires !Overrides(hs, name)
    ensures LastHeader(CallerWrites(hs), name, before) == before
    decreases |hs|
  {
    if hs != [] {
      var init := hs[..|hs| - 1];
      assert CallerWrites(hs)[..|hs| - 1] == CallerWrites(init);
      assert !Overrides(init, name) by {
        assert forall i :: 0 <= i < |init| ==> init[i] == hs[i];
      }
      CallerUntouched(init, name, before);
    }
  }

  /** The caller's last write to `name`, at `i`, is the value it leaves. */
  lemma {:induction false} CallerLastAt(hs: seq<(string, string)>, name: string, before: JsValue, i: nat)
    requires i < |hs| && hs[i].0 == name && forall j :: i < j < |hs| ==> hs[j].0 != name
    ensures LastHeader(CallerWrites(hs), name, before) == Str(hs[i].1)
    decreases |hs|
  {
    if i < |hs| - 1 {
      var init := hs[..|hs| - 1];
      assert CallerWrites(hs)[..|hs| - 1] == CallerWrites(init);
      assert init[i] == hs[i];
      assert forall j :: i < j < |init| ==> init[j] == hs[j];
      CallerLastAt(init, name, before, i);
    }
  }

  /** The caller's writes never touch the status. */
  lemma {:induction false} CallerNoStatus(hs: seq<(string, string)>, code: JsValue)
    ensures LastStatus(CallerWrites(hs), code) == code
    decreases |hs|
  {
    if hs != [] {
      var init := hs[..|hs| - 1];
      assert CallerWrites(hs)[..|hs| - 1] == CallerWrites(init);
      CallerNoStatus(init, code);
    }
  }

  /** The write at `i` is the last one to header `name`. */
  predicate LastWriteAt(ws: seq<StoreWrite>, i: int, name: string) {
    0 <= i < |ws| && ws[i].HeaderWrite? && ws[i].name == name
    && forall j :: i < j < |ws| ==> !(ws[j].HeaderWrite? && ws[j].name == name)
  }

  /** No write names the header `name`. */
  predicate Untouched(ws: seq<StoreWrite>, name: string) {
    forall j :: 0 <= j < |ws| ==> !(ws[j].HeaderWrite? && ws[j].name == name)
  }

  /** Only headers are written, never the status. */
  predicate HeadersOnly(ws: seq<StoreWrite>) {
    forall j :: 0 <= j < |ws| ==> ws[j].HeaderWrite?
  }

  /** The last write to a header decides its value; a header nobody writes keeps its value. */
  lemma {:induction false} LastWriteWins(ws: seq<StoreWrite>, i: int, name: string, before: JsValue)
    requires LastWriteAt(ws, i, name) || Untouched(ws, name)
    ensures LastWriteAt(ws, i, name) ==> LastHeader(ws, name, before) == Str(ws[i].value)
    ensures Untouched(ws, name) ==> LastHeader(ws, name, before) == before
    decreases |ws|
  {
    if ws != [] {
      var init := ws[..|ws| - 1];
      assert forall j :: 0 <= j < |init| ==> init[j] == ws[j];
      if i < |ws| - 1 || !LastWriteAt(ws, i, name) {
        LastWriteWins(init, i, name, before);
      }
    }
  }

  /** Header writes leave the status code alone. */
  lemma {:induction false} HeadersKeepStatus(ws: seq<StoreWrite>, before: JsValue)
    requires HeadersOnly(ws)
    ensures LastStatus(ws, before) == before
    decreases |ws|
  {
    if ws != [] {
      var init := ws[..|ws| - 1];
      assert forall j :: 0 <= j < |init| ==> init[j] == ws[j];
      HeadersKeepStatus(init, before);
    }
  }

  /** The fixed headers staged before the caller's: validators, type, length and cache policy. */
  function Fixed(h: Host, st: FileStats, path: string, options: ServeOptions, size: int): seq<StoreWrite> {
    [HeaderWrite("Accept-Ranges", "bytes"), HeaderWrite("etag", ETag(h, st)),
     HeaderWrite("Last-Modified", h.toUtcString(st.mtime))]
    + (if !options.maxAge.Undefined? then
         [HeaderWrite("Cache-Control", "public, max-age=" + IntToString(h.convertSeconds(options.maxAge)))]
       else [])
    + [HeaderWrite("Content-Type", MimeOr(h, path)), HeaderWrite("Content-Length", IntToString(size))]
  }

  /** The value each fixed header is staged with. */
  function FixedValue(h: Host, st: FileStats, path: string, options: ServeOptions, size: int, name: string): Option<string> {
    if name == "Accept-Ranges" then Some("bytes")
    else if name == "etag" then Some(ETag(h, st))
    else if name == "Last-Modified" then Some(h.toUtcString(st.mtime))
    else if name == "Cache-Control" then
      (if !options.maxAge.Undefined? then Some("public, max-age=" + IntToString(h.convertSeconds(options.maxAge))) else None)
    else if name == "Content-Type" then Some(MimeOr(h, path))
    else if name == "Content-Length" then Some(IntToString(size))
    else None
  }

  /**
   * What the staging leaves in a header: the caller's last value when the
   * caller sets it, otherwise the fixed value, otherwise what was there.
   * Staging never touches the status.
   */
  lemma StagingValue(h: Host, st: FileStats, path: string, options: ServeOptions, size: int, name: string, before: JsValue, code: JsValue)
    ensures !Overrides(options.headers, name) ==>
              LastHeader(Staging(h, st, path, options, size), name, before)
              == (match FixedValue(h, st, path, options, size, name) case Some(v) => Str(v) case None => before)
    ensures forall i :: 0 <= i < |options.headers| && options.headers[i].0 == name
                        && (forall j :: i < j < |options.headers| ==> options.headers[j].0 != name) ==>
              LastHeader(Staging(h, st, path, options, size), name, before) == Str(options.headers[i].1)
    ensures LastStatus(Staging(h, st, path, options, size), code) == code
  {
    var fixed := Fixed(h, st, path, options, size);
    var caller := CallerWrites(options.headers);
    LastHeaderAppend(fixed, caller, name, before);
    LastHeaderAppend(fixed, caller, name, code);
    CallerWritesLast(options.headers, name, LastHeader(fixed, name, before), LastStatus(fixed, code));
    FixedShape(h, st, path, options, size, name);
    HeadersKeepStatus(fixed, code);
    var fv := FixedValue(h, st, path, options, size, name);
    if fv.Some? {
      var i :| 0 <= i < |fixed| && fixed[i] == HeaderWrite(name, fv.value) && LastWriteAt(fixed, i, name) by {
        FixedPosition(h, st, path, options, size, name);
      }
      LastWriteWins(fixed, i, name, before);
    } else {
      LastWriteWins(fixed, 0, name, before);
    }
  }

  /** The fixed writes are header writes only, and only of the fixed names. */
  lemma FixedShape(h: Host, st: FileStats, path: string, options: ServeOptions, size: int, name: string)
    ensures HeadersOnly(Fixed(h, st, path, options, size))
    ensures FixedValue(h, st, path, options, size, name).None? ==> Untouched(Fixed(h, st, path, options, size), name)
  {
    var fixed := Fixed(h, st, path, options, size);
    var names := ["Accept-Ranges", "etag", "Last-Modified"]
                 + (if !options.maxAge.Undefined? then ["Cache-Control"] else [])
                 + ["Content-Type", "Content-Length"];
    assert forall j :: 0 <= j < |fixed| ==> fixed[j].HeaderWrite? && fixed[j].name in names;
    if FixedValue(h, st, path, options, size, name).None? {
      assert name !in names;
    }
  }

  /** Each fixed header is written exactly once. */
  lemma FixedPosition(h: Host, st: FileStats, path: string, options: ServeOptions, size: int, name: string)
    requires FixedValue(h, st, path, options, size, name).Some?
    ensures exists i :: 0 <= i < |Fixed(h, st, path, options, size)|
                        && Fixed(h, st, path, options, size)[i] == HeaderWrite(name, FixedValue(h, st, path, options, size, name).value)
                        && LastWriteAt(Fixed(h, st, path, options, size), i, name)
  {
    var fixed := Fixed(h, st, path, options, size);
    var c := if !options.maxAge.Undefined? then 1 else 0;
    var i :=
      if name == "Accept-Ranges" then 0
      else if name == "etag" then 1
      else if name == "Last-Modified" then 2
      else if name == "Cache-Control" then 3
      else if name == "Content-Type" then 3 + c
      else 4 + c;
    assert |fixed| == 5 + c;
    assert fixed[i] == HeaderWrite(name, FixedValue(h, st, path, options, size, name).value);
    assert LastWriteAt(fixed, i, name);
  }

  // ---------------------------------------------------------------------------
  // Range properties

  /** `parseInt` of text without a minus sign is never negative. */
  lemma ParseIntNoMinus(s: string)
    requires !Contains(s, "-")
    ensures ParseInt(s).Some? ==> ParseInt(s).value >= 0
  {
    var l := LeadingSpace(s);
    if l < |s| && s[l] == '-' {
      assert OccursAt(s, "-", l) by {
        assert s[l..l + 1] == "-";
      }
      OccursAtContains(s, "-", l);
    }
  }

  /**
   * A satisfiable range lies inside the file, `0 <= start <= end <= size - 1`,
   * so an empty file has no satisfiable range at all.
   */
  lemma RangeWithinFile(range: string, size: nat)
    ensures RangeBounds(range, size).Some? ==>
              0 <= RangeBounds(range, size).value.0 <= RangeBounds(range, size).value.1 < size
    ensures size == 0 ==> RangeBounds(range, size).None?
  {
    var parts := RangeParts(range);
    SplitPiecesFree(ReplaceFirst(Trim(range), "bytes=", ""), "-");
    assert parts[0] in parts;
    ParseIntNoMinus(parts[0]);
  }

  /** Trimming and dropping the `bytes=` unit leaves the range set itself. */
  lemma StripUnit(x: string)
    requires x != [] && !IsJsWhitespace(x[|x| - 1])
    ensures ReplaceFirst(Trim("bytes=" + x), "bytes=", "") == x
  {
    var r := "bytes=" + x;
    TrimNoop(r);
    assert OccursAt(r, "bytes=", 0) by {
      assert r[0..6] == "bytes=";
    }
    assert IndexOf(r, "bytes=") == 0;
    assert r[6..] == x;
  }

  /**
   * The range a client writes as `bytes=<a>-<b>` reads back as the window
   * from `a` to `b`, cut at the last byte; it is unsatisfiable exactly when
   * `a` lies past that end.
   */
  lemma RangeRoundTrip(a: nat, b: nat, size: nat)
    ensures RangeBounds("bytes=" + NatToString(a) + "-" + NatToString(b), size)
            == if a <= Min(size - 1, b) then Some((a, Min(size - 1, b))) else None
  {
    var range := "bytes=" + NatToString(a) + "-" + NatToString(b);
    RangePartsPair(a, b);
    ParseIntNatToString(a);
    ParseIntNatToString(b);
    BoundsOfParts(range, size);
  }

  /** `bytes=<a>-<b>` splits into the two numbers' digits. */
  lemma RangePartsPair(a: nat, b: nat)
    ensures RangeParts("bytes=" + NatToString(a) + "-" + NatToString(b)) == [NatToString(a), NatToString(b)]
  {
    var B := NatToString(b);
    DigitsFree(a, '-');
    DigitsFree(b, '-');
    assert IsDigit(B[|B| - 1]);
    RangePartsOfPieces(NatToString(a), B);
  }

  /** `bytes=<A>-<B>` splits into A and B when neither holds a minus sign. */
  lemma RangePartsOfPieces(A: string, B: string)
    requires !Contains(A, "-") && !Contains(B, "-")
    requires B != [] && !IsJsWhitespace(B[|B| - 1])
    ensures RangeParts("bytes=" + A + "-" + B) == [A, B]
  {
    var x := A + "-" + B;
    assert "bytes=" + A + "-" + B == "bytes=" + x;
    assert x[|x| - 1] == B[|B| - 1];
    RangePartsOf(x);
    SplitAfterFree(A, "-", B);
    SplitNoSeparator(B, "-");
  }

  /** RangeBounds read off the pieces, without unfolding how they were found. */
  lemma BoundsOfParts(range: string, size: nat)
    ensures var parts := RangeParts(range);
            var e := if |parts| > 1 then parts[1] else "";
            var end := if e != "" then ParseInt(e) else Some(size - 1);
            RangeBounds(range, size)
            == if ParseInt(parts[0]).None? || end.None? || ParseInt(parts[0]).value > Min(size - 1, end.value) then None
               else Some((ParseInt(parts[0]).value, Min(size - 1, end.value)))
  {
  }

  /** The pieces of `bytes=<x>` are the pieces of `x`. */
  lemma RangePartsOf(x: string)
    requires x != [] && !IsJsWhitespace(x[|x| - 1])
    ensures RangeParts("bytes=" + x) == Split(x, "-")
  {
    StripUnit(x);
  }

  /** An open range `bytes=<a>-` runs to the last byte of the file. */
  lemma OpenRange(a: nat, size: nat)
    ensures RangeBounds("bytes=" + NatToString(a) + "-", size)
            == if a <= size - 1 then Some((a, size - 1)) else None
  {
    RangePartsOpen(a);
    ParseIntNatToString(a);
    BoundsOfParts("bytes=" + NatToString(a) + "-", size);
  }

  /** `bytes=<a>-` splits into the digits of `a` and an empty piece. */
  lemma RangePartsOpen(a: nat)
    ensures RangeParts("bytes=" + NatToString(a) + "-") == [NatToString(a), ""]
  {
    DigitsFree(a, '-');
    RangePartsOfOpen(NatToString(a));
  }

  /** `bytes=<A>-` splits into A and an empty piece when A holds no minus sign. */
  lemma RangePartsOfOpen(A: string)
    requires !Contains(A, "-")
    ensures RangeParts("bytes=" + A + "-") == [A, ""]
  {
    var x := A + "-";
    assert "bytes=" + A + "-" == "bytes=" + x;
    assert x[|x| - 1] == '-';
    RangePartsOf(x);
    SplitOpen(A);
  }

  /** `A-` splits into A and an empty piece when A holds no minus sign. */
  lemma SplitOpen(A: string)
    requires !Contains(A, "-")
    ensures Split(A + "-", "-") == [A, ""]
  {
    assert A + "-" == A + "-" + "";
    SplitAfterFree(A, "-", "");
    ShorterNotContains("", "-");
    SplitNoSeparator("", "-");
  }

  /** A suffix range `bytes=-<n>` (the last n bytes) is never satisfied: it always gives 416. */
  lemma SuffixRangeUnsatisfiable(n: nat, size: nat)
    ensures RangeBounds("bytes=-" + NatToString(n), size) == None
  {
    RangePartsSuffix(n);
    BoundsOfParts("bytes=-" + NatToString(n), size);
    assert ParseInt("") == None;
  }

  /** `bytes=-<n>` splits into an empty first piece. */
  lemma RangePartsSuffix(n: nat)
    ensures RangeParts("bytes=-" + NatToString(n))[0] == ""
  {
    var N := NatToString(n);
    assert IsDigit(N[|N| - 1]);
    RangePartsOfSuffix(N);
  }

  /** `bytes=-<N>` has an empty first piece whenever N ends in a non-space. */
  lemma RangePartsOfSuffix(N: string)
    requires N != [] && !IsJsWhitespace(N[|N| - 1])
    ensures RangeParts("bytes=-" + N)[0] == ""
  {
    var x := "-" + N;
    assert "bytes=-" + N == "bytes=" + x;
    assert x[|x| - 1] == N[|N| - 1];
    RangePartsOf(x);
    ShorterNotContains("", "-");
    assert x == "" + "-" + N;
    SplitAfterFree("", "-", N);
  }

  // ---------------------------------------------------------------------------
  // What serveFile decides

  /**
   * A fresh cached copy (RFC 7232 conditions as the code evaluates them):
   * the status ends at 304, no header is staged, and there is no body.
   */
  lemma DecideNotModified(h: Host, st: FileStats, path: string, httpMethod: Option<string>,
                          headers: map<string, string>, options: ServeOptions, name: string, before: JsValue, code: JsValue)
    requires NotModified(h, ETag(h, st), st.mtime, HeaderOr(headers, "if-none-match"), HeaderOr(headers, "if-modified-since"))
    ensures Decide(h, st, path, httpMethod, headers, options).result == Some(NoBody)
    ensures LastStatus(Decide(h, st, path, httpMethod, headers, options).writes, code) == Num(304)
    ensures LastHeader(Decide(h, st, path, httpMethod, headers, options).writes, name, before) == before
  {
    var ws := Decide(h, st, path, httpMethod, headers, options).writes;
    assert ws[..1] == [StatusWrite(200)];
  }

  /**
   * `serveFile` throws 416 exactly when the copy is not fresh and a range
   * is given that cannot be satisfied; the status is then left at 200 and
   * no header is staged.
   */
  lemma DecideUnsatisfiable(h: Host, st: FileStats, path: string, httpMethod: Option<string>,
                            headers: map<string, string>, options: ServeOptions, name: string, before: JsValue, code: JsValue)
    ensures Decide(h, st, path, httpMethod, headers, options).result.None?
            <==> !NotModified(h, ETag(h, st), st.mtime, HeaderOr(headers, "if-none-match"), HeaderOr(headers, "if-modified-since"))
                 && HeaderOr(headers, "range") != "" && RangeBounds(HeaderOr(headers, "range"), st.size).None?
    ensures Decide(h, st, path, httpMethod, headers, options).result.None? ==>
              LastStatus(Decide(h, st, path, httpMethod, headers, options).writes, code) == Num(200)
              && LastHeader(Decide(h, st, path, httpMethod, headers, options).writes, name, before) == before
  {
  }

  /** A served window lies inside the file, so at least one and at most `size` bytes are sent. */
  lemma WindowWithinFile(h: Host, st: FileStats, headers: map<string, string>)
    ensures Window(h, st, headers).Some? ==>
              0 <= Window(h, st, headers).value.0 <= Window(h, st, headers).value.1 < st.size
    ensures Window(h, st, headers).Some? ==> 1 <= ServedLength(h, st, headers) <= st.size
    ensures Window(h, st, headers).None? ==> ServedLength(h, st, headers) == st.size
  {
    RangeWithinFile(HeaderOr(headers, "range"), st.size);
  }

  /**
   * A file that is served: the body is the window (nothing for HEAD), the
   * status ends at 206 for a window and 200 otherwise, and Content-Range,
   * unless the caller sets it, is staged exactly for a window.
   */
  lemma DecideServed(h: Host, st: FileStats, path: string, httpMethod: Option<string>,
                     headers: map<string, string>, options: ServeOptions, before: JsValue, code: JsValue)
    requires !NotModified(h, ETag(h, st), st.mtime, HeaderOr(headers, "if-none-match"), HeaderOr(headers, "if-modified-since"))
    requires Decide(h, st, path, httpMethod, headers, options).result.Some?
    ensures Decide(h, st, path, httpMethod, headers, options).result == Some(BodyFor(httpMethod, path, Window(h, st, headers)))
    ensures LastStatus(Decide(h, st, path, httpMethod, headers, options).writes, code)
            == Num(if Window(h, st, headers).Some? then 206 else 200)
    ensures !Overrides(options.headers, "Content-Range") ==>
              LastHeader(Decide(h, st, path, httpMethod, headers, options).writes, "Content-Range", before)
              == (match Window(h, st, headers)
                  case Some(w) => Str(ContentRange(w.0, w.1, st.size))
                  case None => before)
  {
    var w := Window(h, st, headers);
    var lead := Lead(HeaderOr(headers, "range"), w, st.size);
    var staging := Staging(h, st, path, options, ServedLength(h, st, headers));
    DecideServedWrites(h, st, path, httpMethod, headers, options);
    StagedAfter(lead, staging, h, st, path, options, ServedLength(h, st, headers), "Content-Range", before, code);
    ContentRangeNotFixed(h, st, path, options, ServedLength(h, st, headers));
    LeadWrites(HeaderOr(headers, "range"), w, st.size, "Content-Range", before, code);
  }

  /** Content-Range is not one of the fixed headers. */
  lemma ContentRangeNotFixed(h: Host, st: FileStats, path: string, options: ServeOptions, size: int)
    ensures FixedValue(h, st, path, options, size, "Content-Range") == None
  {
  }

  /**
   * The headers of a served file: every fixed header the caller does not
   * override holds its fixed value, with Content-Length the served length,
   * and a header the caller sets holds the caller's last value for it.
   */
  lemma DecideServedHeaders(h: Host, st: FileStats, path: string, httpMethod: Option<string>,
                            headers: map<string, string>, options: ServeOptions, name: string, before: JsValue)
    requires !NotModified(h, ETag(h, st), st.mtime, HeaderOr(headers, "if-none-match"), HeaderOr(headers, "if-modified-since"))
    requires Decide(h, st, path, httpMethod, headers, options).result.Some?
    ensures name != "Content-Range" && !Overrides(options.headers, name) ==>
              LastHeader(Decide(h, st, path, httpMethod, headers, options).writes, name, before)
              == (match FixedValue(h, st, path, options, ServedLength(h, st, headers), name)
                  case Some(v) => Str(v)
                  case None => before)
    ensures forall i :: 0 <= i < |options.headers| && options.headers[i].0 == name
                        && (forall j :: i < j < |options.headers| ==> options.headers[j].0 != name) ==>
              LastHeader(Decide(h, st, path, httpMethod, headers, options).writes, name, before) == Str(options.headers[i].1)
  {
    var w := Window(h, st, headers);
    var lead := Lead(HeaderOr(headers, "range"), w, st.size);
    var staging := Staging(h, st, path, options, ServedLength(h, st, headers));
    DecideServedWrites(h, st, path, httpMethod, headers, options);
    StagedAfter(lead, staging, h, st, path, options, ServedLength(h, st, headers), name, before, Undefined);
    LeadWrites(HeaderOr(headers, "range"), w, st.size, name, before, Undefined);
  }

  /** A served file's writes are the lead, then the staging of the served length; the window is None without a range. */
  lemma DecideServedWrites(h: Host, st: FileStats, path: string, httpMethod: Option<string>,
                           headers: map<string, string>, options: ServeOptions)
    requires !NotModified(h, ETag(h, st), st.mtime, HeaderOr(headers, "if-none-match"), HeaderOr(headers, "if-modified-since"))
    requires Decide(h, st, path, httpMethod, headers, options).result.Some?
    ensures Decide(h, st, path, httpMethod, headers, options)
            == Decision(Lead(HeaderOr(headers, "range"), Window(h, st, headers), st.size)
                          + Staging(h, st, path, options, ServedLength(h, st, headers)),
                        Some(BodyFor(httpMethod, path, Window(h, st, headers))))
    ensures HeaderOr(headers, "range") == "" ==> Window(h, st, headers).None?
  {
  }

  /** What `lead` followed by the staging leaves, in terms of what `lead` leaves. */
  lemma StagedAfter(lead: seq<StoreWrite>, staging: seq<StoreWrite>, h: Host, st: FileStats, path: string,
                    options: ServeOptions, size: int, name: string, before: JsValue, code: JsValue)
    requires staging == Staging(h, st, path, options, size)
    ensures LastStatus(lead + staging, code) == LastStatus(lead, code)
    ensures !Overrides(options.headers, name) ==>
              LastHeader(lead + staging, name, before)
              == (match FixedValue(h, st, path, options, size, name)
                  case Some(v) => Str(v)
                  case None => LastHeader(lead, name, before))
    ensures forall i :: 0 <= i < |options.headers| && options.headers[i].0 == name
                        && (forall j :: i < j < |options.headers| ==> options.headers[j].0 != name) ==>
              LastHeader(lead + staging, name, before) == Str(options.headers[i].1)
  {
    LastHeaderAppend(lead, staging, name, before);
    LastHeaderAppend(lead, staging, name, code);
    StagingValue(h, st, path, options, size, name, LastHeader(lead, name, before), LastStatus(lead, code));
  }

  /** The entity tag holds no comma when the ISO date text holds none. */
  lemma ETagNoComma(h: Host, st: FileStats)
    requires !Contains(h.toIsoString(st.mtime), ",")
    ensures !Contains(ETag(h, st), ",")
  {
    var q := "\"";
    var a := NatToString(st.ino);
    var b := NatToString(st.size);
    var iso := h.toIsoString(st.mtime);
    DigitsFree(st.ino, ',');
    DigitsFree(st.size, ',');
    assert !Contains(q, ",") && !Contains("-", ",") by {
      ContainsIff(q, ",");
      ContainsIff("-", ",");
      assert !OccursAt(q, ",", 0);
      assert !OccursAt("-", ",", 0);
    }
    ConcatFree(q, a, ",");
    ConcatFree(q + a, "-", ",");
    ConcatFree(q + a + "-", b, ",");
    ConcatFree(q + a + "-" + b, "-", ",");
    ConcatFree(q + a + "-" + b + "-", iso, ",");
    ConcatFree(q + a + "-" + b + "-" + iso, q, ",");
  }

  /**
   * A client that sends back the entity tag it was given in If-None-Match
   * finds its copy fresh, whatever If-Modified-Since says.
   */
  lemma EchoedTagFresh(h: Host, st: FileStats, clientLM: string)
    requires !Contains(h.toIsoString(st.mtime), ",")
    ensures NotModified(h, ETag(h, st), st.mtime, ETag(h, st), clientLM)
  {
    var t := ETag(h, st);
    ETagNoComma(h, st);
    SplitNoSeparator(t, ",");
    assert t[0] == '"' && t[|t| - 1] == '"';
    TrimNoop(t);
    assert EtagList(t)[0] == t;
  }

  /**
   * If-Modified-Since is compared strictly: a client that sends back the
   * Last-Modified date it was given never finds its copy fresh when dates
   * print at whole seconds, although section 3.3 of RFC 7232 calls a
   * representation modified only when it is later than that date.
   */
  lemma EchoedDateStale(h: Host, st: FileStats)
    requires DatesRoundDown(h)
    ensures !NotModified(h, ETag(h, st), st.mtime, "", h.toUtcString(st.mtime))
  {
  }

  // ---------------------------------------------------------------------------
  // serveFile

  /** The store `serveFile` writes through: every cache sound and the header cache a plain object. */
  predicate Writable(st: Props) {
    AllSound(st) && ValueIn(st, Namespace.SetHeader).Obj?
  }

  /** One more write is one more step. */
  lemma ApplySnoc(base: Props, ws: seq<StoreWrite>, w: StoreWrite)
    ensures Apply(base, ws + [w]) == Step(Apply(base, ws), w)
  {
    assert (ws + [w])[..|ws|] == ws;
  }

  /** `status(code)`, as one more write after `ws`. */
  method WriteStatus(ctx: HttpContext, code: int, ghost base: Props, ghost ws: seq<StoreWrite>)
    requires code != 0
    requires ctx.custom.entries == Apply(base, ws) && Writable(ctx.custom.entries)
    modifies ctx.custom
    ensures ctx.custom.entries == Apply(base, ws + [StatusWrite(code)]) && Writable(ctx.custom.entries)
  {
    ghost var pre := ctx.custom.entries;
    var stored := StatusCode(ctx, code);
    UseInSound(pre, Namespace.Status);
    WithFieldSound(UseIn(pre, Namespace.Status), Namespace.Status, "code", Num(code));
    ApplySnoc(base, ws, StatusWrite(code));
  }

  /** `setHeader(name, value)` with a string or a number, as one more write after `ws`. */
  method WriteHeader(ctx: HttpContext, name: string, value: JsValue, ghost base: Props, ghost ws: seq<StoreWrite>)
    requires value.Str? || value.Num?
    requires ctx.custom.entries == Apply(base, ws) && Writable(ctx.custom.entries)
    modifies ctx.custom
    ensures value.Str? ==> ctx.custom.entries == Apply(base, ws + [HeaderWrite(name, value.s)])
    ensures value.Num? ==> ctx.custom.entries == Apply(base, ws + [HeaderWrite(name, IntToString(value.n))])
    ensures Writable(ctx.custom.entries)
  {
    ghost var pre := ctx.custom.entries;
    Headers.SetHeader(ctx, name, value);
    WithFieldSound(pre, Namespace.SetHeader, name, Str(ToJsString(value)));
    ApplySnoc(base, ws, HeaderWrite(name, ToJsString(value)));
  }

  /** The fixed headers, then the caller's `options.headers` in order. */
  method StageHeaders(ctx: HttpContext, h: Host, st: FileStats, path: string, options: ServeOptions, size: int,
                      etag: string, ghost base: Props, ghost ws: seq<StoreWrite>)
    requires etag == ETag(h, st)
    requires ctx.custom.entries == Apply(base, ws) && Writable(ctx.custom.entries)
    modifies ctx.custom
    ensures ctx.custom.entries == Apply(base, ws + Staging(h, st, path, options, size)) && Writable(ctx.custom.entries)
  {
    StageFixed(ctx, h, st, path, options, size, etag, base, ws);
    StageCaller(ctx, options.headers, base, ws + Fixed(h, st, path, options, size));
    ApplyRegroup(base, ws, Fixed(h, st, path, options, size), CallerWrites(options.headers));
  }

  /** Grouping the writes differently changes nothing. */
  lemma ApplyRegroup(base: Props, ws: seq<StoreWrite>, x: seq<StoreWrite>, y: seq<StoreWrite>)
    ensures Apply(base, ws + x + y) == Apply(base, ws + (x + y))
  {
    assert ws + x + y == ws + (x + y);
  }

  /** The fixed writes one at a time, with or without Cache-Control. */
  lemma FixedOneByOne(h: Host, st: FileStats, path: string, options: ServeOptions, size: int, ws: seq<StoreWrite>)
    ensures ws + Fixed(h, st, path, options, size)
            == if !options.maxAge.Undefined? then
                 ws + [HeaderWrite("Accept-Ranges", "bytes")] + [HeaderWrite("etag", ETag(h, st))]
                 + [HeaderWrite("Last-Modified", h.toUtcString(st.mtime))]
                 + [HeaderWrite("Cache-Control", "public, max-age=" + IntToString(h.convertSeconds(options.maxAge)))]
                 + [HeaderWrite("Content-Type", MimeOr(h, path))] + [HeaderWrite("Content-Length", IntToString(size))]
               else
                 ws + [HeaderWrite("Accept-Ranges", "bytes")] + [HeaderWrite("etag", ETag(h, st))]
                 + [HeaderWrite("Last-Modified", h.toUtcString(st.mtime))]
                 + [HeaderWrite("Content-Type", MimeOr(h, path))] + [HeaderWrite("Content-Length", IntToString(size))]
  {
  }

  /** Accept-Ranges, etag, Last-Modified, Cache-Control when a max age is given, Content-Type and Content-Length. */
  method StageFixed(ctx: HttpContext, h: Host, st: FileStats, path: string, options: ServeOptions, size: int,
                    etag: string, ghost base: Props, ghost ws: seq<StoreWrite>)
    requires etag == ETag(h, st)
    requires ctx.custom.entries == Apply(base, ws) && Writable(ctx.custom.entries)
    modifies ctx.custom
    ensures ctx.custom.entries == Apply(base, ws + Fixed(h, st, path, options, size)) && Writable(ctx.custom.entries)
  {
    ghost var acc := ws;
    WriteHeader(ctx, "Accept-Ranges", Str("bytes"), base, acc);
    acc := acc + [HeaderWrite("Accept-Ranges", "bytes")];
    WriteHeader(ctx, "etag", Str(etag), base, acc);
    acc := acc + [HeaderWrite("etag", etag)];
    WriteHeader(ctx, "Last-Modified", Str(h.toUtcString(st.mtime)), base, acc);
    acc := acc + [HeaderWrite("Last-Modified", h.toUtcString(st.mtime))];
    if !options.maxAge.Undefined? {
      var cache := "public, max-age=" + IntToString(h.convertSeconds(options.maxAge));
      WriteHeader(ctx, "Cache-Control", Str(cache), base, acc);
      acc := acc + [HeaderWrite("Cache-Control", cache)];
    }
    WriteHeader(ctx, "Content-Type", Str(MimeOr(h, path)), base, acc);
    acc := acc + [HeaderWrite("Content-Type", MimeOr(h, path))];
    WriteHeader(ctx, "Content-Length", Num(size), base, acc);
    acc := acc + [HeaderWrite("Content-Length", IntToString(size))];
    FixedOneByOne(h, st, path, options, size, ws);
  }

  /** The caller's writes for one more header. */
  lemma CallerWritesSnoc(base: Props, ws: seq<StoreWrite>, hs: seq<(string, string)>, i: nat)
    requires i < |hs|
    ensures Apply(base, ws + CallerWrites(hs[..i]) + [HeaderWrite(hs[i].0, hs[i].1)]) == Apply(base, ws + CallerWrites(hs[..i + 1]))
  {
    assert CallerWrites(hs[..i + 1]) == CallerWrites(hs[..i]) + [HeaderWrite(hs[i].0, hs[i].1)];
    assert ws + CallerWrites(hs[..i]) + [HeaderWrite(hs[i].0, hs[i].1)] == ws + CallerWrites(hs[..i + 1]);
  }

  /** The caller's writes for no header and for all of them. */
  lemma CallerWritesEnds(base: Props, ws: seq<StoreWrite>, hs: seq<(string, string)>)
    ensures Apply(base, ws + CallerWrites(hs[..0])) == Apply(base, ws)
    ensures Apply(base, ws + CallerWrites(hs[..|hs|])) == Apply(base, ws + CallerWrites(hs))
  {
    assert ws + CallerWrites(hs[..0]) == ws;
    assert hs[..|hs|] == hs;
  }

  /** `for (const header of Object.keys(options.headers)) setHeader(header, options.headers[header])`. */
  method StageCaller(ctx: HttpContext, hs: seq<(string, string)>, ghost base: Props, ghost ws: seq<StoreWrite>)
    requires ctx.custom.entries == Apply(base, ws) && Writable(ctx.custom.entries)
    modifies ctx.custom
    ensures ctx.custom.entries == Apply(base, ws + CallerWrites(hs)) && Writable(ctx.custom.entries)
  {
    CallerWritesEnds(base, ws, hs);
    var i := 0;
    while i < |hs|
      invariant 0 <= i <= |hs|
      invariant ctx.custom.entries == Apply(base, ws + CallerWrites(hs[..i])) && Writable(ctx.custom.entries)
    {
      WriteHeader(ctx, hs[i].0, Str(hs[i].1), base, ws + CallerWrites(hs[..i]));
      CallerWritesSnoc(base, ws, hs, i);
      i := i + 1;
    }
  }

  /** The decision for a fresh cached copy, write by write. */
  lemma DecideFresh(h: Host, st: FileStats, path: string, httpMethod: Option<string>,
                    headers: map<string, string>, options: ServeOptions)
    requires NotModified(h, ETag(h, st), st.mtime, HeaderOr(headers, "if-none-match"), HeaderOr(headers, "if-modified-since"))
    ensures Decide(h, st, path, httpMethod, headers, options) == Decision([] + [StatusWrite(200)] + [StatusWrite(304)], Some(NoBody))
  {
    assert [] + [StatusWrite(200)] + [StatusWrite(304)] == [StatusWrite(200), StatusWrite(304)];
  }

  /** The decision for an unsatisfiable range, write by write. */
  lemma DecideRangeFails(h: Host, st: FileStats, path: string, httpMethod: Option<string>,
                         headers: map<string, string>, options: ServeOptions)
    requires !NotModified(h, ETag(h, st), st.mtime, HeaderOr(headers, "if-none-match"), HeaderOr(headers, "if-modified-since"))
    requires HeaderOr(headers, "range") != "" && RangeBounds(HeaderOr(headers, "range"), st.size).None?
    ensures Decide(h, st, path, httpMethod, headers, options) == Decision([] + [StatusWrite(200)], None)
  {
    assert [] + [StatusWrite(200)] == [StatusWrite(200)];
  }

  /** The lead, write by write. */
  lemma LeadOneByOne(range: string, w: Option<(int, int)>, size: nat)
    ensures Lead(range, w, size)
            == if range == "" then [] + [StatusWrite(200)]
               else if w.None? then [] + [StatusWrite(200)] + [StatusWrite(200)]
               else [] + [StatusWrite(200)] + [HeaderWrite("Content-Range", ContentRange(w.value.0, w.value.1, size))] + [StatusWrite(206)]
  {
  }

  /**
   * The range step for a satisfiable or absent range: with a failing
   * If-Range the status is set to 200 again and the whole file is sent;
   * otherwise Content-Range is staged and the status set to 206.
   */
  method ProcessRange(ctx: HttpContext, h: Host, st: FileStats, headers: map<string, string>, etag: string, ghost base: Props)
    returns (size: int, window: Option<(int, int)>)
    requires etag == ETag(h, st)
    requires HeaderOr(headers, "range") != "" ==> RangeBounds(HeaderOr(headers, "range"), st.size).Some?
    requires ctx.custom.entries == Apply(base, [] + [StatusWrite(200)]) && Writable(ctx.custom.entries)
    modifies ctx.custom
    ensures window == Window(h, st, headers) && size == ServedLength(h, st, headers)
    ensures ctx.custom.entries == Apply(base, Lead(HeaderOr(headers, "range"), window, st.size)) && Writable(ctx.custom.entries)
  {
    ghost var ws: seq<StoreWrite> := [] + [StatusWrite(200)];
    var range := HeaderOr(headers, "range");
    size := st.size;
    window := None;
    if range == "" {
      assert Window(h, st, headers) == None && ServedLength(h, st, headers) == size;
    } else {
      var bounds := RangeBounds(range, st.size);
      var start := bounds.value.0;
      var end := bounds.value.1;
      size := end - start + 1;
      var ifRange := HeaderOr(headers, "if-range");
      var tag := if ifRange != "" && ifRange[0] == '"' then ifRange else "";
      var date := if tag != "" then "" else ifRange;
      var matches := IsNotModified(h, etag, st.mtime, tag, date);
      assert (ifRange != "" && !matches) == IfRangeFails(h, st, headers);
      if ifRange != "" && !matches {
        WriteStatus(ctx, 200, base, ws);
        ws := ws + [StatusWrite(200)];
        size := st.size;
        range := "";
        assert Window(h, st, headers) == None && ServedLength(h, st, headers) == size;
      } else {
        WriteHeader(ctx, "Content-Range", Str(ContentRange(start, end, st.size)), base, ws);
        ws := ws + [HeaderWrite("Content-Range", ContentRange(start, end, st.size))];
        WriteStatus(ctx, 206, base, ws);
        ws := ws + [StatusWrite(206)];
        window := Some((start, end));
        assert Window(h, st, headers) == window && ServedLength(h, st, headers) == size;
      }
    }
    LeadOneByOne(HeaderOr(headers, "range"), window, st.size);
    assert ws == Lead(HeaderOr(headers, "range"), window, st.size);
  }

  /**
   * `serveFile` once the file is found and the caches are obtained: the
   * store ends as the decision's writes leave it, and the result is the
   * decision's (a 416 error when the range cannot be satisfied).
   */
  method ServeFound(ctx: HttpContext, h: Host, st: FileStats, path: string, httpMethod: Option<string>,
                    headers: map<string, string>, options: ServeOptions) returns (r: Result<Served, JsError>)
    requires Writable(ctx.custom.entries)
    modifies ctx.custom
    ensures ctx.custom.entries == Apply(old(ctx.custom.entries), Decide(h, st, path, httpMethod, headers, options).writes)
    ensures Decide(h, st, path, httpMethod, headers, options).result.Some? ==>
              r == Success(Decide(h, st, path, httpMethod, headers, options).result.value)
    ensures Decide(h, st, path, httpMethod, headers, options).result.None? ==>
              r.Failure? && r.error.HttpError? && r.error.err.code == 416 && r.error.err.source == Text("")
  {
    ghost var base := ctx.custom.entries;
    ghost var ws: seq<StoreWrite> := [];
    WriteStatus(ctx, 200, base, ws);
    ws := ws + [StatusWrite(200)];
    var etag := ETag(h, st);
    var notModified := IsNotModified(h, etag, st.mtime, HeaderOr(headers, "if-none-match"), HeaderOr(headers, "if-modified-since"));
    if notModified {
      WriteStatus(ctx, 304, base, ws);
      DecideFresh(h, st, path, httpMethod, headers, options);
      return Success(NoBody);
    }
    var range := HeaderOr(headers, "range");
    if range != "" && RangeBounds(range, st.size).None? {
      var e := new ProstoHttpError(416);
      DecideRangeFails(h, st, path, httpMethod, headers, options);
      return Failure(HttpError(e));
    }
    var size, window := ProcessRange(ctx, h, st, headers, etag, base);
    StageHeaders(ctx, h, st, path, options, size, etag, base, Lead(range, window, st.size));
    DecideServedWrites(h, st, path, httpMethod, headers, options);
    r := Success(if httpMethod == Some("HEAD") then NoBody else Stream(path, window));
  }

  /** The four caches `serveFile` obtains, in order: `useResponse`, `useSetHeaders`, `useHeaders`, `useRequest`. */
  method ObtainCaches(slot: HttpContextSlot) returns (ctx: HttpContext, headers: map<string, string>, httpMethod: Option<string>)
    requires slot.current.Some? && AllSound(slot.current.value.custom.entries)
    modifies slot.current.value.custom
    ensures slot.current == old(slot.current) && ctx == slot.current.value
    ensures ctx.custom.entries == Prelude(old(ctx.custom.entries)) && Writable(ctx.custom.entries)
    ensures headers == ctx.req.headers && httpMethod == ctx.req.httpMethod
  {
    ghost var st0 := slot.current.value.custom.entries;
    var response := UseResponse(slot);
    var setHeaders := UseSetHeaders(slot);
    var hs := UseHeaders(slot);
    var request := UseRequest(slot);
    ctx := request.value;
    headers := hs.value;
    httpMethod := ctx.req.httpMethod;
    UseInSound(st0, Namespace.Response);
    UseInSound(UseIn(st0, Namespace.Response), Namespace.Status);
    UseInSound(UseIn(UseIn(st0, Namespace.Response), Namespace.Status), Namespace.SetHeader);
    UseInSound(UseIn(UseIn(UseIn(st0, Namespace.Response), Namespace.Status), Namespace.SetHeader), Body);
    UseInSound(UseIn(UseIn(UseIn(UseIn(st0, Namespace.Response), Namespace.Status), Namespace.SetHeader), Body), Body);
  }

  /**
   * `serveFile(filePath, options)`: outside a request it panics; a missing
   * file or a directory is a 404 that leaves the store alone; otherwise the
   * caches are obtained and the store and the result are the decision's.
   */
  method ServeFile(slot: HttpContextSlot, filePath: string, options: ServeOptions, h: Host) returns (r: Result<Served, JsError>)
    requires slot.current.Some? ==> AllSound(slot.current.value.custom.entries)
    modifies slot, if slot.current.Some? then {slot.current.value.custom} else {}
    ensures slot.current == old(slot.current)
    ensures slot.current.None? ==> r == Failure(Panic(OutsideRequest))
    ensures slot.current.Some? ==>
              var ctx := slot.current.value;
              var path := h.resolvePath(options.baseDir, filePath);
              var found := h.stat(path);
              if found.None? || found.value.isDirectory then
                r.Failure? && r.error.HttpError? && r.error.err.code == 404 && r.error.err.source == Text("")
                && ctx.custom.entries == old(ctx.custom.entries)
              else
                var d := Decide(h, found.value, path, ctx.req.httpMethod, ctx.req.headers, options);
                ctx.custom.entries == Apply(Prelude(old(ctx.custom.entries)), d.writes)
                && (d.result.Some? ==> r == Success(d.result.value))
                && (d.result.None? ==> r.Failure? && r.error.HttpError? && r.error.err.code == 416 && r.error.err.source == Text(""))
  {
    var cur := slot.UseCurrentHttpContext();
    if cur.Failure? {
      return Failure(cur.error);
    }
    var ctx := cur.value;
    var path := h.resolvePath(options.baseDir, filePath);
    var found := h.stat(path);
    if found.None? || found.value.isDirectory {
      var e := new ProstoHttpError(404);
      return Failure(HttpError(e));
    }
    slot.RestoreCtx(ctx);
    var c, headers, httpMethod := ObtainCaches(slot);
    r := ServeFound(c, h, found.value, path, httpMethod, headers, options);
  }
}
