/**
 * `formDataParser` of `useBody` (src/composables/body.ts): a line-oriented
 * reading of a `multipart/form-data` body. The body is trimmed and split
 * at the boundary taken from the request's Content-Type; each part is
 * trimmed, split into trimmed lines and read by a small state machine over
 * the current field name, the part's content type and whether the value
 * lines have begun. Values of parts that share a name are joined with a
 * newline; a part declared `application/json` is JSON-parsed when the next
 * part begins (or at the end).
 */
module FormData {
  import opened Wrappers
  import opened Strings
  import opened Js
  import opened Host

  const JsonType := "application/json"
  const DispositionPrefix := "content-disposition: form-data;"
  const ContentTypePrefix := "content-type:"

  /** What the parser throws: a `ProstoHttpError` 400, or the SyntaxError of `JSON.parse`. */
  datatype FormFailure = BadRequest(message: string) | SyntaxError(message: string)

  // ---------------------------------------------------------------------------
  // The two regular expressions with a `([^;]+)` capture

  /** The end of the run of non-`;` characters that starts at `from`. */
  function RunEnd(s: string, from: nat): (e: nat)
    requires from <= |s|
    decreases |s| - from
    ensures from <= e <= |s|
    ensures forall i :: from <= i < e ==> s[i] != ';'
    ensures e < |s| ==> s[e] == ';'
  {
    if from == |s| || s[from] == ';' then from else RunEnd(s, from + 1)
  }

  /** `/KEY([^;]+)/` can match at `p`: the key, then at least one non-`;` character. */
  predicate ParamAt(s: string, key: string, p: nat) {
    OccursAt(s, key, p) && p + |key| < |s| && s[p + |key|] != ';'
  }

  /** The leftmost position at or after `p` where `ParamAt` holds. */
  function ParamPos(s: string, key: string, p: nat): (r: Option<nat>)
    requires p <= |s|
    decreases |s| - p
    ensures r.Some? ==> p <= r.value && ParamAt(s, key, r.value)
    ensures forall q: nat :: p <= q && (r.None? || q < r.value) ==> !ParamAt(s, key, q)
  {
    if p + |key| >= |s| then None
    else if ParamAt(s, key, p) then Some(p)
    else ParamPos(s, key, p + 1)
  }

  /**
   * `(/KEY([^;]+)/.exec(s) || [])[1]`: the greedy capture at the leftmost
   * match, or None when the expression does not match.
   */
  function Param(s: string, key: string): (r: Option<string>)
    ensures r.Some? ==> r.value != [] && forall i :: 0 <= i < |r.value| ==> r.value[i] != ';'
    ensures r.None? <==> forall q: nat :: !ParamAt(s, key, q)
  {
    match ParamPos(s, key, 0)
    case Some(q) => Some(s[q + |key|..RunEnd(s, q + |key|)])
    case None => None
  }

  /** `t` occurs at `p` up to ASCII case, as the `i` flag compares letters. */
  predicate FoldedAt(s: string, t: string, p: nat) {
    p + |t| <= |s| && ToLower(s[p..p + |t|]) == ToLower(t)
  }

  /**
   * Where the capture of `/content-type:\s?([^;]+)/i` starts when the
   * expression matches at `p`: after one white-space character if a
   * non-`;` character follows it, otherwise right after the colon.
   */
  function ContentTypeStart(s: string, p: nat): (r: Option<nat>)
    ensures r.Some? ==> r.value < |s| && s[r.value] != ';'
  {
    var e := p + |ContentTypePrefix|;
    if !FoldedAt(s, ContentTypePrefix, p) then None
    else if e + 1 < |s| && IsJsWhitespace(s[e]) && s[e + 1] != ';' then Some(e + 1)
    else if e < |s| && s[e] != ';' then Some(e)
    else None
  }

  /** The leftmost position at or after `p` where the content-type expression matches. */
  function ContentTypePos(s: string, p: nat): (r: Option<nat>)
    requires p <= |s|
    decreases |s| - p
    ensures r.Some? ==> p <= r.value && ContentTypeStart(s, r.value).Some?
    ensures forall q: nat :: p <= q && (r.None? || q < r.value) ==> ContentTypeStart(s, q).None?
  {
    if p + |ContentTypePrefix| >= |s| then None
    else if ContentTypeStart(s, p).Some? then Some(p)
    else ContentTypePos(s, p + 1)
  }

  /** `(/content-type:\s?([^;]+)/i.exec(line) || [])[1]`. */
  function ContentTypeParam(s: string): (r: Option<string>)
    ensures r.Some? ==> r.value != [] && forall i :: 0 <= i < |r.value| ==> r.value[i] != ';'
  {
    match ContentTypePos(s, 0)
    case Some(q) =>
      var b := ContentTypeStart(s, q).value;
      Some(s[b..RunEnd(s, b)])
    case None => None
  }

  /**
   * `'--' + capture of /boundary=([^;]+)(?:;|$)/`, or `'--'` alone. The
   * greedy run always stops at a `;` or at the end, so the tail `(?:;|$)`
   * never rejects a match. The boundary is never empty, so the 400
   * "form-data boundary not recognized" cannot be thrown.
   */
  function Boundary(contentType: Option<string>): (b: string)
    ensures |b| >= 2 && b[..2] == "--"
  {
    "--" + match Param(contentType.GetOr(""), "boundary=") { case Some(p) => p case None => "" }
  }

  // ---------------------------------------------------------------------------
  // The line state machine

  predicate IsQuote(c: char) {
    c == '"' || c == '\''
  }

  /** `key.replace(/^["']/, '').replace(/["']$/, '')`. */
  function StripQuotes(k: string): (r: string)
    ensures |r| <= |k|
  {
    var a := if |k| > 0 && IsQuote(k[0]) then k[1..] else k;
    if |a| > 0 && IsQuote(a[|a| - 1]) then a[..|a| - 1] else a
  }

  /** The parser's locals: `result`, `key`, `partContentType` and `valueMode`. */
  datatype FormState = FormState(result: Props, key: string, partType: string, valueMode: bool)

  /** The locals as each part starts: no name, `text/plain`, not in the value lines. */
  function Reset(result: Props): FormState {
    FormState(result, "", "text/plain", false)
  }

  /** One trimmed line of a part. */
  function LineStep(st: FormState, line: string): Result<FormState, FormFailure> {
    if st.valueMode then Success(ValueLine(st, line)) else HeaderLine(st, line)
  }

  /** A value line: stored under the name, or appended after a newline to a truthy value. */
  function ValueLine(st: FormState, line: string): FormState {
    var cur := Get(st.result, st.key);
    var v := if Truthy(cur) then ToJsString(cur) + "\n" + line else line;
    st.(result := Put(st.result, st.key, Str(v)))
  }

  /** A line before the values: a blank or `--` line, the disposition, the content type, or anything else. */
  function HeaderLine(st: FormState, line: string): Result<FormState, FormFailure> {
    if line == "" || line == "--" then
      if st.key != "" then Success(st.(key := StripQuotes(st.key), valueMode := true))
      else Success(st)
    else if StartsWith(ToLower(line), DispositionPrefix) then
      match Param(line, "name=")
      case Some(k) => Success(st.(key := k))
      case None => Failure(BadRequest("Could not read multipart name: " + line))
    else if StartsWith(ToLower(line), ContentTypePrefix) then
      match ContentTypeParam(line)
      case Some(t) => Success(st.(partType := t))
      case None => Failure(BadRequest("Could not read content-type: " + line))
    else Success(st)
  }

  /** `parsePart()`: a named JSON part has its accumulated value JSON-parsed. */
  function ParsePart(h: Host, st: FormState): Result<Props, FormFailure> {
    if st.key != "" && Contains(st.partType, JsonType) then
      match h.jsonParse(ToJsString(Get(st.result, st.key)))
      case Success(v) => Success(Put(st.result, st.key, v))
      case Failure(m) => Failure(SyntaxError(m))
    else Success(st.result)
  }

  /** `part.trim().split(/\n/g).map(s => s.trim())`. */
  function Lines(part: string): (ls: seq<string>)
    ensures |ls| >= 1
  {
    var raw := Split(Trim(part), "\n");
    seq(|raw|, i requires 0 <= i < |raw| => Trim(raw[i]))
  }

  /** The lines of one part, read in order; the first failure stops the parser. */
  function FoldLines(st: FormState, lines: seq<string>): Result<FormState, FormFailure>
    decreases |lines|
  {
    if lines == [] then Success(st)
    else
      match FoldLines(st, lines[..|lines| - 1])
      case Failure(e) => Failure(e)
      case Success(s) => LineStep(s, lines[|lines| - 1])
  }

  /** One iteration of the parts loop: finish the previous part, reset, read the lines. */
  function PartStep(h: Host, st: FormState, part: string): Result<FormState, FormFailure> {
    match ParsePart(h, st)
    case Failure(e) => Failure(e)
    case Success(r) => FoldLines(Reset(r), Lines(part))
  }

  function FoldParts(h: Host, st: FormState, parts: seq<string>): Result<FormState, FormFailure>
    decreases |parts|
  {
    if parts == [] then Success(st)
    else
      match FoldParts(h, st, parts[..|parts| - 1])
      case Failure(e) => Failure(e)
      case Success(s) => PartStep(h, s, parts[|parts| - 1])
  }

  /** The parts of the body: `v.trim().split(boundary)`. */
  function Parts(contentType: Option<string>, v: string): seq<string> {
    Split(Trim(v), Boundary(contentType))
  }

  /** What `formDataParser(v)` returns or throws. */
  function FormDataResult(h: Host, contentType: Option<string>, v: string): Result<Props, FormFailure> {
    match FoldParts(h, Reset([]), Parts(contentType, v))
    case Failure(e) => Failure(e)
    case Success(st) => ParsePart(h, st)
  }

  // ---------------------------------------------------------------------------
  // The parser as the source writes it

  /** `formDataParser(v)`: the loop over the parts, stopping at the first throw. */
  method FormDataParser(h: Host, contentType: Option<string>, v: string) returns (r: Result<Props, FormFailure>)
    ensures r == FormDataResult(h, contentType, v)
  {
    var parts := Parts(contentType, v);
    var st := Reset([]);
    var i := 0;
    while i < |parts|
      invariant 0 <= i <= |parts|
      invariant FoldParts(h, Reset([]), parts[..i]) == Success(st)
    {
      FoldPartsNext(h, Reset([]), parts, i);
      var fin := ParsePart(h, st);
      if fin.Failure? {
        FoldPartsFailed(h, Reset([]), parts, i + 1);
        return Failure(fin.error);
      }
      var next := ReadLines(Reset(fin.value), Lines(parts[i]));
      if next.Failure? {
        FoldPartsFailed(h, Reset([]), parts, i + 1);
        return Failure(next.error);
      }
      st := next.value;
      i := i + 1;
    }
    assert parts[..i] == parts;
    r := ParsePart(h, st);
  }

  /** The inner loop over the trimmed lines of one part. */
  method ReadLines(start: FormState, lines: seq<string>) returns (r: Result<FormState, FormFailure>)
    ensures r == FoldLines(start, lines)
  {
    var cur := start;
    var j := 0;
    while j < |lines|
      invariant 0 <= j <= |lines|
      invariant FoldLines(start, lines[..j]) == Success(cur)
    {
      FoldLinesNext(start, lines, j);
      var next := LineStep(cur, lines[j]);
      if next.Failure? {
        FoldLinesFailed(start, lines, j + 1);
        return next;
      }
      cur := next.value;
      j := j + 1;
    }
    assert lines[..j] == lines;
    r := Success(cur);
  }

  /** Reading one more line of a run is one more step after the lines before it. */
  lemma FoldLinesNext(st: FormState, lines: seq<string>, j: nat)
    requires j < |lines|
    ensures FoldLines(st, lines[..j + 1])
            == match FoldLines(st, lines[..j]) { case Failure(e) => Failure(e) case Success(s) => LineStep(s, lines[j]) }
  {
    assert lines[..j + 1][..j] == lines[..j];
  }

  /** Reading one more part is one more part step after the parts before it. */
  lemma FoldPartsNext(h: Host, st: FormState, parts: seq<string>, i: nat)
    requires i < |parts|
    ensures FoldParts(h, st, parts[..i + 1])
            == match FoldParts(h, st, parts[..i]) { case Failure(e) => Failure(e) case Success(s) => PartStep(h, s, parts[i]) }
  {
    assert parts[..i + 1][..i] == parts[..i];
  }

  /** Once the lines have failed, reading more lines keeps the failure. */
  lemma {:induction false} FoldLinesFailed(st: FormState, lines: seq<string>, n: nat)
    requires n <= |lines| && FoldLines(st, lines[..n]).Failure?
    decreases |lines| - n
    ensures FoldLines(st, lines) == FoldLines(st, lines[..n])
  {
    if n < |lines| {
      assert lines[..n + 1][..n] == lines[..n];
      FoldLinesFailed(st, lines, n + 1);
    } else {
      assert lines[..n] == lines;
    }
  }

  /** Once a part has failed, the parser's answer is that failure. */
  lemma {:induction false} FoldPartsFailed(h: Host, st: FormState, parts: seq<string>, n: nat)
    requires n <= |parts| && FoldParts(h, st, parts[..n]).Failure?
    decreases |parts| - n
    ensures FoldParts(h, st, parts) == FoldParts(h, st, parts[..n])
  {
    if n < |parts| {
      assert parts[..n + 1][..n] == parts[..n];
      FoldPartsFailed(h, st, parts, n + 1);
    } else {
      assert parts[..n] == parts;
    }
  }

  // ---------------------------------------------------------------------------
  // What the parser does with well-formed parts

  /** A name quoted on both sides loses exactly its two quotes. */
  lemma StripQuotesQuoted(q: char, k: string)
    requires IsQuote(q)
    ensures StripQuotes([q] + k + [q]) == k
  {
    var a := ([q] + k + [q])[1..];
    assert a == k + [q];
    assert a[..|a| - 1] == k;
  }

  /** Reading two runs of lines is reading the first, then the second from where it left off. */
  lemma {:induction false} FoldLinesConcat(st: FormState, a: seq<string>, b: seq<string>)
    decreases |b|
    ensures FoldLines(st, a + b)
            == match FoldLines(st, a) { case Failure(e) => Failure(e) case Success(s) => FoldLines(s, b) }
  {
    if b == [] {
      assert a + b == a;
    } else {
      var b' := b[..|b| - 1];
      FoldLinesConcat(st, a, b');
      assert (a + b)[..|a + b| - 1] == a + b';
    }
  }

  /**
   * In the value lines, a name that already holds a non-empty text gets
   * every further line appended after a newline.
   */
  lemma {:induction false} ValueLinesAppend(st: FormState, acc: string, ls: seq<string>)
    requires st.valueMode && Get(st.result, st.key) == Str(acc) && acc != ""
    requires |ls| >= 1
    decreases |ls|
    ensures FoldLines(st, ls) == Success(st.(result := Put(st.result, st.key, Str(acc + "\n" + Join(ls, "\n")))))
  {
    var init := ls[..|ls| - 1];
    var l := ls[|ls| - 1];
    if init == [] {
      assert ls == [] + [l];
      FoldLinesSnoc(st, [], l);
      ValueLineOnText(st, acc, l);
    } else {
      ValueLinesAppend(st, acc, init);
      var x := acc + "\n" + Join(init, "\n");
      assert ls == init + [l];
      FoldLinesSnoc(st, init, l);
      AppendOneMore(st, x, l);
      JoinAfterNewline(acc, init, l);
    }
  }

  /** Reading a last line is one more step after the lines before it. */
  lemma FoldLinesSnoc(st: FormState, init: seq<string>, l: string)
    ensures FoldLines(st, init + [l])
            == match FoldLines(st, init) { case Failure(e) => Failure(e) case Success(s) => LineStep(s, l) }
  {
    assert (init + [l])[..|init|] == init;
  }

  /** Appending one more line after the joined lines joins one more line. */
  lemma JoinAfterNewline(acc: string, init: seq<string>, l: string)
    requires init != []
    ensures acc + "\n" + Join(init, "\n") + "\n" + l == acc + "\n" + Join(init + [l], "\n")
  {
    JoinSnoc(init, l, "\n");
  }

  /** One more value line after the text `x` is appended to it. */
  lemma AppendOneMore(st: FormState, x: string, l: string)
    requires st.valueMode && x != ""
    ensures LineStep(st.(result := Put(st.result, st.key, Str(x))), l)
            == Success(st.(result := Put(st.result, st.key, Str(x + "\n" + l))))
  {
    var st' := st.(result := Put(st.result, st.key, Str(x)));
    GetPutSame(st.result, st.key, Str(x));
    ValueLineOnText(st', x, l);
    PutPut(st.result, st.key, Str(x), Str(x + "\n" + l));
  }

  /** A value line after a non-empty text is appended to it. */
  lemma ValueLineOnText(st: FormState, x: string, l: string)
    requires Get(st.result, st.key) == Str(x) && x != ""
    ensures ValueLine(st, l) == st.(result := Put(st.result, st.key, Str(x + "\n" + l)))
  {
  }

  /**
   * In the value lines, a name with no (or a falsy) value takes the first
   * line, and the later lines are appended after newlines.
   */
  lemma ValueLinesFresh(st: FormState, ls: seq<string>)
    requires st.valueMode && !Truthy(Get(st.result, st.key))
    requires |ls| >= 1 && ls[0] != ""
    ensures FoldLines(st, ls) == Success(st.(result := Put(st.result, st.key, Str(Join(ls, "\n")))))
  {
    var st1 := st.(result := Put(st.result, st.key, Str(ls[0])));
    assert FoldLines(st, [ls[0]]) == Success(st1) by {
      assert [ls[0]][..0] == [];
    }
    if |ls| > 1 {
      FoldLinesConcat(st, [ls[0]], ls[1..]);
      assert [ls[0]] + ls[1..] == ls;
      GetPutSame(st.result, st.key, Str(ls[0]));
      ValueLinesAppend(st1, ls[0], ls[1..]);
      PutPut(st.result, st.key, Str(ls[0]), Str(ls[0] + "\n" + Join(ls[1..], "\n")));
    } else {
      assert ls == [ls[0]];
    }
  }

  /**
   * An empty value line leaves an empty text, which is falsy, so the next
   * line overwrites it instead of being appended.
   */
  lemma EmptyValueOverwritten(st: FormState, l: string)
    requires st.valueMode && !Truthy(Get(st.result, st.key))
    ensures FoldLines(st, ["", l]) == Success(st.(result := Put(st.result, st.key, Str(l))))
  {
    var st1 := st.(result := Put(st.result, st.key, Str("")));
    assert FoldLines(st, [""]) == Success(st1) by {
      assert [""][..0] == [];
    }
    assert ["", l][..1] == [""];
    GetPutSame(st.result, st.key, Str(""));
    PutPut(st.result, st.key, Str(""), Str(l));
  }

  /** A disposition line without `name=` stops the parser with a 400. */
  lemma MissingName(st: FormState, line: string)
    requires !st.valueMode
    requires StartsWith(ToLower(line), DispositionPrefix)
    requires !Contains(line, "name=")
    ensures LineStep(st, line) == Failure(BadRequest("Could not read multipart name: " + line))
  {
    assert line != "" && line != "--";
    ContainsIff(line, "name=");
    forall q: nat ensures !ParamAt(line, "name=", q) {
      assert !OccursAt(line, "name=", q);
    }
  }

  /** The disposition line of a part named `k`, as browsers and the tests write it. */
  function DispositionLine(k: string): string {
    "Content-Disposition: form-data; name=\"" + k + "\""
  }

  /** The fixed beginning of `DispositionLine`. */
  const DispositionLead := "Content-Disposition: form-data; name=\""

  /** Lower-casing and taking a prefix commute. */
  lemma ToLowerPrefix(s: string, n: nat)
    requires n <= |s|
    ensures ToLower(s)[..n] == ToLower(s[..n])
  {
  }

  /** The lead of the disposition line, lower-cased, starts with the prefix the parser looks for. */
  lemma DispositionLeadLower()
    ensures ToLower(DispositionLead[..31]) == DispositionPrefix
    ensures forall i :: 0 <= i < 36 ==> DispositionLead[i] != '='
  {
    DispositionLeadPrefix();
    DispositionLeadNoEquals();
  }

  lemma DispositionLeadPrefix()
    ensures ToLower(DispositionLead[..31]) == DispositionPrefix
  {
    var l := DispositionLead[..31];
    assert l == "Content-Disposition: form-data;";
    assert forall i :: 0 <= i < 31 ==> LowerChar(l[i]) == DispositionPrefix[i];
  }

  lemma DispositionLeadNoEquals()
    ensures forall i :: 0 <= i < 36 ==> DispositionLead[i] != '='
  {
  }

  /** The disposition line names `k` in quotes. */
  lemma DispositionName(k: string)
    requires forall i :: 0 <= i < |k| ==> k[i] != ';'
    ensures Param(DispositionLine(k), "name=") == Some("\"" + k + "\"")
  {
    var line := DispositionLine(k);
    DispositionNamePos(k);
    var quoted := "\"" + k + "\"";
    assert line == DispositionLead + quoted[1..];
    assert line[37..] == quoted;
    assert forall i :: 37 <= i < |line| ==> line[i] == quoted[i - 37];
    assert RunEnd(line, 37) == |line|;
    assert Param(line, "name=") == Some(line[37..RunEnd(line, 37)]);
    assert line[37..RunEnd(line, 37)] == quoted;
  }

  lemma DispositionStarts(k: string)
    ensures StartsWith(ToLower(DispositionLine(k)), DispositionPrefix)
  {
    var line := DispositionLine(k);
    assert line[..31] == DispositionLead[..31];
    DispositionLeadLower();
    ToLowerPrefix(line, 31);
  }

  /** `name=` first matches right after the lead's `form-data; `. */
  lemma DispositionNamePos(k: string)
    ensures ParamPos(DispositionLine(k), "name=", 0) == Some(32)
  {
    var line := DispositionLine(k);
    var lit := DispositionLead;
    assert |lit| == 38;
    assert forall i :: 0 <= i < 38 ==> line[i] == lit[i];
    DispositionLeadLower();
    assert OccursAt(line, "name=", 32) by {
      assert line[32..37] == lit[32..37];
    }
    assert ParamAt(line, "name=", 32);
    forall q: nat | q < 32 ensures !ParamAt(line, "name=", q) {
      assert line[q + 4] == lit[q + 4];
      assert line[q..q + 5][4] == line[q + 4];
    }
    ParamPosFirst(line, "name=", 0, 32);
  }

  /**
   * The disposition line and the blank line after it: the parser now holds
   * the name, quotes stripped, and reads value lines.
   */
  lemma DispositionThenBlank(st: FormState, k: string)
    requires forall i :: 0 <= i < |k| ==> k[i] != ';'
    requires !st.valueMode
    ensures FoldLines(st, [DispositionLine(k), ""]) == Success(st.(key := k, valueMode := true))
  {
    var line := DispositionLine(k);
    var quoted := "\"" + k + "\"";
    var st1 := st.(key := quoted);
    DispositionLineRead(st, k);
    assert quoted == ['"'] + k + ['"'];
    StripQuotesQuoted('"', k);
    assert LineStep(st1, "") == Success(st.(key := k, valueMode := true));
    assert [line, ""][..1] == [line];
    assert [line][..0] == [];
    assert FoldLines(st, [line]) == Success(st1);
  }

  /** Before the values, the disposition line sets the name, still quoted. */
  lemma DispositionLineRead(st: FormState, k: string)
    requires forall i :: 0 <= i < |k| ==> k[i] != ';'
    requires !st.valueMode
    ensures LineStep(st, DispositionLine(k)) == Success(st.(key := "\"" + k + "\""))
  {
    var line := DispositionLine(k);
    DispositionStarts(k);
    DispositionName(k);
    assert |line| > 2;
  }

  /** The leftmost search finds `q` when nothing before it matches. */
  lemma {:induction false} ParamPosFirst(s: string, key: string, p: nat, q: nat)
    requires p <= q <= |s| && ParamAt(s, key, q)
    requires forall q': nat :: p <= q' < q ==> !ParamAt(s, key, q')
    decreases q - p
    ensures ParamPos(s, key, p) == Some(q)
  {
    if p < q {
      ParamPosFirst(s, key, p + 1, q);
    }
  }

  /**
   * A part made of a disposition line for `k`, a blank line and its value
   * lines stores the lines, newline-joined, under `k`: as the whole value
   * when `k` had none, after the earlier text otherwise.
   */
  lemma PartField(r: Props, k: string, vals: seq<string>)
    requires forall i :: 0 <= i < |k| ==> k[i] != ';'
    requires |vals| >= 1
    ensures (!Truthy(Get(r, k)) && vals[0] != "") ==>
              FoldLines(Reset(r), [DispositionLine(k), ""] + vals)
              == Success(FormState(Put(r, k, Str(Join(vals, "\n"))), k, "text/plain", true))
    ensures (Get(r, k).Str? && Get(r, k).s != "") ==>
              FoldLines(Reset(r), [DispositionLine(k), ""] + vals)
              == Success(FormState(Put(r, k, Str(Get(r, k).s + "\n" + Join(vals, "\n"))), k, "text/plain", true))
  {
    var st2 := FormState(r, k, "text/plain", true);
    DispositionThenBlank(Reset(r), k);
    FoldLinesConcat(Reset(r), [DispositionLine(k), ""], vals);
    if !Truthy(Get(r, k)) && vals[0] != "" {
      ValueLinesFresh(st2, vals);
    }
    if Get(r, k).Str? && Get(r, k).s != "" {
      ValueLinesAppend(st2, Get(r, k).s, vals);
    }
  }

  /** A part with no JSON type leaves the values as they were when the next part starts. */
  lemma TextPartKept(h: Host, st: FormState)
    requires st.partType == "text/plain"
    ensures ParsePart(h, st) == Success(st.result)
  {
    ShorterNotContains("text/plain", JsonType);
  }

  /** The content-type line of a part of type `t`. */
  function ContentTypeLine(t: string): string {
    "Content-Type: " + t
  }

  const JsonTypeLine := ContentTypeLine(JsonType)

  /**
   * A part declared `application/json` has its value JSON-parsed once the
   * part is over.
   */
  lemma JsonPartParsed(h: Host, r: Props, k: string, vals: seq<string>, v: JsValue)
    requires k != "" && forall i :: 0 <= i < |k| ==> k[i] != ';'
    requires |vals| >= 1 && vals[0] != "" && !Truthy(Get(r, k))
    requires h.jsonParse(Join(vals, "\n")) == Success(v)
    ensures FoldLines(Reset(r), [JsonTypeLine, DispositionLine(k), ""] + vals).Success?
    ensures ParsePart(h, FoldLines(Reset(r), [JsonTypeLine, DispositionLine(k), ""] + vals).value)
            == Success(Put(r, k, v))
  {
    JsonTypePlain();
    TypedPartRead(r, k, vals, JsonType);
    var x := Str(Join(vals, "\n"));
    var st3 := FormState(Put(r, k, x), k, JsonType, true);
    GetPutSame(r, k, x);
    JsonPartEnd(h, st3, v);
    PutPut(r, k, x, v);
  }

  lemma JsonTypePlain()
    ensures JsonType != [] && forall i :: 0 <= i < |JsonType| ==> JsonType[i] != ';'
  {
  }

  /** Ending a named JSON part stores the parsed value under its name. */
  lemma JsonPartEnd(h: Host, st: FormState, v: JsValue)
    requires st.key != "" && st.partType == JsonType
    requires h.jsonParse(ToJsString(Get(st.result, st.key))) == Success(v)
    ensures ParsePart(h, st) == Success(Put(st.result, st.key, v))
  {
    ContainsSelf(JsonType);
  }

  /** A part with a content-type line, a disposition line, a blank line and its values. */
  lemma TypedPartRead(r: Props, k: string, vals: seq<string>, t: string)
    requires forall i :: 0 <= i < |k| ==> k[i] != ';'
    requires t != [] && forall i :: 0 <= i < |t| ==> t[i] != ';'
    requires |vals| >= 1 && vals[0] != "" && !Truthy(Get(r, k))
    ensures FoldLines(Reset(r), [ContentTypeLine(t), DispositionLine(k), ""] + vals)
            == Success(FormState(Put(r, k, Str(Join(vals, "\n"))), k, t, true))
  {
    TypedPartHead(r, k, t);
    FoldLinesConcat(Reset(r), [ContentTypeLine(t), DispositionLine(k), ""], vals);
    ValueLinesFresh(FormState(r, k, t, true), vals);
  }

  /** The three header lines of a typed part leave the parser reading the values of `k`. */
  lemma TypedPartHead(r: Props, k: string, t: string)
    requires forall i :: 0 <= i < |k| ==> k[i] != ';'
    requires t != [] && forall i :: 0 <= i < |t| ==> t[i] != ';'
    ensures FoldLines(Reset(r), [ContentTypeLine(t), DispositionLine(k), ""]) == Success(FormState(r, k, t, true))
  {
    var st1 := Reset(r).(partType := t);
    ContentTypeLineRead(Reset(r), t);
    FoldSingle(Reset(r), ContentTypeLine(t));
    DispositionThenBlank(st1, k);
    FoldLinesConcat(Reset(r), [ContentTypeLine(t)], [DispositionLine(k), ""]);
    assert [ContentTypeLine(t)] + [DispositionLine(k), ""] == [ContentTypeLine(t), DispositionLine(k), ""];
  }

  /** Folding one line is one step. */
  lemma FoldSingle(st: FormState, line: string)
    ensures FoldLines(st, [line]) == LineStep(st, line)
  {
    assert [line][..0] == [];
  }

  /** Before the values, a content-type line sets the part's type to what it names. */
  lemma ContentTypeLineRead(st: FormState, t: string)
    requires !st.valueMode
    requires t != [] && forall i :: 0 <= i < |t| ==> t[i] != ';'
    ensures LineStep(st, ContentTypeLine(t)) == Success(st.(partType := t))
  {
    var s := ContentTypeLine(t);
    ContentTypeLineStarts(t);
    ContentTypeLineParam(t);
    assert |s| > 2;
    assert ToLower(s)[..14] == ToLower(s[..14]);
    assert s[..14] == "Content-Type: ";
    assert ToLower(s)[13] == ' ';
    assert !StartsWith(ToLower(s), DispositionPrefix) by {
      assert DispositionPrefix[13] != ' ';
    }
  }

  lemma ContentTypeLineStarts(t: string)
    ensures StartsWith(ToLower(ContentTypeLine(t)), ContentTypePrefix)
    ensures ToLower(ContentTypeLine(t)[..13]) == ToLower(ContentTypePrefix)
  {
    var s := ContentTypeLine(t);
    ToLowerPrefix(s, 13);
    assert s[..13] == "Content-Type:";
    var l := ToLower(s[..13]);
    assert forall i :: 0 <= i < 13 ==> l[i] == ContentTypePrefix[i];
    NoCapitals(ContentTypePrefix);
  }

  /** A string without capital letters is its own lower case. */
  lemma NoCapitals(s: string)
    requires forall i :: 0 <= i < |s| ==> !('A' <= s[i] <= 'Z')
    ensures ToLower(s) == s
  {
  }

  lemma ContentTypeLineParam(t: string)
    requires t != [] && forall i :: 0 <= i < |t| ==> t[i] != ';'
    ensures ContentTypeParam(ContentTypeLine(t)) == Some(t)
  {
    var s := ContentTypeLine(t);
    ContentTypeLineStarts(t);
    assert s[0..13] == s[..13];
    assert FoldedAt(s, ContentTypePrefix, 0);
    assert s[13] == ' ' && s[14] == t[0];
    assert ContentTypeStart(s, 0) == Some(14);
    assert ContentTypePos(s, 0) == Some(0);
    assert forall i :: 14 <= i < |s| ==> s[i] == t[i - 14];
    assert RunEnd(s, 14) == |s|;
    assert ContentTypeParam(s) == Some(s[14..RunEnd(s, 14)]);
    assert s[14..RunEnd(s, 14)] == t;
  }

  // ---------------------------------------------------------------------------
  // The boundary of a multipart request

  /** The Content-Type a multipart client sends for boundary `b`. */
  function MultipartType(b: string): string {
    MultipartLead + b
  }

  const MultipartLead := "multipart/form-data; boundary="

  /** `boundary=` first matches right after the lead's `; `. */
  lemma MultipartBoundaryPos(b: string)
    requires b != [] && b[0] != ';'
    ensures ParamPos(MultipartType(b), "boundary=", 0) == Some(21)
  {
    var s := MultipartType(b);
    var lit := MultipartLead;
    assert |lit| == 30;
    assert forall i :: 0 <= i < 30 ==> s[i] == lit[i];
    assert forall i :: 0 <= i < 29 ==> lit[i] != '=';
    assert OccursAt(s, "boundary=", 21) by {
      assert s[21..30] == lit[21..30];
    }
    assert s[30] == b[0];
    assert ParamAt(s, "boundary=", 21);
    forall q: nat | q < 21 ensures !ParamAt(s, "boundary=", q) {
      assert s[q + 8] == lit[q + 8];
      assert s[q..q + 9][8] == s[q + 8];
    }
    ParamPosFirst(s, "boundary=", 0, 21);
  }

  /**
   * A Content-Type naming boundary `b` (non-empty, without `;`) splits the
   * body on `--` followed by `b`.
   */
  lemma MultipartBoundary(b: string)
    requires b != [] && forall i :: 0 <= i < |b| ==> b[i] != ';'
    ensures Boundary(Some(MultipartType(b))) == "--" + b
  {
    var s := MultipartType(b);
    MultipartBoundaryPos(b);
    assert forall i :: 30 <= i < |s| ==> s[i] == b[i - 30];
    assert RunEnd(s, 30) == |s|;
    assert Param(s, "boundary=") == Some(s[30..RunEnd(s, 30)]);
    assert s[30..RunEnd(s, 30)] == b;
  }
}
