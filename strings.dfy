/**
 * The JavaScript string built-ins the request-processing core relies on:
 * `indexOf`, `includes`, `startsWith`, `endsWith`, `slice`, `split` with a
 * string separator, `trim`, ASCII `toLowerCase`, `replace` of the first
 * match, `Number#toString` for integers and `parseInt` without a radix.
 */
module Strings {
  import opened Wrappers

  /** `t` occurs in `s` at index `i`. */
  predicate OccursAt(s: string, t: string, i: int) {
    0 <= i && i + |t| <= |s| && s[i..i + |t|] == t
  }

  /** `s.indexOf(t, from)`: the first index at or after `from` where `t` occurs, or -1. */
  function IndexOfFrom(s: string, t: string, from: nat): (r: int)
    decreases |s| - from
    ensures r == -1 || (from <= r && OccursAt(s, t, r))
    ensures forall k :: from <= k && (r == -1 || k < r) ==> !OccursAt(s, t, k)
  {
    if from + |t| > |s| then -1
    else if s[from..from + |t|] == t then from
    else IndexOfFrom(s, t, from + 1)
  }

  /** `s.indexOf(t)`. */
  function IndexOf(s: string, t: string): int {
    IndexOfFrom(s, t, 0)
  }

  /** `s.indexOf(t) >= 0`, the substring test used throughout the core. */
  predicate Contains(s: string, t: string) {
    IndexOf(s, t) >= 0
  }

  lemma ContainsIff(s: string, t: string)
    ensures Contains(s, t) <==> exists i :: OccursAt(s, t, i)
  {
    if !Contains(s, t) {
      forall i ensures !OccursAt(s, t, i) {
        if 0 <= i {
          assert !OccursAt(s, t, i);
        }
      }
    }
  }

  lemma OccursAtContains(s: string, t: string, i: int)
    requires OccursAt(s, t, i)
    ensures Contains(s, t)
  {
    ContainsIff(s, t);
  }

  /** A string shorter than `t` cannot contain it. */
  lemma ShorterNotContains(s: string, t: string)
    requires |s| < |t|
    ensures !Contains(s, t)
  {
  }

  /** A one-character string occurs in `a + b` only where it occurs in `a` or in `b`. */
  lemma ConcatFree(a: string, b: string, c: string)
    requires |c| == 1 && !Contains(a, c) && !Contains(b, c)
    ensures !Contains(a + b, c)
  {
    ContainsIff(a, c);
    ContainsIff(b, c);
    ContainsIff(a + b, c);
    forall k | 0 <= k && k + 1 <= |a + b|
      ensures !OccursAt(a + b, c, k)
    {
      if k < |a| {
        assert (a + b)[k..k + 1] == a[k..k + 1];
        assert !OccursAt(a, c, k);
      } else {
        assert (a + b)[k..k + 1] == b[k - |a|..k - |a| + 1];
        assert !OccursAt(b, c, k - |a|);
      }
    }
  }

  /** Every string contains itself, and the empty string contains only the empty string. */
  lemma ContainsSelf(s: string)
    ensures Contains(s, s)
  {
    assert OccursAt(s, s, 0);
  }

  predicate StartsWith(s: string, p: string) {
    |p| <= |s| && s[..|p|] == p
  }

  predicate EndsWith(s: string, p: string) {
    |p| <= |s| && s[|s| - |p|..] == p
  }

  // ---------------------------------------------------------------------------
  // slice

  /** How `slice` reads one of its bounds: negative counts from the end, then clamp. */
  function ClampIndex(len: nat, i: int): (r: nat)
    ensures r <= len
  {
    if i < 0 then (if len + i < 0 then 0 else len + i)
    else if i > len then len
    else i
  }

  /** `s.slice(start, end)`. */
  function Slice(s: string, start: int, end: int): (r: string)
    ensures |r| <= |s|
  {
    var a := ClampIndex(|s|, start);
    var b := ClampIndex(|s|, end);
    if a < b then s[a..b] else []
  }

  // ---------------------------------------------------------------------------
  // split and join

  /** `s.split(sep)` for a non-empty separator string. */
  function Split(s: string, sep: string): (parts: seq<string>)
    requires sep != []
    decreases |s|
    ensures |parts| >= 1
  {
    var i := IndexOf(s, sep);
    if i < 0 then [s] else [s[..i]] + Split(s[i + |sep|..], sep)
  }

  /** `parts.join(sep)`. */
  function Join(parts: seq<string>, sep: string): string
  {
    if |parts| == 0 then []
    else if |parts| == 1 then parts[0]
    else parts[0] + sep + Join(parts[1..], sep)
  }

  /** An occurrence inside a prefix is an occurrence in the whole string. */
  lemma OccursInPrefix(s: string, t: string, n: nat, k: int)
    requires n <= |s| && OccursAt(s[..n], t, k)
    ensures OccursAt(s, t, k)
  {
    assert s[..n][k..k + |t|] == s[k..k + |t|];
  }

  /** No piece of `Split(s, sep)` contains the separator. */
  lemma {:induction false} SplitPiecesFree(s: string, sep: string)
    requires sep != []
    decreases |s|
    ensures forall p :: p in Split(s, sep) ==> !Contains(p, sep)
  {
    var i := IndexOf(s, sep);
    if i >= 0 {
      var head := s[..i];
      if Contains(head, sep) {
        ContainsIff(head, sep);
        var k :| OccursAt(head, sep, k);
        OccursInPrefix(s, sep, i, k);
        assert false;
      }
      SplitPiecesFree(s[i + |sep|..], sep);
    }
  }

  /** Splitting and joining again gives back the original string. */
  lemma {:induction false} JoinSplit(s: string, sep: string)
    requires sep != []
    decreases |s|
    ensures Join(Split(s, sep), sep) == s
  {
    var i := IndexOf(s, sep);
    if i >= 0 {
      var rest := s[i + |sep|..];
      JoinSplit(rest, sep);
      JoinCons(s[..i], Split(rest, sep), sep);
      SplitAround(s, i, |sep|);
    }
  }

  /** Joining a piece in front of at least one other puts the separator between them. */
  lemma JoinCons(p: string, tail: seq<string>, sep: string)
    requires |tail| >= 1
    ensures Join([p] + tail, sep) == p + sep + Join(tail, sep)
  {
    assert ([p] + tail)[1..] == tail;
  }

  /** A string is what lies before, at and after a stretch of it. */
  lemma SplitAround(s: string, i: nat, n: nat)
    requires i + n <= |s|
    ensures s == s[..i] + s[i..i + n] + s[i + n..]
  {
  }

  /** Joining one more piece appends the separator and the piece. */
  lemma {:induction false} JoinSnoc(parts: seq<string>, p: string, sep: string)
    requires |parts| >= 1
    decreases |parts|
    ensures Join(parts + [p], sep) == Join(parts, sep) + sep + p
  {
    if |parts| > 1 {
      JoinSnoc(parts[1..], p, sep);
      assert (parts + [p])[1..] == parts[1..] + [p];
    }
  }

  /**
   * Joining pieces free of a one-character separator and splitting again
   * gives back the pieces.
   */
  lemma {:induction false} SplitJoin(parts: seq<string>, sep: string)
    requires |sep| == 1 && |parts| >= 1
    requires forall i :: 0 <= i < |parts| ==> !Contains(parts[i], sep)
    decreases |parts|
    ensures Split(Join(parts, sep), sep) == parts
  {
    if |parts| == 1 {
      SplitNoSeparator(parts[0], sep);
    } else {
      SplitJoin(parts[1..], sep);
      SplitAfterFree(parts[0], sep, Join(parts[1..], sep));
      assert [parts[0]] + parts[1..] == parts;
    }
  }

  /** A string without the separator splits into itself alone. */
  lemma SplitNoSeparator(s: string, sep: string)
    requires sep != [] && !Contains(s, sep)
    ensures Split(s, sep) == [s]
  {
  }

  /** A one-character separator is first found right after a prefix free of it. */
  lemma IndexOfAfterFree(a: string, sep: string, b: string)
    requires |sep| == 1 && !Contains(a, sep)
    ensures IndexOf(a + sep + b, sep) == |a|
  {
    var s := a + sep + b;
    assert OccursAt(s, sep, |a|) by {
      assert s[|a|..|a| + 1] == sep;
    }
    var r := IndexOf(s, sep);
    if r != |a| {
      assert 0 <= r < |a|;
      assert s[r..r + 1] == a[r..r + 1];
      assert OccursAt(a, sep, r);
      OccursAtContains(a, sep, r);
    }
  }

  /** Splitting on a one-character separator peels off a prefix free of it. */
  lemma SplitAfterFree(a: string, sep: string, b: string)
    requires |sep| == 1 && !Contains(a, sep)
    ensures Split(a + sep + b, sep) == [a] + Split(b, sep)
  {
    var s := a + sep + b;
    IndexOfAfterFree(a, sep, b);
    assert s[..|a|] == a;
    assert s[|a| + 1..] == b;
  }

  // ---------------------------------------------------------------------------
  // trim

  /** The characters `String.prototype.trim` removes: WhiteSpace and LineTerminator. */
  predicate IsJsWhitespace(c: char) {
    c == ' ' || c == '\t' || c == '\n' || c == '\r' || c == '\U{000B}' || c == '\U{000C}'
    || c == '\U{00A0}' || c == '\U{1680}' || ('\U{2000}' <= c <= '\U{200A}')
    || c == '\U{2028}' || c == '\U{2029}' || c == '\U{202F}' || c == '\U{205F}'
    || c == '\U{3000}' || c == '\U{FEFF}'
  }

  /** Number of leading whitespace characters. */
  function LeadingSpace(s: string): (n: nat)
    ensures n <= |s|
    ensures forall i :: 0 <= i < n ==> IsJsWhitespace(s[i])
    ensures n < |s| ==> !IsJsWhitespace(s[n])
  {
    if |s| > 0 && IsJsWhitespace(s[0]) then 1 + LeadingSpace(s[1..]) else 0
  }

  /** Number of trailing whitespace characters. */
  function TrailingSpace(s: string): (n: nat)
    ensures n <= |s|
    ensures forall i :: |s| - n <= i < |s| ==> IsJsWhitespace(s[i])
    ensures n < |s| ==> !IsJsWhitespace(s[|s| - n - 1])
  {
    if |s| > 0 && IsJsWhitespace(s[|s| - 1]) then 1 + TrailingSpace(s[..|s| - 1]) else 0
  }

  /** `s.trim()`: the longest middle slice that neither starts nor ends with whitespace. */
  function Trim(s: string): (r: string)
    ensures |r| <= |s|
    ensures r != [] ==> !IsJsWhitespace(r[0]) && !IsJsWhitespace(r[|r| - 1])
    ensures LeadingSpace(s) + |r| <= |s|
    ensures r == s[LeadingSpace(s)..LeadingSpace(s) + |r|]
    ensures forall i :: LeadingSpace(s) + |r| <= i < |s| ==> IsJsWhitespace(s[i])
  {
    var l := LeadingSpace(s);
    var t := s[l..];
    var r := t[..|t| - TrailingSpace(t)];
    assert r == s[l..l + |r|];
    r
  }

  /** Trimming a string without outer whitespace changes nothing. */
  lemma TrimNoop(s: string)
    requires s == [] || (!IsJsWhitespace(s[0]) && !IsJsWhitespace(s[|s| - 1]))
    ensures Trim(s) == s
  {
  }

  /** Trimming twice is trimming once. */
  lemma TrimIdempotent(s: string)
    ensures Trim(Trim(s)) == Trim(s)
  {
    TrimNoop(Trim(s));
  }

  /** A piece of a string without `t` does not contain `t` either. */
  lemma SliceNotContains(s: string, t: string, a: nat, b: nat)
    requires a <= b <= |s| && !Contains(s, t)
    ensures !Contains(s[a..b], t)
  {
    ContainsIff(s, t);
    ContainsIff(s[a..b], t);
    forall k ensures !OccursAt(s[a..b], t, k) {
      if 0 <= k && k + |t| <= b - a {
        var u := s[a..b];
        assert forall j :: 0 <= j < |u| ==> u[j] == s[a + j];
        assert u[k..k + |t|] == s[a + k..a + k + |t|];
        assert !OccursAt(s, t, a + k);
      }
    }
  }

  // ---------------------------------------------------------------------------
  // case

  function LowerChar(c: char): char {
    if 'A' <= c <= 'Z' then (c as int + 32) as char else c
  }

  /** `toLowerCase` restricted to ASCII letters. */
  function ToLower(s: string): (r: string)
    ensures |r| == |s|
    ensures forall i :: 0 <= i < |s| ==> r[i] == LowerChar(s[i])
  {
    seq(|s|, i requires 0 <= i < |s| => LowerChar(s[i]))
  }

  /** `s.replace(pat, rep)` with a plain pattern: only the first occurrence is replaced. */
  function ReplaceFirst(s: string, pat: string, rep: string): (r: string)
    ensures IndexOf(s, pat) < 0 ==> r == s
    ensures IndexOf(s, pat) >= 0 ==>
      r == s[..IndexOf(s, pat)] + rep + s[IndexOf(s, pat) + |pat|..]
  {
    var i := IndexOf(s, pat);
    if i < 0 then s else s[..i] + rep + s[i + |pat|..]
  }

  // ---------------------------------------------------------------------------
  // numbers

  predicate IsDigit(c: char) {
    '0' <= c <= '9'
  }

  function DigitChar(d: nat): (c: char)
    requires d < 10
    ensures IsDigit(c)
  {
    ('0' as int + d) as char
  }

  /** Value of a digit character in radix 10 or 16, if it is one. */
  function DigitValue(c: char, radix: nat): Option<nat>
  {
    if '0' <= c <= '9' && (c as int - '0' as int) < radix then Some(c as int - '0' as int)
    else if radix == 16 && 'a' <= c <= 'f' then Some(c as int - 'a' as int + 10)
    else if radix == 16 && 'A' <= c <= 'F' then Some(c as int - 'A' as int + 10)
    else None
  }

  /** Length of the longest prefix made of digits of the radix. */
  function DigitPrefix(s: string, radix: nat): (n: nat)
    ensures n <= |s|
    ensures forall i :: 0 <= i < n ==> DigitValue(s[i], radix).Some?
    ensures n < |s| ==> DigitValue(s[n], radix).None?
  {
    if |s| > 0 && DigitValue(s[0], radix).Some? then 1 + DigitPrefix(s[1..], radix) else 0
  }

  /** The number a string of digits denotes. */
  function DigitsValue(ds: string, radix: nat): nat
    requires forall i :: 0 <= i < |ds| ==> DigitValue(ds[i], radix).Some?
  {
    if ds == [] then 0
    else DigitsValue(ds[..|ds| - 1], radix) * radix + DigitValue(ds[|ds| - 1], radix).value
  }

  /** `n.toString()` for a non-negative integer. */
  function NatToString(n: nat): (r: string)
    decreases n
    ensures |r| >= 1
    ensures forall i :: 0 <= i < |r| ==> IsDigit(r[i])
  {
    if n < 10 then [DigitChar(n)] else NatToString(n / 10) + [DigitChar(n % 10)]
  }

  /** Decimal digits contain no character that is not a digit. */
  lemma DigitsFree(n: nat, c: char)
    requires !IsDigit(c)
    ensures !Contains(NatToString(n), [c])
  {
    var d := NatToString(n);
    ContainsIff(d, [c]);
    forall k | 0 <= k && k + 1 <= |d|
      ensures !OccursAt(d, [c], k)
    {
      assert IsDigit(d[k]);
      assert d[k..k + 1] == [d[k]];
    }
  }

  /** `n.toString()` for an integer. */
  function IntToString(n: int): string {
    if n < 0 then "-" + NatToString(-n) else NatToString(n)
  }

  /** The decimal text of a number reads back as that number. */
  lemma {:induction false} NatToStringValue(n: nat)
    decreases n
    ensures DigitPrefix(NatToString(n), 10) == |NatToString(n)|
    ensures DigitsValue(NatToString(n), 10) == n
  {
    var s := NatToString(n);
    if n >= 10 {
      NatToStringValue(n / 10);
      assert s[..|s| - 1] == NatToString(n / 10);
    }
  }

  /** The unsigned part of `parseInt`: an optional `0x`/`0X` prefix, then the longest digit run. */
  function ParseUnsigned(u: string): Option<nat>
  {
    var hex := |u| >= 2 && u[0] == '0' && (u[1] == 'x' || u[1] == 'X');
    var radix := if hex then 16 else 10;
    var body := if hex then u[2..] else u;
    var n := DigitPrefix(body, radix);
    if n == 0 then None else Some(DigitsValue(body[..n], radix))
  }

  /**
   * `parseInt(s)` with no radix: leading whitespace is skipped, one sign is
   * read, then the unsigned part. None is JavaScript's NaN (no digit at all).
   */
  function ParseInt(s: string): (r: Option<int>)
  {
    var t := s[LeadingSpace(s)..];
    if |t| > 0 && t[0] == '-' then
      match ParseUnsigned(t[1..])
      case Some(v) => Some(-(v as int))
      case None => None
    else if |t| > 0 && t[0] == '+' then
      match ParseUnsigned(t[1..])
      case Some(v) => Some(v)
      case None => None
    else
      match ParseUnsigned(t)
      case Some(v) => Some(v)
      case None => None
  }

  lemma ParseUnsignedNatToString(n: nat)
    ensures ParseUnsigned(NatToString(n)) == Some(n)
  {
    var s := NatToString(n);
    NatToStringValue(n);
    var hex := |s| >= 2 && s[0] == '0' && (s[1] == 'x' || s[1] == 'X');
    assert !hex by {
      if |s| >= 2 {
        assert IsDigit(s[1]);
      }
    }
    assert s[..|s|] == s;
    assert DigitPrefix(s, 10) == |s|;
  }

  /** `parseInt` reads back what `toString` writes, so the decimal form of a number is unambiguous. */
  lemma ParseIntNatToString(n: nat)
    ensures ParseInt(NatToString(n)) == Some(n)
  {
    var s := NatToString(n);
    assert IsDigit(s[0]);
    assert LeadingSpace(s) == 0;
    assert s[0..] == s;
    ParseUnsignedNatToString(n);
  }

  /** Decimal forms of distinct numbers are distinct. */
  lemma NatToStringInjective(a: nat, b: nat)
    requires NatToString(a) == NatToString(b)
    ensures a == b
  {
    ParseIntNatToString(a);
    ParseIntNatToString(b);
  }

  /** A string with no digit at its start (after whitespace and sign) is NaN. */
  lemma ParseIntEmpty()
    ensures ParseInt("") == None
  {
  }
}
