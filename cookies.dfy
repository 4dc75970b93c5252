/**
 * `useCookies` and `useSetCookies` (src/composables/cookies.ts): reading
 * one cookie from the `Cookie` request header with the pattern
 * `(?:^|; )NAME=(.*?)(?:;?$|; )` (case-insensitive), memoised in the
 * `'cookies'` cache, and staging `Set-Cookie` entries in the
 * `'setCookies'` cache.
 */
module Cookies {
  import opened Wrappers
  import opened Strings
  import opened Js
  import opened Host
  import opened Context
  import opened Errors
  import opened ReqRes

  // ---------------------------------------------------------------------------
  // The cookie pattern

  /** The characters `.` does not match. */
  predicate IsLineTerminator(c: char) {
    c == '\n' || c == '\r' || c == '\U{2028}' || c == '\U{2029}'
  }

  /** Two characters equal under the `i` flag (ASCII letters fold). */
  predicate SameLetter(a: char, b: char) {
    LowerChar(a) == LowerChar(b)
  }

  /** `(?:^|; )` can end at `q`: the header start, or just after `"; "`. */
  predicate SegmentStart(c: string, q: nat) {
    q == 0 || (2 <= q <= |c| && c[q - 2] == ';' && c[q - 1] == ' ')
  }

  /** `NAME=` matches at `q`. */
  predicate NameAt(c: string, n: string, q: nat) {
    q + |n| < |c|
    && (forall i :: 0 <= i < |n| ==> SameLetter(c[q + i], n[i]))
    && c[q + |n|] == '='
  }

  /** `(?:;?$|; )` matches at `e`: the end, a final `;`, or `"; "`. */
  predicate TailAt(c: string, e: nat)
    requires e <= |c|
  {
    e == |c| || (e + 1 == |c| && c[e] == ';') || (e + 2 <= |c| && c[e] == ';' && c[e + 1] == ' ')
  }

  /** Where the lazy `(.*?)` that starts at `e` stops: the first place the tail matches. */
  function ValueEnd(c: string, e: nat): (r: Option<nat>)
    requires e <= |c|
    decreases |c| - e
    ensures r.Some? ==> e <= r.value <= |c| && TailAt(c, r.value)
    ensures r.Some? ==> forall k :: e <= k < r.value ==> !TailAt(c, k) && !IsLineTerminator(c[k])
  {
    if TailAt(c, e) then Some(e)
    else if !IsLineTerminator(c[e]) then ValueEnd(c, e + 1)
    else None
  }

  /** The whole pattern matches with the name at `q`. */
  predicate MatchAt(c: string, n: string, q: nat) {
    SegmentStart(c, q) && NameAt(c, n, q) && ValueEnd(c, q + |n| + 1).Some?
  }

  /** The leftmost match at or after `q`, as `exec` finds it. */
  function FirstMatch(c: string, n: string, q: nat): (r: Option<nat>)
    decreases |c| + 1 - q
    ensures r.Some? ==> q <= r.value && MatchAt(c, n, r.value)
    ensures r.Some? ==> forall k :: q <= k < r.value ==> !MatchAt(c, n, k)
    ensures r.None? ==> forall k :: q <= k ==> !MatchAt(c, n, k)
  {
    if q > |c| then None
    else if MatchAt(c, n, q) then Some(q)
    else FirstMatch(c, n, q + 1)
  }

  /** `result[1]` of the cookie pattern on header `c`, or None when it does not match. */
  function CookieMatch(c: string, n: string): (r: Option<string>)
    ensures r.Some? ==> !Contains(r.value, "; ")
  {
    match FirstMatch(c, n, 0)
    case None => None
    case Some(q) =>
      var e := ValueEnd(c, q + |n| + 1).value;
      var v := c[q + |n| + 1..e];
      NoSeparatorInValue(c, q + |n| + 1, e);
      Some(v)
  }

  /** A value that the tail never matched inside holds no `"; "`. */
  lemma NoSeparatorInValue(c: string, e0: nat, e: nat)
    requires e0 <= e <= |c|
    requires forall k :: e0 <= k < e ==> !TailAt(c, k)
    ensures !Contains(c[e0..e], "; ")
  {
    var v := c[e0..e];
    forall i | 0 <= i
      ensures !OccursAt(v, "; ", i)
    {
      if i + 2 <= |v| {
        assert !TailAt(c, e0 + i);
        assert v[i..i + 2] == [c[e0 + i], c[e0 + i + 1]];
      }
    }
    ContainsIff(v, "; ");
  }

  /** A lazy value run over characters that are neither `;` nor line terminators. */
  lemma {:induction false} ValueEndScan(c: string, e: nat, end: nat)
    requires e <= end <= |c| && TailAt(c, end)
    requires forall k :: e <= k < end ==> c[k] != ';' && !IsLineTerminator(c[k])
    ensures ValueEnd(c, e) == Some(end)
    decreases end - e
  {
    if e < end {
      ValueEndScan(c, e + 1, end);
    }
  }

  /** The first cookie of the header: its value runs up to `"; "` or the end. */
  lemma FirstCookie(n: string, v: string, rest: string)
    requires forall k :: 0 <= k < |v| ==> v[k] != ';' && !IsLineTerminator(v[k])
    requires rest == "" || StartsWith(rest, "; ")
    ensures CookieMatch(n + "=" + v + rest, n) == Some(v)
  {
    var c := n + "=" + v + rest;
    var e := |n| + 1 + |v|;
    assert c[..|n|] == n;
    assert NameAt(c, n, 0);
    ValueEndScan(c, |n| + 1, e);
    assert MatchAt(c, n, 0);
    assert c[|n| + 1..e] == v;
  }

  /**
   * A later cookie is found after `"; "` when the earlier segment neither
   * contains `;` nor starts with the name.
   */
  lemma LaterCookie(p: string, n: string, v: string, rest: string)
    requires forall k :: 0 <= k < |p| ==> p[k] != ';'
    requires !NameAt(p + "; " + n + "=" + v + rest, n, 0)
    requires forall k :: 0 <= k < |v| ==> v[k] != ';' && !IsLineTerminator(v[k])
    requires rest == "" || StartsWith(rest, "; ")
    ensures CookieMatch(p + "; " + n + "=" + v + rest, n) == Some(v)
  {
    var c := p + "; " + n + "=" + v + rest;
    var q := |p| + 2;
    var e := q + |n| + 1 + |v|;
    LaterCookieSlices(p, n, v, rest);
    NoEarlyMatch(c, p, n);
    assert NameAt(c, n, q);
    ValueEndScan(c, q + |n| + 1, e);
    FirstMatchFrom(c, n, 0, q);
  }

  /** Where the pieces of a header with a later cookie lie. */
  lemma LaterCookieSlices(p: string, n: string, v: string, rest: string)
    ensures var c := p + "; " + n + "=" + v + rest;
            var q := |p| + 2;
            var e := q + |n| + 1 + |v|;
            |c| == e + |rest| && c[..|p|] == p && c[|p|] == ';' && c[|p| + 1] == ' '
            && c[q..q + |n|] == n && c[q + |n|] == '=' && c[q + |n| + 1..e] == v && c[e..] == rest
  {
    var c := p + "; " + n + "=" + v + rest;
    var q := |p| + 2;
    var e := q + |n| + 1 + |v|;
    assert c == (p + "; ") + (n + "=") + v + rest;
    assert c[..q] == p + "; ";
    assert c[q..q + |n| + 1] == n + "=";
    assert c[q + |n| + 1..e] == v;
    assert c[e..] == rest;
  }

  /** Before the first `"; "` of a header whose first segment has no `;`, only position 0 can match. */
  lemma NoEarlyMatch(c: string, p: string, n: string)
    requires |p| <= |c| && c[..|p|] == p
    requires forall k :: 0 <= k < |p| ==> p[k] != ';'
    requires !NameAt(c, n, 0)
    ensures forall k :: 0 <= k < |p| + 2 ==> !MatchAt(c, n, k)
  {
    forall k | 0 <= k < |p| + 2
      ensures !MatchAt(c, n, k)
    {
      if 2 <= k {
        assert c[k - 2] == p[k - 2];
      }
    }
  }

  /** With no match before `q` and one at `q`, the leftmost match is `q`. */
  lemma {:induction false} FirstMatchFrom(c: string, n: string, from: nat, q: nat)
    requires from <= q && MatchAt(c, n, q)
    requires forall k :: from <= k < q ==> !MatchAt(c, n, k)
    ensures FirstMatch(c, n, from) == Some(q)
    decreases q - from
  {
    assert q <= |c|;
    if from < q {
      FirstMatchFrom(c, n, from + 1, q);
    }
  }

  /** The header of the cookie tests: its first cookie is read back. */
  lemma CookieHeaderFirst()
    ensures CookieMatch("cookie-key=cookie-value; newCookie=123456", "cookie-key") == Some("cookie-value")
  {
    var c := "cookie-key=cookie-value; newCookie=123456";
    assert c == "cookie-key" + "=" + "cookie-value" + "; newCookie=123456";
    FirstCookie("cookie-key", "cookie-value", "; newCookie=123456");
  }

  /** The header of the cookie tests: its second cookie is read back. */
  lemma CookieHeaderSecond()
    ensures CookieMatch("cookie-key=cookie-value; newCookie=123456", "newCookie") == Some("123456")
  {
    var c := "cookie-key=cookie-value; newCookie=123456";
    assert c == "cookie-key=cookie-value" + "; " + "newCookie" + "=" + "123456" + "";
    assert !SameLetter(c[0], 'n');
    LaterCookie("cookie-key=cookie-value", "newCookie", "123456", "");
  }

  // ---------------------------------------------------------------------------
  // useCookies

  /** `useCookies()`: the `'cookies'` cache, then `useHeaders`. */
  method UseCookies(slot: HttpContextSlot) returns (r: Result<HttpContext, JsError>)
    modifies if slot.current.Some? then {slot.current.value.custom} else {}
    ensures slot.current == old(slot.current)
    ensures r.Success? <==> slot.current.Some?
    ensures r.Failure? ==> r.error == Panic(OutsideRequest)
    ensures r.Success? ==>
              (r.value == slot.current.value
               && r.value.custom.entries == UseAll(old(r.value.custom.entries), [Namespace.Cookies, Body]))
  {
    r := UseCaches(slot, [Namespace.Cookies, Body]);
  }

  /** What `getCookie` caches for `name` on header `cookie`. */
  function CookieValue(h: Host, cookie: Option<string>, name: string): (v: JsValue)
    ensures v == Null || v.Str?
  {
    match cookie
    case Some(c) =>
      if c == "" then Null
      else (match CookieMatch(c, name)
            case Some(raw) => if raw != "" then Str(h.decodeUriComponent(raw)) else Null
            case None => Null)
    case None => Null
  }

  /** `getCookie(name)`: computed once per name and cached, `null` included. */
  method GetCookie(ctx: HttpContext, h: Host, name: string) returns (v: JsValue)
    requires ctx.custom.Value(Namespace.Cookies).Obj?
    modifies ctx.custom
    ensures ctx.custom.Value(Namespace.Cookies).Obj?
    ensures old(ctx.custom.Field(Namespace.Cookies, name)).Undefined? ==>
              v == CookieValue(h, Header(ctx.req, "cookie"), name)
              && ctx.custom.entries == WithField(old(ctx.custom.entries), Namespace.Cookies, name, v)
    ensures !old(ctx.custom.Field(Namespace.Cookies, name)).Undefined? ==>
              v == old(ctx.custom.Field(Namespace.Cookies, name))
              && ctx.custom.entries == old(ctx.custom.entries)
    ensures ctx.custom.Field(Namespace.Cookies, name) == v
  {
    if ctx.custom.Field(Namespace.Cookies, name).Undefined? {
      var c := CookieValue(h, Header(ctx.req, "cookie"), name);
      ctx.custom.SetField(Namespace.Cookies, name, c);
      FieldInWithFieldSame(old(ctx.custom.entries), Namespace.Cookies, name, c);
    }
    v := ctx.custom.Field(Namespace.Cookies, name);
  }

  // ---------------------------------------------------------------------------
  // useSetCookies

  /** `useSetCookies()`: the `'setCookies'` cache. */
  method UseSetCookies(slot: HttpContextSlot) returns (r: Result<HttpContext, JsError>)
    modifies if slot.current.Some? then {slot.current.value.custom} else {}
    ensures slot.current == old(slot.current)
    ensures r.Success? <==> slot.current.Some?
    ensures r.Failure? ==> r.error == Panic(OutsideRequest)
    ensures r.Success? ==>
              (r.value == slot.current.value
               && r.value.custom.entries == UseIn(old(r.value.custom.entries), SetCookies))
  {
    r := UseCaches(slot, [SetCookies]);
  }

  /** The staged `{ value, attrs }` record of one cookie. */
  function CookieData(value: string, attrs: Option<Props>): JsValue {
    Obj([("value", Str(value)), ("attrs", Obj(attrs.GetOr([])))])
  }

  /** `renderCookie` over the staged cookies, in the cache's key order. */
  function RenderedCookies(h: Host, fs: Props): (r: seq<string>)
    ensures |r| == |fs|
    ensures forall i :: 0 <= i < |fs| ==> r[i] == h.renderCookie(fs[i].0, fs[i].1)
  {
    seq(|fs|, i requires 0 <= i < |fs| => h.renderCookie(fs[i].0, fs[i].1))
  }

  /** `cookies()`. */
  function CookiesOf(ctx: HttpContext, h: Host): seq<string>
    reads ctx.custom
  {
    RenderedCookies(h, RecordOf(ctx.custom.Value(SetCookies)))
  }

  /** `setCookie(name, value, attrs?)`. */
  method SetCookie(ctx: HttpContext, name: string, value: string, attrs: Option<Props>)
    requires ctx.custom.Value(SetCookies).Obj?
    modifies ctx.custom
    ensures ctx.custom.Value(SetCookies).Obj?
    ensures ctx.custom.entries == WithField(old(ctx.custom.entries), SetCookies, name, CookieData(value, attrs))
  {
    ctx.custom.SetField(SetCookies, name, CookieData(value, attrs));
  }

  /** `removeCookie(name)`. */
  method RemoveCookie(ctx: HttpContext, name: string)
    requires ctx.custom.Value(SetCookies).Obj?
    modifies ctx.custom
    ensures ctx.custom.Value(SetCookies).Obj?
    ensures ctx.custom.entries == WithoutField(old(ctx.custom.entries), SetCookies, name)
  {
    ctx.custom.DeleteField(SetCookies, name);
  }

  /**
   * `clearCookies()`: clears the `'setCookies'` cache of whichever request
   * is current when it is called, not of the request the composable was
   * obtained in; outside a request it panics.
   */
  method ClearCookies(slot: HttpContextSlot) returns (r: Result<CustomContext, JsError>)
    modifies if slot.current.Some? then {slot.current.value.custom} else {}
    ensures slot.current == old(slot.current)
    ensures r.Success? <==> slot.current.Some?
    ensures r.Failure? ==> r.error == Panic(OutsideRequest)
    ensures r.Success? ==>
              (r.value == slot.current.value.custom
               && r.value.entries == ClearIn(old(r.value.entries), SetCookies))
  {
    r := slot.ClearCacheObject(SetCookies);
  }

  /** A new cookie is rendered last; re-setting a staged cookie keeps its place. */
  lemma SetCookieOrder(h: Host, st: Props, name: string, data: JsValue)
    ensures var before := RenderedCookies(h, RecordOf(ValueIn(st, SetCookies)));
            var after := RenderedCookies(h, RecordOf(ValueIn(WithField(st, SetCookies, name, data), SetCookies)));
            if Has(RecordOf(ValueIn(st, SetCookies)), name)
            then |after| == |before|
                 && forall i :: 0 <= i < |before| ==>
                      (after[i] == before[i] || RecordOf(ValueIn(st, SetCookies))[i].0 == name)
            else after == before + [h.renderCookie(name, data)]
  {
    var fs := RecordOf(ValueIn(st, SetCookies));
    GetPutSame(st, Key(SetCookies), Obj(Put(fs, name, data)));
    assert RecordOf(ValueIn(WithField(st, SetCookies, name, data), SetCookies)) == Put(fs, name, data);
    PutKeys(fs, name, data);
    if Has(fs, name) {
      PutOthersKept(fs, name, data);
    } else {
      PutAbsent(fs, name, data);
    }
  }

  /** Assignment changes only the pair that holds the key. */
  lemma {:induction false} PutOthersKept(fs: Props, k: string, v: JsValue)
    requires Has(fs, k)
    ensures |Put(fs, k, v)| == |fs|
    ensures forall i :: 0 <= i < |fs| && fs[i].0 != k ==> Put(fs, k, v)[i] == fs[i]
  {
    assert Keys(fs) == [fs[0].0] + Keys(fs[1..]);
    if fs[0].0 != k {
      PutOthersKept(fs[1..], k, v);
    }
  }

  /** Setting a cookie that was not staged and removing it leaves `cookies()` as it was. */
  lemma SetThenRemoveCookie(h: Host, st: Props, name: string, data: JsValue)
    requires !Has(RecordOf(ValueIn(st, SetCookies)), name)
    ensures RenderedCookies(h, RecordOf(ValueIn(WithoutField(WithField(st, SetCookies, name, data), SetCookies, name), SetCookies)))
            == RenderedCookies(h, RecordOf(ValueIn(st, SetCookies)))
  {
    WithoutWithField(st, SetCookies, name, data);
  }

  /** After `clearCookies()` nothing is rendered, whatever was staged. */
  lemma ClearedCookies(h: Host, st: Props)
    ensures RenderedCookies(h, RecordOf(ValueIn(ClearIn(st, SetCookies), SetCookies))) == []
  {
    RecordOfClearIn(st, SetCookies);
  }
}
