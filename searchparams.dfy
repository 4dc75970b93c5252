/**
 * `useSearchParams` (src/composables/search-params.ts): the query string of
 * the request URL, its parsed entries and the grouped object, each computed
 * once and kept in the `'searchParams'` cache.
 */
module SearchParams {
  import opened Wrappers
  import opened Strings
  import opened Js
  import opened Host
  import opened Context
  import opened Errors
  import opened ReqRes
  import opened FormParams

  /** `url.slice(url.indexOf('?'))`, or `''` when there is no `?`. */
  function SearchSuffix(url: string): (r: string)
    ensures r == "" || (r[0] == '?' && EndsWith(url, r) && !Contains(url[..|url| - |r|], "?"))
    ensures Contains(url, "?") ==> r != ""
  {
    var i := IndexOf(url, "?");
    if i >= 0 then
      assert url[i..i + 1] == "?";
      assert url[..|url| - |url[i..]|] == url[..i];
      assert !Contains(url[..i], "?") by {
        forall k | 0 <= k
          ensures !OccursAt(url[..i], "?", k)
        {
          if k + 1 <= i {
            assert !OccursAt(url, "?", k);
            assert url[..i][k..k + 1] == url[k..k + 1];
          }
        }
        ContainsIff(url[..i], "?");
      }
      url[i..]
    else ""
  }

  /** The parsed entries as they sit in the cache: an array of `[name, value]` pairs. */
  function EntriesValue(es: seq<(string, string)>): (v: JsValue)
    ensures IsEntriesValue(v)
  {
    Arr(seq(|es|, i requires 0 <= i < |es| => Arr([Str(es[i].0), Str(es[i].1)])))
  }

  predicate IsEntriesValue(v: JsValue) {
    v.Arr? && forall i :: 0 <= i < |v.items| ==>
      v.items[i].Arr? && |v.items[i].items| == 2 && v.items[i].items[0].Str? && v.items[i].items[1].Str?
  }

  function EntriesOf(v: JsValue): seq<(string, string)>
    requires IsEntriesValue(v)
  {
    seq(|v.items|, i requires 0 <= i < |v.items| => (v.items[i].items[0].s, v.items[i].items[1].s))
  }

  /** The cached form reads back as the entries it was made from. */
  lemma EntriesRoundTrip(es: seq<(string, string)>)
    ensures EntriesOf(EntriesValue(es)) == es
  {
    assert forall i :: 0 <= i < |es| ==> EntriesOf(EntriesValue(es))[i] == es[i];
  }

  /** `params.get(name)`: the first value given for `name`, or null. */
  function FirstValue(es: seq<(string, string)>, k: string): JsValue
    decreases |es|
  {
    if es == [] then Null
    else if es[0].0 == k then Str(es[0].1)
    else FirstValue(es[1..], k)
  }

  /** Values of a name, read from the front. */
  lemma {:induction false} ValuesOfCons(es: seq<(string, string)>, k: string)
    requires es != []
    ensures ValuesOf(es, k) == (if es[0].0 == k then [Str(es[0].1)] else []) + ValuesOf(es[1..], k)
    decreases |es|
  {
    if |es| > 1 {
      ValuesOfCons(es[..|es| - 1], k);
      assert es[..|es| - 1][1..] == es[1..][..|es[1..]| - 1];
    } else {
      assert es[1..] == [];
    }
  }

  /**
   * `get(name)` and `getAll(name)` agree: the single value is the first of
   * all values, and null exactly when there are none.
   */
  lemma {:induction false} FirstValueOfAll(es: seq<(string, string)>, k: string)
    ensures ValuesOf(es, k) == [] ==> FirstValue(es, k) == Null
    ensures ValuesOf(es, k) != [] ==> FirstValue(es, k) == ValuesOf(es, k)[0]
    decreases |es|
  {
    if es != [] {
      ValuesOfCons(es, k);
      FirstValueOfAll(es[1..], k);
    }
  }

  /** `useSearchParams()`: obtained through `useRequest`, then the `'searchParams'` cache. */
  method UseSearchParams(slot: HttpContextSlot) returns (r: Result<HttpContext, JsError>)
    modifies if slot.current.Some? then {slot.current.value.custom} else {}
    ensures slot.current == old(slot.current)
    ensures r.Success? <==> slot.current.Some?
    ensures r.Failure? ==> r.error == Panic(OutsideRequest)
    ensures r.Success? ==>
              (r.value == slot.current.value
               && r.value.custom.entries == UseAll(old(r.value.custom.entries), [Body, Namespace.SearchParams]))
  {
    r := UseCaches(slot, [Body, Namespace.SearchParams]);
  }

  /** `useRequest().url || ''`. */
  function UrlText(ctx: HttpContext): string {
    ctx.req.url.GetOr("")
  }

  /** The entries `URLSearchParams` finds in the query of `url`. */
  function QueryEntries(url: string, h: Host): seq<(string, string)> {
    h.formEntries(SearchSuffix(url))
  }

  /**
   * Each field of the `'searchParams'` cache is unset (or falsy, for the two
   * the source reads by truthiness) or holds what the URL determines: its
   * query, the query's entries, and those entries grouped.
   */
  predicate SearchAgrees(st: Props, url: string, h: Host) {
    (FieldIn(st, Namespace.SearchParams, "raw").Undefined?
     || FieldIn(st, Namespace.SearchParams, "raw") == Str(SearchSuffix(url)))
    && (!Truthy(FieldIn(st, Namespace.SearchParams, "urlSearchParams"))
        || FieldIn(st, Namespace.SearchParams, "urlSearchParams") == EntriesValue(QueryEntries(url, h)))
    && (!Truthy(FieldIn(st, Namespace.SearchParams, "parsed"))
        || FieldIn(st, Namespace.SearchParams, "parsed") == Obj(Grouped(QueryEntries(url, h))))
  }

  /** The request's `'searchParams'` cache agrees with its URL. */
  predicate SearchConsistent(ctx: HttpContext, h: Host)
    reads ctx.custom
  {
    SearchAgrees(ctx.custom.entries, UrlText(ctx), h)
  }

  /** The value the URL determines for the memoised field `f`. */
  function SearchExpected(url: string, h: Host, f: string): Option<JsValue> {
    if f == "raw" then Some(Str(SearchSuffix(url)))
    else if f == "urlSearchParams" then Some(EntriesValue(QueryEntries(url, h)))
    else if f == "parsed" then Some(Obj(Grouped(QueryEntries(url, h))))
    else None
  }

  /** A request's `'searchParams'` cache, when first handed out, agrees with any URL. */
  lemma SearchFreshAgrees(st: Props, url: string, h: Host)
    requires !Truthy(ValueIn(st, Namespace.SearchParams))
    ensures SearchAgrees(UseIn(st, Namespace.SearchParams), url, h)
  {
    GetPutSame(st, Key(Namespace.SearchParams), Obj([]));
  }

  /** Storing what the URL determines for a field, or any other field, keeps the cache in agreement. */
  lemma SearchAgreesWrite(st: Props, url: string, h: Host, f: string, v: JsValue)
    requires SearchAgrees(st, url, h)
    requires SearchExpected(url, h, f).None? || SearchExpected(url, h, f) == Some(v)
    ensures SearchAgrees(WithField(st, Namespace.SearchParams, f, v), url, h)
  {
    FieldInWithFieldSame(st, Namespace.SearchParams, f, v);
    if f != "raw" {
      FieldInWithFieldOther(st, Namespace.SearchParams, f, v, Namespace.SearchParams, "raw");
    }
    if f != "urlSearchParams" {
      FieldInWithFieldOther(st, Namespace.SearchParams, f, v, Namespace.SearchParams, "urlSearchParams");
    }
    if f != "parsed" {
      FieldInWithFieldOther(st, Namespace.SearchParams, f, v, Namespace.SearchParams, "parsed");
    }
  }

  /** The store after `rawSearchParams()`: the query of `url` memoised under `raw`. */
  function RawStore(st: Props, url: string): Props {
    if FieldIn(st, Namespace.SearchParams, "raw").Undefined? then
      WithField(st, Namespace.SearchParams, "raw", Str(SearchSuffix(url)))
    else st
  }

  /** The store after `urlSearchParams()` parses: the raw query memoised, then its entries stored. */
  function ParamsStore(st: Props, url: string, h: Host): Props {
    var st' := RawStore(st, url);
    WithField(st', Namespace.SearchParams, "urlSearchParams",
              EntriesValue(h.formEntries(ToJsString(FieldIn(st', Namespace.SearchParams, "raw")))))
  }

  /** The store after `urlSearchParams()`: unchanged when a parse is cached, else parsed. */
  function ParamsCached(st: Props, url: string, h: Host): Props {
    if Truthy(FieldIn(st, Namespace.SearchParams, "urlSearchParams")) then st else ParamsStore(st, url, h)
  }

  /** `rawSearchParams()`. The ghost `h` only names the cache's agreement. */
  method RawSearchParams(ctx: HttpContext, ghost h: Host) returns (raw: JsValue)
    requires ctx.custom.Value(Namespace.SearchParams).Obj?
    modifies ctx.custom
    ensures ctx.custom.Value(Namespace.SearchParams).Obj?
    ensures old(ctx.custom.Field(Namespace.SearchParams, "raw")).Undefined? ==>
              raw == Str(SearchSuffix(UrlText(ctx)))
              && ctx.custom.entries == WithField(old(ctx.custom.entries), Namespace.SearchParams, "raw", raw)
    ensures !old(ctx.custom.Field(Namespace.SearchParams, "raw")).Undefined? ==>
              raw == old(ctx.custom.Field(Namespace.SearchParams, "raw"))
              && ctx.custom.entries == old(ctx.custom.entries)
    ensures ctx.custom.entries == RawStore(old(ctx.custom.entries), UrlText(ctx))
    ensures raw == ctx.custom.Field(Namespace.SearchParams, "raw")
    ensures old(SearchConsistent(ctx, h)) ==> raw == Str(SearchSuffix(UrlText(ctx))) && SearchConsistent(ctx, h)
  {
    if ctx.custom.Field(Namespace.SearchParams, "raw").Undefined? {
      var v := Str(SearchSuffix(UrlText(ctx)));
      ctx.custom.SetField(Namespace.SearchParams, "raw", v);
      FieldInWithFieldSame(old(ctx.custom.entries), Namespace.SearchParams, "raw", v);
      if SearchAgrees(old(ctx.custom.entries), UrlText(ctx), h) {
        SearchAgreesWrite(old(ctx.custom.entries), UrlText(ctx), h, "raw", v);
      }
    }
    raw := ctx.custom.Field(Namespace.SearchParams, "raw");
  }

  /** The cached `URLSearchParams` of the request. */
  function CachedEntries(ctx: HttpContext): seq<(string, string)>
    reads ctx.custom
    requires IsEntriesValue(ctx.custom.Field(Namespace.SearchParams, "urlSearchParams"))
  {
    EntriesOf(ctx.custom.Field(Namespace.SearchParams, "urlSearchParams"))
  }

  /**
   * `urlSearchParams()`: parsed from the raw query once, then reused. With
   * the cache in agreement, the entries are those of the URL's query.
   */
  method UrlSearchParams(ctx: HttpContext, h: Host) returns (es: seq<(string, string)>)
    requires ctx.custom.Value(Namespace.SearchParams).Obj?
    requires var v := ctx.custom.Field(Namespace.SearchParams, "urlSearchParams"); !Truthy(v) || IsEntriesValue(v)
    modifies ctx.custom
    ensures ctx.custom.Value(Namespace.SearchParams).Obj?
    ensures IsEntriesValue(ctx.custom.Field(Namespace.SearchParams, "urlSearchParams"))
    ensures es == CachedEntries(ctx)
    ensures ctx.custom.entries == ParamsCached(old(ctx.custom.entries), UrlText(ctx), h)
    ensures !Truthy(old(ctx.custom.Field(Namespace.SearchParams, "urlSearchParams")))
            && old(ctx.custom.Field(Namespace.SearchParams, "raw")).Undefined? ==>
              es == QueryEntries(UrlText(ctx), h)
    ensures Truthy(old(ctx.custom.Field(Namespace.SearchParams, "urlSearchParams"))) ==>
              es == EntriesOf(old(ctx.custom.Field(Namespace.SearchParams, "urlSearchParams")))
              && ctx.custom.entries == old(ctx.custom.entries)
    ensures old(SearchConsistent(ctx, h)) ==> es == QueryEntries(UrlText(ctx), h) && SearchConsistent(ctx, h)
  {
    var cached := ctx.custom.Field(Namespace.SearchParams, "urlSearchParams");
    if !Truthy(cached) {
      var raw := RawSearchParams(ctx, h);
      FieldInWithFieldOther(old(ctx.custom.entries), Namespace.SearchParams, "raw", raw,
                            Namespace.SearchParams, "urlSearchParams");
      var parsed := h.formEntries(ToJsString(raw));
      ghost var before := ctx.custom.entries;
      ctx.custom.SetField(Namespace.SearchParams, "urlSearchParams", EntriesValue(parsed));
      FieldInWithFieldSame(before, Namespace.SearchParams, "urlSearchParams", EntriesValue(parsed));
      EntriesRoundTrip(parsed);
      if SearchAgrees(before, UrlText(ctx), h) {
        SearchAgreesWrite(before, UrlText(ctx), h, "urlSearchParams", EntriesValue(parsed));
      }
    } else if SearchConsistent(ctx, h) {
      EntriesRoundTrip(QueryEntries(UrlText(ctx), h));
    }
    es := EntriesOf(ctx.custom.Field(Namespace.SearchParams, "urlSearchParams"));
  }

  /**
   * `getSearchParam(name)`: every value of an array name (`getAll`), the
   * first value of any other name (`get`), or null; with the cache in
   * agreement, taken from the URL's query.
   */
  method GetSearchParam(ctx: HttpContext, h: Host, name: string) returns (v: JsValue)
    requires ctx.custom.Value(Namespace.SearchParams).Obj?
    requires var c := ctx.custom.Field(Namespace.SearchParams, "urlSearchParams"); !Truthy(c) || IsEntriesValue(c)
    modifies ctx.custom
    ensures ctx.custom.Value(Namespace.SearchParams).Obj?
    ensures IsEntriesValue(ctx.custom.Field(Namespace.SearchParams, "urlSearchParams"))
    ensures ctx.custom.entries == ParamsCached(old(ctx.custom.entries), UrlText(ctx), h)
    ensures IsArrayParam(name) ==> v == Arr(ValuesOf(CachedEntries(ctx), name))
    ensures !IsArrayParam(name) ==> v == FirstValue(CachedEntries(ctx), name)
    ensures old(SearchConsistent(ctx, h)) ==>
              SearchConsistent(ctx, h)
              && (IsArrayParam(name) ==> v == Arr(ValuesOf(QueryEntries(UrlText(ctx), h), name)))
              && (!IsArrayParam(name) ==> v == FirstValue(QueryEntries(UrlText(ctx), h), name))
  {
    var es := UrlSearchParams(ctx, h);
    if IsArrayParam(name) {
      v := Arr(ValuesOf(es, name));
    } else {
      v := FirstValue(es, name);
    }
  }

  /**
   * `getAllSearchParams()`: the grouped object, built once; with the cache
   * in agreement, the grouping of the URL's query.
   */
  method GetAllSearchParams(ctx: HttpContext, h: Host) returns (v: JsValue)
    requires ctx.custom.Value(Namespace.SearchParams).Obj?
    requires var c := ctx.custom.Field(Namespace.SearchParams, "urlSearchParams"); !Truthy(c) || IsEntriesValue(c)
    modifies ctx.custom
    ensures ctx.custom.Value(Namespace.SearchParams).Obj?
    ensures Truthy(FieldIn(old(ctx.custom.entries), Namespace.SearchParams, "parsed")) ==>
              v == FieldIn(old(ctx.custom.entries), Namespace.SearchParams, "parsed")
              && ctx.custom.entries == old(ctx.custom.entries)
    ensures !Truthy(FieldIn(old(ctx.custom.entries), Namespace.SearchParams, "parsed")) ==>
              IsEntriesValue(ctx.custom.Field(Namespace.SearchParams, "urlSearchParams"))
              && v == Obj(Grouped(CachedEntries(ctx)))
              && ctx.custom.entries
                 == WithField(ParamsCached(old(ctx.custom.entries), UrlText(ctx), h), Namespace.SearchParams, "parsed", v)
    ensures ctx.custom.Field(Namespace.SearchParams, "parsed") == v
    ensures old(SearchConsistent(ctx, h)) ==>
              v == Obj(Grouped(QueryEntries(UrlText(ctx), h))) && SearchConsistent(ctx, h)
  {
    v := ctx.custom.Field(Namespace.SearchParams, "parsed");
    if Truthy(v) {
      return;
    }
    v := GroupAndStore(ctx, h);
  }

  /** Groups the parsed entries and caches the result under `parsed`. */
  method GroupAndStore(ctx: HttpContext, h: Host) returns (v: JsValue)
    requires ctx.custom.Value(Namespace.SearchParams).Obj?
    requires var c := ctx.custom.Field(Namespace.SearchParams, "urlSearchParams"); !Truthy(c) || IsEntriesValue(c)
    modifies ctx.custom
    ensures ctx.custom.Value(Namespace.SearchParams).Obj?
    ensures IsEntriesValue(ctx.custom.Field(Namespace.SearchParams, "urlSearchParams"))
    ensures v == Obj(Grouped(CachedEntries(ctx)))
    ensures ctx.custom.entries
            == WithField(ParamsCached(old(ctx.custom.entries), UrlText(ctx), h), Namespace.SearchParams, "parsed", v)
    ensures ctx.custom.Field(Namespace.SearchParams, "parsed") == v
    ensures old(SearchConsistent(ctx, h)) ==>
              v == Obj(Grouped(QueryEntries(UrlText(ctx), h))) && SearchConsistent(ctx, h)
  {
    var es := UrlSearchParams(ctx, h);
    ghost var before := ctx.custom.entries;
    var grouped := GroupEntries(es);
    v := Obj(grouped);
    ctx.custom.SetField(Namespace.SearchParams, "parsed", v);
    FieldInWithFieldSame(before, Namespace.SearchParams, "parsed", v);
    FieldInWithFieldOther(before, Namespace.SearchParams, "parsed", v, Namespace.SearchParams, "urlSearchParams");
    if SearchAgrees(before, UrlText(ctx), h) && es == QueryEntries(UrlText(ctx), h) {
      SearchAgreesWrite(before, UrlText(ctx), h, "parsed", v);
    }
  }

  /** The query of the search-params test, grouped. */
  lemma SearchParamsExample()
    ensures Grouped([("a[]", "1"), ("a[]", "2"), ("b", "3"), ("c", "4"), ("encoded", "~ %")])
            == [("a[]", Arr([Str("1"), Str("2")])), ("b", Str("3")), ("c", Str("4")), ("encoded", Str("~ %"))]
  {
    var es := [("a[]", "1"), ("a[]", "2"), ("b", "3"), ("c", "4"), ("encoded", "~ %")];
    var g2: Props := [("a[]", Arr([Str("1"), Str("2")]))];
    ExampleArrayPart();
    assert es[..2] == [("a[]", "1"), ("a[]", "2")];
    ExampleScalar(es[..2], g2, "b", "3");
    assert es[..3] == es[..2] + [("b", "3")];
    ExampleScalar(es[..3], g2 + [("b", Str("3"))], "c", "4");
    assert es[..4] == es[..3] + [("c", "4")];
    assert !IsArrayParam("encoded") by {
      assert "encoded"[5..] != "[]";
    }
    ExampleScalar(es[..4], g2 + [("b", Str("3")), ("c", Str("4"))], "encoded", "~ %");
    assert es == es[..4] + [("encoded", "~ %")];
  }

  /** The two `a[]` entries of the search-params test group into one array. */
  lemma ExampleArrayPart()
    ensures Grouped([("a[]", "1"), ("a[]", "2")]) == [("a[]", Arr([Str("1"), Str("2")]))]
  {
    var e1, e2 := ("a[]", "1"), ("a[]", "2");
    assert IsArrayParam("a[]");
    GroupedSnoc([], e1);
    assert [] + [e1] == [e1];
    var g1: Props := [("a[]", Arr([Str("1")]))];
    assert Grouped([]) == [];
    assert Items(Get([], "a[]")) + [Str("1")] == [Str("1")];
    assert GroupStep([], e1) == Put([], "a[]", Arr([Str("1")]));
    assert Grouped([e1]) == g1;
    GroupedSnoc([e1], e2);
    assert [e1] + [e2] == [e1, e2];
    assert Items(Get(g1, "a[]")) + [Str("2")] == [Str("1"), Str("2")];
    assert GroupStep(g1, e2) == Put(g1, "a[]", Arr([Str("1"), Str("2")]));
  }

  /** A scalar name not yet present is appended to the grouped object. */
  lemma ExampleScalar(es: seq<(string, string)>, g: Props, k: string, v: string)
    requires Grouped(es) == g && !Has(g, k) && !IsArrayParam(k)
    ensures Grouped(es + [(k, v)]) == g + [(k, Str(v))]
  {
    GroupedSnoc(es, (k, v));
    PutAbsent(g, k, Str(v));
  }

  /** The query string of the search-params test's URL. */
  lemma SearchSuffixExample()
    ensures SearchSuffix("test.com/path?a[]=1") == "?a[]=1"
  {
    var u := "test.com/path?a[]=1";
    assert OccursAt(u, "?", 13);
    assert forall k :: 0 <= k < 13 ==> u[k] != '?';
  }
}
