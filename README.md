# prostojs/http request core, modelled in Dafny

This project models the request-processing core of `@prostojs/http`, a
Node.js HTTP framework written in TypeScript. The model covers:

- the ambient context slot and its per-request cache store;
- the composables that memoise into that store: status and responded flag,
  staged headers, `Accept` matching, `Authorization` parsing, cookies and
  search parameters;
- the body decoder, including the hand-written `multipart/form-data` line
  parser;
- the response builder and its two renderers, and the `ProstoHttpError`
  body;
- `createResponseFrom`;
- the conditional and ranged file server;
- the `toGuard` combinator;
- the handler-chain walk of `processRequest`.

Every source file is one module.

- **Values.** A JavaScript value is the datatype `Js.JsValue`. An object is
  an ordered list of own key/value pairs in insertion order. JavaScript
  keeps that order only for keys that are not array indices, and an object
  also answers to names it inherits from `Object.prototype`. "## Left out"
  names the members where either difference shows.
- **Outside calls.** Calls the core makes into code outside it are function
  fields of one `Host.Host` value, passed in as a parameter:
  - `JSON.parse`, `JSON.stringify` and `URLSearchParams`;
  - `Buffer` base64 decoding and byte length;
  - `decodeURIComponent`, `renderCookie` and the MIME table;
  - `Date` formatting and parsing;
  - the status-text table.
- **Mutable state.** State the source mutates is a Dafny class:
  - `Context.HttpContextSlot`, the module-level `currentHttpContext`;
  - `Context.CustomContext`, the per-request store;
  - `Context.ResponseSink`, Node's `ServerResponse` reduced to the
    responses written to it;
  - `HttpResponse.BaseHttpResponse`;
  - `Errors.ProstoHttpError`.
- **Properties.** Each composable's cache is a field of the store. The
  methods that obtain, memoise or write caches state the whole new store,
  as a function of the old one. `ErrorRenderer.Choose`,
  `ErrorRenderer.AcceptStep` and `Respond.MergeAndRender` state a frame
  instead: what they return, and which fields stay as they were. Lemmas
  about those functions state what the source promises:
  - a value is computed once and never recomputed;
  - a write touches only one key;
  - a cache cleared in place reads as empty.
- **Asynchrony.** The asynchronous handlers and guards become sequences of
  outcomes. An `await` is modelled as the point where the caller may empty
  the context slot.

## Model

| member | source | states |
|---|---|---|
| Context.KeyInjective | src/composables/core.ts:35-41 | distinct cache names give distinct `'__'+name` keys, so no composable reads another's cache |
| Context.Header | src/composables/headers.ts:5-7 | a request header is present exactly when its name is among the request's headers, and then it is that header's value |
| Context.ResponseSink.WriteHead | src/response/core.ts:115-119 | `writeHead(...).end(...)` appends exactly one written response to the sink |
| Context.UsedValue | src/composables/core.ts:39 | `cc[k] \|\| {}` is always truthy, keeps a truthy value and replaces a falsy one by `{}` |
| Context.UseInIdempotent | src/composables/core.ts:37-41 | a second `useCacheObject(name)` leaves the store as the first left it (the same cache is handed out) |
| Context.UseInObj | src/composables/core.ts:39 | obtaining a cache that is already an object changes nothing |
| Context.FieldInUseIn | src/composables/core.ts:39 | obtaining a cache never changes what any cached field reads as |
| Context.WithFieldTwice | src/composables/core.ts:39 | a second write to the same cache field replaces the first |
| Context.FieldInWithFieldSame | src/composables/core.ts:39 | a cache field written reads back as the value written |
| Context.FieldInWithFieldOther | src/composables/core.ts:39 | writing one field of one cache leaves every other field of every cache as it was |
| Context.ValueInWithFieldOther | src/composables/core.ts:39 | writing a field of one cache leaves every other cache as it was |
| Context.FieldInWithoutField | src/composables/headers.ts:16-18 | a deleted field reads as undefined; every other field of every cache is as it was |
| Context.WithoutWithField | src/composables/cookies.ts:34-47 | setting a field the cache lacked and deleting it again leaves the cache's fields as they were |
| Context.FieldInClearIn | src/composables/core.ts:43-61 | after `clearCacheObject`, a cache that was an object (or missing) reads every field as undefined |
| Context.ValueInClearInOther | src/composables/core.ts:43-61 | clearing one cache leaves every other cache as it was |
| Context.RecordOfClearIn | src/composables/core.ts:43-61 | whatever a cache held, after clearing it has no fields |
| Context.UseAfterClear | src/composables/core.ts:37-61 | after `clearCacheObject(name)` the next `useCacheObject(name)` hands out an empty object |
| Context.DeleteEachKey | src/composables/core.ts:51-53 | the `for…in`/`delete` loop leaves the object with no keys (loop invariant: the remaining pairs are those whose key was not deleted yet) |
| Context.CustomContext.Use | src/composables/core.ts:37-41 | the store becomes `UseIn` of the old store, and a cache the framework left sound is then an object |
| Context.CustomContext.SetField | src/composables/core.ts:39 | `cache[f] = v` writes exactly that field of that cache |
| Context.CustomContext.DeleteField | src/composables/headers.ts:16-18 | `delete cache[f]` removes exactly that field of that cache |
| Context.CustomContext.Clear | src/composables/core.ts:43-61 | the store becomes `ClearIn` of the old store: an object emptied key by key, an array spliced to nothing, a string set to `''`, anything else `{}` |
| Context.HttpContextSlot.Set | src/composables/core.ts:31-33 | the slot holds exactly the given request, response, params and store |
| Context.HttpContextSlot.Clear | src/composables/core.ts:27-29 | the slot is empty |
| Context.HttpContextSlot.UseCurrentHttpContext | src/composables/core.ts:16-22 | succeeds exactly when the slot holds a context, returns that context, and otherwise fails with the "only synchronously" panic |
| Context.HttpContextSlot.RestoreCtx | src/composables/core.ts:20-23 | the captured context is current again, whatever was installed in between |
| Context.HttpContextSlot.UseCacheObject | src/composables/core.ts:37-41 | panics outside a request; inside one it returns the current store and applies `UseIn` to it, leaving the slot as it was |
| Context.HttpContextSlot.ClearCacheObject | src/composables/core.ts:43-61 | panics outside a request; inside one it applies `ClearIn` to the current store, leaving the slot as it was |
| ReqRes.UseCaches | src/composables/req-res.ts:41-45 | a composable's `useCacheObject` calls, in order, on the current store; outside a request the first of them panics |
| ReqRes.UseEach | src/composables/req-res.ts:41-45 | a loop of `useCacheObject` calls leaves the store as `UseAll` of the names in order |
| ReqRes.UseAllSnoc | src/composables/req-res.ts:41-45 | one more `useCacheObject` after a run of them is `UseIn` of the run's result |
| ReqRes.UseInSound | src/composables/core.ts:37-41 | obtaining one cache keeps every cache missing-or-object, makes that one an object and leaves the others as they were |
| ReqRes.UseAllSound | src/composables/core.ts:37-41 | obtaining several caches keeps the store sound, makes each an object, keeps objects objects, and changes no field anywhere |
| ReqRes.WithFieldSound | src/composables/core.ts:39 | writing a field of an object cache keeps the store sound and leaves the other caches as they were |
| ReqRes.UseRequest | src/composables/req-res.ts:5-7 | `useRequest()` obtains the `'body'` cache of the current request, or panics outside one |
| ReqRes.UseResponse | src/composables/req-res.ts:41-45 | `useResponse()` obtains the `'response'` then the `'status'` cache, or panics outside a request |
| ReqRes.RawBody | src/composables/req-res.ts:9-25 | the body is read into the `'body'` cache's `value` once; a later call returns the cached value without reading again |
| ReqRes.StatusCode | src/composables/req-res.ts:45-51 | `status(code)` with a non-zero code stores and returns it; `status()` or `status(0)` returns the stored code and changes nothing else |
| ReqRes.RawResponse | src/composables/req-res.ts:53-56 | always returns the installed sink; without `passthrough` it sets `responded`, with `passthrough` it leaves `hasResponded()` as it was |
| ReqRes.GetRouteParam | src/composables/req-res.ts:67-72 | `getRouteParam(n)` is the value of the first `n` among the installed params, and undefined when `n` is absent |
| Headers.UseHeaders | src/composables/headers.ts:5-7 | `useHeaders()` is the request's own headers, obtained through `useRequest` (so it creates the `'body'` cache), or panics outside a request |
| Headers.UseSetHeaders | src/composables/headers.ts:9-10 | `useSetHeaders()` obtains the `'setHeader'` cache, or panics outside a request |
| Headers.SetHeader | src/composables/headers.ts:12-14 | the header is staged as the value's `toString()` under exactly that name; every other staged header is unchanged |
| Headers.RemoveHeader | src/composables/headers.ts:16-18 | the header is no longer staged; every other staged header is unchanged |
| Headers.SetContentType | src/composables/headers.ts:20-22 | exactly `setHeader('Content-Type', value)` |
| Headers.EnableCors | src/composables/headers.ts:24-26 | exactly `setHeader('Access-Control-Allow-Origin', origin)`, with `'*'` by default |
| Accept.AcceptMatch | src/composables/header-accept.ts:10 | true exactly when a non-empty Accept header is `*/*` or contains the type as a substring |
| Accept.AcceptListed | src/composables/header-accept.ts:10 | a header that lists a type admits it, whatever surrounds it |
| Accept.AcceptAbsent | src/composables/header-accept.ts:10 | a header that neither is `*/*` nor mentions the type refuses it |
| Accept.AcceptFreshAgrees | src/composables/header-accept.ts:7 | a cache handed out for the first time holds no boolean, so it agrees with any header |
| Accept.AcceptAgreesWrite | src/composables/header-accept.ts:9-10 | caching the header's `AcceptMatch` for one type keeps every cached boolean equal to what the header gives for its type |
| Accept.UseAccept | src/composables/header-accept.ts:5-7 | `useAccept()` obtains `'body'` (through `useHeaders`) and then `'accept'`, or panics outside a request |
| Accept.Accepts | src/composables/header-accept.ts:8-13 | a boolean already cached for the type is returned and nothing changes; otherwise `AcceptMatch` is cached under the type and returned; on a cache that agrees with the header, the answer is `AcceptMatch` and the cache still agrees |
| Accept.AcceptsJson | src/composables/header-accept.ts:17 | `accepts('application/json')`: the cached boolean with nothing changed, else `AcceptMatch` of the header and `application/json` cached; on an agreeing cache, always that match |
| Accept.AcceptsXml | src/composables/header-accept.ts:18 | `accepts('application/xml')`: the cached boolean with nothing changed, else `AcceptMatch` of the header and `application/xml` cached; on an agreeing cache, always that match |
| Accept.AcceptsText | src/composables/header-accept.ts:19 | `accepts('text/plain')`: the cached boolean with nothing changed, else `AcceptMatch` of the header and `text/plain` cached; on an agreeing cache, always that match |
| Accept.AcceptsHtml | src/composables/header-accept.ts:20 | `accepts('text/html')`: the cached boolean with nothing changed, else `AcceptMatch` of the header and `text/html` cached; on an agreeing cache, always that match |
| Authorization.AuthSplit | src/composables/header-authorization.ts:16-27 | with a space, the header is the scheme, the first space and the credentials, and the scheme has no space |
| Authorization.AuthNoSpace | src/composables/header-authorization.ts:16-27 | with no space (`indexOf` is -1) the scheme is the header less its last character, and the credentials are the whole header |
| Authorization.BasicPair | src/composables/header-authorization.ts:45-46 | the cached record's `username` is the first `:`-separated piece |
| Authorization.BasicPairOf | src/composables/header-authorization.ts:44-46 | decoded `user:pass` gives back the user, and the password only up to its first colon |
| Authorization.BasicNoColon | src/composables/header-authorization.ts:45-46 | decoded credentials without a colon give an undefined password |
| Authorization.UseAuthorization | src/composables/header-authorization.ts:10-12 | obtains `'body'` (through `useHeaders`) and then `'authorization'`, or panics outside a request |
| Authorization.FreshAgrees | src/composables/header-authorization.ts:12 | a cache handed out for the first time agrees with any header |
| Authorization.AuthAgreesWrite | src/composables/header-authorization.ts:15-46 | storing what the header determines for a field, or any other field, keeps the cache in agreement with the header |
| Authorization.AuthAgreesMemo | src/composables/header-authorization.ts:15-28 | memoising what the header determines keeps agreement, and the field then holds that value |
| Authorization.AuthType | src/composables/header-authorization.ts:13-22 | null with nothing changed without a header; otherwise the scheme (text before the first space) memoised under `type` and the cached value returned; on a cache consistent with the header, always that scheme |
| Authorization.AuthRawCredentials | src/composables/header-authorization.ts:23-32 | null with nothing changed without a header; otherwise the text after the first space memoised under `credentials` and the cached value returned; on a consistent cache, always that text |
| Authorization.IsBasic | src/composables/header-authorization.ts:37 | the scheme is memoised as by `authType()`; with nothing cached, or on a consistent cache, true exactly when there is a header whose scheme lower-cases to `basic` |
| Authorization.IsBearer | src/composables/header-authorization.ts:38 | the scheme is memoised as by `authType()`; with nothing cached, or on a consistent cache, true exactly when there is a header whose scheme lower-cases to `bearer` |
| Authorization.BasicCredentials | src/composables/header-authorization.ts:39-52 | null without a header; a cached value as it is, with nothing changed; otherwise the store becomes `BasicStore` (scheme memoised, then for Basic the decoded pair); with nothing cached, or on a consistent cache, the decoded pair for the Basic scheme and undefined for any other |
| Authorization.StoreBasic | src/composables/header-authorization.ts:43-46 | the credentials are memoised and the pair decoded from the cached credentials is stored; on an agreeing cache (or with the credentials not cached) the pair is that of the header's credentials, and agreement is kept |
| Errors.ErrorMessage | src/errors/http-error.ts:5-6 | an error built from a string has that string as its message |
| Errors.ErrorBodyFields | src/errors/http-error.ts:9-20 | the body has `statusCode` the code, `message` the message and `error` the status text; a record body keeps its other fields |
| Errors.ErrorBodyTextKeys | src/errors/http-error.ts:10-14 | a message-only body has exactly the keys `statusCode`, `message`, `error`, in that order |
| Errors.ProstoHttpError.AttachRenderer | src/errors/http-error.ts:24-26 | `getRenderer()` afterwards is the renderer attached |
| Errors.Panic | src/utils/panic.ts:1 | `panic(msg)` is a plain `Error` carrying the message |
| Errors.ProstoHttpError.constructor | src/errors/http-error.ts:5-7 | `new ProstoHttpError(code = 500, body = '')` keeps the code and the body source and has no renderer attached |
| Context.HttpContextSlot.constructor | src/composables/core.ts:12 | the slot starts out empty |
| Cookies.ValueEnd | src/composables/cookies.ts:16 | the lazy `(.*?)` stops at the first position where `(?:;?$\|; )` matches, and never crosses a line terminator |
| Cookies.FirstMatch | src/composables/cookies.ts:16 | `exec` finds the leftmost position where the whole pattern matches, and nothing before it matches |
| Cookies.CookieMatch | src/composables/cookies.ts:16 | a captured value never contains `"; "` |
| Cookies.NoSeparatorInValue | src/composables/cookies.ts:16 | the lazy capture stops before any `"; "`, so it holds none |
| Cookies.ValueEndScan | src/composables/cookies.ts:16 | a run of characters that are neither `;` nor line terminators, followed by the tail, is exactly the captured value |
| Cookies.FirstCookie | src/composables/cookies.ts:16-17 | the first cookie of a header, `name=value` followed by the end or `"; "`, is read back as its value |
| Cookies.LaterCookie | src/composables/cookies.ts:16-17 | a later cookie, after a first segment that neither contains `;` nor starts with the name, is read back as its value |
| Cookies.LaterCookieSlices | src/composables/cookies.ts:16 | where the name, `=`, value and rest lie in a header `p; name=value rest` |
| Cookies.NoEarlyMatch | src/composables/cookies.ts:16 | before the first `"; "` of such a header only position 0 can start a match |
| Cookies.FirstMatchFrom | src/composables/cookies.ts:16 | with no match before `q` and one at `q`, `exec` finds `q` |
| Cookies.CookieHeaderFirst | src/composables/tests/cookies.spec.ts:8-17 | on the tests' header `cookie-key=cookie-value; newCookie=123456`, `cookie-key` reads `cookie-value` |
| Cookies.CookieHeaderSecond | src/composables/tests/cookies.spec.ts:8-18 | on the same header, `newCookie` reads `123456` |
| Cookies.UseCookies | src/composables/cookies.ts:9-11 | obtains `'cookies'` and then `'body'` (through `useHeaders`), or panics outside a request |
| Cookies.CookieValue | src/composables/cookies.ts:14-20 | what is cached is always `null` or a string: null without a header, for an empty header, without a match or for an empty match |
| Cookies.GetCookie | src/composables/cookies.ts:13-23 | a cached value (`null` included) is returned and nothing changes; otherwise `CookieValue` is cached under the name and returned |
| Cookies.UseSetCookies | src/composables/cookies.ts:31-32 | obtains `'setCookies'`, or panics outside a request |
| Cookies.RenderedCookies | src/composables/cookies.ts:41-43 | `cookies()` renders every staged cookie once, in the cache's key order |
| Cookies.SetCookie | src/composables/cookies.ts:34-39 | stages `{ value, attrs: attrs \|\| {} }` under the name and changes nothing else |
| Cookies.RemoveCookie | src/composables/cookies.ts:45-47 | unstages exactly that cookie |
| Cookies.ClearCookies | src/composables/cookies.ts:49-51 | clears the `'setCookies'` cache of whichever request is current, or panics outside a request |
| Cookies.SetCookieOrder | src/composables/cookies.ts:34-43 | a new cookie is rendered last; re-setting a staged cookie keeps its place and changes no other rendered cookie |
| Cookies.PutOthersKept | src/composables/cookies.ts:35 | assigning an existing key changes only the pair that holds it |
| Cookies.SetThenRemoveCookie | src/composables/cookies.ts:34-47 | setting a cookie that was not staged and removing it leaves `cookies()` as it was |
| Cookies.ClearedCookies | src/composables/cookies.ts:41-51 | after `clearCookies()`, `cookies()` is empty whatever was staged |
| SearchParams.SearchSuffix | src/composables/search-params.ts:22-23 | the query is `''` or starts at the first `?` and runs to the end of the URL; a URL with a `?` always has a non-empty query |
| SearchParams.EntriesValue | src/composables/search-params.ts:30 | the cached parsed entries are an array of string pairs |
| SearchParams.EntriesRoundTrip | src/composables/search-params.ts:30-32 | the cached entries read back as the entries that were parsed |
| SearchParams.ValuesOfCons | src/composables/search-params.ts:36 | `getAll` read from the front: the first entry's value if it is named `k`, then the rest's |
| SearchParams.FirstValueOfAll | src/composables/search-params.ts:36-37 | `get(name)` is the first of `getAll(name)`, and null exactly when there are none |
| SearchParams.UseSearchParams | src/composables/search-params.ts:12-14 | obtains `'body'` (through `useRequest`) and then `'searchParams'`, or panics outside a request |
| SearchParams.SearchFreshAgrees | src/composables/search-params.ts:14 | a cache handed out for the first time agrees with any URL |
| SearchParams.SearchAgreesWrite | src/composables/search-params.ts:21-51 | storing what the URL determines for `raw`, `urlSearchParams` or `parsed`, or any other field, keeps the cache in agreement with the URL |
| SearchParams.RawSearchParams | src/composables/search-params.ts:20-26 | the URL's query (from the first `?`, or `''`) is memoised under `raw` and the cached value returned; on a cache consistent with the URL, always that query |
| SearchParams.UrlSearchParams | src/composables/search-params.ts:28-33 | a truthy cached parse is reused and nothing changes; otherwise the raw query is memoised and parsed, and the entries cached; on a consistent cache, the entries are those of the URL's query and consistency is kept |
| SearchParams.GetSearchParam | src/composables/search-params.ts:35-38 | the store changes as by `urlSearchParams()`; an array name (`…[]`) gets every value, in order; any other name gets the first value, or null; on a consistent cache, taken from the URL's query |
| SearchParams.GetAllSearchParams | src/composables/search-params.ts:40-53 | a truthy cached object is returned and nothing changes; otherwise the entries are parsed as by `urlSearchParams()`, grouped, cached under `parsed` and returned; on a consistent cache, the grouping of the URL's query |
| SearchParams.GroupAndStore | src/composables/search-params.ts:41-51 | the store after `urlSearchParams()` with `parsed` set to the grouped entries; on a consistent cache, the grouping of the URL's query, and consistency kept |
| SearchParams.SearchParamsExample | src/composables/tests/search-params.spec.ts:8-22 | the tests' query `a[]=1&a[]=2&b=3&c=4&encoded=…` groups to `{ 'a[]': ['1','2'], b: '3', c: '4', encoded: '~ %' }` |
| SearchParams.ExampleArrayPart | src/composables/search-params.ts:44-46 | two `a[]` entries group into one array of both values |
| SearchParams.ExampleScalar | src/composables/search-params.ts:47-48 | a scalar name not yet present is appended to the grouped object |
| SearchParams.SearchSuffixExample | src/composables/search-params.ts:22-23 | the query of `test.com/path?a[]=1` is `?a[]=1`: everything from the `?` on |
| FormParams.GroupedSnoc | src/composables/search-params.ts:43-50 | one more entry is one more step of the grouping loop |
| FormParams.GroupedGet | src/composables/body.ts:165-177 | the grouped object holds, for an array name, all its values in order (undefined if none), and for any other name its last value |
| FormParams.GroupedWellFormed | src/composables/body.ts:165-177 | the grouped object never lists a name twice |
| FormParams.GroupEntries | src/composables/body.ts:168-175 | the grouping loop builds exactly `Grouped` of the entries (loop invariant over the entries read so far) |
| FormData.RunEnd | src/composables/body.ts:138 | `[^;]+` greedily runs to the next `;` or the end |
| FormData.ParamPos | src/composables/body.ts:110-138 | the leftmost position where `KEY([^;]+)` matches, and none before it |
| FormData.Param | src/composables/body.ts:110-138 | the capture is non-empty and `;`-free, and absent exactly when the expression matches nowhere |
| FormData.ContentTypeStart | src/composables/body.ts:143 | where `content-type:\s?([^;]+)` (case-insensitive) starts its capture, which is never at a `;` |
| FormData.ContentTypePos | src/composables/body.ts:143 | the leftmost position where the content-type expression matches |
| FormData.ContentTypeParam | src/composables/body.ts:143 | the captured part type is non-empty and `;`-free |
| FormData.Boundary | src/composables/body.ts:110-111 | the boundary always starts with `--`, so it is never empty and the "boundary not recognized" 400 cannot be thrown |
| FormData.StripQuotes | src/composables/body.ts:133 | stripping the quotes never lengthens the name |
| FormData.Lines | src/composables/body.ts:121 | a part always has at least one trimmed line |
| FormData.FormDataParser | src/composables/body.ts:109-159 | the loop over the parts returns what `FormDataResult` defines, stopping at the first throw (loop invariant over the parts read) |
| FormData.ReadLines | src/composables/body.ts:122-148 | the loop over a part's lines gives `FoldLines` of them, stopping at the first throw |
| FormData.FoldLinesFailed | src/composables/body.ts:139-144 | once a line throws, the later lines are never read |
| FormData.FoldPartsFailed | src/composables/body.ts:116-149 | once a part throws, the parser's answer is that error |
| FormData.StripQuotesQuoted | src/composables/body.ts:133 | a name quoted on both sides loses exactly its two quotes |
| FormData.FoldLinesConcat | src/composables/body.ts:122-148 | reading two runs of lines is reading the first, then the second from where it left off |
| FormData.ValueLinesAppend | src/composables/body.ts:123-128 | after a non-empty text, every further value line is appended after a newline |
| FormData.ValueLinesFresh | src/composables/body.ts:123-128 | a name without a value takes the first value line and the later lines are appended after newlines |
| FormData.EmptyValueOverwritten | src/composables/body.ts:124-125 | an empty value line leaves a falsy value, so the next line overwrites it |
| FormData.MissingName | src/composables/body.ts:137-139 | a disposition line without `name=` throws 400 "Could not read multipart name: " and the line |
| FormData.DispositionName | src/composables/body.ts:138 | the disposition line `…; name="k"` captures `"k"` with its quotes |
| FormData.DispositionThenBlank | src/composables/body.ts:130-140 | a disposition line and a blank line leave the parser in the value lines of `k`, quotes stripped |
| FormData.DispositionLineRead | src/composables/body.ts:137-140 | before the values, the disposition line sets the name, still quoted |
| FormData.PartField | src/composables/body.ts:116-148 | a part of a disposition line, a blank line and value lines stores the newline-joined lines under the name, after any earlier text for it |
| FormData.TextPartKept | src/composables/body.ts:151-157 | a `text/plain` part is left as text when the next part begins |
| FormData.JsonPartParsed | src/composables/body.ts:142-157 | a part declared `application/json` has its joined value JSON-parsed when the part is over |
| FormData.JsonPartEnd | src/composables/body.ts:151-157 | ending a named JSON part stores the parsed value under its name |
| FormData.TypedPartRead | src/composables/body.ts:137-147 | a content-type line, a disposition line, a blank line and values set the type and store the joined values |
| FormData.ContentTypeLineRead | src/composables/body.ts:142-145 | before the values, `Content-Type: t` sets the part's type to `t` |
| FormData.MultipartBoundary | src/composables/body.ts:110 | `multipart/form-data; boundary=b` splits the body on `--b` |
| BodyParser.ContentIs | src/composables/body.ts:27-29 | true exactly when the Content-Type (a missing one read as `''`) contains the type, case-sensitively |
| BodyParser.EncodingListClean | src/composables/body.ts:86 | every listed encoding is non-empty, trimmed and comma-free |
| BodyParser.EncodingListOfJoin | src/composables/body.ts:86 | clean names joined by commas list back as exactly those names, in order |
| BodyParser.EncodingListIdentity | src/composables/body.ts:86 | `identity` lists as `['identity']` |
| BodyParser.UseBody | src/composables/body.ts:22-25 | obtains `'body'` three times (directly, through `useRequest`, through `useHeaders`), or panics outside a request |
| BodyParser.FreshConsistent | src/composables/body.ts:23 | a `'body'` cache handed out for the first time is consistent with any request |
| BodyParser.ConsistentAfterWrite | src/composables/body.ts:31-89 | storing what the headers determine, or any field the decoder does not read, keeps the memoised fields consistent with the request |
| BodyParser.OtherFieldsKept | src/composables/body.ts:31-89 | each memoising write changes one field of `'body'` |
| BodyParser.Memoise | src/composables/body.ts:31-89 | a cached field is returned with nothing changed; otherwise the given value is stored in it alone; on a consistent cache a field the headers determine yields that value, and consistency is kept |
| BodyParser.IsType | src/composables/body.ts:27-71 | a cached answer is returned with nothing changed; otherwise `contentIs(t)` is cached and returned; no other field changes and consistency is kept |
| BodyParser.IsJson | src/composables/body.ts:31-36 | a cached answer is returned with nothing changed; otherwise whether the Content-Type contains `application/json`, cached under `isJson`; no other field changes; on a consistent cache, always that test, and consistency is kept |
| BodyParser.IsHtml | src/composables/body.ts:38-43 | a cached answer is returned with nothing changed; otherwise whether the Content-Type contains `text/html`, cached under `isHtml`; no other field changes; on a consistent cache, always that test, and consistency is kept |
| BodyParser.IsXml | src/composables/body.ts:45-50 | a cached answer is returned with nothing changed; otherwise whether the Content-Type contains `text/xml`, cached under `isXml`; no other field changes; on a consistent cache, always that test, and consistency is kept |
| BodyParser.IsText | src/composables/body.ts:52-57 | a cached answer is returned with nothing changed; otherwise whether the Content-Type contains `text/plain`, cached under `isText`; no other field changes; on a consistent cache, always that test, and consistency is kept |
| BodyParser.IsFormData | src/composables/body.ts:59-64 | a cached answer is returned with nothing changed; otherwise whether the Content-Type contains `multipart/form-data`, cached under `isFormData`; no other field changes; on a consistent cache, always that test, and consistency is kept |
| BodyParser.IsUrlencoded | src/composables/body.ts:66-71 | a cached answer is returned with nothing changed; otherwise whether the Content-Type contains `application/x-www-form-urlencoded`, cached under `isUrlencoded`; no other field changes; on a consistent cache, always that test, and consistency is kept |
| BodyParser.ContentEncodings | src/composables/body.ts:84-89 | the cached list with nothing changed, or the header split at commas, trimmed, empties dropped, cached; no other field changes; on a consistent cache, always the header's list |
| BodyParser.ScanEncodings | src/composables/body.ts:76-79 | the flag is rewritten once per entry up to the first compression: undefined for no entries, else whether any entry is `deflate`, `gzip` or `br` (loop invariant: no compression so far) |
| BodyParser.IsCompressed | src/composables/body.ts:73-82 | a cached flag is returned with nothing changed; otherwise the store is `CompressedStore` of the old one (the encodings list obtained, the flag written only when there is an entry) and the flag is the scan's answer over the cached list; on a consistent cache, always the scan's answer over the header's encodings, and consistency is kept |
| BodyParser.Decode | src/composables/body.ts:94-97 | on a consistent cache, the body goes to the first parser whose content-type test holds (JSON, multipart, URL-encoded, else text) and consistency is kept; the store is `DecodeStore` of the old one: only the tests that ran are cached |
| BodyParser.DecodeNonJson | src/composables/body.ts:95-97 | when the type is not JSON, the multipart, URL-encoded and text parsers in that order; the store is `NonJsonStore` of the old one: `isUrlencoded` is tested only when `isFormData` is false |
| BodyParser.DecodeForm | src/composables/body.ts:109-159 | the multipart parser's malformed header becomes a 400 `ProstoHttpError` and a bad JSON part the thrown SyntaxError |
| BodyParser.ParseBody | src/composables/body.ts:91-100 | a decoded body is returned from the cache with nothing changed; otherwise the store is `ReadStore` of the old one with a success, and only a success, kept in `parsed`; on a consistent cache the result is the raw body uncompressed and decoded |
| BodyParser.ReadBody | src/composables/body.ts:93-97 | read, uncompress, decode; the store is `ReadStore` of the old one: an uncompress failure skips the content-type tests |
| BodyParser.ReadRaw | src/composables/body.ts:93 | the encodings are obtained before the raw body is read; the store is `RawReadStore` of the old one, the encodings are the cached list and the text is the raw body's |
| BodyParser.StoreParsed | src/composables/body.ts:94-97 | `parsed` holds the decoded body, nothing else changes, and consistency is kept |
| BodyParser.MemoInOther | src/composables/body.ts:31-89 | memoising one field of `'body'` leaves every other field and every other cache as it was |
| BodyParser.RawReadFrame | src/composables/body.ts:93 | reading the raw body writes only `contentEncodings` and `value` |
| BodyParser.DecodeFrame | src/composables/body.ts:94-97 | the content-type tests write only `isJson`, `isFormData` and `isUrlencoded` |
| BodyParser.ParseStoreFrame | src/composables/body.ts:91-100 | `parseBody()` writes only `value`, `contentEncodings`, `isJson`, `isFormData`, `isUrlencoded` and `parsed`: every other field of `'body'` and every other cache is as it was |
| BodyParser.JsonRequest | src/composables/body.ts:94-104 | an `application/json` body is whatever `JSON.parse` gives, a syntax error thrown as is |
| BodyParser.UrlEncodedRequest | src/composables/body.ts:165-177 | a URL-encoded body decodes to an object without repeated names, holding all values of an array name and the last value of any other |
| BodyParser.UrlEncodedSelected | src/composables/body.ts:165-166 | a URL-encoded body (chosen at line 96) is the grouping of the trimmed body's entries |
| BodyParser.MultipartRequest | src/composables/body.ts:95-110 | a multipart request goes to the form-data parser, which splits on `--` and the boundary |
| BodyParser.Registered | src/composables/body.ts:191-196 | a name already bound panics "Body compressor … already registered."; any other is bound and no other name changes |
| BodyParser.RegisterTwice | src/composables/body.ts:191-196 | a name cannot be registered twice |
| BodyParser.Compressors.Register | src/composables/body.ts:191-196 | the registry becomes `Registered` of the old one, or stays as it was when that panics |
| HttpResponse.DefaultStatusSuccess | src/response/core.ts:7-13 | the default status (the table `mergeStatus` reads at line 103) is 200, 201 or 202: 201 exactly for POST and PUT, 202 exactly for PATCH and DELETE |
| HttpResponse.MergedStatusSettles | src/response/core.ts:98-105 | a merged status is never 0, a status the response already has is kept, merging twice changes nothing, and with nothing stored it is 204 exactly for an empty body |
| HttpResponse.StrsOf | src/response/core.ts:89 | the cookie texts as string values, one for one |
| HttpResponse.MergedHeadersGet | src/response/core.ts:86-96 | the response's own header wins over a staged one; `Set-Cookie` carries the response's own cookies, then the staged ones |
| HttpResponse.WithCookieAppends | src/response/core.ts:61-71 | adding a cookie succeeds exactly when `Set-Cookie` holds no string; it keeps the cookies there, puts the new one last and changes no other header; otherwise it is the `push` TypeError |
| HttpResponse.BaseHttpResponse.constructor | src/response/core.ts:18-24 | a new response has the given renderer, status 0, no body and no headers |
| HttpResponse.BaseHttpResponse.SetStatus | src/response/core.ts:42-45 | only the status changes |
| HttpResponse.BaseHttpResponse.SetBody | src/response/core.ts:47-50 | only the body changes |
| HttpResponse.BaseHttpResponse.SetContentType | src/response/core.ts:52-59 | `getContentType()` afterwards is the value set; nothing else changes |
| HttpResponse.BaseHttpResponse.SetCookie | src/response/core.ts:61-65 | the rendered cookie is added as `WithCookie` says, or the TypeError leaves the headers alone |
| HttpResponse.BaseHttpResponse.SetCookieRaw | src/response/core.ts:67-71 | the raw text is added as `WithCookie` says, or the TypeError leaves the headers alone |
| HttpResponse.BaseHttpResponse.Header | src/response/core.ts:73-84 | `getHeader(name)` afterwards is the value; every other header reads as before |
| HttpResponse.BaseHttpResponse.SetHeader | src/response/core.ts:78-80 | the same as `header(name, value)` |
| HttpResponse.BaseHttpResponse.MergeHeaders | src/response/core.ts:86-96 | panics outside a request; otherwise obtains `'setHeader'` and `'setCookies'` and the headers become the merge of the staged headers, the own headers and both cookie lists |
| HttpResponse.BaseHttpResponse.MergeStatus | src/response/core.ts:98-105 | a response with a status keeps it; otherwise it takes the stored code, else the method's default for a non-empty body and 204 for an empty one |
| HttpResponse.StoredStatus | src/composables/req-res.ts:41-51 | `useResponse().status()` is the stored code, after obtaining `'response'` and `'status'` |
| ResponseRenderer.Render | src/response/renderer.ts:6-19 | the text is the body's `toString()`, `''` for undefined, or its JSON; the headers become `BaseHeaders`; status and body are unchanged |
| ResponseRenderer.BaseHeadersKeep | src/response/renderer.ts:8-15 | a content type the response has is never replaced; a defined body always leaves with one; no other header changes |
| ResponseRenderer.BaseTextOfString | src/response/renderer.ts:7-13 | a string body is sent as it is; an undefined body sends nothing |
| ResponseRenderer.BaseTextOfNumber | src/response/renderer.ts:7-9 | a numeric body is sent as decimal text that reads back as the same number |
| ErrorRenderer.ChosenNegotiated | src/errors/error-renderer.ts:34-42 | against an `'accept'` cache that agrees with the header, the format is JSON if admitted, else HTML, else text, else JSON |
| ErrorRenderer.Choose | src/errors/error-renderer.ts:34-42 | the `accepts` calls in order, stopping at the first admitted type; only the `'accept'` cache changes and it keeps agreeing with the header |
| ErrorRenderer.AcceptStep | src/composables/header-accept.ts:8-13 | one `accepts(mime)` answers from the cache or the header and changes at most that one field |
| ErrorRenderer.RenderAs | src/errors/error-renderer.ts:8-29 | the text of the chosen format, and the content type set to that format's |
| ErrorRenderer.UseAcceptStore | src/errors/error-renderer.ts:32 | obtaining `useAccept` changes nothing a later read can tell |
| ErrorRenderer.Render | src/errors/error-renderer.ts:31-43 | panics outside a request; otherwise status `statusCode \|\| 500`, the negotiated format's text and content type, and only the `'accept'` cache changes |
| ErrorRenderer.RenderIn | src/errors/error-renderer.ts:31-43 | `render` inside a request, as `Render` states for that case |
| ErrorRenderer.JsonTextOfError | src/errors/error-renderer.ts:25-29 | the JSON form of an error built from a message is the code, reason phrase and message in the template |
| ErrorRenderer.PlainTextOfError | src/errors/error-renderer.ts:19-23 | the text form is `code reason`, a newline, then the message |
| ErrorRenderer.ErrorStatusOfError | src/errors/error-renderer.ts:33 | an error response's status is the error's code, or 500 for code 0 |
| ErrorRenderer.JsonText405 | src/errors/errors.spec.ts:18-20 | a 405 with message `test message` renders as the test's JSON text |
| ErrorRenderer.PlainText405 | src/errors/errors.spec.ts:24-26 | the same error renders as `405 Method Not Allowed\ntest message` |
| ErrorRenderer.NegotiatedExamples | src/errors/errors.spec.ts:18-31 | `application/json` gets JSON, `text/plain` text, `text/html` HTML, and no header JSON |
| Factory.ErrorResponseBodyFields | src/response/factory.ts:10-19 | a plain `Error` is answered as a 500 carrying its message; an HTTP error with its own code and message |
| Factory.PlainErrorResponse | src/response/factory.ts:16 | the response for a plain `Error` renders with status 500 and, as JSON, reports 500 and the message |
| Factory.CreateResponseFrom | src/response/factory.ts:7-25 | panics outside a request; `null` once answered; otherwise a fresh error response for an `Error`, the response itself for a response, and a fresh response with the value as body |
| Respond.RecordOfUseIn | src/composables/core.ts:37-41 | obtaining a cache never changes the fields any cache reads as |
| Respond.UseInKeeps | src/response/core.ts:107-120 | one `useCacheObject` call keeps the store sound and everything `respond` reads |
| Respond.MergeStatusStore | src/response/core.ts:98-105 | the caches `mergeStatus` obtains keep the store sound |
| Respond.RenderWith | src/response/core.ts:113 | the response's renderer sets status, headers and text as `Rendered` says, and the stored status code is unchanged |
| Respond.MergeAndRender | src/response/core.ts:112-113 | `mergeHeaders` then `render`: the rendering of the merged headers |
| Respond.Finish | src/response/core.ts:114-119 | the status is merged, the request marked answered and exactly one response written with `Content-Length` first |
| Respond.MergeStatusIn | src/response/core.ts:114 | `mergeStatus` inside a request gives `MergedStatus` and keeps the store sound |
| Respond.Respond | src/response/core.ts:107-120 | panics outside a request or when already answered, writing nothing; otherwise writes exactly the response `Sent` describes and marks the request answered |
| Respond.RespondIn | src/response/core.ts:107-120 | `respond()` inside a request, as `Respond` states for that case |
| Respond.UsedForResponse | src/response/core.ts:108 | obtaining `'response'` and `'status'` changes nothing `respond` sends |
| Respond.SendFresh | src/response/core.ts:112-119 | for an unanswered request, writes exactly one response, the one `Sent` describes |
| ServeFile.EtagList | src/serve-file/serve-file.ts:128 | the client's entity tags split at commas and trimmed, one for one |
| ServeFile.IsNotModified | src/serve-file/serve-file.ts:126-151 | with a tag list, true exactly when an entry is the tag; without, true exactly for a valid date strictly later than the last modification (loop invariant: no earlier entry matched) |
| ServeFile.RangeParts | src/serve-file/serve-file.ts:69 | the range pieces are never empty |
| ServeFile.LeadWrites | src/serve-file/serve-file.ts:52-97 | the range step leaves the status at 206 for a window and 200 otherwise, and stages only Content-Range, for a window |
| ServeFile.ApplyAppend | src/serve-file/serve-file.ts:52-117 | applying writes one after another is applying their concatenation |
| ServeFile.ApplyFields | src/serve-file/serve-file.ts:52-117 | each staged header holds its last written value, the status code the last code written |
| ServeFile.LastHeaderAppend | src/serve-file/serve-file.ts:52-117 | the last write in `a + b` is the last in `b`, else the last in `a` |
| ServeFile.CallerWrites | src/serve-file/serve-file.ts:113-117 | one header write per caller header, in key order |
| ServeFile.CallerWritesLast | src/serve-file/serve-file.ts:113-117 | a name the caller does not set keeps its value; one it sets takes its last value; the status is untouched |
| ServeFile.CallerUntouched | src/serve-file/serve-file.ts:113-117 | caller writes that never name a header leave it as it was |
| ServeFile.CallerLastAt | src/serve-file/serve-file.ts:113-117 | the caller's last write to a header is the value it keeps |
| ServeFile.CallerNoStatus | src/serve-file/serve-file.ts:113-117 | the caller's writes never touch the status |
| ServeFile.LastWriteWins | src/composables/headers.ts:12-14 | the last write to a header decides its value; an unwritten header keeps its value |
| ServeFile.HeadersKeepStatus | src/serve-file/serve-file.ts:102-117 | header writes leave the status code alone |
| ServeFile.StagingValue | src/serve-file/serve-file.ts:102-117 | a staged header holds the caller's last value if set, else its fixed value, else what it held; the status is untouched |
| ServeFile.FixedShape | src/serve-file/serve-file.ts:102-111 | the fixed staging writes only headers, and only the fixed names |
| ServeFile.FixedPosition | src/serve-file/serve-file.ts:102-111 | each fixed header is written exactly once, with its fixed value |
| ServeFile.ParseIntNoMinus | src/serve-file/serve-file.ts:71-72 | `parseInt` of text without a minus sign is never negative |
| ServeFile.RangeWithinFile | src/serve-file/serve-file.ts:69-76 | a satisfiable range lies inside the file, so an empty file has none |
| ServeFile.StripUnit | src/serve-file/serve-file.ts:69 | trimming and dropping `bytes=` leaves the range set itself |
| ServeFile.RangeRoundTrip | src/serve-file/serve-file.ts:69-76 | `bytes=a-b` reads back as the window `a` to `b` cut at the last byte, and gives 416 exactly when `a` lies past that end |
| ServeFile.RangePartsPair | src/serve-file/serve-file.ts:69-70 | `bytes=a-b` splits into the digits of `a` and `b` |
| ServeFile.BoundsOfParts | src/serve-file/serve-file.ts:70-76 | the window read off the pieces |
| ServeFile.OpenRange | src/serve-file/serve-file.ts:72-73 | an open range `bytes=a-` runs to the last byte |
| ServeFile.SplitOpen | src/serve-file/serve-file.ts:69 | `A-` splits into `A` and an empty piece |
| ServeFile.SuffixRangeUnsatisfiable | src/serve-file/serve-file.ts:71-76 | a suffix range `bytes=-n` always gives 416 |
| ServeFile.DecideNotModified | src/serve-file/serve-file.ts:52-61 | a fresh cached copy ends at 304, stages no header and has no body |
| ServeFile.DecideUnsatisfiable | src/serve-file/serve-file.ts:68-76 | 416 exactly when the copy is not fresh and a range is given that cannot be satisfied; the status stays 200 and no header is staged |
| ServeFile.WindowWithinFile | src/serve-file/serve-file.ts:73-88 | a served window lies inside the file, so between 1 and `size` bytes are sent; without one the whole file is |
| ServeFile.DecideServed | src/serve-file/serve-file.ts:79-119 | a served file's body is the window (nothing for HEAD), its status 206 for a window and 200 otherwise, and Content-Range staged exactly for a window |
| ServeFile.DecideServedHeaders | src/serve-file/serve-file.ts:102-117 | every fixed header the caller does not override holds its fixed value, Content-Length the served length; a caller header its last value |
| ServeFile.DecideServedWrites | src/serve-file/serve-file.ts:52-117 | a served file's writes are the range step, then the staging of the served length |
| ServeFile.StagedAfter | src/serve-file/serve-file.ts:102-117 | what the staging leaves after the range step, in terms of what that step leaves |
| ServeFile.ETagNoComma | src/serve-file/serve-file.ts:56 | the entity tag holds no comma when the date text holds none |
| ServeFile.EchoedTagFresh | src/serve-file/serve-file.ts:126-133 | a client sending back the tag it was given finds its copy fresh |
| ServeFile.EchoedDateStale | src/serve-file/serve-file.ts:146 | a client sending back the Last-Modified date it was given never finds its copy fresh (strict comparison) |
| ServeFile.ApplySnoc | src/serve-file/serve-file.ts:52-117 | one more write is one more step |
| ServeFile.WriteStatus | src/serve-file/serve-file.ts:52-96 | `status(code)` is one more status write |
| ServeFile.WriteHeader | src/serve-file/serve-file.ts:102-115 | `setHeader(name, value)` is one more header write, a number staged as its decimal text |
| ServeFile.StageHeaders | src/serve-file/serve-file.ts:102-117 | the fixed headers, then the caller's, as the writes of `Staging` |
| ServeFile.StageFixed | src/serve-file/serve-file.ts:102-111 | the fixed headers as the writes of `Fixed` |
| ServeFile.StageCaller | src/serve-file/serve-file.ts:113-117 | the caller's loop as the writes of `CallerWrites` (loop invariant over the keys done) |
| ServeFile.ProcessRange | src/serve-file/serve-file.ts:65-99 | the served window and length are `Window` and `ServedLength`, and the store holds the range step's writes |
| ServeFile.ServeFound | src/serve-file/serve-file.ts:52-119 | the store ends as the decision's writes leave it, and the result is the decision's, or a 416 |
| ServeFile.ObtainCaches | src/serve-file/serve-file.ts:45-50 | the four composables' caches are obtained in order and the headers and method are the request's |
| ServeFile.ServeFile | src/serve-file/serve-file.ts:24-120 | panics outside a request; a missing file or directory is a 404 with the store untouched; otherwise the store and result are the decision's |
| Guard.FirstStop | src/decorators/to-guard.ts:14-20 | the loop stops at the first guard that does not allow, all before it allowing |
| Guard.StopIgnoresLater | src/decorators/to-guard.ts:14-20 | guards after the one the loop stops at make no difference |
| Guard.UnauthorizedBodyFields | src/decorators/to-guard.ts:18 | the 401 body is `{ statusCode: 401, message: '', error: 'Unauthorized' }` |
| Guard.AwaitGuards | src/decorators/to-guard.ts:14-20 | the loop stops at `FirstStop`; the slot is empty afterwards exactly when the first guard rejects after the caller cleared it |
| Guard.Deny | src/decorators/to-guard.ts:18 | a denial is answered with a fresh 401 error response, or `null` once answered |
| Guard.ToGuard | src/decorators/to-guard.ts:11-26 | the wrapper as written: all allow gives the handler's outcome; a denial a 401; a throw an error response, except a first-guard rejection after the slot was cleared, which throws the outside-request panic |
| Guard.ToGuardRestored | src/decorators/to-guard.ts:11-26 | with the context restored in the `catch`, every throwing guard is answered with its error |
| Server.SeedStages | src/server.ts:69-73 | the seeded store is sound and stages only the `Server` header |
| Server.DecisiveFrom | src/server.ts:105-116 | the first handler from `i` on that settles the request, none before it settling; with any handler left, one does |
| Server.SkipsErrors | src/server.ts:112-124 | handlers that throw or return an `Error` before one that returns a value are skipped, and that value answers the request |
| Server.LastAnswers | src/server.ts:106-123 | with only errors before it, the last handler answers with what it returned or threw |
| Server.SpreadWellFormed | src/response/core.ts:89-93 | spreading objects without duplicate keys keeps them without duplicate keys |
| Server.ServerHeaderReaches | src/server.ts:69-73 | the seeded `Server` header reaches the written answer unless the response sets its own |
| Server.ReplyAfterCreate | src/response/factory.ts:8-9 | obtaining the caches `createResponseFrom` reads changes nothing `respond` sends |
| Server.SendMade | src/server.ts:114 | `respond()` on the response made from a store writes what `Reply` says |
| Server.RespondWith | src/server.ts:113-115 | `createResponseFrom(d)?.respond()`: unless already answered, exactly the response made of `d` is written |
| Server.Settle | src/server.ts:113-122 | with the context installed, answer the outcome, write once, and clear the slot |
| Server.ProcessHandlers | src/server.ts:104-126 | the walk stops at `Decisive`, writes its answer exactly once unless already answered, and leaves the slot empty (loop invariant: nothing written before the decisive handler) |
| Server.ProcessRequest | src/server.ts:67-101 | a fresh seeded store; with a route its handlers are walked, otherwise a 404 error response; exactly one response is written and the slot left empty |
| Server.NotFoundReply | src/server.ts:98-100 | the reply to an unmatched route is the 404 error response |
| Server.FieldInSeed | src/server.ts:69-73 | a fresh request has not been answered |

## Behaviours worth noting

- A JSON body that does not parse is answered with status 500. The
  `SyntaxError` that `JSON.parse` raises (src/composables/body.ts:102-104)
  is thrown as it is, and `createResponseFrom` answers a plain `Error`
  with status 500 (src/response/factory.ts:16). `BodyParser.ParseBody`
  reports the thrown error, and `Factory.PlainErrorResponse` states the
  500.
- `If-Modified-Since` makes a copy fresh only when its date is strictly
  later than the file's modification time
  (src/serve-file/serve-file.ts:146). Section 3.3 of RFC 7232 treats a
  date equal to `Last-Modified` as not modified, so the echoed date gets a
  full response here. `ServeFile.EchoedDateStale` states the consequence.
- The 400 for a multipart body without a boundary
  (src/composables/body.ts:110-111) cannot be reached: the boundary it
  tests always starts with `--`. `FormData.Boundary` proves this.

## Left out

- Transport and process plumbing is not modelled: `createServer`, `listen`, `close`, the uncaught-exception hook and route registration (src/server.ts:17-65). The router's `lookup` becomes the `found` parameter of `Server.ProcessRequest`.
- `printError`, `console.error` and the coloured output of `panic` are console output only (src/server.ts:128-133, src/utils/panic.ts:2). `panic` is modelled as the plain `Error` it returns.
- The outer `.catch` of `processRequest` (src/server.ts:86-92) is not modelled. `processHandlers` catches every throw of a handler, of `createResponseFrom` and of `respond`, so no rejection escapes it in this model.
- A handler that throws synchronously, before `clearContext` runs, and one whose promise rejects are the same `Throws` outcome. The model clears the slot in both cases. Both end the same way: the next step installs the context again.
- What handlers and guards do to the request's caches while they run is not modelled. A handler is given only by what calling it comes to.
- Values thrown that are not `Error` objects are not modelled. `Factory.Outcome` throws only `JsError` values.
- The interleaving of concurrent requests on the one context slot is not modelled. Each `await` is modelled as the single point where the caller may empty the slot; in `Guard.ToGuard` this is the `cleared` parameter.
- Raw body streaming (src/composables/req-res.ts:9-25) is not modelled. The request's body arrives as a given string.
- `fs.promises.stat`, `path.normalize`/`path.join` with `process.cwd()`, and `createReadStream` are not modelled. The first two are `Host.Host` functions; the stream is the `ServeFile.Served` descriptor of a path and a byte window.
- Foreign library calls are `Host.Host` function fields, with no properties assumed beyond those the lemmas name as hypotheses:
  - `JSON.parse` and `JSON.stringify`;
  - `URLSearchParams`;
  - `Buffer` base64 decoding and byte length;
  - `Date` formatting and parsing;
  - `safeDecodeURIComponent`;
  - `renderCookie`, `convertTime`, `getMimeType`;
  - `uncompressBody`;
  - the `httpStatusCodes` table.
- The `contentTypes` table (src/content-types.ts) is not part of this model. The few MIME names the core compares against are constants.
- src/composables/header-set-cache-control.ts is not modelled. It only forwards to `convertTime`, `renderCacheControl` and `Date` formatting.
- Cookie `Max-Age` values with fractions need float formatting, so they are left to `renderCookie`.
- The HTML error page's markup and colours are not modelled. `__VERSION__` is `Host.Host.version`.
- Test calls to functions the shown source does not export are not modelled: `isBinary`, `contentEncodings` from `useBody`, `jsonSearchParams`, and the `ServeFile` class. `restoreCurrentHttpContex` is modelled as `restoreCtx`.
- `BodyParser.IsCompressed` assumes the cached encodings are an array of strings, the type `contentEncodings` gives them.
- `Respond.RenderWith` calls the renderer the response carries directly. JavaScript's dynamic dispatch becomes a match on `Renderer` (the default one or `HttpErrorRenderer`).
- `Server.ProcessRequest` states nothing about a matched route with no handlers. The router never returns one.
- Authorization.IsBasic: `toLocaleLowerCase` follows the runtime's locale; under a Turkish locale `I` lower-cases to `ı`, so `BASIC` is not Basic there. The model's `ToLower` folds `A`-`Z` as other locales do. `Authorization.IsBearer` and `Authorization.BasicCredentials` share this.
- Cookies.GetCookie: a name `Object.prototype` defines (`constructor`, `toString`, `__proto__`) is read from the prototype in JavaScript, so the source returns that inherited value and caches nothing. The model's cache holds own keys only and looks the cookie up.
- Cookies.GetCookie: the regular expression's `i` flag also folds non-ASCII letters. The model folds `A`-`Z` only.
- Cookies.RenderedCookies: `Object.entries` lists array-index keys (`"0"`, `"42"`) first, in numeric order. The model renders in insertion order, which differs when a cookie name is an array index.
- Cookies.SetCookieOrder: the order it proves is insertion order. It holds in JavaScript only when no staged cookie name is an array index.
- Cookies.SetCookie: a cookie named `__proto__` replaces the cache's prototype in JavaScript instead of being staged. The model stages it like any other name.
- FormData.FormDataParser: a part named after an inherited property (`constructor`, `toString`) starts from that property's truthy value in JavaScript, so `result[key] += '\n' + line` appends to the function's text (src/composables/body.ts:124-128). The model starts such a part from its first line. A part named `__proto__` is dropped in JavaScript and kept in the model.
- FormParams.GroupEntries: a scalar entry named `__proto__` is dropped by `result[key] = value` in JavaScript (src/composables/body.ts:173, src/composables/search-params.ts:48). The model keeps it. The grouped object's key order is insertion order, which JavaScript changes for array-index names.
- SearchParams.GetAllSearchParams: it returns `FormParams.Grouped` of the entries, so the `__proto__` and key-order differences of `FormParams.GroupEntries` apply.
- SearchParams.GroupAndStore: the source creates `cache.parsed = {}` before it calls `urlSearchParams()` (src/composables/search-params.ts:42-43), so on a fresh cache JavaScript's key order is `parsed`, `raw`, `urlSearchParams`. The model writes `parsed` last. Only `Object.keys` of the cache can tell the two apart; every field holds the same value.
- Headers.SetHeader: `cache[name] = value.toString()` on the plain `{}` that `useCacheObject` creates (src/composables/headers.ts:13, src/composables/core.ts:39) changes nothing when `name` is `__proto__`: assigning a string to `__proto__` is ignored. The model stages such a header, and `Headers.MergedHeaders` would send it.
- ReqRes.GetRouteParam: `routeParams[name]` (src/composables/req-res.ts:71) reads the router's params object, which is not part of this model. On a plain object an inherited name such as `constructor` answers the prototype's value; the model reads the params' own entries only and answers `undefined` there. The model assumes the params hold own keys only.
- BodyParser.Registered: the `compressors` table lives in src/utils/body.ts, which is not part of this model. If it is a plain object, `compressors['constructor']` is truthy from the prototype and `registerBodyCompressor('constructor', …)` panics "already registered" in JavaScript. The model's table holds own keys only and registers such a name. `BodyParser.Compressors.Register` shares this.
- ResponseRenderer.Render: a body of kind `function`, `symbol` or `bigint` panics with "Unsupported body format" in the source (src/response/renderer.ts:18). `Js.JsValue` has no such values, so that panic is not modelled.
- ResponseRenderer.Render: numbers are `Num(int)`. Non-integer numbers, `NaN` and the infinities, and JavaScript's float-to-text conversion are not modelled.
- ServeFile.ServeFile: `Host.Host.convertSeconds` returns an integer, so a fractional `max-age` that `convertTime` can produce (src/serve-file/serve-file.ts:107) is not modelled.

## Findings

| source | as written | input that shows it | evidently intended | confidence | as-written member | corrected member |
|---|---|---|---|---|---|---|
| src/decorators/to-guard.ts:21-22 | the `catch` calls `createResponseFrom(e)` without restoring the context captured on entry | the first guard's promise rejects after `processHandlers` has cleared the slot (src/server.ts:110) | the context is restored in the `catch` as after every guard, and the guard's error is answered | not executed | Guard.ToGuard | Guard.ToGuardRestored |
