/**
 * `useAuthorization` (src/composables/header-authorization.ts): the
 * `Authorization` header split at its first space into a scheme and raw
 * credentials, each memoised in the `'authorization'` cache, and HTTP Basic
 * credentials decoded from base64.
 */
module Authorization {
  import opened Wrappers
  import opened Strings
  import opened Js
  import opened Host
  import opened Context
  import opened Errors
  import opened ReqRes

  /** `authorization.slice(0, authorization.indexOf(' '))`. */
  function AuthTypeOf(a: string): string {
    Slice(a, 0, IndexOf(a, " "))
  }

  /** `authorization.slice(authorization.indexOf(' ') + 1)`. */
  function CredentialsOf(a: string): string {
    Slice(a, IndexOf(a, " ") + 1, |a|)
  }

  /**
   * With a space present, the header is the scheme, the first space and
   * the credentials, and the scheme holds no space.
   */
  lemma AuthSplit(a: string)
    requires Contains(a, " ")
    ensures a == AuthTypeOf(a) + " " + CredentialsOf(a)
    ensures !Contains(AuthTypeOf(a), " ")
  {
    var i := IndexOf(a, " ");
    assert AuthTypeOf(a) == a[..i];
    assert CredentialsOf(a) == a[i + 1..];
    assert a[i..i + 1] == " ";
    if Contains(a[..i], " ") {
      ContainsIff(a[..i], " ");
      var k :| OccursAt(a[..i], " ", k);
      OccursInPrefix(a, " ", i, k);
    }
  }

  /**
   * With no space, `indexOf` gives -1, so the scheme is the header less its
   * last character and the credentials are the whole header.
   */
  lemma AuthNoSpace(a: string)
    requires a != "" && !Contains(a, " ")
    ensures AuthTypeOf(a) == a[..|a| - 1]
    ensures CredentialsOf(a) == a
  {
  }

  /** `authType()?.toLocaleLowerCase() === scheme`. */
  predicate IsScheme(t: JsValue, scheme: string) {
    t.Str? && ToLower(t.s) == scheme
  }

  /** `const [username, password] = creds.split(':')`, as the cached record. */
  function BasicPair(parts: seq<string>): (v: JsValue)
    requires |parts| >= 1
    ensures v.Obj? && Get(v.fields, "username") == Str(parts[0])
  {
    Obj([("username", Str(parts[0])), ("password", if |parts| > 1 then Str(parts[1]) else Undefined)])
  }

  /**
   * Decoded credentials `user:pass` give back the user, and the password
   * up to its first colon (a colon in the password cuts it short).
   */
  lemma BasicPairOf(user: string, pass: string)
    requires !Contains(user, ":")
    ensures BasicPair(Split(user + ":" + pass, ":"))
            == Obj([("username", Str(user)), ("password", Str(Split(pass, ":")[0]))])
  {
    SplitAfterFree(user, ":", pass);
  }

  /** Credentials without a colon have an undefined password. */
  lemma BasicNoColon(creds: string)
    requires !Contains(creds, ":")
    ensures BasicPair(Split(creds, ":")) == Obj([("username", Str(creds)), ("password", Undefined)])
  {
    SplitNoSeparator(creds, ":");
  }

  /** `useAuthorization()`: obtained through `useHeaders`, then the `'authorization'` cache. */
  method UseAuthorization(slot: HttpContextSlot) returns (r: Result<HttpContext, JsError>)
    modifies if slot.current.Some? then {slot.current.value.custom} else {}
    ensures slot.current == old(slot.current)
    ensures r.Success? <==> slot.current.Some?
    ensures r.Failure? ==> r.error == Panic(OutsideRequest)
    ensures r.Success? ==>
              (r.value == slot.current.value
               && r.value.custom.entries == UseAll(old(r.value.custom.entries), [Body, Namespace.Authorization]))
  {
    r := UseCaches(slot, [Body, Namespace.Authorization]);
  }

  /** The header as `if (authorization)` sees it: present and non-empty. */
  function AuthHeader(ctx: HttpContext): Option<string> {
    match Header(ctx.req, "authorization")
    case Some(a) => if a != "" then Some(a) else None
    case None => None
  }

  // ---------------------------------------------------------------------------
  // What the header determines for the cache

  /** The Basic credentials of header `a`: its raw credentials base64-decoded and split at colons. */
  function BasicOf(h: Host, a: string): JsValue {
    BasicPair(Split(h.base64Ascii(CredentialsOf(a)), ":"))
  }

  /** What `basicCredentials()` answers for header `a`: the decoded pair for the Basic scheme, otherwise undefined. */
  function BasicAnswer(h: Host, a: string): JsValue {
    if ToLower(AuthTypeOf(a)) == "basic" then BasicOf(h, a) else Undefined
  }

  /**
   * Each memoised field of the `'authorization'` cache is either not
   * computed yet or what header `a` determines; Basic credentials are only
   * ever cached for the Basic scheme.
   */
  predicate AuthAgrees(a: string, h: Host, st: Props) {
    (FieldIn(st, Namespace.Authorization, "type").Undefined?
     || FieldIn(st, Namespace.Authorization, "type") == Str(AuthTypeOf(a)))
    && (FieldIn(st, Namespace.Authorization, "credentials").Undefined?
        || FieldIn(st, Namespace.Authorization, "credentials") == Str(CredentialsOf(a)))
    && (FieldIn(st, Namespace.Authorization, "basicCredentials").Undefined?
        || FieldIn(st, Namespace.Authorization, "basicCredentials") == BasicAnswer(h, a))
  }

  /** The cache of the current request agrees with its `Authorization` header (trivially so without one). */
  predicate AuthConsistent(ctx: HttpContext, h: Host)
    reads ctx.custom
  {
    AuthHeader(ctx).Some? ==> AuthAgrees(AuthHeader(ctx).value, h, ctx.custom.entries)
  }

  /** The value header `a` determines for the memoised field `f`. */
  function AuthExpected(a: string, h: Host, f: string): Option<JsValue> {
    if f == "type" then Some(Str(AuthTypeOf(a)))
    else if f == "credentials" then Some(Str(CredentialsOf(a)))
    else if f == "basicCredentials" then Some(BasicAnswer(h, a))
    else None
  }

  /** `if (typeof cache[f] === 'undefined') cache[f] = v`. */
  function Memo(st: Props, f: string, v: JsValue): Props {
    if FieldIn(st, Namespace.Authorization, f).Undefined? then WithField(st, Namespace.Authorization, f, v) else st
  }

  /** A request's `'authorization'` cache, when first handed out, agrees with any header. */
  lemma FreshAgrees(a: string, h: Host, st: Props)
    requires !Truthy(ValueIn(st, Namespace.Authorization))
    ensures AuthAgrees(a, h, UseIn(st, Namespace.Authorization))
  {
    GetPutSame(st, Key(Namespace.Authorization), Obj([]));
  }

  /** Storing what the header determines for a field, or any other field, keeps the cache in agreement. */
  lemma AuthAgreesWrite(a: string, h: Host, st: Props, f: string, v: JsValue)
    requires AuthAgrees(a, h, st)
    requires AuthExpected(a, h, f).None? || AuthExpected(a, h, f) == Some(v)
    ensures AuthAgrees(a, h, WithField(st, Namespace.Authorization, f, v))
  {
    var st' := WithField(st, Namespace.Authorization, f, v);
    FieldInWithFieldSame(st, Namespace.Authorization, f, v);
    if f != "type" {
      FieldInWithFieldOther(st, Namespace.Authorization, f, v, Namespace.Authorization, "type");
    }
    if f != "credentials" {
      FieldInWithFieldOther(st, Namespace.Authorization, f, v, Namespace.Authorization, "credentials");
    }
    if f != "basicCredentials" {
      FieldInWithFieldOther(st, Namespace.Authorization, f, v, Namespace.Authorization, "basicCredentials");
    }
  }

  /** Memoising what the header determines keeps the cache in agreement, and the field then holds that value. */
  lemma AuthAgreesMemo(a: string, h: Host, st: Props, f: string)
    requires AuthAgrees(a, h, st) && AuthExpected(a, h, f).Some?
    ensures AuthAgrees(a, h, Memo(st, f, AuthExpected(a, h, f).value))
    ensures FieldIn(Memo(st, f, AuthExpected(a, h, f).value), Namespace.Authorization, f) == AuthExpected(a, h, f).value
  {
    var v := AuthExpected(a, h, f).value;
    if FieldIn(st, Namespace.Authorization, f).Undefined? {
      AuthAgreesWrite(a, h, st, f, v);
      FieldInWithFieldSame(st, Namespace.Authorization, f, v);
    }
  }

  // ---------------------------------------------------------------------------
  // The composable

  /**
   * `authType()`: null without a header; otherwise the cached scheme,
   * computed once. The ghost `h` only names the cache's agreement.
   */
  method AuthType(ctx: HttpContext, ghost h: Host) returns (t: JsValue)
    requires ctx.custom.Value(Namespace.Authorization).Obj?
    modifies ctx.custom
    ensures ctx.custom.Value(Namespace.Authorization).Obj?
    ensures AuthHeader(ctx).None? ==> t == Null && ctx.custom.entries == old(ctx.custom.entries)
    ensures AuthHeader(ctx).Some? ==>
              ctx.custom.entries == Memo(old(ctx.custom.entries), "type", Str(AuthTypeOf(AuthHeader(ctx).value)))
              && t == FieldIn(ctx.custom.entries, Namespace.Authorization, "type")
    ensures AuthHeader(ctx).Some? && old(ctx.custom.Field(Namespace.Authorization, "type")).Undefined? ==>
              t == Str(AuthTypeOf(AuthHeader(ctx).value))
    ensures AuthHeader(ctx).Some? && !old(ctx.custom.Field(Namespace.Authorization, "type")).Undefined? ==>
              t == old(ctx.custom.Field(Namespace.Authorization, "type"))
    ensures old(AuthConsistent(ctx, h)) ==>
              AuthConsistent(ctx, h) && (AuthHeader(ctx).Some? ==> t == Str(AuthTypeOf(AuthHeader(ctx).value)))
  {
    match AuthHeader(ctx) {
      case None =>
        t := Null;
      case Some(a) =>
        ghost var before := ctx.custom.entries;
        if ctx.custom.Field(Namespace.Authorization, "type").Undefined? {
          ctx.custom.SetField(Namespace.Authorization, "type", Str(AuthTypeOf(a)));
          FieldInWithFieldSame(before, Namespace.Authorization, "type", Str(AuthTypeOf(a)));
        }
        t := ctx.custom.Field(Namespace.Authorization, "type");
        if AuthAgrees(a, h, before) {
          AuthAgreesMemo(a, h, before, "type");
        }
    }
  }

  /** `authRawCredentials()`: null without a header; otherwise the cached credentials, computed once. */
  method AuthRawCredentials(ctx: HttpContext, ghost h: Host) returns (c: JsValue)
    requires ctx.custom.Value(Namespace.Authorization).Obj?
    modifies ctx.custom
    ensures ctx.custom.Value(Namespace.Authorization).Obj?
    ensures AuthHeader(ctx).None? ==> c == Null && ctx.custom.entries == old(ctx.custom.entries)
    ensures AuthHeader(ctx).Some? ==>
              ctx.custom.entries == Memo(old(ctx.custom.entries), "credentials", Str(CredentialsOf(AuthHeader(ctx).value)))
              && c == FieldIn(ctx.custom.entries, Namespace.Authorization, "credentials")
    ensures AuthHeader(ctx).Some? && old(ctx.custom.Field(Namespace.Authorization, "credentials")).Undefined? ==>
              c == Str(CredentialsOf(AuthHeader(ctx).value))
    ensures AuthHeader(ctx).Some? && !old(ctx.custom.Field(Namespace.Authorization, "credentials")).Undefined? ==>
              c == old(ctx.custom.Field(Namespace.Authorization, "credentials"))
    ensures old(AuthConsistent(ctx, h)) ==>
              AuthConsistent(ctx, h) && (AuthHeader(ctx).Some? ==> c == Str(CredentialsOf(AuthHeader(ctx).value)))
  {
    match AuthHeader(ctx) {
      case None =>
        c := Null;
      case Some(a) =>
        ghost var before := ctx.custom.entries;
        if ctx.custom.Field(Namespace.Authorization, "credentials").Undefined? {
          ctx.custom.SetField(Namespace.Authorization, "credentials", Str(CredentialsOf(a)));
          FieldInWithFieldSame(before, Namespace.Authorization, "credentials", Str(CredentialsOf(a)));
        }
        c := ctx.custom.Field(Namespace.Authorization, "credentials");
        if AuthAgrees(a, h, before) {
          AuthAgreesMemo(a, h, before, "credentials");
        }
    }
  }

  /** `isBasic()`: whether the scheme is `basic`, in any case. */
  method IsBasic(ctx: HttpContext, ghost h: Host) returns (b: bool)
    requires ctx.custom.Value(Namespace.Authorization).Obj?
    modifies ctx.custom
    ensures ctx.custom.Value(Namespace.Authorization).Obj?
    ensures AuthHeader(ctx).None? ==> !b && ctx.custom.entries == old(ctx.custom.entries)
    ensures AuthHeader(ctx).Some? ==>
              ctx.custom.entries == Memo(old(ctx.custom.entries), "type", Str(AuthTypeOf(AuthHeader(ctx).value)))
    ensures old(ctx.custom.Field(Namespace.Authorization, "type")).Undefined? ==>
              (b <==> AuthHeader(ctx).Some? && ToLower(AuthTypeOf(AuthHeader(ctx).value)) == "basic")
    ensures old(AuthConsistent(ctx, h)) ==>
              AuthConsistent(ctx, h)
              && (b <==> AuthHeader(ctx).Some? && ToLower(AuthTypeOf(AuthHeader(ctx).value)) == "basic")
  {
    var t := AuthType(ctx, h);
    b := IsScheme(t, "basic");
  }

  /** `isBearer()`: whether the scheme is `bearer`, in any case. */
  method IsBearer(ctx: HttpContext, ghost h: Host) returns (b: bool)
    requires ctx.custom.Value(Namespace.Authorization).Obj?
    modifies ctx.custom
    ensures ctx.custom.Value(Namespace.Authorization).Obj?
    ensures AuthHeader(ctx).None? ==> !b && ctx.custom.entries == old(ctx.custom.entries)
    ensures AuthHeader(ctx).Some? ==>
              ctx.custom.entries == Memo(old(ctx.custom.entries), "type", Str(AuthTypeOf(AuthHeader(ctx).value)))
    ensures old(ctx.custom.Field(Namespace.Authorization, "type")).Undefined? ==>
              (b <==> AuthHeader(ctx).Some? && ToLower(AuthTypeOf(AuthHeader(ctx).value)) == "bearer")
    ensures old(AuthConsistent(ctx, h)) ==>
              AuthConsistent(ctx, h)
              && (b <==> AuthHeader(ctx).Some? && ToLower(AuthTypeOf(AuthHeader(ctx).value)) == "bearer")
  {
    var t := AuthType(ctx, h);
    b := IsScheme(t, "bearer");
  }

  /** The text `Buffer.from(authRawCredentials() || '', 'base64')` decodes, for a cached credentials value. */
  function RawText(raw: JsValue): string {
    if Truthy(raw) then ToJsString(raw) else ""
  }

  /**
   * The store after the Basic branch of `basicCredentials()`: the
   * credentials memoised, then the decoded pair cached.
   */
  function BasicStored(st: Props, h: Host, a: string): Props {
    var st' := Memo(st, "credentials", Str(CredentialsOf(a)));
    var raw := FieldIn(st', Namespace.Authorization, "credentials");
    WithField(st', Namespace.Authorization, "basicCredentials", BasicPair(Split(h.base64Ascii(RawText(raw)), ":")))
  }

  /**
   * The store after `basicCredentials()` with nothing cached yet: the scheme
   * memoised, then, for the Basic scheme, the Basic branch.
   */
  function BasicStore(st: Props, h: Host, a: string): Props {
    var st' := Memo(st, "type", Str(AuthTypeOf(a)));
    if IsScheme(FieldIn(st', Namespace.Authorization, "type"), "basic") then BasicStored(st', h, a) else st'
  }

  /**
   * `basicCredentials()`: null without a header. Otherwise, when nothing is
   * cached yet and the scheme is Basic, the credentials are base64-decoded
   * and split at colons into a username and a password; for any other
   * scheme nothing is cached and the result is undefined.
   */
  method BasicCredentials(ctx: HttpContext, h: Host) returns (r: JsValue)
    requires ctx.custom.Value(Namespace.Authorization).Obj?
    modifies ctx.custom
    ensures ctx.custom.Value(Namespace.Authorization).Obj?
    ensures AuthHeader(ctx).None? ==> r == Null && ctx.custom.entries == old(ctx.custom.entries)
    ensures AuthHeader(ctx).Some? && !old(ctx.custom.Field(Namespace.Authorization, "basicCredentials")).Undefined? ==>
              r == old(ctx.custom.Field(Namespace.Authorization, "basicCredentials"))
              && ctx.custom.entries == old(ctx.custom.entries)
    ensures AuthHeader(ctx).Some? && old(ctx.custom.Field(Namespace.Authorization, "basicCredentials")).Undefined?
            && old(ctx.custom.Field(Namespace.Authorization, "type")).Undefined?
            && old(ctx.custom.Field(Namespace.Authorization, "credentials")).Undefined? ==>
              r == BasicAnswer(h, AuthHeader(ctx).value)
    ensures AuthHeader(ctx).Some? && old(ctx.custom.Field(Namespace.Authorization, "basicCredentials")).Undefined? ==>
              ctx.custom.entries == BasicStore(old(ctx.custom.entries), h, AuthHeader(ctx).value)
              && r == FieldIn(ctx.custom.entries, Namespace.Authorization, "basicCredentials")
    ensures old(AuthConsistent(ctx, h)) ==>
              AuthConsistent(ctx, h) && (AuthHeader(ctx).Some? ==> r == BasicAnswer(h, AuthHeader(ctx).value))
  {
    var a := AuthHeader(ctx);
    if a.None? {
      return Null;
    }
    var cached := ctx.custom.Field(Namespace.Authorization, "basicCredentials");
    if !cached.Undefined? {
      if AuthAgrees(a.value, h, ctx.custom.entries) {
        assert cached == BasicAnswer(h, a.value);
      }
      return cached;
    }
    ghost var before := ctx.custom.entries;
    var t := AuthType(ctx, h);
    ghost var mid := ctx.custom.entries;
    if !FieldIn(before, Namespace.Authorization, "type").Undefined? {
      assert mid == before;
    } else {
      FieldInWithFieldOther(before, Namespace.Authorization, "type", t, Namespace.Authorization, "credentials");
      FieldInWithFieldOther(before, Namespace.Authorization, "type", t, Namespace.Authorization, "basicCredentials");
    }
    if IsScheme(t, "basic") {
      r := StoreBasic(ctx, h, a.value);
    } else {
      r := ctx.custom.Field(Namespace.Authorization, "basicCredentials");
    }
  }

  /**
   * The Basic branch of `basicCredentials()`: the raw credentials decoded
   * and split, cached under `basicCredentials` and returned.
   */
  method StoreBasic(ctx: HttpContext, h: Host, ghost a: string) returns (r: JsValue)
    requires ctx.custom.Value(Namespace.Authorization).Obj?
    requires AuthHeader(ctx) == Some(a)
    modifies ctx.custom
    ensures ctx.custom.Value(Namespace.Authorization).Obj?
    ensures ctx.custom.entries == BasicStored(old(ctx.custom.entries), h, a)
    ensures r == FieldIn(ctx.custom.entries, Namespace.Authorization, "basicCredentials")
    ensures old(ctx.custom.Field(Namespace.Authorization, "credentials")).Undefined? ==> r == BasicOf(h, a)
    ensures old(AuthAgrees(a, h, ctx.custom.entries)) && ToLower(AuthTypeOf(a)) == "basic" ==>
              r == BasicOf(h, a) && AuthAgrees(a, h, ctx.custom.entries)
  {
    ghost var before := ctx.custom.entries;
    var raw := AuthRawCredentials(ctx, h);
    ghost var mid := ctx.custom.entries;
    var pair := BasicPair(Split(h.base64Ascii(RawText(raw)), ":"));
    ctx.custom.SetField(Namespace.Authorization, "basicCredentials", pair);
    FieldInWithFieldSame(mid, Namespace.Authorization, "basicCredentials", pair);
    r := ctx.custom.Field(Namespace.Authorization, "basicCredentials");
    if raw == Str(CredentialsOf(a)) {
      assert RawText(raw) == CredentialsOf(a);
      if AuthAgrees(a, h, before) && ToLower(AuthTypeOf(a)) == "basic" {
        AuthAgreesWrite(a, h, mid, "basicCredentials", pair);
      }
    }
  }
}
