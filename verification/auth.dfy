/**
 * The request gate of `backend/app/auth/__init__.py`, the one the drinks
 * blueprint uses: header parsing, token verification against the fetched key
 * set, the permission check, and the two decorators that compose them.
 */
module Auth {
  import opened Optional
  import opened AuthTypes
  import opened KeySet
  import opened BearerHeader
  import opened TokenVerify

  const AuthServerUnreachable := AuthError(description := "Unable to reach Auth server, try again later.")
  const RsaKeyNotFound := AuthError(description := "Unable to find RSA key", error := "invalid_header", code := 403)
  const PermissionNotFound := AuthError(description := "Permission not found", error := "invalid_claims")
  const NotAuthorized := AuthError(description := "You are not authorized to access this resource.")

  /**
   * `verify_decode_jwt`: an unreachable key endpoint is a 401, an unknown
   * `kid` a 403, and every decode failure a 401.
   */
  function VerifyDecodeJwt(p: Provider, token: string): (r: Result<Payload>)
    ensures p.jwks.None? ==> r == Err(AuthServerUnreachable)
    ensures p.jwks.Some? ==> r == VerifyWithKeys(p, p.jwks.value, token, RsaKeyNotFound)
    ensures r.Err? ==> r.error.code == 401 || r.error == RsaKeyNotFound
  {
    match p.jwks
    case None => Err(AuthServerUnreachable)
    case Some(keys) =>
      VerifyWithKeys(p, keys, token, RsaKeyNotFound)
  }

  /**
   * Python's comparison in the permission loop: a `str` requirement must
   * equal the token permission, a `list` must contain it, and a requirement
   * of any other type matches nothing.
   */
  predicate Matches(tokenPermission: string, req: Requirement) {
    match req
    case Single(permission) => tokenPermission == permission
    case AnyOf(permissions) => tokenPermission in permissions
    case OtherKind => false
  }

  /** The `for token_perm in token_permissions` loop, returning at the first match. */
  function ScanPermissions(tokenPermissions: seq<string>, req: Requirement): (found: bool)
    ensures found <==> exists i :: 0 <= i < |tokenPermissions| && Matches(tokenPermissions[i], req)
    decreases |tokenPermissions|
  {
    if |tokenPermissions| == 0 then false
    else Matches(tokenPermissions[0], req) || ScanPermissions(tokenPermissions[1..], req)
  }

  /**
   * The requirement as a policy: a single permission must be granted; of a
   * list of acceptable permissions, at least one must be granted.
   */
  predicate Satisfies(req: Requirement, granted: seq<string>) {
    match req
    case Single(permission) => permission in granted
    case AnyOf(acceptable) => exists g :: g in granted && g in acceptable
    case OtherKind => false
  }

  /** A payload that carries a non-empty `permissions` claim satisfying `req`. */
  predicate Permits(req: Requirement, payload: Payload) {
    HasPermissionsClaim(payload) && Satisfies(req, payload.permissions.value)
  }

  /**
   * `check_permissions`: returns `True` or raises. A missing or empty claim
   * is the default 401 'Unauthorized'; an unmatched requirement is a 401
   * (the constructor's default code) with error 'invalid_claims'.
   */
  function CheckPermissions(req: Requirement, payload: Payload): (r: Result<bool>)
    ensures !HasPermissionsClaim(payload) ==> r == Err(NotAuthorized)
    ensures HasPermissionsClaim(payload) ==> (r.Ok? <==> Satisfies(req, payload.permissions.value))
    ensures HasPermissionsClaim(payload) && !Satisfies(req, payload.permissions.value) ==>
      r == Err(PermissionNotFound)
    ensures r.Ok? <==> Permits(req, payload)
    ensures r.Ok? ==> r.value
    ensures !r.Unhandled?
  {
    if HasPermissionsClaim(payload) then
      if ScanPermissions(payload.permissions.value, req) then Ok(true) else Err(PermissionNotFound)
    else
      Err(NotAuthorized)
  }

  /**
   * A request the gate authenticates, stated through the independent
   * definitions of each stage: a well-formed header, a reachable key set,
   * a readable token header, and a successful decode with the last key whose
   * `kid` matches.
   */
  ghost predicate Authenticated(p: Provider, authorization: Option<string>) {
    && authorization.Some?
    && WellFormed(authorization.value)
    && var token := authorization.value[|Scheme|..];
    && p.jwks.Some?
    && HeaderKid(p, token).Some?
    && exists i :: IsLastMatch(p.jwks.value, HeaderKid(p, token).value, i)
                && p.decode(token, p.jwks.value[i]).Decoded?
  }

  /** As `Authenticated`, and the decoded claims permit `req`. */
  ghost predicate Authorized(p: Provider, req: Requirement, authorization: Option<string>) {
    && authorization.Some?
    && WellFormed(authorization.value)
    && var token := authorization.value[|Scheme|..];
    && p.jwks.Some?
    && HeaderKid(p, token).Some?
    && exists i :: IsLastMatch(p.jwks.value, HeaderKid(p, token).value, i)
                && p.decode(token, p.jwks.value[i]).Decoded?
                && Permits(req, p.decode(token, p.jwks.value[i]).payload)
  }

  /** Verification succeeds exactly when the last matching key decodes the token. */
  lemma VerifyOkIff(p: Provider, token: string)
    ensures VerifyDecodeJwt(p, token).Ok? <==>
      && p.jwks.Some?
      && HeaderKid(p, token).Some?
      && exists i :: IsLastMatch(p.jwks.value, HeaderKid(p, token).value, i)
                  && p.decode(token, p.jwks.value[i]).Decoded?
    ensures VerifyDecodeJwt(p, token).Ok? ==>
      forall i | IsLastMatch(p.jwks.value, HeaderKid(p, token).value, i) ::
        p.decode(token, p.jwks.value[i]) == Decoded(VerifyDecodeJwt(p, token).value)
  {
    if p.jwks.Some? && HeaderKid(p, token).Some? {
      var keys, kid := p.jwks.value, HeaderKid(p, token).value;
      if exists j :: 0 <= j < |keys| && keys[j].kid == kid {
        var j :| 0 <= j < |keys| && keys[j].kid == kid;
        LastMatchExists(keys, kid, j);
      }
    }
  }

  /**
   * `requires_authentication`: `Ok(args)` means the wrapped view is called
   * once with its original arguments; any failure means it is not called.
   * Permissions are never looked at.
   */
  function RequiresAuthentication<A>(p: Provider, authorization: Option<string>, args: A): (r: Result<A>)
    ensures authorization.None? ==> r == Err(HeaderExpected)
    ensures GetTokenAuthHeader(authorization).Err? ==> r == Err(GetTokenAuthHeader(authorization).error)
    ensures GetTokenAuthHeader(authorization).Ok? ==>
      var verified := VerifyDecodeJwt(p, GetTokenAuthHeader(authorization).value);
      verified.IsFailure() ==> r == verified.PropagateFailure()
    ensures r.Ok? <==> Authenticated(p, authorization)
    ensures r.Ok? ==> r.value == args
  {
    var token :- GetTokenAuthHeader(authorization);
    var _ :- VerifyDecodeJwt(p, token);
    VerifyOkIff(p, token);
    Ok(args)
  }

  /**
   * `requires_authorization(permission)`: `Ok((permission, args))` means the
   * wrapped view is called once, with the DECLARED requirement (not the
   * matched token permission) prepended to its arguments; any failure means
   * it is not called.
   */
  function RequiresAuthorization<A>(p: Provider, req: Requirement, authorization: Option<string>, args: A)
    : (r: Result<(Requirement, A)>)
    ensures authorization.None? ==> r == Err(HeaderExpected)
    ensures GetTokenAuthHeader(authorization).Err? ==> r == Err(GetTokenAuthHeader(authorization).error)
    ensures GetTokenAuthHeader(authorization).Ok? ==>
      var verified := VerifyDecodeJwt(p, GetTokenAuthHeader(authorization).value);
      && (verified.IsFailure() ==> r == verified.PropagateFailure())
      && (verified.Ok? && CheckPermissions(req, verified.value).IsFailure() ==>
            r == CheckPermissions(req, verified.value).PropagateFailure())
    ensures r.Ok? <==> Authorized(p, req, authorization)
    ensures r.Ok? ==> r.value == (req, args)
    ensures r.Ok? ==> RequiresAuthentication(p, authorization, args) == Ok(args)
  {
    var token :- GetTokenAuthHeader(authorization);
    var payload :- VerifyDecodeJwt(p, token);
    var _ :- CheckPermissions(req, payload);
    VerifyOkIff(p, token);
    Ok((req, args))
  }

  /** An empty list of acceptable permissions admits no request. */
  lemma EmptyListAdmitsNothing<A>(p: Provider, authorization: Option<string>, args: A)
    ensures !RequiresAuthorization(p, AnyOf([]), authorization, args).Ok?
  {
  }

  /**
   * A well-formed header whose token names a `kid` absent from the key set is
   * refused with 403 'invalid_header', and the decoder is never consulted.
   */
  lemma UnknownKeyIs403<A>(p: Provider, req: Requirement, t: string, args: A,
                           otherDecode: (string, Jwk) -> DecodeOutcome)
    requires ' ' !in t && p.jwks.Some? && HeaderKid(p, t).Some?
    requires forall i :: 0 <= i < |p.jwks.value| ==> p.jwks.value[i].kid != HeaderKid(p, t).value
    ensures RequiresAuthorization(p, req, Some(Scheme + t), args) == Err(RsaKeyNotFound)
    ensures RequiresAuthorization(p.(decode := otherDecode), req, Some(Scheme + t), args) == Err(RsaKeyNotFound)
    ensures RsaKeyNotFound.code == 403 && RsaKeyNotFound.error == "invalid_header"
  {
    TokenRoundTrip(t);
  }

  /**
   * A readable token header without a `kid` against an empty key set never
   * reaches the `kid` lookup inside the loop: it is refused like an unknown
   * key, with 403 'invalid_header'.
   */
  lemma EmptyKeySetIs403<A>(p: Provider, req: Requirement, t: string, args: A)
    requires ' ' !in t && p.jwks == Some([]) && p.unverifiedHeader(t).Readable?
    ensures RequiresAuthorization(p, req, Some(Scheme + t), args) == Err(RsaKeyNotFound)
  {
    TokenRoundTrip(t);
  }

  /** An unreachable key endpoint is converted into a 401 `AuthError`. */
  lemma UnreachableKeysAre401<A>(p: Provider, req: Requirement, t: string, args: A)
    requires ' ' !in t && p.jwks.None?
    ensures RequiresAuthorization(p, req, Some(Scheme + t), args) == Err(AuthServerUnreachable)
    ensures AuthServerUnreachable.code == 401
  {
    TokenRoundTrip(t);
  }

  /**
   * A correctly signed token whose claims do not permit `req` is refused
   * with a 401: 'invalid_claims' when it carries a non-empty `permissions`
   * claim, the default 'Unauthorized' when it carries none.
   */
  lemma MissingPermissionIs401<A>(p: Provider, req: Requirement, authorization: Option<string>, args: A)
    requires Authenticated(p, authorization) && !Authorized(p, req, authorization)
    ensures var token := authorization.value[|Scheme|..];
      forall i | IsLastMatch(p.jwks.value, HeaderKid(p, token).value, i) ::
        var payload := p.decode(token, p.jwks.value[i]).payload;
        RequiresAuthorization(p, req, authorization, args)
          == Err(if HasPermissionsClaim(payload) then PermissionNotFound else NotAuthorized)
    ensures PermissionNotFound.code == 401 && NotAuthorized.code == 401
  {
    var token := authorization.value[|Scheme|..];
    VerifyOkIff(p, token);
  }
}
