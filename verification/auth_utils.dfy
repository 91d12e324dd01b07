/**
 * The older gate in `backend/app/auth/utils.py`. Header parsing, key
 * selection and the decode mapping are the same code as the main gate; it
 * differs in four places, each modelled here: a failed key fetch escapes as a
 * non-`AuthError` exception, an unknown `kid` keeps the default 401, the
 * permission check compares with `==` only, and `requires_authorization`
 * does not pass the permission on to the view.
 */
module AuthUtils {
  import opened Optional
  import opened AuthTypes
  import opened KeySet
  import opened BearerHeader
  import opened TokenVerify
  import Auth

  const RsaKeyNotFound := AuthError(description := "Unable to find RSA key", error := "invalid_header")
  const NotAuthorized := AuthError(description := "You are not authorized to access this resource.")

  /**
   * `verify_decode_jwt` of this module: `urlopen` is not wrapped in `try`,
   * so an unreachable key endpoint is not an `AuthError`.
   */
  function VerifyDecodeJwt(p: Provider, token: string): (r: Result<Payload>)
    ensures p.jwks.None? ==> r.Unhandled?
    ensures p.jwks.Some? ==> r == VerifyWithKeys(p, p.jwks.value, token, RsaKeyNotFound)
    ensures r.Err? ==> r.error.code == 401
  {
    match p.jwks
    case None => Unhandled("URLError: key set unreachable")
    case Some(keys) => VerifyWithKeys(p, keys, token, RsaKeyNotFound)
  }

  /**
   * Python `token_perm == required_perm`: a string never equals a list or a
   * value of another type, so only a single-permission requirement can match.
   */
  predicate EqualsRequirement(tokenPermission: string, req: Requirement) {
    req.Single? && tokenPermission == req.permission
  }

  /** The `for token_perm in token_permissions` loop of this module. */
  function ScanPermissions(tokenPermissions: seq<string>, req: Requirement): (found: bool)
    ensures found <==> exists i :: 0 <= i < |tokenPermissions| && EqualsRequirement(tokenPermissions[i], req)
    decreases |tokenPermissions|
  {
    if |tokenPermissions| == 0 then false
    else EqualsRequirement(tokenPermissions[0], req) || ScanPermissions(tokenPermissions[1..], req)
  }

  /**
   * `check_permissions` of this module: a missing or empty claim and an
   * unmatched requirement raise the same default 401 error.
   */
  function CheckPermissions(req: Requirement, payload: Payload): (r: Result<bool>)
    ensures r.Ok? <==> req.Single? && HasPermissionsClaim(payload) && req.permission in payload.permissions.value
    ensures !r.Ok? ==> r == Err(NotAuthorized)
    ensures r.Ok? ==> r.value
  {
    if HasPermissionsClaim(payload) && ScanPermissions(payload.permissions.value, req) then Ok(true)
    else Err(NotAuthorized)
  }

  /** `requires_authentication` of this module. */
  function RequiresAuthentication<A>(p: Provider, authorization: Option<string>, args: A): (r: Result<A>)
    ensures GetTokenAuthHeader(authorization).Err? ==> r == Err(GetTokenAuthHeader(authorization).error)
    ensures GetTokenAuthHeader(authorization).Ok? ==>
      var verified := VerifyDecodeJwt(p, GetTokenAuthHeader(authorization).value);
      verified.IsFailure() ==> r == verified.PropagateFailure()
    ensures r.Ok? <==> Auth.Authenticated(p, authorization)
    ensures r.Ok? ==> r.value == args
  {
    var token :- GetTokenAuthHeader(authorization);
    var _ :- VerifyDecodeJwt(p, token);
    Auth.VerifyOkIff(p, token);
    Ok(args)
  }

  /**
   * `requires_authorization` of this module: on success the view is called
   * once with its original arguments only.
   */
  function RequiresAuthorization<A>(p: Provider, req: Requirement, authorization: Option<string>, args: A)
    : (r: Result<A>)
    ensures GetTokenAuthHeader(authorization).Err? ==> r == Err(GetTokenAuthHeader(authorization).error)
    ensures GetTokenAuthHeader(authorization).Ok? ==>
      var verified := VerifyDecodeJwt(p, GetTokenAuthHeader(authorization).value);
      && (verified.IsFailure() ==> r == verified.PropagateFailure())
      && (verified.Ok? && CheckPermissions(req, verified.value).IsFailure() ==>
            r == CheckPermissions(req, verified.value).PropagateFailure())
    ensures r.Ok? <==> req.Single? && Auth.Authorized(p, req, authorization)
    ensures r.Ok? ==> r.value == args
  {
    var token :- GetTokenAuthHeader(authorization);
    var payload :- VerifyDecodeJwt(p, token);
    var _ :- CheckPermissions(req, payload);
    Auth.VerifyOkIff(p, token);
    Ok(args)
  }

  /** A list requirement is never satisfied, whatever the token grants. */
  lemma ListRequirementNeverSatisfied<A>(p: Provider, acceptable: seq<string>, authorization: Option<string>, args: A)
    ensures forall payload :: CheckPermissions(AnyOf(acceptable), payload) == Err(NotAuthorized)
    ensures !RequiresAuthorization(p, AnyOf(acceptable), authorization, args).Ok?
  {
  }

  /**
   * Both modules reject a bad header with the same error, before the key set
   * or the decoder is consulted.
   */
  lemma SameHeaderRefusals<A>(p: Provider, req: Requirement, authorization: Option<string>, args: A)
    requires GetTokenAuthHeader(authorization).Err?
    ensures RequiresAuthorization(p, req, authorization, args)
         == Auth.RequiresAuthorization(p, req, authorization, args).PropagateFailure()
         == Err(GetTokenAuthHeader(authorization).error)
  {
  }

  /**
   * The modules disagree on an unknown `kid`: 403 in the main gate, the
   * default 401 here, both with error 'invalid_header'.
   */
  lemma UnknownKeyCodesDiffer(p: Provider, token: string)
    requires p.jwks.Some? && HeaderKid(p, token).Some?
    requires forall i :: 0 <= i < |p.jwks.value| ==> p.jwks.value[i].kid != HeaderKid(p, token).value
    ensures Auth.VerifyDecodeJwt(p, token).Err? && Auth.VerifyDecodeJwt(p, token).error.code == 403
    ensures VerifyDecodeJwt(p, token).Err? && VerifyDecodeJwt(p, token).error.code == 401
    ensures Auth.VerifyDecodeJwt(p, token).error.error == VerifyDecodeJwt(p, token).error.error == "invalid_header"
  {
  }

  /**
   * Otherwise verification agrees: with the key set reachable, both modules
   * accept the same tokens with the same claims and map decode failures alike.
   */
  lemma VerificationAgreesOnKnownKeys(p: Provider, token: string)
    requires p.jwks.Some?
    ensures VerifyDecodeJwt(p, token).Ok? <==> Auth.VerifyDecodeJwt(p, token).Ok?
    ensures VerifyDecodeJwt(p, token).Ok? ==> VerifyDecodeJwt(p, token) == Auth.VerifyDecodeJwt(p, token)
    ensures (VerifyDecodeJwt(p, token).Err? && VerifyDecodeJwt(p, token).error != RsaKeyNotFound) ==>
      VerifyDecodeJwt(p, token) == Auth.VerifyDecodeJwt(p, token)
  {
    var kid := HeaderKid(p, token);
    if kid.Some? {
      var keys := p.jwks.value;
      if exists j :: 0 <= j < |keys| && keys[j].kid == kid.value {
        var j :| 0 <= j < |keys| && keys[j].kid == kid.value;
        LastMatchExists(keys, kid.value, j);
      }
    }
  }

  /**
   * For a single-permission requirement the two gates admit the same
   * requests; only the arguments handed to the view differ.
   */
  lemma GatesAgreeOnSinglePermission<A>(p: Provider, permission: string, authorization: Option<string>, args: A)
    ensures RequiresAuthorization(p, Single(permission), authorization, args).Ok?
        <==> Auth.RequiresAuthorization(p, Single(permission), authorization, args).Ok?
  {
  }
}
