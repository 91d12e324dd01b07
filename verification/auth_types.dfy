/**
 * The values the request gate passes around. `backend/app/auth/__init__.py`
 * and `backend/app/auth/utils.py` each declare the same `AuthError`; it is
 * declared once here and shared by both variants.
 */
module AuthTypes {
  import opened Optional

  /**
   * The exception both auth modules raise on every refusal. The constructor
   * defaults are those of `AuthError.__init__`, so `AuthError(description := m)`
   * is `AuthError(description=m)`.
   */
  datatype AuthError = AuthError(
    code: int := 401,
    error: string := "Unauthorized",
    description: string := "Unable to authenticate.")

  /**
   * The outcome of one step of the gate: a value, a raised `AuthError`, or an
   * exception of another kind, which no handler of the drinks blueprint catches
   * and so becomes the framework's generic 500 response.
   */
  datatype Result<+T> = Ok(value: T) | Err(error: AuthError) | Unhandled(exception: string) {

    predicate IsFailure() {
      !Ok?
    }

    /** The same failure, at another value type, so that `:-` can pass it on. */
    function PropagateFailure<U>(): (r: Result<U>)
      requires !Ok?
      ensures r.Err? <==> Err?
      ensures Err? ==> r.error == error
    {
      match this
      case Err(e) => Err(e)
      case Unhandled(x) => Unhandled(x)
    }

    function Extract(): T
      requires Ok?
    {
      value
    }
  }

  /**
   * One entry of the identity provider's JSON Web Key Set (RFC 7517), reduced
   * to the five members the gate copies into its `rsa_key`.
   */
  datatype Jwk = Jwk(kty: string, kid: string, use: string, n: string, e: string)

  /** The decoded claims set; only the `permissions` claim is read by the gate. */
  datatype Payload = Payload(permissions: Option<seq<string>>)

  /** Python truthiness of `payload.get("permissions")`: present and non-empty. */
  predicate HasPermissionsClaim(payload: Payload) {
    payload.permissions.Some? && |payload.permissions.value| > 0
  }

  /**
   * What `jose.jwt.decode` does with a token and a key: return the claims, or
   * raise `ExpiredSignatureError` (the `exp` check of section 4.1.4 of
   * RFC 7519), `JWTClaimsError` (the `aud`/`iss` checks), or any other error
   * (bad signature, unparsable token, wrong algorithm).
   */
  datatype DecodeOutcome = Decoded(payload: Payload) | Expired | ClaimsInvalid | Malformed

  /**
   * What `jwt.get_unverified_header` gives: a header it cannot read (it
   * raises), or a readable header that may or may not carry a `kid` member.
   */
  datatype TokenHeader = Unreadable | Readable(kid: Option<string>)

  /**
   * The identity provider and the token library, which the gate only calls:
   * - `jwks`: the key set fetched from `/.well-known/jwks.json`, `None` when
   *   the request raises `URLError`;
   * - `unverifiedHeader`: the token's unverified header;
   * - `decode`: signature and claim verification with the chosen key.
   */
  datatype Provider = Provider(
    jwks: Option<seq<Jwk>>,
    unverifiedHeader: string -> TokenHeader,
    decode: (string, Jwk) -> DecodeOutcome)

  /** The `kid` the token's header names; `None` when it is unreadable or has none. */
  function HeaderKid(p: Provider, token: string): Option<string> {
    match p.unverifiedHeader(token)
    case Readable(kid) => kid
    case Unreadable => None
  }

  /**
   * The `permission` argument of `requires_authorization`: a `str`, a `list`
   * of acceptable permissions, or a value of any other type.
   */
  datatype Requirement = Single(permission: string) | AnyOf(permissions: seq<string>) | OtherKind
}
