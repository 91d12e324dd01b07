/**
 * The part of `verify_decode_jwt` that both auth modules share once the key
 * set is in hand: read the unverified header's `kid`, pick the key, decode,
 * and turn the decoder's exceptions into `AuthError`s. The checks themselves
 * (signature; `exp`, `aud`, `iss` of section 4.1 of RFC 7519) are the
 * provider's `decode`.
 */
module TokenVerify {
  import opened Optional
  import opened AuthTypes
  import opened KeySet

  const TokenExpired := AuthError(description := "Expired Token", error := "token_expired")
  const IncorrectClaims := AuthError(
    description := "incorrect claims, please check the audience and issuer", error := "invalid_claims")
  const TokenParseError := AuthError(description := "Authentication token parse error", error := "invalid_header")

  /** The three `except` clauses around `jwt.decode`. */
  function DecodeVerdict(outcome: DecodeOutcome): (r: Result<Payload>)
    ensures r.Ok? <==> outcome.Decoded?
    ensures outcome.Decoded? ==> r.value == outcome.payload
    ensures r.Err? ==> r.error.code == 401
    ensures !r.Unhandled?
  {
    match outcome
    case Decoded(payload) => Ok(payload)
    case Expired => Err(TokenExpired)
    case ClaimsInvalid => Err(IncorrectClaims)
    case Malformed => Err(TokenParseError)
  }

  /**
   * The `error` field tells the three kinds of failure apart, so no two
   * decoder outcomes produce the same verdict.
   */
  lemma DecodeFailuresDistinguishable(a: DecodeOutcome, b: DecodeOutcome)
    ensures DecodeVerdict(a) == DecodeVerdict(b) ==> a == b
    ensures a.Expired? <==> DecodeVerdict(a).Err? && DecodeVerdict(a).error.error == "token_expired"
    ensures a.ClaimsInvalid? <==> DecodeVerdict(a).Err? && DecodeVerdict(a).error.error == "invalid_claims"
    ensures a.Malformed? <==> DecodeVerdict(a).Err? && DecodeVerdict(a).error.error == "invalid_header"
  {
  }

  /**
   * `jwt.get_unverified_header(token)` sits outside every `try`, so a token
   * whose header cannot be read escapes as a non-`AuthError` exception. The
   * header's `kid` is only looked up inside the loop over the key set: a
   * header without one raises `KeyError` at the first entry, but with an
   * empty key set the loop never runs and the `keyNotFound` error (which
   * differs between the two modules) is raised. With no matching key the
   * decoder is not called.
   */
  function VerifyWithKeys(p: Provider, keys: seq<Jwk>, token: string, keyNotFound: AuthError): (r: Result<Payload>)
    ensures p.unverifiedHeader(token).Unreadable? ==> r.Unhandled?
    ensures p.unverifiedHeader(token) == Readable(None) ==>
      (|keys| > 0 ==> r.Unhandled?) && (|keys| == 0 ==> r == Err(keyNotFound))
    ensures HeaderKid(p, token).Some? ==>
      var kid := HeaderKid(p, token).value;
      && ((forall i :: 0 <= i < |keys| ==> keys[i].kid != kid) ==> r == Err(keyNotFound))
      && (forall i | IsLastMatch(keys, kid, i) :: r == DecodeVerdict(p.decode(token, keys[i])))
    ensures r.Err? ==> r == Err(keyNotFound) || r.error.code == 401
  {
    match p.unverifiedHeader(token)
    case Unreadable => Unhandled("JWTError: unreadable token header")
    case Readable(None) =>
      if |keys| > 0 then Unhandled("KeyError: 'kid'") else Err(keyNotFound)
    case Readable(Some(kid)) =>
      var rsaKey := SelectKey(keys, kid);
      if rsaKey.Some? then
        SelectKeyIsLastMatch(keys, kid);
        assert forall i, j | IsLastMatch(keys, kid, i) && IsLastMatch(keys, kid, j) :: i == j;
        DecodeVerdict(p.decode(token, rsaKey.value))
      else
        Err(keyNotFound)
  }

  /**
   * With a readable header and no matching key (a `kid` no entry carries,
   * or no `kid` and an empty key set) the key-not-found error is raised and
   * the decoder is never consulted: replacing it changes nothing.
   */
  lemma NoKeyNoDecode(p: Provider, keys: seq<Jwk>, token: string, keyNotFound: AuthError,
                      otherDecode: (string, Jwk) -> DecodeOutcome)
    requires p.unverifiedHeader(token).Readable?
    requires HeaderKid(p, token).None? ==> |keys| == 0
    requires HeaderKid(p, token).Some? ==> forall i :: 0 <= i < |keys| ==> keys[i].kid != HeaderKid(p, token).value
    ensures VerifyWithKeys(p.(decode := otherDecode), keys, token, keyNotFound)
         == VerifyWithKeys(p, keys, token, keyNotFound)
         == Err(keyNotFound)
  {
  }
}
