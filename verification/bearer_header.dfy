/**
 * `get_token_auth_header`: the credential of a request is the second half of
 * an `Authorization: Bearer <token>` header (a simplified section 2.1 of
 * RFC 6750). The two auth modules carry textually identical copies of it.
 */
module BearerHeader {
  import opened Optional
  import opened PySplit
  import opened AuthTypes

  const HeaderExpected := AuthError(description := "Authorization header is expected.")
  const InvalidAuthorizationHeader := AuthError(description := "Invalid authorization header.")
  const InvalidBearerHeader := AuthError(description := "Invalid bearer header.")

  const Scheme := "Bearer "

  /** The header starts with the scheme `Bearer` and one space. */
  predicate HasBearerPrefix(h: string) {
    |h| >= |Scheme| && h[..|Scheme|] == Scheme
  }

  /** A header accepted by the gate: `Bearer `, then a token without spaces. */
  predicate WellFormed(h: string) {
    HasBearerPrefix(h) && ' ' !in h[|Scheme|..]
  }

  /**
   * Splitting on single spaces gives exactly `Bearer` and one more part iff
   * the header is well formed, and that part is the text after the scheme.
   */
  lemma SplitShape(h: string)
    ensures (|Split(h, ' ')| == 2 && Split(h, ' ')[0] == "Bearer") <==> WellFormed(h)
    ensures WellFormed(h) ==> Split(h, ' ')[1] == h[|Scheme|..]
  {
    var parts := Split(h, ' ');
    if WellFormed(h) {
      var t := h[|Scheme|..];
      assert Join(["Bearer", t], ' ') == h;
      SplitJoin(["Bearer", t], ' ');
    }
    if |parts| == 2 && parts[0] == "Bearer" {
      JoinSplit(h, ' ');
      assert h == Scheme + parts[1];
    }
  }

  /**
   * The header value split on `' '` must have exactly two parts (so exactly one
   * space), checked first, and the first must be exactly `Bearer`
   * (case-sensitive). A missing header is refused before anything else.
   */
  function GetTokenAuthHeader(authorization: Option<string>): (r: Result<string>)
    ensures authorization.None? ==> r == Err(HeaderExpected)
    ensures authorization.Some? && Count(authorization.value, ' ') != 1 ==>
      r == Err(InvalidAuthorizationHeader)
    ensures authorization.Some? && Count(authorization.value, ' ') == 1 && !HasBearerPrefix(authorization.value) ==>
      r == Err(InvalidBearerHeader)
    ensures r.Ok? <==> authorization.Some? && WellFormed(authorization.value)
    ensures r.Ok? ==> authorization.value == Scheme + r.value && ' ' !in r.value
    ensures !r.Unhandled?
  {
    match authorization
    case None => Err(HeaderExpected)
    case Some(h) =>
      var parts := Split(h, ' ');
      SplitCount(h, ' ');
      SplitShape(h);
      if |parts| != 2 then Err(InvalidAuthorizationHeader)
      else if parts[0] != "Bearer" then Err(InvalidBearerHeader)
      else Ok(parts[1])
  }

  /**
   * Round trip: any token without a space, sent as `Bearer <token>`, is the
   * credential the gate extracts; the empty token is no exception.
   */
  lemma TokenRoundTrip(t: string)
    requires ' ' !in t
    ensures GetTokenAuthHeader(Some(Scheme + t)) == Ok(t)
  {
    assert (Scheme + t)[|Scheme|..] == t;
  }

  /** A header with parts `parts` between single spaces is parsed through exactly those parts. */
  lemma SplitOf(h: string, parts: seq<string>)
    requires |parts| > 0 && h == Join(parts, ' ')
    requires forall i :: 0 <= i < |parts| ==> ' ' !in parts[i]
    ensures Split(h, ' ') == parts
  {
    SplitJoin(parts, ' ');
  }

  /** An extra space-separated part is refused as a malformed header. */
  lemma ExtraPartRejected()
    ensures GetTokenAuthHeader(Some("Bearer a b")) == Err(InvalidAuthorizationHeader)
  {
    SplitOf("Bearer a b", ["Bearer", "a", "b"]);
  }

  /** Two spaces after the scheme make an empty middle part, so three parts. */
  lemma DoubleSpaceRejected()
    ensures GetTokenAuthHeader(Some("Bearer  t")) == Err(InvalidAuthorizationHeader)
  {
    SplitOf("Bearer  t", ["Bearer", "", "t"]);
  }

  /** The part count is checked before the scheme. */
  lemma CountCheckedBeforeScheme()
    ensures GetTokenAuthHeader(Some("bearer a b")) == Err(InvalidAuthorizationHeader)
  {
    SplitOf("bearer a b", ["bearer", "a", "b"]);
  }

  /** The scheme comparison is case-sensitive. */
  lemma SchemeIsCaseSensitive()
    ensures GetTokenAuthHeader(Some("bearer t")) == Err(InvalidBearerHeader)
  {
    SplitOf("bearer t", ["bearer", "t"]);
  }

  /** `Bearer ` alone yields the empty token. */
  lemma EmptyTokenAccepted()
    ensures GetTokenAuthHeader(Some("Bearer ")) == Ok("")
  {
    SplitOf("Bearer ", ["Bearer", ""]);
  }
}
