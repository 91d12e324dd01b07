/**
 * Choosing the verification key: the gate walks the whole key set and keeps
 * overwriting `rsa_key` with every entry whose `kid` equals the token header's,
 * so the key used is the LAST match (RFC 7517 expects `kid` values to be
 * distinct, but the loop does not rely on it).
 */
module KeySet {
  import opened Optional
  import opened AuthTypes

  /** `keys[i]` matches `kid` and no later entry does. */
  predicate IsLastMatch(keys: seq<Jwk>, kid: string, i: int) {
    0 <= i < |keys| && keys[i].kid == kid &&
    forall j :: i < j < |keys| ==> keys[j].kid != kid
  }

  /** The key the gate decodes with, or `None` when no entry carries `kid`. */
  function SelectKey(keys: seq<Jwk>, kid: string): (r: Option<Jwk>)
    ensures r.None? <==> forall i :: 0 <= i < |keys| ==> keys[i].kid != kid
    ensures r.Some? ==> r.value.kid == kid
    decreases |keys|
  {
    if |keys| == 0 then None
    else if keys[|keys| - 1].kid == kid then Some(keys[|keys| - 1])
    else
      assert forall i :: 0 <= i < |keys| - 1 ==> keys[..|keys| - 1][i] == keys[i];
      SelectKey(keys[..|keys| - 1], kid)
  }

  /** The selected key is the last entry whose `kid` matches. */
  lemma {:induction false} SelectKeyIsLastMatch(keys: seq<Jwk>, kid: string)
    requires SelectKey(keys, kid).Some?
    ensures exists i :: IsLastMatch(keys, kid, i) && keys[i] == SelectKey(keys, kid).value
    decreases |keys|
  {
    var n := |keys| - 1;
    if keys[n].kid == kid {
      assert IsLastMatch(keys, kid, n);
    } else {
      var init := keys[..n];
      SelectKeyIsLastMatch(init, kid);
      var i :| IsLastMatch(init, kid, i) && init[i] == SelectKey(init, kid).value;
      assert IsLastMatch(keys, kid, i);
    }
  }

  /** Whenever some entry carries `kid`, a last one does. */
  lemma LastMatchExists(keys: seq<Jwk>, kid: string, j: int)
    requires 0 <= j < |keys| && keys[j].kid == kid
    ensures exists i :: IsLastMatch(keys, kid, i)
  {
    SelectKeyIsLastMatch(keys, kid);
  }

  /**
   * `verify_decode_jwt`'s loop, `for key in jwks["keys"]: if key["kid"] == kid: rsa_key = {...}`,
   * rebuilding the key from its five copied members.
   */
  method FindRsaKey(keys: seq<Jwk>, kid: string) returns (rsaKey: Option<Jwk>)
    ensures rsaKey == SelectKey(keys, kid)
  {
    rsaKey := None;
    for i := 0 to |keys|
      invariant rsaKey == SelectKey(keys[..i], kid)
    {
      assert keys[..i + 1][..i] == keys[..i];
      var key := keys[i];
      if key.kid == kid {
        rsaKey := Some(Jwk(key.kty, key.kid, key.use, key.n, key.e));
      }
    }
    assert keys[..|keys|] == keys;
  }
}
