/** The provider's public key set, and which key a key id selects, on either side. */
module OidcKeys {
  import opened Prelude
  import opened Text

  newtype Byte = x: int | 0 <= x < 256

  /** A base64url component: the canonical encoding of some bytes, or any other text. */
  datatype Component = Canonical(bytes: seq<Byte>) | Malformed(text: string)

  datatype PublicKey = PublicKey(n: Component, e: Component)

  /** A key as the provider's configuration holds it. */
  datatype RsaJwk = RsaJwk(kty: string, kid: Option<string>, keyUse: string, alg: string, key: PublicKey)

  const MAX_KEYS := 16

  function BigEndian(bytes: seq<Byte>): nat {
    if bytes == [] then 0 else 256 * BigEndian(bytes[..|bytes| - 1]) + bytes[|bytes| - 1] as nat
  }

  predicate Odd(bytes: seq<Byte>) { bytes != [] && bytes[|bytes| - 1] % 2 == 1 }

  /** The number is odd. */
  lemma OddIff(bytes: seq<Byte>)
    ensures Odd(bytes) <==> bytes != [] && BigEndian(bytes) % 2 == 1
  {
  }

  predicate ValidKey(k: RsaJwk) {
    && k.kty == "RSA" && k.alg == "RS256" && k.keyUse == "sig" && (k.kid.Some? ==> ValidId(k.kid.value))
    && k.key.n.Canonical? && 256 <= |k.key.n.bytes| <= 1024 && Odd(k.key.n.bytes)
    && k.key.e.Canonical? && 1 <= |k.key.e.bytes| <= 8 && k.key.e.bytes[0] != 0
    && BigEndian(k.key.e.bytes) >= 3 && Odd(k.key.e.bytes)
  }

  /** The positions of the keys a key id allows; no key id allows all. */
  function Allowed(keys: seq<RsaJwk>, keyId: Option<string>): set<nat> {
    set i: nat | i < |keys| && (keyId.None? || keys[i].kid == keyId)
  }

  predicate DistinctIds(keys: seq<RsaJwk>) {
    forall i, j | 0 <= i < j < |keys| && keys[i].kid.Some? :: keys[i].kid != keys[j].kid
  }

  ghost predicate ValidSet(keys: seq<RsaJwk>, keyId: Option<string>) {
    && 1 <= |keys| <= MAX_KEYS && (keyId.Some? ==> ValidId(keyId.value))
    && (forall i | 0 <= i < |keys| :: ValidKey(keys[i]))
    && DistinctIds(keys)
    && exists i: nat :: Allowed(keys, keyId) == {i}
  }

  /** With distinct ids, a key id selects exactly one key if any; without one the set must be a single key. */
  lemma ValidSetIff(keys: seq<RsaJwk>, keyId: Option<string>)
    requires 1 <= |keys| <= MAX_KEYS && (keyId.Some? ==> ValidId(keyId.value)) && DistinctIds(keys)
    requires forall i | 0 <= i < |keys| :: ValidKey(keys[i])
    ensures ValidSet(keys, keyId) <==>
      if keyId.None? then |keys| == 1 else exists i | 0 <= i < |keys| :: keys[i].kid == keyId
  {
    if keyId.None? {
      assert 0 in Allowed(keys, keyId);
      if |keys| > 1 {
        assert 1 in Allowed(keys, keyId);
      } else {
        assert Allowed(keys, keyId) == {0};
      }
    } else if i: nat :| i < |keys| && keys[i].kid == keyId {
      assert Allowed(keys, keyId) == {i};
    } else {
      assert Allowed(keys, keyId) == {};
    }
  }

  /** Keys in order, filtered: what `selected_key` collects. */
  function Matching(keys: seq<RsaJwk>, keyId: Option<string>): seq<RsaJwk> {
    if keys == [] then []
    else
      var last := keys[|keys| - 1];
      Matching(keys[..|keys| - 1], keyId) + if keyId.None? || last.kid == keyId then [last] else []
  }

  function SelectedKey(keys: seq<RsaJwk>, keyId: Option<string>): Option<RsaJwk> {
    var matches := Matching(keys, keyId);
    if |matches| == 1 then Some(matches[0]) else None
  }

  lemma AllowedGrows(keys: seq<RsaJwk>, keyId: Option<string>)
    requires keys != []
    ensures
      var n := |keys| - 1;
      Allowed(keys, keyId) == Allowed(keys[..n], keyId) + if keyId.None? || keys[n].kid == keyId then {n} else {}
  {
  }

  lemma {:induction false} MatchingCounts(keys: seq<RsaJwk>, keyId: Option<string>)
    ensures |Matching(keys, keyId)| == |Allowed(keys, keyId)|
  {
    if keys == [] {
      assert Allowed(keys, keyId) == {};
    } else {
      MatchingCounts(keys[..|keys| - 1], keyId);
      AllowedGrows(keys, keyId);
    }
  }

  lemma {:induction false} MatchingHas(keys: seq<RsaJwk>, keyId: Option<string>, i: nat)
    requires i in Allowed(keys, keyId)
    ensures keys[i] in Matching(keys, keyId)
  {
    if i < |keys| - 1 {
      MatchingHas(keys[..|keys| - 1], keyId, i);
    }
  }

  /** A key is selected exactly when one position is allowed, and it is the key there. */
  lemma SelectedIff(keys: seq<RsaJwk>, keyId: Option<string>)
    ensures SelectedKey(keys, keyId).Some? <==> exists i: nat :: Allowed(keys, keyId) == {i}
    ensures forall i: nat | Allowed(keys, keyId) == {i} :: SelectedKey(keys, keyId) == Some(keys[i])
  {
    MatchingCounts(keys, keyId);
    if |Allowed(keys, keyId)| == 1 {
      var i :| i in Allowed(keys, keyId);
      assert |Allowed(keys, keyId) - {i}| == 0;
      assert Allowed(keys, keyId) == {i};
    }
    forall i: nat | Allowed(keys, keyId) == {i} ensures SelectedKey(keys, keyId) == Some(keys[i]) {
      MatchingHas(keys, keyId, i);
    }
  }

  function IdsOf(keys: seq<RsaJwk>): set<string> {
    set i | 0 <= i < |keys| && keys[i].kid.Some? :: keys[i].kid.value
  }

  /** One more key keeps the ids distinct exactly when its id is new. */
  lemma OneMoreKey(keys: seq<RsaJwk>, key: RsaJwk)
    ensures DistinctIds(keys + [key]) <==> DistinctIds(keys) && (key.kid.Some? ==> key.kid.value !in IdsOf(keys))
    ensures IdsOf(keys + [key]) == IdsOf(keys) + if key.kid.Some? then {key.kid.value} else {}
  {
    var more := keys + [key];
    assert more[..|keys|] == keys && more[|keys|] == key;
    assert forall i | 0 <= i < |keys| :: more[i] == keys[i];
    if key.kid.Some? && key.kid.value in IdsOf(keys) {
      var i :| 0 <= i < |keys| && keys[i].kid == key.kid;
      assert more[i].kid == more[|keys|].kid;
    }
  }

  /** Ids repeated in front stay repeated. */
  lemma FrontDistinct(keys: seq<RsaJwk>, k: nat)
    requires k <= |keys|
    ensures DistinctIds(keys) ==> DistinctIds(keys[..k])
  {
  }

  /** `PublicJwks::validate`: the loop collects key ids and stops at the first bad or repeated one. */
  method Validate(keys: seq<RsaJwk>, keyId: Option<string>) returns (ok: bool)
    ensures ok <==> ValidSet(keys, keyId)
  {
    if keys == [] || |keys| > MAX_KEYS || (keyId.Some? && !ValidId(keyId.value)) {
      return false;
    }
    var ids: set<string> := {};
    for k := 0 to |keys|
      invariant forall i | 0 <= i < k :: ValidKey(keys[i])
      invariant DistinctIds(keys[..k]) && ids == IdsOf(keys[..k])
    {
      if !ValidKey(keys[k]) {
        return false;
      }
      FrontDistinct(keys, k + 1);
      OneMoreKey(keys[..k], keys[k]);
      assert keys[..k] + [keys[k]] == keys[..k + 1];
      if keys[k].kid.Some? {
        if keys[k].kid.value in ids {
          return false;
        }
        ids := ids + {keys[k].kid.value};
      }
    }
    assert keys[..|keys|] == keys;
    SelectedIff(keys, keyId);
    ok := SelectedKey(keys, keyId).Some?;
  }
}
