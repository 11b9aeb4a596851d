/** ID tokens: the provider mints one, the client validates one against a published key set. */
module IdTokens {
  import opened Prelude
  import opened Text
  import opened OidcKeys

  const SKEW := 30

  datatype Header = Header(
    alg: string, kid: Option<string>, typ: Option<string>, crit: seq<string>,
    jku: Option<string>, jwk: Option<string>, x5u: Option<string>, x5c: Option<string>, cty: Option<string>)

  datatype Audience = One(value: string) | Many(values: seq<string>)

  datatype Claims = Claims(
    iss: string, sub: string, aud: Audience, exp: int, iat: int, nonce: Option<string>, azp: Option<string>)

  /** `signer` is the public key the signature verifies under: signatures are ideal. */
  datatype Token = Token(header: Header, claims: Claims, signer: PublicKey) | NotAToken(text: string)

  // ---- The provider -----------------------------------------------------------------------

  datatype Provider = Provider(
    issuer: string, clientId: string, keyId: Option<string>, keys: seq<RsaJwk>, signer: PublicKey, tokenTtl: nat)

  /** The configuration was accepted, and the signing key belongs to the selected public key. */
  ghost predicate ValidProvider(p: Provider) {
    && ValidSet(p.keys, p.keyId) && 1 <= p.tokenTtl <= 86400
    && SelectedKey(p.keys, p.keyId).Some? && SelectedKey(p.keys, p.keyId).value.key == p.signer
  }

  /** Minted at `signedAt` for an exchange that computed its expiry at `startedAt`. */
  function Mint(p: Provider, subject: string, nonce: Option<string>, startedAt: int, signedAt: int): Token {
    Token(
      Header("RS256", p.keyId, Some("JWT"), [], None, None, None, None, None),
      Claims(p.issuer, subject, One(p.clientId), startedAt + p.tokenTtl, signedAt, nonce, None),
      p.signer)
  }

  // ---- The client -------------------------------------------------------------------------

  datatype Client = Client(issuer: string, clientId: string)

  /** A key as the client parses it from any provider. */
  datatype Jwk = Jwk(
    rsa: bool, kid: Option<string>, keyUse: Option<string>, alg: Option<string>, ops: Option<seq<string>>,
    key: PublicKey)

  /** How a client reads the keys a provider publishes. */
  function Published(keys: seq<RsaJwk>): (jwks: seq<Jwk>)
    ensures |jwks| == |keys|
  {
    seq(|keys|, i requires 0 <= i < |keys| =>
      Jwk(keys[i].kty == "RSA", keys[i].kid, Some(keys[i].keyUse), Some(keys[i].alg), None, keys[i].key))
  }

  predicate UsableSigningKey(k: Jwk) {
    && k.rsa
    && (k.keyUse.Some? ==> k.keyUse.value == "sig")
    && (k.alg.Some? ==> k.alg.value == "RS256")
    && (k.ops.Some? ==> "verify" in k.ops.value)
  }

  predicate AudienceContains(aud: Audience, id: string) {
    match aud
    case One(value) => value == id
    case Many(values) => id in values
  }

  predicate ValidSub(sub: string) {
    && (exists i | 0 <= i < |sub| :: !Whitespace(sub[i]))
    && Utf8Length(sub) <= 512
    && forall i | 0 <= i < |sub| :: !Control(sub[i])
  }

  /** What deserialization demands: unsigned times, and a nonce. */
  predicate Deserializes(c: Claims) { c.exp >= 0 && c.iat >= 0 && c.nonce.Some? }

  predicate AcceptableHeader(h: Header) {
    && h.alg == "RS256" && h.crit == [] && h.jku.None? && h.jwk.None? && h.x5u.None? && h.x5c.None? && h.cty.None?
    && (h.typ.Some? ==> h.typ.value == "JWT")
  }

  /** The client is in the audience, and the authorized party, which a list of several must name. */
  predicate ForClient(client: Client, c: Claims) {
    && AudienceContains(c.aud, client.clientId)
    && (c.azp.Some? ==> c.azp.value == client.clientId)
    && (c.aud.Many? && |c.aud.values| > 1 ==> c.azp == Some(client.clientId))
  }

  predicate AcceptableClaims(client: Client, c: Claims, expectedNonce: string, now: int) {
    && Deserializes(c)
    && c.iss == client.issuer && ValidSub(c.sub) && ForClient(client, c) && c.nonce.value == expectedNonce
    && now >= 0 && c.iat <= now + SKEW && now < c.exp + SKEW
  }

  /** The positions of the keys with this id. */
  function WithId(jwks: seq<Jwk>, kid: string): set<nat> {
    set i: nat | i < |jwks| && jwks[i].kid == Some(kid)
  }

  /** The subject of an acceptable token; searches the key set as the source does, first match then no second. */
  method ValidateIdToken(client: Client, token: Token, jwks: seq<Jwk>, expectedNonce: string, now: int)
      returns (r: Option<string>)
    ensures r == Accepted(client, token, jwks, expectedNonce, now)
    ensures r.Some? ==> token.Token? && r == Some(token.claims.sub)
    ensures r.Some? ==>
      && token.claims.iss == client.issuer && token.claims.nonce == Some(expectedNonce)
      && token.claims.iat <= now + 30 && now < token.claims.exp + 30
    ensures r.Some? ==>
      || token.claims.aud == One(client.clientId)
      || token.claims.aud == Many([client.clientId])
      || (token.claims.aud.Many? && client.clientId in token.claims.aud.values
          && token.claims.azp == Some(client.clientId))
    ensures r.Some? ==> exists i: nat :: i < |jwks| && IsOnly(jwks, token.header.kid, i) && jwks[i].key == token.signer
  {
    AcceptedIff(client, token, jwks, expectedNonce, now);
    if token.NotAToken? || !AcceptableHeader(token.header) || token.header.kid.None? || token.header.kid.value == "" {
      return None;
    }
    var kid := token.header.kid.value;
    var found: Option<nat> := None;
    for k := 0 to |jwks|
      invariant found.None? ==> forall i | 0 <= i < k :: jwks[i].kid != Some(kid)
      invariant found.Some? ==> found.value < k && WithId(jwks[..k], kid) == {found.value}
    {
      if jwks[k].kid == Some(kid) {
        if found.Some? {
          assert found.value in WithId(jwks, kid) && k in WithId(jwks, kid) by {
            assert found.value in WithId(jwks[..k], kid);
          }
          SubsetSize({found.value, k}, WithId(jwks, kid));
          return None;
        }
        found := Some(k);
      }
    }
    assert jwks[..|jwks|] == jwks;
    if found.None? {
      assert WithId(jwks, kid) == {};
      return None;
    }
    var key := jwks[found.value];
    if !UsableSigningKey(key) || key.key != token.signer
       || !AcceptableClaims(client, token.claims, expectedNonce, now)
    {
      return None;
    }
    r := Some(token.claims.sub);
  }

  /** One key of the set, and only one, carries the token's key id, may verify RS256, and made the signature. */
  predicate SignedWithin(token: Token, jwks: seq<Jwk>)
    requires token.Token?
  {
    && token.header.kid.Some? && token.header.kid.value != ""
    && var ids := WithId(jwks, token.header.kid.value);
    |ids| == 1 && forall i | i in ids :: UsableSigningKey(jwks[i]) && jwks[i].key == token.signer
  }

  function Accepted(client: Client, token: Token, jwks: seq<Jwk>, expectedNonce: string, now: int): Option<string> {
    if token.Token? && AcceptableHeader(token.header) && SignedWithin(token, jwks)
       && AcceptableClaims(client, token.claims, expectedNonce, now)
    then Some(token.claims.sub) else None
  }

  /** Position i, and no other, carries this key id. */
  ghost predicate IsOnly(jwks: seq<Jwk>, kid: Option<string>, i: nat) {
    forall j: nat | j < |jwks| :: jwks[j].kid == kid <==> j == i
  }

  lemma OnlyIff(jwks: seq<Jwk>, kid: string)
    ensures |WithId(jwks, kid)| == 1 <==> exists i: nat :: i < |jwks| && IsOnly(jwks, Some(kid), i)
    ensures forall i: nat | i < |jwks| && IsOnly(jwks, Some(kid), i) :: WithId(jwks, kid) == {i}
  {
    var ids := WithId(jwks, kid);
    if |ids| == 1 {
      var i :| i in ids;
      assert |ids - {i}| == 0;
      assert ids == {i};
      assert forall j: nat | j < |jwks| :: j in ids <==> jwks[j].kid == Some(kid);
      assert IsOnly(jwks, Some(kid), i);
    }
    forall i: nat | i < |jwks| && IsOnly(jwks, Some(kid), i) ensures ids == {i} {
      assert forall j: nat | j < |jwks| :: jwks[j].kid == Some(kid) <==> j == i;
    }
  }

  /** One key, alone in carrying the token's key id, may verify RS256 and made the signature. */
  lemma SignedIff(token: Token, jwks: seq<Jwk>)
    requires token.Token?
    ensures SignedWithin(token, jwks) <==>
      && token.header.kid.Some? && token.header.kid.value != ""
      && (exists i: nat :: i < |jwks| && IsOnly(jwks, token.header.kid, i)
            && jwks[i].rsa && jwks[i].keyUse in {None, Some("sig")} && jwks[i].alg in {None, Some("RS256")}
            && (jwks[i].ops.Some? ==> "verify" in jwks[i].ops.value) && jwks[i].key == token.signer)
  {
    if token.header.kid.Some? {
      OnlyIff(jwks, token.header.kid.value);
      var ids := WithId(jwks, token.header.kid.value);
      if SignedWithin(token, jwks) {
        var i: nat :| i < |jwks| && IsOnly(jwks, token.header.kid, i);
        assert ids == {i};
        assert UsableSigningKey(jwks[i]) && jwks[i].key == token.signer;
      }
      if i: nat :|
        i < |jwks| && IsOnly(jwks, token.header.kid, i) && UsableSigningKey(jwks[i]) && jwks[i].key == token.signer {
        assert ids == {i};
      }
      forall i: nat | i < |jwks| ensures UsableSigningKey(jwks[i]) <==>
        && jwks[i].rsa && jwks[i].keyUse in {None, Some("sig")} && jwks[i].alg in {None, Some("RS256")}
        && (jwks[i].ops.Some? ==> "verify" in jwks[i].ops.value)
      {
        UsableIff(jwks[i]);
      }
    }
  }

  /** A key that says nothing against it may verify RS256. */
  lemma UsableIff(k: Jwk)
    ensures UsableSigningKey(k) <==>
      && k.rsa && k.keyUse in {None, Some("sig")} && k.alg in {None, Some("RS256")}
      && (k.ops.Some? ==> "verify" in k.ops.value)
  {
  }

  /** Addressed to this client: alone, or among others with it as the authorized party. */
  lemma AudienceIff(client: Client, c: Claims)
    ensures ForClient(client, c) <==>
      && (|| c.aud == One(client.clientId)
          || c.aud == Many([client.clientId])
          || (c.aud.Many? && client.clientId in c.aud.values && c.azp == Some(client.clientId)))
      && c.azp in {None, Some(client.clientId)}
  {
    match c.aud
    case One(value) =>
    case Many(ids) =>
      if |ids| == 1 {
        assert ids == [ids[0]];
        assert [client.clientId][0] == client.clientId;
        assert client.clientId in ids <==> ids[0] == client.clientId;
      } else {
        assert ids != [client.clientId];
      }
  }

  /**
    What acceptance of an arbitrary token under an arbitrary key set means, and all it needs: section
    3.1.3.7 of OpenID Connect Core 1.0 as the client reads it, with its 30 seconds of skew.
   */
  lemma AcceptedIff(client: Client, token: Token, jwks: seq<Jwk>, expectedNonce: string, now: int)
    ensures Accepted(client, token, jwks, expectedNonce, now).Some? <==>
      && token.Token?
      && token.header.alg == "RS256" && token.header.typ in {None, Some("JWT")} && token.header.crit == []
      && token.header.jku.None? && token.header.jwk.None? && token.header.x5u.None? && token.header.x5c.None?
      && token.header.cty.None?
      && token.header.kid.Some? && token.header.kid.value != ""
      && (exists i: nat :: i < |jwks| && IsOnly(jwks, token.header.kid, i)
            && jwks[i].rsa && jwks[i].keyUse in {None, Some("sig")} && jwks[i].alg in {None, Some("RS256")}
            && (jwks[i].ops.Some? ==> "verify" in jwks[i].ops.value) && jwks[i].key == token.signer)
      && token.claims.iss == client.issuer
      && (|| token.claims.aud == One(client.clientId)
          || token.claims.aud == Many([client.clientId])
          || (token.claims.aud.Many? && client.clientId in token.claims.aud.values
              && token.claims.azp == Some(client.clientId)))
      && token.claims.azp in {None, Some(client.clientId)}
      && token.claims.nonce == Some(expectedNonce)
      && 0 <= token.claims.iat <= now + 30 && 0 <= now && 0 <= token.claims.exp && now < token.claims.exp + 30
      && (exists i | 0 <= i < |token.claims.sub| :: !Whitespace(token.claims.sub[i]))
      && (forall i | 0 <= i < |token.claims.sub| :: !Control(token.claims.sub[i]))
      && Utf8Length(token.claims.sub) <= 512
    ensures Accepted(client, token, jwks, expectedNonce, now).Some? ==>
      Accepted(client, token, jwks, expectedNonce, now) == Some(token.claims.sub)
  {
    if token.Token? {
      SignedIff(token, jwks);
      AudienceIff(client, token.claims);
    }
  }

  /** A token minted by a provider is refused by every client of another issuer or with another id. */
  lemma ForeignClientRefuses(
      p: Provider, client: Client, subject: string, nonce: Option<string>, startedAt: int, signedAt: int,
      jwks: seq<Jwk>, expected: string, now: int)
    requires client.issuer != p.issuer || client.clientId != p.clientId
    ensures Accepted(client, Mint(p, subject, nonce, startedAt, signedAt), jwks, expected, now) == None
  {
    AcceptedIff(client, Mint(p, subject, nonce, startedAt, signedAt), jwks, expected, now);
  }

  // ---- Mint and accept --------------------------------------------------------------------

  /** Names the directory knows pass the client's subject rules. */
  lemma IdsAreSubs(sub: string)
    requires ValidId(sub)
    ensures ValidSub(sub)
  {
    AsciiLength(sub);
    assert !Whitespace(sub[0]);
  }

  lemma PublishedSigns(p: Provider, token: Token)
    requires ValidProvider(p) && token.Token? && token.header.kid == p.keyId && token.signer == p.signer
    ensures SignedWithin(token, Published(p.keys)) <==> p.keyId.Some?
  {
    var jwks := Published(p.keys);
    SelectedIff(p.keys, p.keyId);
    var i: nat :| Allowed(p.keys, p.keyId) == {i};
    assert i in Allowed(p.keys, p.keyId);
    if p.keyId.Some? {
      assert WithId(jwks, p.keyId.value) == {i};
    }
  }

  /**
    A minted token is accepted under the published keys exactly when the key id is configured, the
    request carried the expected nonce, and the clock is within skew of the validity; the client
    then learns the authorized subject.
   */
  lemma MintAcceptedIff(
      p: Provider, subject: string, nonce: Option<string>, startedAt: int, signedAt: int, expected: string, now: int)
    requires ValidProvider(p) && ValidId(subject) && 0 <= startedAt <= signedAt && 0 <= now
    ensures
      var token := Mint(p, subject, nonce, startedAt, signedAt);
      var r := Accepted(Client(p.issuer, p.clientId), token, Published(p.keys), expected, now);
      && (r == Some(subject) <==>
            && p.keyId.Some? && nonce == Some(expected)
            && signedAt <= now + SKEW && now < startedAt + p.tokenTtl + SKEW)
      && (r.Some? ==> r == Some(subject))
  {
    IdsAreSubs(subject);
    PublishedSigns(p, Mint(p, subject, nonce, startedAt, signedAt));
  }
}
