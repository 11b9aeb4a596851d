/** Proof keys: a challenge is the S256 of a verifier, with SHA-256 taken as injective. */
module Pkce {
  import opened Text

  datatype Challenge = S256(verifier: string) | Other(text: string)

  /** The provider's rule for a challenge text; the 43 characters of an S256 always meet it. */
  predicate ValidChallenge(c: Challenge) {
    c.Other? ==> 43 <= |c.text| <= 128 && MadeOf(c.text, {'-', '_'})
  }

  predicate ValidVerifier(v: string) { 43 <= |v| <= 128 && MadeOf(v, {'-', '.', '_', '~'}) }

  /** State and nonce values as the client accepts them. */
  predicate ValidCorrelation(v: string) {
    v != "" && Utf8Length(v) <= 256 && forall i | 0 <= i < |v| :: !AsciiControl(v[i])
  }

  /** Drawn values pass every check the client makes on them. */
  lemma RandomIsValid(v: string)
    requires Random32(v)
    ensures ValidVerifier(v) && ValidCorrelation(v)
  {
    AsciiLength(v);
  }
}
