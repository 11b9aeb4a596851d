/** Signed actor assertions: issuing, attenuating, carrying and verifying them, with ideal signatures. */
module Assertions {
  import opened Prelude
  import opened Json

  type Key = nat

  /** RFC 3339 text: many spellings name one instant, formatting picks the first. */
  datatype Text = Rfc3339(instant: int, spelling: nat) | Unparsable(text: string)

  function Format(instant: int): Text { Rfc3339(instant, 0) }

  function Parse(text: Text): Option<int> {
    match text
    case Rfc3339(instant, _) => Some(instant)
    case Unparsable(_) => None
  }

  /** A proof string: empty, the encoding of a signature, or anything else. */
  datatype Proof = Blank | Signature(key: Key, payload: Payload) | Garbage(text: string)

  /** What is signed: every wire field but the proof itself. */
  datatype Payload = Payload(
    actorKind: string, assurance: string, audience: seq<string>, claims: Option<map<string, Json>>,
    expiresAt: Text, issuedAt: Text, issuer: string, parent: Option<Proof>, subject: string)

  datatype Wire = Wire(payload: Payload, proof: Proof)

  datatype Assertion = Assertion(wire: Wire, issuedAt: int, expiresAt: int)

  datatype Identity = Identity(subject: string, actorKind: string, assurance: string, claims: map<string, Json>)

  /** An issuer, and the verifier derived from it: a name and one key. */
  datatype Authority = Authority(name: string, key: Key)

  datatype Error =
    | IssuerMismatch(expected: string, actual: string)
    | InvalidProof
    | NotYetValid
    | Expired
    | AudienceMismatch(audience: string)
    | WidensAuthority
    | WidensValidity
    | InvalidWire

  function Signed(a: Authority, p: Payload): Wire { Wire(p, Signature(a.key, p)) }

  function Issue(a: Authority, who: Identity, audience: seq<string>, issuedAt: int, expiresAt: int): Assertion {
    Assertion(
      Signed(a, Payload(who.actorKind, who.assurance, audience, Some(who.claims), Format(expiresAt), Format(issuedAt),
                        a.name, None, who.subject)),
      issuedAt, expiresAt)
  }

  function VerifyProof(v: Authority, a: Assertion): Result<(), Error> {
    if a.wire.payload.issuer != v.name then Err(IssuerMismatch(v.name, a.wire.payload.issuer))
    else if a.wire.proof != Signature(v.key, a.wire.payload) then Err(InvalidProof)
    else Ok(())
  }

  function VerifyFor(v: Authority, a: Assertion, target: string, now: int): Result<(), Error> {
    if VerifyProof(v, a).Err? then VerifyProof(v, a)
    else if target !in a.wire.payload.audience then Err(AudienceMismatch(target))
    else if now < a.issuedAt then Err(NotYetValid)
    else if now >= a.expiresAt then Err(Expired)
    else Ok(())
  }

  function Attenuate(a: Authority, parent: Assertion, audience: seq<string>, expiresAt: int): Result<Assertion, Error> {
    if VerifyProof(a, parent).Err? then Err(VerifyProof(a, parent).error)
    else if exists i | 0 <= i < |audience| :: audience[i] !in parent.wire.payload.audience then Err(WidensAuthority)
    else if expiresAt > parent.expiresAt || expiresAt <= parent.issuedAt then Err(WidensValidity)
    else
      var p := parent.wire.payload.(
        audience := audience, expiresAt := Format(expiresAt), parent := Some(parent.wire.proof));
      Ok(Assertion(Signed(a, p), parent.issuedAt, expiresAt))
  }

  predicate Complete(p: Payload) {
    p.issuer != "" && p.subject != "" && p.actorKind != "" && p.assurance != "" && p.audience != [] && "" !in p.audience
  }

  function FromWire(w: Wire): Result<Assertion, Error> {
    var p := w.payload;
    match (Parse(p.issuedAt), Parse(p.expiresAt))
    case (Some(issuedAt), Some(expiresAt)) =>
      if !Complete(p) || w.proof == Blank || issuedAt >= expiresAt then Err(InvalidWire)
      else Ok(Assertion(w, issuedAt, expiresAt))
    case _ => Err(InvalidWire)
  }

  /** The sealed extension of an invocation context: a wire value beside what the seal says of it. */
  datatype Extension = Extension(issuer: string, audience: seq<string>, value: Option<Wire>, proof: Proof)

  function Attach(a: Assertion): Extension {
    Extension(a.wire.payload.issuer, a.wire.payload.audience, Some(a.wire), a.wire.proof)
  }

  function FromContext(extension: Option<Extension>): Result<Assertion, Error> {
    if extension.None? || extension.value.value.None? then Err(InvalidWire)
    else
      var e, r := extension.value, FromWire(extension.value.value.value);
      if r.Err? then r
      else if
        || r.value.wire.payload.issuer != e.issuer || r.value.wire.payload.audience != e.audience
        || r.value.wire.proof != e.proof
      then Err(InvalidWire) else r
  }

  // ---- Round trips ------------------------------------------------------------------------

  /** A fresh assertion verifies for exactly its audience and exactly its half-open validity. */
  lemma IssuedVerifiesIff(
      a: Authority, who: Identity, audience: seq<string>, issuedAt: int, expiresAt: int, target: string, now: int)
    ensures VerifyFor(a, Issue(a, who, audience, issuedAt, expiresAt), target, now).Ok? <==>
      target in audience && issuedAt <= now < expiresAt
  {
    assert Issue(a, who, audience, issuedAt, expiresAt).wire.payload.issuer == a.name;
  }

  /** What an attenuated assertion is accepted for: its own audience and expiry, from the parent's issue on. */
  lemma AttenuatedVerifiesIff(
      a: Authority, parent: Assertion, audience: seq<string>, expiresAt: int, target: string, now: int)
    requires Attenuate(a, parent, audience, expiresAt).Ok?
    ensures VerifyFor(a, Attenuate(a, parent, audience, expiresAt).value, target, now).Ok? <==>
      target in audience && parent.issuedAt <= now < expiresAt
    ensures VerifyFor(a, Attenuate(a, parent, audience, expiresAt).value, target, now).Ok? ==>
      VerifyFor(a, parent, target, now).Ok?
  {
    if target in audience {
      var i :| 0 <= i < |audience| && audience[i] == target;
      assert audience[i] in parent.wire.payload.audience;
    }
  }

  /** An assertion survives the context exactly when its wire form is complete; then it comes back unchanged. */
  lemma CarriedIff(a: Assertion)
    requires Parse(a.wire.payload.issuedAt) == Some(a.issuedAt) && Parse(a.wire.payload.expiresAt) == Some(a.expiresAt)
    ensures FromContext(Some(Attach(a))) == Ok(a) <==>
      Complete(a.wire.payload) && a.wire.proof != Blank && a.issuedAt < a.expiresAt
    ensures FromContext(Some(Attach(a))).Ok? ==> FromContext(Some(Attach(a))) == Ok(a)
  {
  }

  /**
    Attenuation succeeds exactly for a parent this authority signed, an audience within the parent's
    and an expiry after its issue and no later than its own, which may stay; it changes nothing else.
   */
  lemma AttenuateIff(a: Authority, parent: Assertion, audience: seq<string>, expiresAt: int)
    ensures Attenuate(a, parent, audience, expiresAt).Ok? <==>
      && parent.wire.payload.issuer == a.name && parent.wire.proof == Signature(a.key, parent.wire.payload)
      && (forall i | 0 <= i < |audience| :: audience[i] in parent.wire.payload.audience)
      && parent.issuedAt < expiresAt <= parent.expiresAt
    ensures Attenuate(a, parent, audience, expiresAt).Ok? ==>
      var made, p := Attenuate(a, parent, audience, expiresAt).value, parent.wire.payload;
      && made.issuedAt == parent.issuedAt && made.expiresAt == expiresAt
      && made.wire.payload == Payload(p.actorKind, p.assurance, audience, p.claims, Rfc3339(expiresAt, 0), p.issuedAt,
                                      p.issuer, Some(parent.wire.proof), p.subject)
      && made.wire.proof == Signature(a.key, made.wire.payload)
  {
  }

  /** Why attenuation fails, in order: the parent's issuer, its proof, the audience, the expiry. */
  lemma AttenuateErrors(a: Authority, parent: Assertion, audience: seq<string>, expiresAt: int)
    ensures
      var r, p := Attenuate(a, parent, audience, expiresAt), parent.wire.payload;
      && (r == Err(IssuerMismatch(a.name, p.issuer)) <==> p.issuer != a.name)
      && (r == Err(InvalidProof) <==> p.issuer == a.name && parent.wire.proof != Signature(a.key, p))
      && (r == Err(WidensAuthority) <==>
            && p.issuer == a.name && parent.wire.proof == Signature(a.key, p)
            && exists i | 0 <= i < |audience| :: audience[i] !in p.audience)
      && (r.Err? ==> r.error in {IssuerMismatch(a.name, p.issuer), InvalidProof, WidensAuthority, WidensValidity})
  {
  }

  /** What a target reads from a context: the value, if it is complete and the seal says the same of it. */
  lemma FromContextIff(extension: Option<Extension>, a: Assertion)
    ensures FromContext(extension) == Ok(a) <==>
      && extension.Some? && extension.value.value == Some(a.wire)
      && extension.value.issuer == a.wire.payload.issuer && extension.value.audience == a.wire.payload.audience
      && extension.value.proof == a.wire.proof
      && Parse(a.wire.payload.issuedAt) == Some(a.issuedAt) && Parse(a.wire.payload.expiresAt) == Some(a.expiresAt)
      && a.issuedAt < a.expiresAt && a.wire.proof != Blank
      && a.wire.payload.issuer != "" && a.wire.payload.subject != "" && a.wire.payload.actorKind != ""
      && a.wire.payload.assurance != "" && a.wire.payload.audience != [] && "" !in a.wire.payload.audience
  {
  }

  /** Acceptance, and which failing check each refusal names, for an arbitrary assertion. */
  lemma VerifyForErrors(v: Authority, a: Assertion, target: string, now: int)
    ensures
      var r, p := VerifyFor(v, a, target, now), a.wire.payload;
      && (r == Err(IssuerMismatch(v.name, p.issuer)) <==> p.issuer != v.name)
      && (r == Err(InvalidProof) <==> p.issuer == v.name && a.wire.proof != Signature(v.key, p))
      && (r.Ok? <==>
            && p.issuer == v.name && a.wire.proof == Signature(v.key, p)
            && target in p.audience && a.issuedAt <= now < a.expiresAt)
      && (p.issuer == v.name && a.wire.proof == Signature(v.key, p) && target in p.audience ==>
            && (r == Err(NotYetValid) <==> now < a.issuedAt)
            && (r == Err(Expired) <==> a.issuedAt <= now && a.expiresAt <= now))
  {
  }

  // ---- Histories of signing ---------------------------------------------------------------

  /** One signing: a fresh issue, an attenuation of an assertion at hand, or a signature under a key not trusted. */
  datatype Entry =
    | Issued(signer: Authority, made: Assertion)
    | Attenuated(signer: Authority, parent: Assertion, made: Assertion)
    | Foreign(key: Key, payload: Payload)

  type History = seq<Entry>

  ghost predicate Produced(log: History, proof: Proof) {
    exists i | 0 <= i < |log| :: !log[i].Foreign? && log[i].made.wire.proof == proof
  }

  /** No one presents a signature under a trusted key that the key's holder did not produce. */
  ghost predicate Unforged(trusted: set<Key>, log: History, proof: Proof) {
    proof.Signature? && proof.key in trusted ==> Produced(log, proof)
  }

  /** An assertion value a process can have: made there, or parsed from some wire value or context. */
  ghost predicate AtHand(trusted: set<Key>, log: History, a: Assertion) {
    || (exists i | 0 <= i < |log| :: !log[i].Foreign? && log[i].made == a)
    || (Unforged(trusted, log, a.wire.proof)
        && (FromWire(a.wire) == Ok(a) || exists extension :: FromContext(extension) == Ok(a)))
  }

  ghost predicate Fits(trusted: set<Key>, before: History, e: Entry) {
    match e
    case Issued(signer, made) =>
      signer.key in trusted && exists who, audience, issuedAt, expiresAt | issuedAt < expiresAt ::
        made == Issue(signer, who, audience, issuedAt, expiresAt)
    case Attenuated(signer, parent, made) =>
      signer.key in trusted && AtHand(trusted, before, parent) && exists audience, expiresAt ::
        Attenuate(signer, parent, audience, expiresAt) == Ok(made)
    case Foreign(key, _) => key !in trusted
  }

  ghost predicate IsHistory(trusted: set<Key>, log: History) {
    forall i | 0 <= i < |log| :: Fits(trusted, log[..i], log[i])
  }

  /** A proof's whole line of descent, itself first: each signed payload carries its parent's proof. */
  function Lineage(proof: Proof): seq<Payload> {
    if !proof.Signature? then []
    else if proof.payload.parent.None? then [proof.payload]
    else [proof.payload] + Lineage(proof.payload.parent.value)
  }

  predicate Covers(audience: seq<string>, narrower: seq<string>) {
    forall i | 0 <= i < |narrower| :: narrower[i] in audience
  }

  /** `child` grants no more than `parent`: same identity and issue time, fewer targets, no later expiry. */
  predicate Narrows(parent: Payload, child: Payload) {
    && child.subject == parent.subject && child.actorKind == parent.actorKind && child.assurance == parent.assurance
    && child.claims == parent.claims && child.issuer == parent.issuer && child.issuedAt == parent.issuedAt
    && Covers(parent.audience, child.audience)
    && Parse(child.expiresAt).Some? && Parse(parent.expiresAt).Some?
    && Parse(child.expiresAt).value <= Parse(parent.expiresAt).value
  }

  /** A line of descent that ends in an issue recorded in the history, narrowing at every link. */
  ghost predicate Sound(log: History, key: Key, proof: Proof) {
    var line := Lineage(proof);
    && line != []
    && (forall i | 0 <= i < |line| :: Produced(log, Signature(key, line[i])))
    && (forall i | 0 <= i < |line| - 1 ::
          line[i].parent == Some(Signature(key, line[i + 1])) && Narrows(line[i + 1], line[i]))
    && (exists r | 0 <= r < |log| ::
          log[r].Issued? && log[r].made.wire == Wire(line[|line| - 1], Signature(key, line[|line| - 1])))
  }

  /** Signed instants and parsed instants agree. */
  predicate Agrees(a: Assertion) {
    Parse(a.wire.payload.issuedAt) == Some(a.issuedAt) && Parse(a.wire.payload.expiresAt) == Some(a.expiresAt)
  }

  lemma AtHandAgrees(trusted: set<Key>, log: History, a: Assertion)
    requires AtHand(trusted, log, a)
    requires forall i | 0 <= i < |log| && !log[i].Foreign? :: Agrees(log[i].made)
    ensures Agrees(a)
  {
  }

  /** In every history, what was made agrees with what was signed. */
  lemma {:induction false} MadeAgrees(trusted: set<Key>, log: History, n: nat)
    requires IsHistory(trusted, log) && n <= |log|
    ensures forall i | 0 <= i < n && !log[i].Foreign? :: Agrees(log[i].made)
  {
    if n > 0 {
      MadeAgrees(trusted, log, n - 1);
      assert Fits(trusted, log[..n - 1], log[n - 1]);
      if log[n - 1].Attenuated? {
        AtHandAgrees(trusted, log[..n - 1], log[n - 1].parent);
      }
    }
  }

  lemma Later(log: History, e: Entry, key: Key, proof: Proof)
    requires Sound(log, key, proof)
    ensures Sound(log + [e], key, proof)
  {
    var line := Lineage(proof);
    forall i | 0 <= i < |line| ensures Produced(log + [e], Signature(key, line[i])) {
      var j :| 0 <= j < |log| && !log[j].Foreign? && log[j].made.wire.proof == Signature(key, line[i]);
      assert (log + [e])[j] == log[j];
    }
    var r :| 0 <= r < |log| && log[r].Issued?
        && log[r].made.wire == Wire(line[|line| - 1], Signature(key, line[|line| - 1]));
    assert (log + [e])[r] == log[r];
  }

  /** An entry of the history has its signature under its own key and a sound line of descent. */
  ghost predicate EntrySound(log: History, e: Entry) {
    !e.Foreign? ==>
      e.made.wire.proof == Signature(e.signer.key, e.made.wire.payload) && Sound(log, e.signer.key, e.made.wire.proof)
  }

  ghost predicate AllSound(log: History) {
    forall i | 0 <= i < |log| :: EntrySound(log, log[i])
  }

  /** A verified assertion carries a sound line of descent: its signature must be in the history. */
  lemma VerifiedSound(trusted: set<Key>, log: History, v: Authority, a: Assertion)
    requires AllSound(log) && AtHand(trusted, log, a) && v.key in trusted && VerifyProof(v, a).Ok?
    ensures Sound(log, v.key, a.wire.proof)
  {
    assert Produced(log, a.wire.proof);
    var j :| 0 <= j < |log| && !log[j].Foreign? && log[j].made.wire.proof == a.wire.proof;
    assert EntrySound(log, log[j]);
  }

  lemma LineExtends(log: History, key: Key, parent: Proof, child: Payload)
    requires Sound(log, key, parent) && parent.Signature? && parent.key == key
    requires child.parent == Some(parent) && Narrows(parent.payload, child) && Produced(log, Signature(key, child))
    ensures Sound(log, key, Signature(key, child))
  {
    var line := Lineage(parent);
    var longer := Lineage(Signature(key, child));
    assert longer == [child] + line && line[0] == parent.payload;
    forall i | 0 <= i < |longer| - 1
      ensures longer[i].parent == Some(Signature(key, longer[i + 1])) && Narrows(longer[i + 1], longer[i])
    {
      if i > 0 {
        assert longer[i] == line[i - 1] && longer[i + 1] == line[i];
      }
    }
  }

  lemma AttenuatedNarrows(signer: Authority, parent: Assertion, audience: seq<string>, expiresAt: int)
    requires Attenuate(signer, parent, audience, expiresAt).Ok? && Agrees(parent)
    ensures
      var made := Attenuate(signer, parent, audience, expiresAt).value.wire;
      && parent.wire.proof == Signature(signer.key, parent.wire.payload)
      && made == Signed(signer, made.payload) && made.payload.parent == Some(parent.wire.proof)
      && Narrows(parent.wire.payload, made.payload)
  {
  }

  lemma NewEntrySound(trusted: set<Key>, log: History, e: Entry)
    requires Fits(trusted, log, e)
    requires e.Attenuated? ==> Agrees(e.parent) && Sound(log, e.signer.key, e.parent.wire.proof)
    ensures EntrySound(log + [e], e)
  {
    assert (log + [e])[|log|] == e;
    match e
    case Issued(signer, made) => assert Lineage(made.wire.proof) == [made.wire.payload];
    case Attenuated(signer, parent, made) =>
      var audience, expiresAt :| Attenuate(signer, parent, audience, expiresAt) == Ok(made);
      AttenuatedNarrows(signer, parent, audience, expiresAt);
      Later(log, e, signer.key, parent.wire.proof);
      LineExtends(log + [e], signer.key, parent.wire.proof, made.wire.payload);
    case Foreign(_, _) =>
  }

  lemma MoreSound(log: History, e: Entry)
    requires AllSound(log) && EntrySound(log + [e], e)
    ensures AllSound(log + [e])
  {
    forall i | 0 <= i < |log + [e]| ensures EntrySound(log + [e], (log + [e])[i]) {
      if i < |log| && !log[i].Foreign? {
        Later(log, e, log[i].signer.key, log[i].made.wire.proof);
      }
    }
  }

  lemma {:induction false} HistorySound(trusted: set<Key>, log: History, n: nat)
    requires IsHistory(trusted, log) && n <= |log|
    ensures AllSound(log[..n])
  {
    if n > 0 {
      HistorySound(trusted, log, n - 1);
      var before, e := log[..n - 1], log[n - 1];
      assert before + [e] == log[..n] && Fits(trusted, before, e);
      MadeAgrees(trusted, log, n - 1);
      if e.Attenuated? {
        AtHandAgrees(trusted, before, e.parent);
        VerifiedSound(trusted, before, e.signer, e.parent);
      }
      NewEntrySound(trusted, before, e);
      MoreSound(before, e);
    }
  }

  lemma NarrowsTransitive(a: Payload, b: Payload, c: Payload)
    requires Narrows(a, b) && Narrows(b, c)
    ensures Narrows(a, c)
  {
  }

  /** Links that narrow compose: the first payload narrows the last. */
  lemma {:induction false} FirstNarrowsLast(line: seq<Payload>)
    requires line != [] && forall i | 0 <= i < |line| - 1 :: Narrows(line[i + 1], line[i])
    ensures |line| == 1 || Narrows(line[|line| - 1], line[0])
  {
    if |line| > 2 {
      var rest := line[1..];
      FirstNarrowsLast(rest);
      NarrowsTransitive(rest[|rest| - 1], rest[0], line[0]);
    }
  }

  /** The issue at the end of a sound line, which the whole line narrows. */
  lemma RootOf(log: History, key: Key, proof: Proof) returns (root: nat)
    requires Sound(log, key, proof) && proof.Signature?
    ensures root < |log| && log[root].Issued?
    ensures log[root].made.wire.payload == Lineage(proof)[|Lineage(proof)| - 1]
    ensures |Lineage(proof)| == 1 || Narrows(log[root].made.wire.payload, proof.payload)
    ensures |Lineage(proof)| == 1 ==> log[root].made.wire.payload == proof.payload
  {
    var line := Lineage(proof);
    assert line[0] == proof.payload;
    FirstNarrowsLast(line);
    root :| 0 <= root < |log| && log[root].Issued?
        && log[root].made.wire == Wire(line[|line| - 1], Signature(key, line[|line| - 1]));
  }

  /**
    Whatever a verifier with a trusted key accepts, however it got it, descends from one recorded
    issue through recorded attenuations: nothing is widened at any link or over the whole line,
    each link's provenance is its parent's proof, and the instants checked are the signed ones.
   */
  lemma AcceptedDescends(trusted: set<Key>, log: History, v: Authority, a: Assertion, target: string, now: int)
      returns (root: nat)
    requires IsHistory(trusted, log) && v.key in trusted
    requires AtHand(trusted, log, a) && VerifyFor(v, a, target, now).Ok?
    ensures Agrees(a) && Sound(log, v.key, a.wire.proof)
    ensures root < |log| && log[root].Issued? && Agrees(log[root].made)
    ensures Lineage(a.wire.proof)[|Lineage(a.wire.proof)| - 1] == log[root].made.wire.payload
    ensures Narrows(log[root].made.wire.payload, a.wire.payload)
    ensures target in log[root].made.wire.payload.audience
    ensures log[root].made.issuedAt <= now < a.expiresAt <= log[root].made.expiresAt
  {
    MadeAgrees(trusted, log, |log|);
    AtHandAgrees(trusted, log, a);
    HistorySound(trusted, log, |log|);
    assert log[..|log|] == log;
    VerifiedSound(trusted, log, v, a);
    root := RootOf(log, v.key, a.wire.proof);
  }
}
