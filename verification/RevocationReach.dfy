/** Sessions and assertions together: what a target accepts, traced back to a session and its revocation. */
module RevocationReach {
  import opened Prelude
  import opened Runs
  import A = Assertions
  import S = SessionInterleaving
  import opened Accounts

  function IdentityOf(session: Session): A.Identity {
    A.Identity(session.subject, session.actorKind, session.assurance, session.claims)
  }

  /** The assertion `authenticate` issues for a mint of this session. */
  function AssertionOf(account: A.Authority, session: Session, m: S.Mint): A.Assertion {
    A.Issue(account, IdentityOf(session), session.audience, m.issuedAt, m.expiresAt)
  }

  /** Every issue of the signing history is the mint of the run that `origin` names. */
  ghost predicate MintedBy(account: A.Authority, s: S.State, log: A.History, origin: seq<nat>) {
    forall i | 0 <= i < |log| && log[i].Issued? ::
      && i < |origin| && origin[i] < |s.minted| && s.minted[origin[i]].id in s.sessions
      && log[i].made == AssertionOf(account, s.sessions[s.minted[origin[i]].id], s.minted[origin[i]])
  }

  /**
    Whatever a target accepts speaks for a session of the run: its subject, kind, assurance and
    claims, a target within its audience, before its expiry. And if that session was dead in any
    state of the run, the moment of acceptance lies before that state's time plus lag plus ttl.
   */
  lemma AcceptedWithinReach(
      c: S.Config, states: seq<S.State>, events: seq<S.Event>, n: nat, account: A.Authority,
      log: A.History, origin: seq<nat>, a: A.Assertion, target: string, now: int) returns (id: string)
    requires IsRun(S.System(c), states, events) && n < |states|
    requires A.IsHistory({account.key}, log) && MintedBy(account, states[n], log, origin)
    requires A.AtHand({account.key}, log, a) && A.VerifyFor(account, a, target, now).Ok?
    ensures id in states[n].sessions
    ensures
      var session, p := states[n].sessions[id], a.wire.payload;
      && p.subject == session.subject && p.actorKind == session.actorKind && p.assurance == session.assurance
      && p.claims == Some(session.claims) && target in session.audience && now < session.expiresAt
    ensures forall i | 0 <= i < |states| && S.IsDead(states[i], id) :: now < states[i].now + c.lag + c.ttl
  {
    var root := A.AcceptedDescends({account.key}, log, account, a, target, now);
    S.MintsAlwaysKnown(c, states, events, n);
    var k := origin[root];
    id := states[n].minted[k].id;
    forall i | 0 <= i < |states| && S.IsDead(states[i], id) ensures now < states[i].now + c.lag + c.ttl {
      S.MintedBeforeReach(c, states, events, i, n, k);
    }
  }

  function Signing(account: A.Authority, s: S.State, k: nat): A.Entry
    requires k < |s.minted| && S.MintsKnown(s)
  {
    A.Issued(account, AssertionOf(account, s.sessions[s.minted[k].id], s.minted[k]))
  }

  /** All mints of a state, signed in order. */
  function AllMints(account: A.Authority, s: S.State, n: nat): (log: A.History)
    requires n <= |s.minted| && S.MintsKnown(s)
    ensures |log| == n && forall k | 0 <= k < n :: log[k] == Signing(account, s, k)
  {
    if n == 0 then [] else AllMints(account, s, n - 1) + [Signing(account, s, n - 1)]
  }

  /** Every run has such a history. */
  lemma MintsAreHistories(c: S.Config, states: seq<S.State>, events: seq<S.Event>, n: nat, account: A.Authority)
    returns (log: A.History, origin: seq<nat>)
    requires IsRun(S.System(c), states, events) && n < |states|
    ensures |log| == |states[n].minted| && A.IsHistory({account.key}, log) && MintedBy(account, states[n], log, origin)
  {
    S.MintsAlwaysKnown(c, states, events, n);
    S.MintsAlwaysFit(c, states, events, n);
    var s := states[n];
    log := AllMints(account, s, |s.minted|);
    origin := seq(|log|, k => k);
    forall i | 0 <= i < |log| ensures A.Fits({account.key}, log[..i], log[i]) {
      var session, m := s.sessions[s.minted[i].id], s.minted[i];
      assert log[i].made == A.Issue(account, IdentityOf(session), session.audience, m.issuedAt, m.expiresAt);
    }
  }
}
