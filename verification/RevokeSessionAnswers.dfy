/**
  When `revoke_session` answers that it revoked a session: it reads, then updates. A caller between
  the two is pending; one whose update never happens stays so.
 */
module RevokeSessionAnswers {
  import opened Prelude
  import opened Runs
  import opened Accounts
  import opened SessionInterleaving

  function PendingOn(s: State, id: string): set<Pid> { set p | p in s.revokes && s.revokes[p] == id }

  function PendingIn(s: State, id: string, group: set<Pid>): set<Pid> { set p | p in PendingOn(s, id) && p in group }

  /** The answers that claim to have revoked this session. */
  function TrueAnswers(s: State, id: string): set<nat> {
    set k: nat | k < |s.answers| && s.answers[k] == SessionRevoked(id, true)
  }

  lemma OneMoreAnswer(s: State, s': State, a: Answer, id: string)
    requires s'.answers == s.answers + [a]
    ensures TrueAnswers(s', id) == TrueAnswers(s, id) + if a == SessionRevoked(id, true) then {|s.answers|} else {}
    ensures |TrueAnswers(s', id)| == |TrueAnswers(s, id)| + if a == SessionRevoked(id, true) then 1 else 0
  {
    var more: set<nat> := if a == SessionRevoked(id, true) then {|s.answers|} else {};
    assert TrueAnswers(s', id) == TrueAnswers(s, id) + more;
    assert |s.answers| !in TrueAnswers(s, id);
  }

  lemma SameAnswers(s: State, s': State, id: string)
    requires s'.answers == s.answers
    ensures TrueAnswers(s', id) == TrueAnswers(s, id)
  {
  }

  /** What has happened or is bound to: true answers given, and callers of the group still pending. */
  function Bound(s: State, id: string, group: set<Pid>): nat {
    |TrueAnswers(s, id)| + |PendingIn(s, id, group)|
  }

  /** Once someone was told so, the session is revoked; callers are pending on sessions that exist. */
  ghost predicate TruesFit(s: State, id: string) {
    && (PendingOn(s, id) != {} ==> id in s.sessions)
    && (TrueAnswers(s, id) != {} ==> id in s.sessions && s.sessions[id].revokedAt.Some?)
  }

  lemma WriteAnswersTrue(s: State, p: Pid, s': State, id: string, group: set<Pid>)
    requires RevokeStep(s, WriteRevoked(p), s') && s.revokes[p] == id
    ensures |TrueAnswers(s', id)| == |TrueAnswers(s, id)| + 1 && PendingOn(s', id) == PendingOn(s, id) - {p}
    ensures |PendingIn(s', id, group)| >= |PendingIn(s, id, group)| - 1
    ensures |PendingOn(s', id)| == |PendingOn(s, id)| - 1
    ensures id in s.sessions ==> id in s'.sessions && s'.sessions[id].revokedAt.Some?
  {
    OneMoreAnswer(s, s', SessionRevoked(id, true), id);
    assert PendingIn(s', id, group) == PendingIn(s, id, group) - {p};
  }

  /** A step of another caller, or for another session, leaves the pending callers or adds one. */
  lemma OtherStep(s: State, e: RevokeEvent, s': State, id: string)
    requires RevokeStep(s, e, s') && !(e.WriteRevoked? && s.revokes[e.p] == id)
    ensures |TrueAnswers(s', id)| == |TrueAnswers(s, id)| && (TrueAnswers(s, id) == {} <==> TrueAnswers(s', id) == {})
    ensures PendingOn(s, id) <= PendingOn(s', id)
    ensures PendingOn(s', id) != PendingOn(s, id) ==> id in s.sessions && s.sessions[id].revokedAt.None?
    ensures PendingOn(s', id) == PendingOn(s, id) || exists p :: PendingOn(s', id) == PendingOn(s, id) + {p}
  {
    if s'.answers != s.answers {
      OneMoreAnswer(s, s', s'.answers[|s.answers|], id);
    } else {
      SameAnswers(s, s', id);
    }
    if e.ReadRevoked? && e.id == id && s'.answers == s.answers {
      assert PendingOn(s', id) == PendingOn(s, id) + {e.p};
    } else {
      assert PendingOn(s', id) == PendingOn(s, id);
    }
  }

  lemma NotRevoking(c: Config, s: State, e: Event, s': State, id: string)
    requires Step(c, s, e, s') && !e.OfRevoke?
    ensures TrueAnswers(s', id) == TrueAnswers(s, id) && PendingOn(s', id) == PendingOn(s, id)
  {
    AnsweringIsRevoking(c, s, e, s');
  }

  lemma StepKeepsTrues(c: Config, s: State, e: Event, s': State, id: string)
    requires TruesFit(s, id) && Step(c, s, e, s') && Preserved(s, s')
    ensures TruesFit(s', id)
  {
    if !e.OfRevoke? {
      NotRevoking(c, s, e, s', id);
    } else if e.revoke.WriteRevoked? && s.revokes[e.revoke.p] == id {
      assert e.revoke.p in PendingOn(s, id);
      WriteAnswersTrue(s, e.revoke.p, s', id, {});
    } else {
      OtherStep(s, e.revoke, s', id);
    }
  }

  /** No step loses what is bound to be answered. */
  lemma StepKeepsBound(c: Config, s: State, e: Event, s': State, id: string, group: set<Pid>)
    requires Step(c, s, e, s')
    ensures Bound(s', id, group) >= Bound(s, id, group)
  {
    if !e.OfRevoke? {
      NotRevoking(c, s, e, s', id);
    } else if e.revoke.WriteRevoked? && s.revokes[e.revoke.p] == id {
      WriteAnswersTrue(s, e.revoke.p, s', id, group);
    } else {
      OtherStep(s, e.revoke, s', id);
      SubsetSize(PendingIn(s, id, group), PendingIn(s', id, group));
    }
  }

  lemma NextKeepsTrues(c: Config, states: seq<State>, events: seq<Event>, n: nat, id: string)
    requires IsRun(System(c), states, events) && n < |events| && TruesFit(states[n], id)
    ensures TruesFit(states[n + 1], id)
  {
    NextPreserves(c, states, events, n);
    StepKeepsTrues(c, states[n], events[n], states[n + 1], id);
  }

  lemma NextKeepsBound(c: Config, states: seq<State>, events: seq<Event>, n: nat, id: string, group: set<Pid>)
    requires IsRun(System(c), states, events) && n < |events|
    ensures Bound(states[n + 1], id, group) >= Bound(states[n], id, group)
  {
    StepKeepsBound(c, states[n], events[n], states[n + 1], id, group);
  }

  lemma {:induction false} TruesAlwaysFit(c: Config, states: seq<State>, events: seq<Event>, n: nat, id: string)
    requires IsRun(System(c), states, events) && n < |states|
    ensures TruesFit(states[n], id)
  {
    if n > 0 {
      TruesAlwaysFit(c, states, events, n - 1, id);
      NextKeepsTrues(c, states, events, n - 1, id);
    }
  }

  lemma {:induction false} BoundGrows(
      c: Config, states: seq<State>, events: seq<Event>, i: nat, n: nat, id: string, group: set<Pid>)
    requires IsRun(System(c), states, events) && i <= n < |states|
    ensures Bound(states[n], id, group) >= Bound(states[i], id, group)
    decreases n
  {
    if i < n {
      BoundGrows(c, states, events, i, n - 1, id, group);
      NextKeepsBound(c, states, events, n - 1, id, group);
    }
  }

  /** Of the callers pending at once, all that have stopped waiting were told that they revoked the session. */
  lemma OverlapAllAnsweredTrue(
      c: Config, states: seq<State>, events: seq<Event>, i: nat, n: nat, id: string, group: set<Pid>)
    requires IsRun(System(c), states, events) && i <= n < |states|
    requires group <= PendingOn(states[i], id) && PendingOn(states[n], id) !! group
    ensures |TrueAnswers(states[n], id)| >= |group|
  {
    BoundGrows(c, states, events, i, n, id, group);
    assert PendingIn(states[i], id, group) == group;
    assert PendingIn(states[n], id, group) == {};
  }

  ghost predicate NoOverlap(states: seq<State>, n: nat, id: string)
    requires n < |states|
  {
    forall i | 0 <= i <= n :: |PendingOn(states[i], id)| <= 1
  }

  lemma StepWithoutOverlap(c: Config, s: State, e: Event, s': State, id: string)
    requires Step(c, s, e, s') && TruesFit(s, id) && |PendingOn(s', id)| <= 1
    requires |TrueAnswers(s, id)| + |PendingOn(s, id)| <= 1
    ensures |TrueAnswers(s', id)| + |PendingOn(s', id)| <= 1
  {
    if !e.OfRevoke? {
      NotRevoking(c, s, e, s', id);
    } else if e.revoke.WriteRevoked? && s.revokes[e.revoke.p] == id {
      WriteAnswersTrue(s, e.revoke.p, s', id, {});
    } else {
      OtherStep(s, e.revoke, s', id);
    }
  }

  lemma NextWithoutOverlap(c: Config, states: seq<State>, events: seq<Event>, n: nat, id: string)
    requires IsRun(System(c), states, events) && n < |events| && |PendingOn(states[n + 1], id)| <= 1
    requires |TrueAnswers(states[n], id)| + |PendingOn(states[n], id)| <= 1
    ensures |TrueAnswers(states[n + 1], id)| + |PendingOn(states[n + 1], id)| <= 1
  {
    TruesAlwaysFit(c, states, events, n, id);
    StepWithoutOverlap(c, states[n], events[n], states[n + 1], id);
  }

  lemma {:induction false} OnceWithoutOverlap(c: Config, states: seq<State>, events: seq<Event>, n: nat, id: string)
    requires IsRun(System(c), states, events) && n < |states| && NoOverlap(states, n, id)
    ensures |TrueAnswers(states[n], id)| + |PendingOn(states[n], id)| <= 1
  {
    if n > 0 {
      OnceWithoutOverlap(c, states, events, n - 1, id);
      NextWithoutOverlap(c, states, events, n - 1, id);
    } else {
      assert states[0].answers == [];
      assert TrueAnswers(states[0], id) == {};
    }
  }

  /** If no two callers ever overlap on a session, at most one is ever told that it revoked it. */
  lemma SessionRevokedOnce(c: Config, states: seq<State>, events: seq<Event>, n: nat, id: string, j: nat, k: nat)
    requires IsRun(System(c), states, events) && n < |states| && NoOverlap(states, n, id)
    requires j in TrueAnswers(states[n], id) && k in TrueAnswers(states[n], id)
    ensures j == k
  {
    OnceWithoutOverlap(c, states, events, n, id);
    if j != k {
      SubsetSize({j, k}, TrueAnswers(states[n], id));
    }
  }

  /**
    With no caller left pending, at most one was told that it revoked the session exactly when no
    two callers ever overlapped on it.
   */
  lemma SessionRevokedOnceIff(c: Config, states: seq<State>, events: seq<Event>, n: nat, id: string)
    requires IsRun(System(c), states, events) && n < |states| && PendingOn(states[n], id) == {}
    ensures |TrueAnswers(states[n], id)| <= 1 <==> NoOverlap(states, n, id)
  {
    if NoOverlap(states, n, id) {
      OnceWithoutOverlap(c, states, events, n, id);
    }
    if |TrueAnswers(states[n], id)| <= 1 {
      forall i | 0 <= i <= n ensures |PendingOn(states[i], id)| <= 1 {
        OverlapAllAnsweredTrue(c, states, events, i, n, id, PendingOn(states[i], id));
      }
    }
  }
}
