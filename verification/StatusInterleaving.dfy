/** What a committed status change means for the issues that run beside and after it. */
module StatusInterleaving {
  import opened Prelude
  import opened Runs
  import opened Accounts
  import opened SessionInterleaving

  /** This event commits a change that writes the subject's row. */
  ghost predicate Writes(s: State, e: Event, subject: string) {
    && e.OfChange? && e.change.CommitChange? && e.change.p in s.changes
    && s.changes[e.change.p].matched && s.changes[e.change.p].subject == subject
  }

  /** No event from i to j - 1 writes the subject's row. */
  ghost predicate Undisturbed(states: seq<State>, events: seq<Event>, i: nat, j: nat, subject: string)
    requires |states| == |events| + 1 && j <= |events|
  {
    forall k {:trigger Writes(states[k], events[k], subject)} | i <= k < j :: !Writes(states[k], events[k], subject)
  }

  lemma ChangeKeepsRow(s: State, e: ChangeEvent, s': State, subject: string)
    requires ChangeStep(s, e, s') && subject in s.subjects && !Writes(s, OfChange(e), subject)
    ensures subject in s'.subjects && s'.subjects[subject] == s.subjects[subject]
  {
  }

  lemma IssueTouchesNoRow(s: State, e: IssueEvent, s': State)
    requires IssueStep(s, e, s')
    ensures s'.subjects == s.subjects && s'.changes == s.changes
  {
  }

  lemma RevokeTouchesNoRow(s: State, e: RevokeEvent, s': State)
    requires RevokeStep(s, e, s')
    ensures s'.subjects == s.subjects && s'.changes == s.changes
  {
  }

  lemma AuthTouchesNoRow(c: Config, s: State, e: AuthEvent, s': State)
    requires AuthStep(c, s, e, s')
    ensures s'.subjects == s.subjects && s'.changes == s.changes
  {
  }

  lemma OthersTouchNoRow(c: Config, s: State, e: Event, s': State)
    requires Step(c, s, e, s') && !e.OfChange?
    ensures s'.changes == s.changes
    ensures forall id | id in s.subjects :: id in s'.subjects && s'.subjects[id] == s.subjects[id]
  {
    match e
    case OfIssue(x) => IssueTouchesNoRow(s, x, s');
    case OfRevoke(x) => RevokeTouchesNoRow(s, x, s');
    case OfAuth(x) => AuthTouchesNoRow(c, s, x, s');
    case _ =>
  }

  lemma StepKeepsRow(c: Config, s: State, e: Event, s': State, subject: string)
    requires Step(c, s, e, s') && subject in s.subjects && !Writes(s, e, subject)
    ensures subject in s'.subjects && s'.subjects[subject] == s.subjects[subject]
  {
    match e
    case OfChange(x) => ChangeKeepsRow(s, x, s', subject);
    case _ => OthersTouchNoRow(c, s, e, s');
  }

  lemma NextKeepsRow(c: Config, states: seq<State>, events: seq<Event>, n: nat, subject: string)
    requires IsRun(System(c), states, events) && n < |events|
    requires subject in states[n].subjects && !Writes(states[n], events[n], subject)
    ensures subject in states[n + 1].subjects && states[n + 1].subjects[subject] == states[n].subjects[subject]
  {
    StepKeepsRow(c, states[n], events[n], states[n + 1], subject);
  }

  /** The subject, if there before the event, has the same row after it. */
  ghost predicate RowKept(s: State, s': State, subject: string) {
    subject in s.subjects ==> subject in s'.subjects && s'.subjects[subject] == s.subjects[subject]
  }

  lemma QuietEventKeepsRow(
      c: Config, states: seq<State>, events: seq<Event>, i: nat, j: nat, k: nat, subject: string)
    requires IsRun(System(c), states, events) && i <= k < j <= |events| && Undisturbed(states, events, i, j, subject)
    ensures RowKept(states[k], states[k + 1], subject)
  {
    if subject in states[k].subjects {
      NextKeepsRow(c, states, events, k, subject);
    }
  }

  lemma {:induction false} RowKeptThrough(states: seq<State>, i: nat, j: nat, subject: string)
    requires i <= j < |states| && subject in states[i].subjects
    requires forall k | i <= k < j :: RowKept(states[k], states[k + 1], subject)
    ensures subject in states[j].subjects && states[j].subjects[subject] == states[i].subjects[subject]
    decreases j
  {
    if i < j {
      RowKeptThrough(states, i, j - 1, subject);
      assert RowKept(states[j - 1], states[j - 1 + 1], subject);
    }
  }

  /** A row stands until a change of it commits. */
  lemma RowStands(c: Config, states: seq<State>, events: seq<Event>, i: nat, j: nat, subject: string)
    requires IsRun(System(c), states, events) && i <= j <= |events| && subject in states[i].subjects
    requires Undisturbed(states, events, i, j, subject)
    ensures subject in states[j].subjects && states[j].subjects[subject] == states[i].subjects[subject]
  {
    forall k | i <= k < j ensures RowKept(states[k], states[k + 1], subject) {
      QuietEventKeepsRow(c, states, events, i, j, k, subject);
    }
    RowKeptThrough(states, i, j, subject);
  }

  // ---- A change that holds the row still finds it as it matched it --------------------------

  ghost predicate StillMatched(s: State) {
    forall p | p in s.changes && s.changes[p].matched ::
      s.changes[p].subject in s.subjects && Matches(s.changes[p].c, s.subjects[s.changes[p].subject])
  }

  lemma ChangeKeepsMatched(s: State, e: ChangeEvent, s': State)
    requires LocksFit(s) && StillMatched(s) && ChangeStep(s, e, s')
    ensures StillMatched(s')
  {
  }

  lemma StepKeepsMatched(c: Config, s: State, e: Event, s': State)
    requires LocksFit(s) && StillMatched(s) && Step(c, s, e, s')
    ensures StillMatched(s')
  {
    match e
    case OfChange(x) => ChangeKeepsMatched(s, x, s');
    case _ => OthersTouchNoRow(c, s, e, s');
  }

  lemma {:induction false} AlwaysMatched(c: Config, states: seq<State>, events: seq<Event>, n: nat)
    requires IsRun(System(c), states, events) && n < |states|
    ensures StillMatched(states[n])
  {
    if n > 0 {
      AlwaysMatched(c, states, events, n - 1);
      InvAlways(c, states, events, n - 1);
      StepKeepsMatched(c, states[n - 1], events[n - 1], states[n]);
    }
  }

  // ---- Over whole runs --------------------------------------------------------------------

  /** The end a disabling change asks for: its own, or none for the operator's. */
  function EndOf(change: Change): Option<int> { if change.SetStatus? then change.until else None }

  predicate Disables(change: Change) { change.OperatorDisable? || change.status == Disabled }

  /** A disable that commits a write leaves the subject disabled until the end it asked for. */
  lemma DisableCommits(c: Config, states: seq<State>, events: seq<Event>, n: nat, p: Pid)
    requires IsRun(System(c), states, events) && n < |events| && events[n] == OfChange(CommitChange(p))
    requires p in states[n].changes && states[n].changes[p].matched && Disables(states[n].changes[p].c)
    ensures
      var t := states[n].changes[p];
      && t.subject in states[n + 1].subjects
      && states[n + 1].subjects[t.subject].status == Disabled && states[n + 1].subjects[t.subject].until == EndOf(t.c)
  {
    InvAlways(c, states, events, n);
    AlwaysMatched(c, states, events, n);
    assert Step(c, states[n], events[n], states[n + 1]);
  }

  /** A disable whose UPDATE hits nothing found the row of an existing subject as it asks for. */
  lemma DisableFoundDone(
      c: Config, states: seq<State>, events: seq<Event>, n: nat, p: Pid, reason: Option<string>, until: Option<int>)
    requires IsRun(System(c), states, events) && n < |events| && events[n] == OfChange(UpdateSubject(p))
    requires p in states[n].changes && states[n].changes[p].c == SetStatus(Disabled, reason, until)
    requires states[n].changes[p].subject in states[n].subjects
    requires p in states[n + 1].changes && !states[n + 1].changes[p].matched
    ensures states[n + 1].subjects == states[n].subjects
    ensures states[n].subjects[states[n].changes[p].subject] == Subject(Disabled, reason, until)
  {
    assert Step(c, states[n], events[n], states[n + 1]);
  }

  /** While a row says disabled, only an issue that began at or after its end commits. */
  lemma RowBarsIssue(c: Config, states: seq<State>, events: seq<Event>, i: nat, j: nat, q: Pid, until: Option<int>)
    requires IsRun(System(c), states, events) && i <= j < |events| && events[j] == OfIssue(CommitIssue(q))
    requires q in states[j].issues && states[j].issues[q].session.subject in states[i].subjects
    requires states[i].subjects[states[j].issues[q].session.subject].status == Disabled
    requires states[i].subjects[states[j].issues[q].session.subject].until == until
    requires Undisturbed(states, events, i, j, states[j].issues[q].session.subject)
    ensures until.Some? && until.value <= states[j].issues[q].at
  {
    RowStands(c, states, events, i, j, states[j].issues[q].session.subject);
    InvAlways(c, states, events, j);
    assert Step(c, states[j], events[j], states[j + 1]);
  }

  /**
    Between a committed disable and the next committed change of its subject, no issue commits that
    began before the end of the disable; without an end, none commits at all.
   */
  lemma DisableBarsIssue(c: Config, states: seq<State>, events: seq<Event>, i: nat, p: Pid, j: nat, q: Pid)
    requires IsRun(System(c), states, events) && i < j < |events| && events[i] == OfChange(CommitChange(p))
    requires p in states[i].changes && states[i].changes[p].matched && Disables(states[i].changes[p].c)
    requires events[j] == OfIssue(CommitIssue(q)) && q in states[j].issues
    requires states[j].issues[q].session.subject == states[i].changes[p].subject
    requires Undisturbed(states, events, i + 1, j, states[i].changes[p].subject)
    ensures EndOf(states[i].changes[p].c).Some? && EndOf(states[i].changes[p].c).value <= states[j].issues[q].at
  {
    DisableCommits(c, states, events, i, p);
    RowBarsIssue(c, states, events, i + 1, j, q, EndOf(states[i].changes[p].c));
  }

  /** After a committed activation, and until the next committed change, no issue is refused for the status. */
  lemma ActivationAdmits(c: Config, states: seq<State>, events: seq<Event>, i: nat, p: Pid, j: nat, q: Pid)
    requires IsRun(System(c), states, events) && i < j < |events| && events[i] == OfChange(CommitChange(p))
    requires p in states[i].changes && states[i].changes[p].matched && !Disables(states[i].changes[p].c)
    requires events[j] == OfIssue(LockSubject(q)) && q in states[j].issues
    requires states[j].issues[q].session.subject == states[i].changes[p].subject
    requires Undisturbed(states, events, i + 1, j, states[i].changes[p].subject)
    ensures q in states[j + 1].issues && states[j + 1].issues[q].stage == Cleared
  {
    AlwaysMatched(c, states, events, i);
    ActivationCommits(c, states, events, i, p);
    RowStands(c, states, events, i + 1, j, states[i].changes[p].subject);
    assert Step(c, states[j], events[j], states[j + 1]);
  }

  lemma ActivationCommits(c: Config, states: seq<State>, events: seq<Event>, n: nat, p: Pid)
    requires IsRun(System(c), states, events) && n < |events| && events[n] == OfChange(CommitChange(p))
    requires StillMatched(states[n])
    requires p in states[n].changes && states[n].changes[p].matched && !Disables(states[n].changes[p].c)
    ensures states[n].changes[p].subject in states[n + 1].subjects
    ensures states[n + 1].subjects[states[n].changes[p].subject] == Subject(Active, None, None)
  {
    assert Step(c, states[n], events[n], states[n + 1]);
  }

  // ---- A change served alone --------------------------------------------------------------

  lemma ChangeUpdates(c: Config, s: State, p: Pid, subject: string, change: Change) returns (s': State)
    requires Reachable(System(c), s) && p !in s.changes && subject in s.subjects && subject !in s.owner
    ensures Reachable(System(c), s')
    ensures
      var matched := Matches(change, s.subjects[subject]);
      s' == s.(changes := s.changes[p := Changing(subject, change, s.now, Written, matched, {})],
               owner := if matched then s.owner[subject := ByChange(p)] else s.owner)
  {
    var begun := Changing(subject, change, s.now, Opened, false, {});
    var s1 := s.(changes := s.changes[p := begun]);
    Runs.Extend(System(c), s, OfChange(BeginChange(p, subject, change)), s1);
    var matched := Matches(change, s.subjects[subject]);
    s' := s.(changes := s.changes[p := Changing(subject, change, s.now, Written, matched, {})],
             owner := if matched then s.owner[subject := ByChange(p)] else s.owner);
    Runs.Extend(System(c), s1, OfChange(UpdateSubject(p)), s');
  }

  lemma SweepServed(c: Config, s: State, p: Pid) returns (s': State)
    requires Reachable(System(c), s) && p in s.changes && s.changes[p].stage == Written && s.changes[p].hit == {}
    requires Unlocked(s, LiveOf(s.sessions, s.changes[p].subject))
    ensures Reachable(System(c), s')
    ensures
      var t := s.changes[p];
      s' == s.(changes := s.changes[p := t.(
        stage := Swept, hit := if Revokes(t.c) then LiveOf(s.sessions, t.subject) else {})])
  {
    var t := s.changes[p];
    s' := s.(changes := s.changes[p := t.(
      stage := Swept, hit := if Revokes(t.c) then LiveOf(s.sessions, t.subject) else {})]);
    Runs.Extend(System(c), s, OfChange(SweepSessions(p)), s');
  }

  lemma CommitServed(c: Config, s: State, p: Pid) returns (s': State)
    requires Reachable(System(c), s) && p in s.changes && s.changes[p].stage == Swept
    requires s.changes[p].subject in s.subjects
    ensures Reachable(System(c), s')
    ensures
      var t := s.changes[p];
      s' == s.(
        subjects := if t.matched then s.subjects[t.subject := Applied(t.c, s.subjects[t.subject])] else s.subjects,
        sessions := Revoked(s.sessions, t.hit, t.at), changes := s.changes - {p}, owner := OwnerAfterChange(s, t))
  {
    var t := s.changes[p];
    s' := s.(
      subjects := if t.matched then s.subjects[t.subject := Applied(t.c, s.subjects[t.subject])] else s.subjects,
      sessions := Revoked(s.sessions, t.hit, t.at), changes := s.changes - {p}, owner := OwnerAfterChange(s, t));
    Runs.Extend(System(c), s, OfChange(CommitChange(p)), s');
  }

  function Tables(s: State, subject: string, change: Change): State
    requires subject in s.subjects
  {
    s.(subjects := s.subjects[subject := RowAfter(change, s.subjects[subject])],
       sessions := if Revokes(change) then Revoked(s.sessions, LiveOf(s.sessions, subject), s.now) else s.sessions)
  }

  lemma LeavesTables(s: State, t: Changing, subjects: Subjects, sessions: Sessions)
    requires t.subject in s.subjects && t.matched == Matches(t.c, s.subjects[t.subject]) && t.at == s.now
    requires t.hit == if Revokes(t.c) then LiveOf(s.sessions, t.subject) else {}
    requires subjects == if t.matched then s.subjects[t.subject := Applied(t.c, s.subjects[t.subject])] else s.subjects
    requires sessions == Revoked(s.sessions, t.hit, t.at)
    ensures Tables(s, t.subject, t.c) == s.(subjects := subjects, sessions := sessions)
  {
    assert Revoked(s.sessions, {}, s.now) == s.sessions;
    assert !t.matched ==> s.subjects[t.subject := s.subjects[t.subject]] == s.subjects;
  }

  lemma StillUnlocked(s: State, s': State, p: Pid, ids: set<string>)
    requires Unlocked(s, ids) && p in s'.changes && s'.changes[p].hit == {}
    requires s'.changes == s.changes[p := s'.changes[p]]
    ensures Unlocked(s', ids)
  {
  }

  lemma Released(s: State, p: Pid, t: Changing)
    requires p !in s.changes && t.subject !in s.owner
    ensures s.changes[p := t] - {p} == s.changes
    ensures s.owner[t.subject := ByChange(p)] - {t.subject} == s.owner
  {
  }

  /** A change that nothing hinders goes through, and leaves the tables the store leaves. */
  lemma ChangeServed(c: Config, s: State, p: Pid, subject: string, change: Change) returns (s': State)
    requires Reachable(System(c), s) && p !in s.changes && subject in s.subjects && subject !in s.owner
    requires Unlocked(s, LiveOf(s.sessions, subject))
    ensures Reachable(System(c), s') && s' == Tables(s, subject, change)
  {
    var s2 := ChangeUpdates(c, s, p, subject, change);
    StillUnlocked(s, s2, p, LiveOf(s.sessions, subject));
    var s3 := SweepServed(c, s2, p);
    s' := CommitServed(c, s3, p);
    var t := s3.changes[p];
    Released(s, p, t);
    assert s3.changes == s.changes[p := t];
    LeavesTables(s, t, s'.subjects, s'.sessions);
  }
}
