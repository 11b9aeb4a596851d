/**
  Session issue, status changes, the operator's disable, revocations and authentications of any
  number of callers, interleaved statement by statement under READ COMMITTED with row locks.
 */
module SessionInterleaving {
  import opened Prelude
  import opened Runs
  import opened Accounts

  type Pid = nat

  /**
    `ttl` of assertions, as the configuration admits it, and `lag`: the longest from loading a session
    to reading the clock.
   */
  type Ttl = seconds: int | 1 <= seconds <= 3600 witness 1

  datatype Config = Config(ttl: Ttl, lag: nat)

  /** An open issue transaction: begun, past the status check under the lock, or with its row stored. */
  datatype IssueStage = Begun | Cleared | Stored
  datatype Issue = Issue(id: string, session: Session, at: int, stage: IssueStage)

  /** An open status change or operator disable: `matched` says whether its UPDATE hit the row. */
  datatype ChangeStage = Opened | Written | Swept
  datatype Changing = Changing(subject: string, c: Change, at: int, stage: ChangeStage, matched: bool, hit: set<string>)

  /** Who has a subject row locked. */
  datatype Holder = ByIssue(p: Pid) | ByChange(p: Pid)

  /** A session an authentication has loaded but not yet minted from. */
  datatype Loaded = Loaded(id: string, expiresAt: int, at: int)

  /** An assertion minted from a session: when the session was loaded, issue time, expiry. */
  datatype Mint = Mint(id: string, loadedAt: int, issuedAt: int, expiresAt: int)

  datatype Answer = SessionRevoked(id: string, changed: bool) | CredentialRevoked(digest: Digest, changed: bool)

  datatype State = State(
    subjects: Subjects, sessions: Sessions, owner: map<string, Holder>, now: int,
    issues: map<Pid, Issue>, changes: map<Pid, Changing>, revokes: map<Pid, string>, loads: map<Pid, Loaded>,
    minted: seq<Mint>, answers: seq<Answer>)

  datatype IssueEvent =
    | BeginIssue(p: Pid, id: string, session: Session)
    | LockSubject(p: Pid)
    | Insert(p: Pid)
    | CommitIssue(p: Pid)
    | DropIssue(p: Pid)

  datatype ChangeEvent =
    | BeginChange(p: Pid, subject: string, c: Change)
    | UpdateSubject(p: Pid)
    | SweepSessions(p: Pid)
    | CommitChange(p: Pid)
    | DropChange(p: Pid)

  datatype RevokeEvent =
    | ReadRevoked(p: Pid, id: string)
    | WriteRevoked(p: Pid)
    | RevokeByDigest(digest: Digest)

  datatype AuthEvent =
    | Load(p: Pid, id: string)
    | MintAssertion(p: Pid)

  datatype Event =
    | Tick(later: int)
    | CreateSubject(subject: string)
    | OfIssue(issue: IssueEvent)
    | OfChange(change: ChangeEvent)
    | OfRevoke(revoke: RevokeEvent)
    | OfAuth(auth: AuthEvent)

  /** No open change has one of these session rows locked. */
  ghost predicate Unlocked(s: State, ids: set<string>) {
    forall p | p in s.changes :: s.changes[p].hit !! ids
  }

  /** Ending an issue transaction releases the row it locked. */
  function OwnerAfterIssue(s: State, t: Issue): map<string, Holder> {
    if t.stage == Begun then s.owner else s.owner - {t.session.subject}
  }

  function OwnerAfterChange(s: State, t: Changing): map<string, Holder> {
    if t.matched then s.owner - {t.subject} else s.owner
  }

  ghost predicate IssueStep(s: State, e: IssueEvent, s': State) {
    match e
    case BeginIssue(p, id, session) =>
      p !in s.issues && session.revokedAt.None? && s' == s.(issues := s.issues[p := Issue(id, session, s.now, Begun)])
    case LockSubject(p) =>
      && p in s.issues && s.issues[p].stage == Begun
      && var t := s.issues[p];
      var subject := t.session.subject;
      if subject !in s.subjects then s' == s.(issues := s.issues - {p})
      else
        && subject !in s.owner
        && if EffectivelyDisabled(s.subjects[subject], t.at) then s' == s.(issues := s.issues - {p})
           else s' == s.(issues := s.issues[p := t.(stage := Cleared)], owner := s.owner[subject := ByIssue(p)])
    case Insert(p) =>
      && p in s.issues && s.issues[p].stage == Cleared
      && s' == s.(issues := s.issues[p := s.issues[p].(stage := Stored)])
    case CommitIssue(p) =>
      && p in s.issues && s.issues[p].stage == Stored
      && var t := s.issues[p];
      && t.id !in s.sessions && (forall k | k in s.sessions :: s.sessions[k].digest != t.session.digest)
      && s' == s.(sessions := s.sessions[t.id := t.session], issues := s.issues - {p}, owner := OwnerAfterIssue(s, t))
    case DropIssue(p) =>
      p in s.issues && s' == s.(issues := s.issues - {p}, owner := OwnerAfterIssue(s, s.issues[p]))
  }

  ghost predicate ChangeStep(s: State, e: ChangeEvent, s': State) {
    match e
    case BeginChange(p, subject, c) =>
      p !in s.changes && s' == s.(changes := s.changes[p := Changing(subject, c, s.now, Opened, false, {})])
    case UpdateSubject(p) =>
      && p in s.changes && s.changes[p].stage == Opened
      && var t := s.changes[p];
      if t.subject in s.subjects && Matches(t.c, s.subjects[t.subject]) then
        && t.subject !in s.owner
        && s' == s.(changes := s.changes[p := t.(stage := Written, matched := true)],
            owner := s.owner[t.subject := ByChange(p)])
      else s' == s.(changes := s.changes[p := t.(stage := Written)])
    case SweepSessions(p) =>
      && p in s.changes && s.changes[p].stage == Written
      && var t := s.changes[p];
      var hit := if Revokes(t.c) then LiveOf(s.sessions, t.subject) else {};
      && Unlocked(s, hit)
      && s' == s.(changes := s.changes[p := t.(stage := Swept, hit := hit)])
    case CommitChange(p) =>
      && p in s.changes && s.changes[p].stage == Swept
      && var t := s.changes[p];
      s' == s.(
        subjects := if t.matched && t.subject in s.subjects
                    then s.subjects[t.subject := Applied(t.c, s.subjects[t.subject])] else s.subjects,
        sessions := Revoked(s.sessions, t.hit, t.at),
        changes := s.changes - {p}, owner := OwnerAfterChange(s, t))
    case DropChange(p) =>
      p in s.changes && s' == s.(changes := s.changes - {p}, owner := OwnerAfterChange(s, s.changes[p]))
  }

  ghost predicate RevokeStep(s: State, e: RevokeEvent, s': State) {
    match e
    case ReadRevoked(p, id) =>
      && p !in s.revokes && id in s.sessions
      && if s.sessions[id].revokedAt.Some? then s' == s.(answers := s.answers + [SessionRevoked(id, false)])
         else s' == s.(revokes := s.revokes[p := id])
    case WriteRevoked(p) =>
      && p in s.revokes && Unlocked(s, {s.revokes[p]})
      && var id := s.revokes[p];
      var hit := if id in s.sessions && s.sessions[id].revokedAt.None? then {id} else {};
      s' == s.(sessions := Revoked(s.sessions, hit, s.now), revokes := s.revokes - {p},
               answers := s.answers + [SessionRevoked(id, true)])
    case RevokeByDigest(digest) =>
      var hit := LiveWith(s.sessions, digest);
      && WithDigest(s.sessions, digest) != {} && Unlocked(s, hit)
      && s' == s.(sessions := Revoked(s.sessions, hit, s.now),
                  answers := s.answers + [CredentialRevoked(digest, hit != {})])
  }

  ghost predicate AuthStep(c: Config, s: State, e: AuthEvent, s': State) {
    match e
    case Load(p, id) =>
      && p !in s.loads && Usable(s.subjects, s.sessions, id, s.now)
      && s' == s.(loads := s.loads[p := Loaded(id, s.sessions[id].expiresAt, s.now)])
    case MintAssertion(p) =>
      && p in s.loads
      && var t := s.loads[p];
      && s.now - t.at <= c.lag && s.now < t.expiresAt
      && var expires := if t.expiresAt < s.now + c.ttl then t.expiresAt else s.now + c.ttl;
      s' == s.(loads := s.loads - {p}, minted := s.minted + [Mint(t.id, t.at, s.now, expires)])
  }

  ghost predicate Step(c: Config, s: State, e: Event, s': State) {
    match e
    case Tick(later) => s.now <= later && s' == s.(now := later)
    case CreateSubject(subject) =>
      subject !in s.subjects && s' == s.(subjects := s.subjects[subject := Subject(Active, None, None)])
    case OfIssue(issue) => IssueStep(s, issue, s')
    case OfChange(change) => ChangeStep(s, change, s')
    case OfRevoke(revoke) => RevokeStep(s, revoke, s')
    case OfAuth(auth) => AuthStep(c, s, auth, s')
  }

  ghost predicate Init(s: State) {
    s == State(map[], map[], map[], s.now, map[], map[], map[], map[], [], [])
  }

  ghost function System(c: Config): Machine<State, Event> {
    Machine(s => Init(s), (s, e, s') => Step(c, s, e, s'))
  }

  // ---- What every step keeps --------------------------------------------------------------

  /** Locks and the transactions that took them explain each other. */
  ghost predicate LocksFit(s: State) {
    && (forall p | p in s.issues && s.issues[p].stage != Begun ::
          s.issues[p].session.subject in s.owner && s.owner[s.issues[p].session.subject] == ByIssue(p))
    && (forall p | p in s.changes && s.changes[p].matched ::
          s.changes[p].subject in s.owner && s.owner[s.changes[p].subject] == ByChange(p))
    && (forall k | k in s.owner :: k in s.subjects)
  }

  /** Past its check, an issue's subject is active at every moment since the transaction began. */
  ghost predicate IssuesFit(s: State) {
    forall p | p in s.issues ::
      && s.issues[p].session.revokedAt.None? && s.issues[p].at <= s.now
      && (s.issues[p].stage != Begun ==>
            && s.issues[p].session.subject in s.subjects
            && !EffectivelyDisabled(s.subjects[s.issues[p].session.subject], s.issues[p].at))
  }

  /** Rows a change has locked are live rows of its subject, and no row is locked twice. */
  ghost predicate HitsFit(s: State) {
    && (forall p | p in s.changes :: s.changes[p].hit <= LiveOf(s.sessions, s.changes[p].subject))
    && (forall p, q | p in s.changes && q in s.changes && p != q :: s.changes[p].hit !! s.changes[q].hit)
  }

  /** A revoking change that locked the row has, once swept, every live session of the subject in hand. */
  ghost predicate SweepsFit(s: State) {
    forall p | p in s.changes && s.changes[p].stage == Swept && s.changes[p].matched && Revokes(s.changes[p].c) ::
      LiveOf(s.sessions, s.changes[p].subject) <= s.changes[p].hit
  }

  ghost predicate TablesFit(s: State) {
    && SubjectsFit(s.subjects) && SessionsFit(s.subjects, s.sessions)
    && DisabledHaveNone(s.subjects, s.sessions, s.now)
  }

  ghost predicate Inv(s: State) {
    LocksFit(s) && IssuesFit(s) && HitsFit(s) && SweepsFit(s) && TablesFit(s)
  }

  // ---- One family of steps at a time ------------------------------------------------------

  lemma IssueKeepsLocks(s: State, e: IssueEvent, s': State)
    requires LocksFit(s) && IssueStep(s, e, s')
    ensures LocksFit(s')
  {
  }

  lemma IssueKeepsChecks(s: State, e: IssueEvent, s': State)
    requires LocksFit(s) && IssuesFit(s) && IssueStep(s, e, s')
    ensures IssuesFit(s')
  {
  }

  lemma IssueKeepsHits(s: State, e: IssueEvent, s': State)
    requires HitsFit(s) && IssueStep(s, e, s')
    ensures HitsFit(s')
  {
  }

  lemma IssueKeepsSweeps(s: State, e: IssueEvent, s': State)
    requires LocksFit(s) && HitsFit(s) && SweepsFit(s) && IssueStep(s, e, s')
    ensures SweepsFit(s')
  {
  }

  /** The subject was active when the transaction began, so it is active now, and gains a live session. */
  lemma CommitIssueKeepsTables(s: State, p: Pid, s': State)
    requires IssuesFit(s) && TablesFit(s) && IssueStep(s, CommitIssue(p), s')
    ensures TablesFit(s')
  {
    var t := s.issues[p];
    var row := s.subjects[t.session.subject];
    if EffectivelyDisabled(row, s.now) {
      DisabledEarlier(row, t.at, s.now);
      assert false;
    }
  }

  /** Before its commit an issue touches no table. */
  lemma OnlyCommitIssues(s: State, e: IssueEvent, s': State)
    requires IssueStep(s, e, s') && !e.CommitIssue?
    ensures s'.subjects == s.subjects && s'.sessions == s.sessions && s'.now == s.now
  {
  }

  lemma IssueKeepsTables(s: State, e: IssueEvent, s': State)
    requires IssuesFit(s) && TablesFit(s) && IssueStep(s, e, s')
    ensures TablesFit(s')
  {
    match e
    case CommitIssue(p) => CommitIssueKeepsTables(s, p, s');
    case _ => OnlyCommitIssues(s, e, s');
  }

  lemma UpdateKeepsLocks(s: State, p: Pid, s': State)
    requires LocksFit(s) && ChangeStep(s, UpdateSubject(p), s')
    ensures LocksFit(s')
  {
  }

  lemma CommitChangeKeepsLocks(s: State, p: Pid, s': State)
    requires LocksFit(s) && ChangeStep(s, CommitChange(p), s')
    ensures LocksFit(s')
  {
  }

  lemma DropChangeKeepsLocks(s: State, p: Pid, s': State)
    requires LocksFit(s) && ChangeStep(s, DropChange(p), s')
    ensures LocksFit(s')
  {
  }

  lemma ChangeKeepsLocks(s: State, e: ChangeEvent, s': State)
    requires LocksFit(s) && ChangeStep(s, e, s')
    ensures LocksFit(s')
  {
    match e
    case UpdateSubject(p) => UpdateKeepsLocks(s, p, s');
    case CommitChange(p) => CommitChangeKeepsLocks(s, p, s');
    case DropChange(p) => DropChangeKeepsLocks(s, p, s');
    case _ =>
  }

  lemma ChangeKeepsChecks(s: State, e: ChangeEvent, s': State)
    requires LocksFit(s) && IssuesFit(s) && ChangeStep(s, e, s')
    ensures IssuesFit(s')
  {
  }

  lemma SweepKeepsHits(s: State, p: Pid, s': State)
    requires HitsFit(s) && ChangeStep(s, SweepSessions(p), s')
    ensures HitsFit(s')
  {
  }

  lemma CommitChangeKeepsHits(s: State, p: Pid, s': State)
    requires HitsFit(s) && ChangeStep(s, CommitChange(p), s')
    ensures HitsFit(s')
  {
  }

  lemma ChangeKeepsHits(s: State, e: ChangeEvent, s': State)
    requires HitsFit(s) && ChangeStep(s, e, s')
    ensures HitsFit(s')
  {
    match e
    case SweepSessions(p) => SweepKeepsHits(s, p, s');
    case CommitChange(p) => CommitChangeKeepsHits(s, p, s');
    case _ =>
  }

  lemma ChangeKeepsSweeps(s: State, e: ChangeEvent, s': State)
    requires LocksFit(s) && HitsFit(s) && SweepsFit(s) && ChangeStep(s, e, s')
    ensures SweepsFit(s')
  {
  }

  lemma ChangeKeepsTables(s: State, e: ChangeEvent, s': State)
    requires SweepsFit(s) && HitsFit(s) && TablesFit(s) && ChangeStep(s, e, s')
    ensures TablesFit(s')
  {
  }

  lemma RevokeKeepsLocks(s: State, e: RevokeEvent, s': State)
    requires LocksFit(s) && RevokeStep(s, e, s')
    ensures LocksFit(s')
  {
  }

  lemma RevokeKeepsChecks(s: State, e: RevokeEvent, s': State)
    requires LocksFit(s) && IssuesFit(s) && RevokeStep(s, e, s')
    ensures IssuesFit(s')
  {
  }

  lemma RevokeKeepsHits(s: State, e: RevokeEvent, s': State)
    requires HitsFit(s) && RevokeStep(s, e, s')
    ensures HitsFit(s')
  {
  }

  lemma RevokeKeepsSweeps(s: State, e: RevokeEvent, s': State)
    requires LocksFit(s) && HitsFit(s) && SweepsFit(s) && RevokeStep(s, e, s')
    ensures SweepsFit(s')
  {
  }

  lemma RevokeKeepsTables(s: State, e: RevokeEvent, s': State)
    requires HitsFit(s) && TablesFit(s) && RevokeStep(s, e, s')
    ensures TablesFit(s')
  {
  }

  lemma AuthKeepsInv(c: Config, s: State, e: AuthEvent, s': State)
    requires Inv(s) && AuthStep(c, s, e, s')
    ensures Inv(s')
  {
  }

  lemma TickKeepsInv(s: State, later: int)
    requires Inv(s) && s.now <= later
    ensures Inv(s.(now := later))
  {
  }

  lemma CreateKeepsInv(s: State, subject: string)
    requires Inv(s) && subject !in s.subjects
    ensures Inv(s.(subjects := s.subjects[subject := Subject(Active, None, None)]))
  {
  }

  lemma StepKeepsInv(c: Config, s: State, e: Event, s': State)
    requires Inv(s) && Step(c, s, e, s')
    ensures Inv(s')
  {
    match e
    case Tick(later) => TickKeepsInv(s, later);
    case CreateSubject(subject) => CreateKeepsInv(s, subject);
    case OfIssue(x) =>
      IssueKeepsLocks(s, x, s'); IssueKeepsChecks(s, x, s'); IssueKeepsHits(s, x, s');
      IssueKeepsSweeps(s, x, s'); IssueKeepsTables(s, x, s');
    case OfChange(x) =>
      ChangeKeepsLocks(s, x, s'); ChangeKeepsChecks(s, x, s'); ChangeKeepsHits(s, x, s');
      ChangeKeepsSweeps(s, x, s'); ChangeKeepsTables(s, x, s');
    case OfRevoke(x) =>
      RevokeKeepsLocks(s, x, s'); RevokeKeepsChecks(s, x, s'); RevokeKeepsHits(s, x, s');
      RevokeKeepsSweeps(s, x, s'); RevokeKeepsTables(s, x, s');
    case OfAuth(x) => AuthKeepsInv(c, s, x, s');
  }

  lemma {:induction false} InvAlways(c: Config, states: seq<State>, events: seq<Event>, n: nat)
    requires IsRun(System(c), states, events) && n < |states|
    ensures Inv(states[n])
  {
    if n > 0 {
      InvAlways(c, states, events, n - 1);
      StepKeepsInv(c, states[n - 1], events[n - 1], states[n]);
    }
  }

  // ---- Over whole runs --------------------------------------------------------------------

  /** In every reachable state an effectively disabled subject has no unrevoked session. */
  lemma NoLiveSessionWhileDisabled(c: Config, states: seq<State>, events: seq<Event>, n: nat, id: string)
    requires IsRun(System(c), states, events) && n < |states| && id in states[n].sessions
    ensures states[n].sessions[id].subject in states[n].subjects
    ensures EffectivelyDisabled(states[n].subjects[states[n].sessions[id].subject], states[n].now) ==>
      states[n].sessions[id].revokedAt.Some?
  {
    InvAlways(c, states, events, n);
  }

  /** From `s` to `s'` every session keeps all but its revocation, and every revocation keeps its time. */
  ghost predicate Preserved(s: State, s': State) {
    && s.now <= s'.now
    && forall id | id in s.sessions ::
      && id in s'.sessions && s'.sessions[id] == s.sessions[id].(revokedAt := s'.sessions[id].revokedAt)
      && (s.sessions[id].revokedAt.Some? ==> s'.sessions[id] == s.sessions[id])
  }

  lemma IssuePreserves(s: State, e: IssueEvent, s': State)
    requires IssueStep(s, e, s')
    ensures Preserved(s, s')
  {
  }

  lemma ChangePreserves(s: State, e: ChangeEvent, s': State)
    requires HitsFit(s) && ChangeStep(s, e, s')
    ensures Preserved(s, s')
  {
  }

  lemma RevokePreserves(s: State, e: RevokeEvent, s': State)
    requires RevokeStep(s, e, s')
    ensures Preserved(s, s')
  {
  }

  lemma StepPreserves(c: Config, s: State, e: Event, s': State)
    requires HitsFit(s) && Step(c, s, e, s')
    ensures Preserved(s, s')
  {
    match e
    case OfIssue(x) => IssuePreserves(s, x, s');
    case OfChange(x) => ChangePreserves(s, x, s');
    case OfRevoke(x) => RevokePreserves(s, x, s');
    case _ =>
  }

  lemma PreservedReflexive(s: State)
    ensures Preserved(s, s)
  {
  }

  lemma PreservedTransitive(a: State, b: State, d: State)
    requires Preserved(a, b) && Preserved(b, d)
    ensures Preserved(a, d)
  {
  }

  lemma NextPreserves(c: Config, states: seq<State>, events: seq<Event>, n: nat)
    requires IsRun(System(c), states, events) && n < |events|
    ensures Preserved(states[n], states[n + 1])
  {
    InvAlways(c, states, events, n);
    StepPreserves(c, states[n], events[n], states[n + 1]);
  }

  lemma {:induction false} RunPreserves(c: Config, states: seq<State>, events: seq<Event>, i: nat, j: nat)
    requires IsRun(System(c), states, events) && i <= j < |states|
    ensures Preserved(states[i], states[j])
    decreases j
  {
    if i < j {
      RunPreserves(c, states, events, i, j - 1);
      NextPreserves(c, states, events, j - 1);
      PreservedTransitive(states[i], states[j - 1], states[j]);
    } else {
      PreservedReflexive(states[i]);
    }
  }

  /** The session is revoked, or its subject effectively disabled, in this committed state. */
  ghost predicate IsDead(s: State, id: string) {
    id in s.sessions && s.sessions[id].subject in s.subjects && !Usable(s.subjects, s.sessions, id, s.now)
  }

  /** A dead session stays revoked in every later state, even if its subject is active again. */
  lemma DeadStaysRevoked(c: Config, states: seq<State>, events: seq<Event>, i: nat, j: nat, id: string)
    requires IsRun(System(c), states, events) && i <= j < |states| && IsDead(states[i], id)
    ensures id in states[j].sessions && states[j].sessions[id].digest == states[i].sessions[id].digest
    ensures states[j].sessions[id].revokedAt.Some? && states[i].now <= states[j].now
  {
    NoLiveSessionWhileDisabled(c, states, events, i, id);
    RunPreserves(c, states, events, i, j);
  }

  /** Its token never authenticates again: no session with that digest is ever usable later. */
  lemma DeadTokenNeverUsable(
      c: Config, states: seq<State>, events: seq<Event>, i: nat, j: nat, id: string, other: string)
    requires IsRun(System(c), states, events) && i <= j < |states| && IsDead(states[i], id)
    requires other in states[j].sessions && states[j].sessions[other].digest == states[i].sessions[id].digest
    ensures other == id && !Usable(states[j].subjects, states[j].sessions, other, states[j].now)
  {
    DeadStaysRevoked(c, states, events, i, j, id);
    InvAlways(c, states, events, j);
  }

  ghost predicate LoadedBy(s: State, id: string, latest: int) {
    && (forall p | p in s.loads && s.loads[p].id == id :: s.loads[p].at <= latest)
    && (forall k | 0 <= k < |s.minted| && s.minted[k].id == id :: s.minted[k].loadedAt <= latest)
  }

  ghost predicate MintsFit(c: Config, s: State) {
    && (forall p | p in s.loads :: s.loads[p].at <= s.now)
    && (forall k | 0 <= k < |s.minted| ::
          && s.minted[k].loadedAt <= s.minted[k].issuedAt <= s.minted[k].loadedAt + c.lag
          && s.minted[k].issuedAt <= s.now
          && s.minted[k].issuedAt < s.minted[k].expiresAt <= s.minted[k].issuedAt + c.ttl)
  }

  /** Nothing about authentications changed and no time passed. */
  ghost predicate SameMints(s: State, s': State) {
    s'.loads == s.loads && s'.minted == s.minted && s'.now == s.now
  }

  lemma IssueMintsNothing(s: State, e: IssueEvent, s': State)
    requires IssueStep(s, e, s')
    ensures SameMints(s, s')
  {
  }

  lemma ChangeMintsNothing(s: State, e: ChangeEvent, s': State)
    requires ChangeStep(s, e, s')
    ensures SameMints(s, s')
  {
  }

  lemma RevokeMintsNothing(s: State, e: RevokeEvent, s': State)
    requires RevokeStep(s, e, s')
    ensures SameMints(s, s')
  {
  }

  /** Only authentications load and mint; every other step leaves both alone. */
  lemma MintingIsAuth(c: Config, s: State, e: Event, s': State)
    requires Step(c, s, e, s') && !e.OfAuth?
    ensures s'.loads == s.loads && s'.minted == s.minted && s.now <= s'.now
  {
    match e
    case OfIssue(x) => IssueMintsNothing(s, x, s');
    case OfChange(x) => ChangeMintsNothing(s, x, s');
    case OfRevoke(x) => RevokeMintsNothing(s, x, s');
    case _ =>
  }

  lemma AuthKeepsMints(c: Config, s: State, e: AuthEvent, s': State)
    requires MintsFit(c, s) && AuthStep(c, s, e, s')
    ensures MintsFit(c, s')
  {
  }

  lemma StepKeepsMints(c: Config, s: State, e: Event, s': State)
    requires MintsFit(c, s) && Step(c, s, e, s')
    ensures MintsFit(c, s')
  {
    if e.OfAuth? {
      AuthKeepsMints(c, s, e.auth, s');
    } else {
      MintingIsAuth(c, s, e, s');
    }
  }

  lemma AuthLoadsNothingDead(c: Config, s: State, e: AuthEvent, s': State, id: string, latest: int)
    requires LoadedBy(s, id, latest) && AuthStep(c, s, e, s')
    requires id in s.sessions && s.sessions[id].revokedAt.Some?
    ensures LoadedBy(s', id, latest)
  {
  }

  lemma StepLoadsNothingDead(c: Config, s: State, e: Event, s': State, id: string, latest: int)
    requires LoadedBy(s, id, latest) && Step(c, s, e, s')
    requires id in s.sessions && s.sessions[id].revokedAt.Some?
    ensures LoadedBy(s', id, latest)
  {
    if e.OfAuth? {
      AuthLoadsNothingDead(c, s, e.auth, s', id, latest);
    } else {
      MintingIsAuth(c, s, e, s');
    }
  }

  lemma {:induction false} MintsAlwaysFit(c: Config, states: seq<State>, events: seq<Event>, n: nat)
    requires IsRun(System(c), states, events) && n < |states|
    ensures MintsFit(c, states[n])
  {
    if n > 0 {
      MintsAlwaysFit(c, states, events, n - 1);
      StepKeepsMints(c, states[n - 1], events[n - 1], states[n]);
    }
  }

  lemma LoadedByLater(c: Config, s: State, id: string, latest: int)
    requires MintsFit(c, s) && s.now <= latest
    ensures LoadedBy(s, id, latest)
  {
  }

  lemma NextLoadsNothingDead(c: Config, states: seq<State>, events: seq<Event>, n: nat, id: string, latest: int)
    requires IsRun(System(c), states, events) && n < |events| && LoadedBy(states[n], id, latest)
    requires id in states[n].sessions && states[n].sessions[id].revokedAt.Some?
    ensures LoadedBy(states[n + 1], id, latest)
  {
    StepLoadsNothingDead(c, states[n], events[n], states[n + 1], id, latest);
  }

  lemma {:induction false} NoLoadAfterDeath(
      c: Config, states: seq<State>, events: seq<Event>, i: nat, n: nat, id: string)
    requires IsRun(System(c), states, events) && i < |states| && n < |states| && IsDead(states[i], id)
    ensures LoadedBy(states[n], id, states[i].now)
    decreases n
  {
    if n <= i {
      MintsAlwaysFit(c, states, events, n);
      RunPreserves(c, states, events, n, i);
      LoadedByLater(c, states[n], id, states[i].now);
    } else {
      NoLoadAfterDeath(c, states, events, i, n - 1, id);
      DeadStaysRevoked(c, states, events, i, n - 1, id);
      NextLoadsNothingDead(c, states, events, n - 1, id, states[i].now);
    }
  }

  /** Sessions that were loaded or minted from exist, and no assertion outlives its session's expiry. */
  ghost predicate MintsKnown(s: State) {
    && (forall p | p in s.loads ::
          s.loads[p].id in s.sessions && s.loads[p].expiresAt == s.sessions[s.loads[p].id].expiresAt)
    && (forall k | 0 <= k < |s.minted| ::
          s.minted[k].id in s.sessions && s.minted[k].expiresAt <= s.sessions[s.minted[k].id].expiresAt)
  }

  lemma AuthKeepsKnown(c: Config, s: State, e: AuthEvent, s': State)
    requires MintsKnown(s) && AuthStep(c, s, e, s')
    ensures MintsKnown(s')
  {
  }

  lemma {:induction false} MintsAlwaysKnown(c: Config, states: seq<State>, events: seq<Event>, n: nat)
    requires IsRun(System(c), states, events) && n < |states|
    ensures MintsKnown(states[n])
  {
    if n > 0 {
      MintsAlwaysKnown(c, states, events, n - 1);
      NextPreserves(c, states, events, n - 1);
      if events[n - 1].OfAuth? {
        AuthKeepsKnown(c, states[n - 1], events[n - 1].auth, states[n]);
      } else {
        MintingIsAuth(c, states[n - 1], events[n - 1], states[n]);
      }
    }
  }

  /** Every assertion ever minted from a session that is dead at state i expires within lag + ttl of then. */
  lemma MintedBeforeReach(c: Config, states: seq<State>, events: seq<Event>, i: nat, n: nat, k: nat)
    requires IsRun(System(c), states, events) && i < |states| && n < |states|
    requires k < |states[n].minted| && IsDead(states[i], states[n].minted[k].id)
    ensures states[n].minted[k].expiresAt <= states[i].now + c.lag + c.ttl
  {
    NoLoadAfterDeath(c, states, events, i, n, states[n].minted[k].id);
    MintsAlwaysFit(c, states, events, n);
  }

  // ---- What the revocation answers mean ---------------------------------------------------

  /** Every `true` of `revoke_credential` points at a revoked session, and no two at the same one. */
  ghost predicate AnswersFit(s: State) {
    && (forall k | 0 <= k < |s.answers| && s.answers[k].CredentialRevoked? && s.answers[k].changed ::
          exists id | id in s.sessions ::
            s.sessions[id].digest == s.answers[k].digest && s.sessions[id].revokedAt.Some?)
    && (forall j, k | 0 <= j < k < |s.answers| && s.answers[j].CredentialRevoked? && s.answers[k].CredentialRevoked? ::
          s.answers[j].changed && s.answers[k].changed ==> s.answers[j].digest != s.answers[k].digest)
  }

  /** A caller told that it revoked the credential found a live session of it and left it revoked. */
  lemma TrueFoundLive(s: State, digest: Digest, s': State) returns (id: string)
    requires RevokeStep(s, RevokeByDigest(digest), s') && LiveWith(s.sessions, digest) != {}
    ensures id in s.sessions && s.sessions[id].digest == digest && s.sessions[id].revokedAt.None?
    ensures id in s'.sessions && s'.sessions[id].digest == digest && s'.sessions[id].revokedAt.Some?
  {
    id :| id in LiveWith(s.sessions, digest);
  }

  lemma MoreAnswersFit(s: State, s': State, a: Answer)
    requires AnswersFit(s) && SessionsFit(s.subjects, s.sessions) && Preserved(s, s') && s'.answers == s.answers + [a]
    requires a.CredentialRevoked? && a.changed ==>
      exists id | id in s.sessions && id in s'.sessions :: s.sessions[id].digest == a.digest
        && s.sessions[id].revokedAt.None? && s'.sessions[id].digest == a.digest && s'.sessions[id].revokedAt.Some?
    ensures AnswersFit(s')
  {
  }

  lemma RevokeKeepsAnswers(s: State, e: RevokeEvent, s': State)
    requires AnswersFit(s) && SessionsFit(s.subjects, s.sessions) && RevokeStep(s, e, s') && Preserved(s, s')
    ensures AnswersFit(s')
  {
    match e
    case RevokeByDigest(digest) =>
      if LiveWith(s.sessions, digest) != {} {
        var id := TrueFoundLive(s, digest, s');
      }
      MoreAnswersFit(s, s', s'.answers[|s.answers|]);
    case _ =>
      if s'.answers == s.answers {
        PreservedKeepsAnswers(s, s');
      } else {
        MoreAnswersFit(s, s', s'.answers[|s.answers|]);
      }
  }

  lemma AnsweringIsRevoking(c: Config, s: State, e: Event, s': State)
    requires Step(c, s, e, s') && !e.OfRevoke?
    ensures s'.answers == s.answers && s'.revokes == s.revokes
  {
    match e
    case OfIssue(x) => IssueAnswersNothing(s, x, s');
    case OfChange(x) => ChangeAnswersNothing(s, x, s');
    case _ =>
  }

  lemma IssueAnswersNothing(s: State, e: IssueEvent, s': State)
    requires IssueStep(s, e, s')
    ensures s'.answers == s.answers && s'.revokes == s.revokes
  {
  }

  lemma ChangeAnswersNothing(s: State, e: ChangeEvent, s': State)
    requires ChangeStep(s, e, s')
    ensures s'.answers == s.answers && s'.revokes == s.revokes
  {
  }

  lemma PreservedKeepsAnswers(s: State, s': State)
    requires AnswersFit(s) && Preserved(s, s') && s'.answers == s.answers
    ensures AnswersFit(s')
  {
  }

  lemma {:induction false} AnswersAlwaysFit(c: Config, states: seq<State>, events: seq<Event>, n: nat)
    requires IsRun(System(c), states, events) && n < |states|
    ensures AnswersFit(states[n])
  {
    if n > 0 {
      AnswersAlwaysFit(c, states, events, n - 1);
      InvAlways(c, states, events, n - 1);
      NextPreserves(c, states, events, n - 1);
      if events[n - 1].OfRevoke? {
        RevokeKeepsAnswers(states[n - 1], events[n - 1].revoke, states[n]);
      } else {
        AnsweringIsRevoking(c, states[n - 1], events[n - 1], states[n]);
        PreservedKeepsAnswers(states[n - 1], states[n]);
      }
    }
  }

  /** `revoke_credential` answers that it changed something at most once per credential, in any run. */
  lemma CredentialRevokedOnce(c: Config, states: seq<State>, events: seq<Event>, n: nat, j: nat, k: nat, digest: Digest)
    requires IsRun(System(c), states, events) && n < |states| && j < |states[n].answers| && k < |states[n].answers|
    requires states[n].answers[j] == CredentialRevoked(digest, true)
    requires states[n].answers[k] == CredentialRevoked(digest, true)
    ensures j == k
  {
    AnswersAlwaysFit(c, states, events, n);
  }

  // ---- Runs that show where the promises end ----------------------------------------------

  datatype Trace = Trace(states: seq<State>, events: seq<Event>)

  ghost predicate IsTrace(c: Config, t: Trace, s: State) { RunTo(System(c), t.states, t.events, s) }

  lemma Extend(c: Config, t: Trace, s: State, e: Event, s': State) returns (t': Trace)
    requires IsTrace(c, t, s) && Step(c, s, e, s')
    ensures IsTrace(c, t', s') && t' == Trace(t.states + [s'], t.events + [e])
  {
    Longer(System(c), t.states, t.events, s, e, s');
    t' := Trace(t.states + [s'], t.events + [e]);
  }

  function Sample(expiresAt: int): Session {
    Session(TokenDigest("t"), "u", "user", "aal1", [], map[], expiresAt, None)
  }

  /** One subject, one live session, nothing open, time 0. */
  function Live(expiresAt: int): State {
    State(map["u" := Subject(Active, None, None)], map["s" := Sample(expiresAt)], map[], 0,
          map[], map[], map[], map[], [], [])
  }

  lemma LiveReached(c: Config, expiresAt: int) returns (t: Trace)
    ensures IsTrace(c, t, Live(expiresAt))
  {
    var s0 := State(map[], map[], map[], 0, map[], map[], map[], map[], [], []);
    t := Trace([s0], []);
    var s1 := s0.(subjects := map["u" := Subject(Active, None, None)]);
    t := Extend(c, t, s0, CreateSubject("u"), s1);
    var begun := Issue("s", Sample(expiresAt), 0, Begun);
    var s2 := s1.(issues := map[0 := begun]);
    t := Extend(c, t, s1, OfIssue(BeginIssue(0, "s", Sample(expiresAt))), s2);
    var s3 := s2.(issues := map[0 := begun.(stage := Cleared)], owner := map["u" := ByIssue(0)]);
    t := Extend(c, t, s2, OfIssue(LockSubject(0)), s3);
    var s4 := s3.(issues := map[0 := begun.(stage := Stored)]);
    t := Extend(c, t, s3, OfIssue(Insert(0)), s4);
    assert s4.owner - {"u"} == map[] && s4.issues - {0} == map[];
    t := Extend(c, t, s4, OfIssue(CommitIssue(0)), Live(expiresAt));
  }

  /** Two callers of `revoke_session` can both be told that they revoked the same session. */
  lemma SessionRevokedTwice(c: Config) returns (t: Trace, s: State)
    ensures IsTrace(c, t, s)
    ensures s.answers == [SessionRevoked("s", true), SessionRevoked("s", true)]
  {
    t := LiveReached(c, 1);
    var s0 := Live(1);
    var s1 := s0.(revokes := map[0 := "s"]);
    t := Extend(c, t, s0, OfRevoke(ReadRevoked(0, "s")), s1);
    var s2 := s1.(revokes := map[0 := "s", 1 := "s"]);
    t := Extend(c, t, s1, OfRevoke(ReadRevoked(1, "s")), s2);
    var s3 := s2.(sessions := Revoked(s2.sessions, {"s"}, 0), revokes := s2.revokes - {0},
        answers := [SessionRevoked("s", true)]);
    t := Extend(c, t, s2, OfRevoke(WriteRevoked(0)), s3);
    s := s3.(sessions := Revoked(s3.sessions, {}, 0), revokes := s3.revokes - {1},
        answers := s3.answers + [SessionRevoked("s", true)]);
    t := Extend(c, t, s3, OfRevoke(WriteRevoked(1)), s);
  }

  /** In no run does an assertion outlive by more than `bound` a moment at which its session is dead. */
  ghost predicate ReachWithin(c: Config, bound: int) {
    forall t: Trace, s: State, i: nat, k: nat | IsTrace(c, t, s) && i <= |t.events| && k < |s.minted|
        && IsDead(t.states[i], s.minted[k].id) ::
      s.minted[k].expiresAt <= t.states[i].now + bound
  }

  /** Loaded just before the revocation and minted as late as possible, an assertion lasts lag + ttl. */
  lemma LateMint(c: Config) returns (t: Trace, s: State, i: nat)
    ensures IsTrace(c, t, s) && i <= |t.events| && IsDead(t.states[i], "s") && t.states[i].now == 0
    ensures s.minted == [Mint("s", 0, c.lag, c.lag + c.ttl)]
  {
    var expiry := c.lag + c.ttl + 1;
    t := LiveReached(c, expiry);
    var s0 := Live(expiry);
    var s1 := s0.(loads := map[0 := Loaded("s", expiry, 0)]);
    t := Extend(c, t, s0, OfAuth(Load(0, "s")), s1);
    var digest := TokenDigest("t");
    assert "s" in WithDigest(s1.sessions, digest);
    var hit := LiveWith(s1.sessions, digest);
    assert "s" in hit;
    var s2 := s1.(sessions := Revoked(s1.sessions, hit, 0), answers := [CredentialRevoked(digest, true)]);
    t := Extend(c, t, s1, OfRevoke(RevokeByDigest(digest)), s2);
    i := |t.events|;
    assert IsDead(t.states[i], "s");
    var s3 := s2.(now := c.lag);
    t := Extend(c, t, s2, Tick(c.lag), s3);
    s := s3.(loads := s3.loads - {0}, minted := [Mint("s", 0, c.lag, c.lag + c.ttl)]);
    t := Extend(c, t, s3, OfAuth(MintAssertion(0)), s);
  }

  /** The reach of a revocation is lag + ttl and no less: measured from the load, not the clock reading. */
  lemma ReachIff(c: Config, bound: int)
    ensures ReachWithin(c, bound) <==> c.lag + c.ttl <= bound
  {
    if c.lag + c.ttl <= bound {
      forall t: Trace, s: State, i: nat, k: nat | IsTrace(c, t, s) && i <= |t.events| && k < |s.minted|
          && IsDead(t.states[i], s.minted[k].id)
        ensures s.minted[k].expiresAt <= t.states[i].now + bound
      {
        MintedBeforeReach(c, t.states, t.events, i, |t.events|, k);
      }
    } else {
      var t, s, i := LateMint(c);
      assert IsDead(t.states[i], s.minted[0].id);
      assert s.minted[0].expiresAt > t.states[i].now + bound;
    }
  }
}
