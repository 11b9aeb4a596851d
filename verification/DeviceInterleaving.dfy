/**
  Any number of `set_device_trust` transactions and observations, interleaved statement by
  statement under READ COMMITTED with row locks, and without the unique index.
 */
module DeviceInterleaving {
  import opened Prelude
  import opened Runs
  import opened Devices

  type Pid = nat

  /** How far a transaction has come; `seen` are the rows its locking SELECT found. */
  datatype Txn =
    | Begun(r: Request, at: int)
    | Locking(r: Request, at: int, seen: set<Key>)
    | Critical(r: Request, at: int, seen: set<Key>, writes: Table)
    | PrimaryCleared(r: Request, at: int, seen: set<Key>, writes: Table)
    | Done(r: Request, at: int, seen: set<Key>, writes: Table)

  datatype State = State(table: Table, locks: map<Key, Pid>, txns: map<Pid, Txn>, now: int)

  datatype Event =
    | Tick(later: int)
    | Begin(p: Pid, r: Request)
    | Select(p: Pid)
    | Lock(p: Pid, k: Key)
    | Enter(p: Pid)
    | LeaveNotFound(p: Pid)
    | Clear(p: Pid)
    | Mark(p: Pid)
    | Commit(p: Pid)
    | Abort(p: Pid)
    | Observe(k: Key, ip: Option<string>, agent: Option<string>)

  function Without(locks: map<Key, Pid>, p: Pid): map<Key, Pid> {
    map k | k in locks && locks[k] != p :: locks[k]
  }

  function LockedBy(keys: set<Key>, p: Pid): map<Key, Pid> {
    map k | k in keys :: p
  }

  ghost predicate Holds(s: State, p: Pid, keys: set<Key>) {
    forall k | k in keys :: k in s.locks && s.locks[k] == p
  }

  ghost predicate Free(s: State, p: Pid, keys: set<Key>) {
    forall k | k in keys && k in s.locks :: s.locks[k] == p
  }

  /** One statement of one transaction, or one autocommitted statement, from `s` to `s'`. */
  ghost predicate Step(s: State, e: Event, s': State) {
    match e
    case Tick(later) => s.now <= later && s' == s.(now := later)
    case Begin(p, r) => p !in s.txns && s' == s.(txns := s.txns[p := Begun(r, s.now)])
    case Select(p) =>
      && p in s.txns && s.txns[p].Begun?
      && var t := s.txns[p];
      s' == s.(txns := s.txns[p := Locking(t.r, t.at, Rows(s.table, t.r.key.subject))])
    case Lock(p, k) =>
      && p in s.txns && s.txns[p].Locking? && k in s.txns[p].seen && k !in s.locks
      && s' == s.(locks := s.locks[k := p])
    case Enter(p) =>
      && p in s.txns && s.txns[p].Locking?
      && var t := s.txns[p];
      && Holds(s, p, t.seen) && t.r.key in t.seen
      && s' == s.(txns := s.txns[p := Critical(t.r, t.at, t.seen, map[])])
    case LeaveNotFound(p) =>
      && p in s.txns && s.txns[p].Locking?
      && Holds(s, p, s.txns[p].seen) && s.txns[p].r.key !in s.txns[p].seen
      && s' == s.(locks := Without(s.locks, p), txns := s.txns - {p})
    case Clear(p) =>
      && p in s.txns && s.txns[p].Critical? && s.txns[p].r.primary
      && var t := s.txns[p];
      var hit := Devices.Cleared(s.table + t.writes, t.r.key.subject);
      && Free(s, p, hit.Keys)
      && s' == s.(locks := s.locks + LockedBy(hit.Keys, p),
                  txns := s.txns[p := PrimaryCleared(t.r, t.at, t.seen, t.writes + hit)])
    case Mark(p) =>
      && p in s.txns
      && var t := s.txns[p];
      && (t.PrimaryCleared? || (t.Critical? && !t.r.primary))
      && t.r.key in s.table
      && var row := Marked((s.table + t.writes)[t.r.key], t.r, t.at);
      s' == s.(txns := s.txns[p := Done(t.r, t.at, t.seen, t.writes[t.r.key := row])])
    case Commit(p) =>
      && p in s.txns && s.txns[p].Done?
      && s' == s.(table := s.table + s.txns[p].writes, locks := Without(s.locks, p), txns := s.txns - {p})
    case Abort(p) =>
      && p in s.txns
      && s' == s.(locks := Without(s.locks, p), txns := s.txns - {p})
    case Observe(k, ip, agent) =>
      && k !in s.locks
      && s' == s.(table := Observed(s.table, k, ip, agent, s.now))
  }

  ghost predicate Init(s: State) {
    AtMostOnePrimary(s.table) && s.locks == map[] && s.txns == map[]
  }

  ghost function System(): Machine<State, Event> {
    Machine(s => Init(s), (s, e, s') => Step(s, e, s'))
  }

  // ---- What every step keeps --------------------------------------------------------------

  predicate HasSeen(t: Txn) { !t.Begun? }

  predicate InSection(t: Txn) { t.Critical? || t.PrimaryCleared? || t.Done? }

  /** Snapshots are subsets of the subject's rows, and any two of one subject are nested. */
  ghost predicate SnapshotsNested(s: State) {
    && (forall p | p in s.txns && HasSeen(s.txns[p]) :: s.txns[p].seen <= Rows(s.table, s.txns[p].r.key.subject))
    && (forall p, q | p in s.txns && q in s.txns && HasSeen(s.txns[p]) && HasSeen(s.txns[q])
          && s.txns[p].r.key.subject == s.txns[q].r.key.subject ::
          s.txns[p].seen <= s.txns[q].seen || s.txns[q].seen <= s.txns[p].seen)
  }

  /** Inside the section a transaction holds every row it saw, its target among them. */
  ghost predicate SectionsLocked(s: State) {
    forall p | p in s.txns && InSection(s.txns[p]) :: s.txns[p].r.key in s.txns[p].seen && Holds(s, p, s.txns[p].seen)
  }

  /** It also holds every row it has written, all of them rows of its subject. */
  ghost predicate WritesLocked(s: State) {
    forall p | p in s.txns && InSection(s.txns[p]) ::
      Holds(s, p, s.txns[p].writes.Keys) && s.txns[p].writes.Keys <= Rows(s.table, s.txns[p].r.key.subject)
  }

  /** What a transaction has written so far is what its request writes on the committed table. */
  ghost predicate WritesAreTheRequest(s: State) {
    forall p | p in s.txns && InSection(s.txns[p]) :: WritesFit(s.table, s.txns[p])
  }

  ghost predicate WritesFit(table: Table, t: Txn)
    requires InSection(t)
  {
    match t
    case Critical(_, _, _, writes) => writes == map[]
    case PrimaryCleared(r, _, _, writes) => r.primary && writes == Devices.Cleared(table, r.key.subject)
    case Done(r, at, _, writes) => r.key in table && writes == Writes(table, r, at)
    case _ => false
  }

  ghost predicate Inv(s: State) {
    SnapshotsNested(s) && SectionsLocked(s) && WritesLocked(s) && WritesAreTheRequest(s) && AtMostOnePrimary(s.table)
  }

  /** Two nested snapshots that both hold a target share a row, so both cannot be fully locked. */
  lemma SectionExclusive(s: State, p: Pid, q: Pid)
    requires SnapshotsNested(s) && SectionsLocked(s)
    requires p in s.txns && q in s.txns && InSection(s.txns[p]) && InSection(s.txns[q])
    requires s.txns[p].r.key.subject == s.txns[q].r.key.subject
    ensures p == q
  {
    assert s.txns[p].seen <= s.txns[q].seen ==> s.txns[p].r.key in s.txns[q].seen;
    assert s.txns[q].seen <= s.txns[p].seen ==> s.txns[q].r.key in s.txns[p].seen;
  }

  lemma SnapshotsStayNested(s: State, e: Event, s': State)
    requires SnapshotsNested(s) && Step(s, e, s')
    ensures SnapshotsNested(s')
  {
  }

  lemma SectionsStayLocked(s: State, e: Event, s': State)
    requires SectionsLocked(s) && Step(s, e, s')
    ensures SectionsLocked(s')
  {
  }

  lemma WritesStayLocked(s: State, e: Event, s': State)
    requires SectionsLocked(s) && WritesLocked(s) && Step(s, e, s')
    ensures WritesLocked(s')
  {
  }

  /** An observation of a row the transaction does not hold leaves its writes right. */
  lemma ObservationBeside(table: Table, t: Txn, k: Key, ip: Option<string>, agent: Option<string>, at: int)
    requires InSection(t) && WritesFit(table, t)
    requires k !in t.writes && k != t.r.key
    ensures WritesFit(Observed(table, k, ip, agent, at), t)
  {
    var subject := t.r.key.subject;
    var table' := Observed(table, k, ip, agent, at);
    if t.r.primary && !t.Critical? {
      assert k !in Devices.Cleared(table, subject);
      assert Devices.Cleared(table', subject) == Devices.Cleared(table, subject);
    }
  }

  /** A commit for another subject leaves the transaction's writes right. */
  lemma OtherSubjectBeside(table: Table, t: Txn, other: Table)
    requires InSection(t) && WritesFit(table, t)
    requires other.Keys <= table.Keys
    requires forall k | k in other :: k.subject != t.r.key.subject
    ensures WritesFit(table + other, t)
  {
    assert Devices.Cleared(table + other, t.r.key.subject) == Devices.Cleared(table, t.r.key.subject);
  }

  lemma ClearFits(s: State, p: Pid, s': State)
    requires p in s.txns && InSection(s.txns[p]) && WritesFit(s.table, s.txns[p]) && Step(s, Clear(p), s')
    ensures WritesFit(s'.table, s'.txns[p])
  {
    assert s.table + map[] == s.table;
  }

  lemma MarkFits(s: State, p: Pid, s': State)
    requires p in s.txns && InSection(s.txns[p]) && WritesFit(s.table, s.txns[p]) && Step(s, Mark(p), s')
    ensures WritesFit(s'.table, s'.txns[p])
  {
    assert s.table + map[] == s.table;
  }

  lemma CommitBeside(s: State, q: Pid, s': State, p: Pid)
    requires SnapshotsNested(s) && SectionsLocked(s) && WritesLocked(s) && Step(s, Commit(q), s')
    requires p in s'.txns && InSection(s'.txns[p]) && WritesFit(s.table, s'.txns[p])
    ensures WritesFit(s'.table, s'.txns[p])
  {
    if s.txns[p].r.key.subject == s.txns[q].r.key.subject {
      SectionExclusive(s, p, q);
    }
    OtherSubjectBeside(s.table, s.txns[p], s.txns[q].writes);
  }

  lemma WritesStayTheRequest(s: State, e: Event, s': State)
    requires Inv(s) && Step(s, e, s')
    ensures WritesAreTheRequest(s')
  {
    forall p | p in s'.txns && InSection(s'.txns[p]) ensures WritesFit(s'.table, s'.txns[p]) {
      match e
      case Observe(k, ip, agent) => ObservationBeside(s.table, s.txns[p], k, ip, agent, s.now);
      case Commit(q) => CommitBeside(s, q, s', p);
      case Clear(q) => if p == q { ClearFits(s, q, s'); }
      case Mark(q) => if p == q { MarkFits(s, q, s'); }
      case _ =>
    }
  }

  /** A commit replaces the committed table by the whole request applied to it at that moment. */
  lemma CommitIsTheWholeRequest(s: State, e: Event, s': State)
    requires Inv(s) && Step(s, e, s') && e.Commit?
    ensures s'.table == Assigned(s.table, s.txns[e.p].r, s.txns[e.p].at)
  {
  }

  lemma OnePrimaryKept(s: State, e: Event, s': State)
    requires Inv(s) && Step(s, e, s')
    ensures AtMostOnePrimary(s'.table)
  {
    match e
    case Commit(p) =>
      CommitIsTheWholeRequest(s, e, s');
      AssignedKeepsOnePrimary(s.table, s.txns[p].r, s.txns[p].at);
    case Observe(k, ip, agent) =>
    case _ =>
  }

  lemma StepKeepsInv(s: State, e: Event, s': State)
    requires Inv(s) && Step(s, e, s')
    ensures Inv(s')
  {
    SnapshotsStayNested(s, e, s');
    SectionsStayLocked(s, e, s');
    WritesStayLocked(s, e, s');
    WritesStayTheRequest(s, e, s');
    OnePrimaryKept(s, e, s');
  }

  lemma {:induction false} InvAlways(states: seq<State>, events: seq<Event>, n: nat)
    requires IsRun(System(), states, events) && n < |states|
    ensures Inv(states[n])
  {
    if n > 0 {
      InvAlways(states, events, n - 1);
      StepKeepsInv(states[n - 1], events[n - 1], states[n]);
    }
  }

  // ---- Over whole runs --------------------------------------------------------------------

  /** In every reachable state each subject has at most one primary device. */
  lemma OnePrimaryAlways(states: seq<State>, events: seq<Event>, n: nat)
    requires IsRun(System(), states, events) && n < |states|
    ensures AtMostOnePrimary(states[n].table)
  {
    InvAlways(states, events, n);
  }

  /** The committed table changes only by whole requests and whole observations, one at a time. */
  lemma RunsAreSerial(states: seq<State>, events: seq<Event>, n: nat)
    requires IsRun(System(), states, events) && n < |events|
    ensures
      var before, after := states[n].table, states[n + 1].table;
      match events[n]
      case Commit(p) => after == Assigned(before, states[n].txns[p].r, states[n].txns[p].at)
      case Observe(k, ip, agent) => after == Observed(before, k, ip, agent, states[n].now)
      case _ => after == before
  {
    InvAlways(states, events, n);
    if events[n].Commit? {
      CommitIsTheWholeRequest(states[n], events[n], states[n + 1]);
    }
  }

  /** No two transactions of one subject are ever between their locking SELECT and their commit. */
  lemma SectionsExclusiveAlways(states: seq<State>, events: seq<Event>, n: nat, p: Pid, q: Pid)
    requires IsRun(System(), states, events) && n < |states|
    requires p in states[n].txns && q in states[n].txns && InSection(states[n].txns[p]) && InSection(states[n].txns[q])
    requires states[n].txns[p].r.key.subject == states[n].txns[q].r.key.subject
    ensures p == q
  {
    InvAlways(states, events, n);
    SectionExclusive(states[n], p, q);
  }

  // ---- Trust is what was last asked for ---------------------------------------------------

  /** Whether the last committed request for this device among the first n events asked for trust. */
  ghost function LastAsked(states: seq<State>, events: seq<Event>, n: nat, k: Key): Option<bool>
    requires |states| == |events| + 1 && n <= |events|
  {
    if n == 0 then None
    else if Asks(states[n - 1], events[n - 1], k) then Some(states[n - 1].txns[events[n - 1].p].r.trusted)
    else LastAsked(states, events, n - 1, k)
  }

  /** This event commits a request for the device. */
  ghost predicate Asks(s: State, e: Event, k: Key) { e.Commit? && e.p in s.txns && s.txns[e.p].r.key == k }

  predicate Trusted(t: Table, k: Key) { k in t && t[k].trustedAt.Some? }

  lemma CommitTrusts(s: State, p: Pid, s': State, k: Key)
    requires Inv(s) && Step(s, Commit(p), s')
    ensures Trusted(s'.table, k) <==> if s.txns[p].r.key == k then s.txns[p].r.trusted else Trusted(s.table, k)
  {
    CommitIsTheWholeRequest(s, Commit(p), s');
    assert s.txns[p].r.key in s.table;
    AssignedPrimaries(s.table, s.txns[p].r, s.txns[p].at, k.subject);
    if k in s.table {
      AssignedRows(s.table, s.txns[p].r, s.txns[p].at, k);
    }
  }

  lemma StepTrusts(s: State, e: Event, s': State, k: Key)
    requires Inv(s) && Step(s, e, s')
    ensures Trusted(s'.table, k) <==> if Asks(s, e, k) then s.txns[e.p].r.trusted else Trusted(s.table, k)
  {
    match e
    case Commit(p) => CommitTrusts(s, p, s', k);
    case Observe(seen, ip, agent) => ObservedRows(s.table, seen, ip, agent, s.now, k);
    case _ =>
  }

  /** A device is trusted exactly when the last committed request for it asked for trust. */
  lemma {:induction false} TrustedIffAsked(states: seq<State>, events: seq<Event>, n: nat, k: Key)
    requires IsRun(System(), states, events) && n < |states|
    ensures Trusted(states[n].table, k) <==>
      match LastAsked(states, events, n, k) case Some(trusted) => trusted case None => Trusted(states[0].table, k)
  {
    if n > 0 {
      TrustedIffAsked(states, events, n - 1, k);
      InvAlways(states, events, n - 1);
      StepTrusts(states[n - 1], events[n - 1], states[n], k);
    }
  }

  /** And an observation of it, which answers from the row it leaves, says so. */
  lemma ObservationAnswers(
      states: seq<State>, events: seq<Event>, n: nat, k: Key, ip: Option<string>, agent: Option<string>)
    requires IsRun(System(), states, events) && n < |events| && events[n] == Observe(k, ip, agent)
    ensures k in states[n + 1].table
    ensures states[n + 1].table[k].trustedAt.Some? <==>
      match LastAsked(states, events, n, k) case Some(trusted) => trusted case None => Trusted(states[0].table, k)
  {
    TrustedIffAsked(states, events, n, k);
    ObservedRows(states[n].table, k, ip, agent, states[n].now, k);
    assert Step(states[n], events[n], states[n + 1]);
  }

  // ---- A request served alone -------------------------------------------------------------

  /** Locks are there for the taking, one row after the other. */
  lemma {:induction false} TakesLocks(s: State, p: Pid, left: set<Key>) returns (s': State)
    requires Reachable(System(), s) && p in s.txns && s.txns[p].Locking? && left <= s.txns[p].seen
    requires forall k | k in s.locks :: s.locks[k] == p
    requires forall k | k in s.txns[p].seen :: k in s.locks || k in left
    ensures Reachable(System(), s') && s' == s.(locks := s'.locks)
    ensures Holds(s', p, s.txns[p].seen) && forall k | k in s'.locks :: s'.locks[k] == p
    decreases left
  {
    if k :| k in left {
      if k in s.locks {
        s' := TakesLocks(s, p, left - {k});
      } else {
        var s1 := s.(locks := s.locks[k := p]);
        Extend(System(), s, Lock(p, k), s1);
        s' := TakesLocks(s1, p, left - {k});
      }
    } else {
      s' := s;
    }
  }

  /** A request that nothing hinders goes through, and leaves the table the store leaves. */
  lemma RequestServed(s: State, p: Pid, r: Request) returns (s': State)
    requires Reachable(System(), s) && s.txns == map[] && s.locks == map[]
    ensures Reachable(System(), s') && s' == s.(table := Assigned(s.table, r, s.now))
  {
    var s1 := s.(txns := map[p := Begun(r, s.now)]);
    Extend(System(), s, Begin(p, r), s1);
    var seen := Rows(s.table, r.key.subject);
    var s2 := s.(txns := map[p := Locking(r, s.now, seen)]);
    Extend(System(), s1, Select(p), s2);
    var s3 := TakesLocks(s2, p, seen);
    if r.key !in s.table {
      s' := s;
      assert Without(s3.locks, p) == map[] && s3.txns - {p} == map[];
      Extend(System(), s3, LeaveNotFound(p), s');
    } else {
      var s4 := s3.(txns := map[p := Critical(r, s.now, seen, map[])]);
      Extend(System(), s3, Enter(p), s4);
      s' := SectionServed(s4, p);
    }
  }

  /** What the request has written when it comes to mark its target. */
  function ClearedFor(table: Table, r: Request): Table {
    if r.primary then Devices.Cleared(table, r.key.subject) else map[]
  }

  lemma ClearServed(s: State, p: Pid) returns (s': State)
    requires Reachable(System(), s) && p in s.txns && s.txns[p].Critical? && s.txns == map[p := s.txns[p]]
    requires s.txns[p].writes == map[] && forall k | k in s.locks :: s.locks[k] == p
    ensures Reachable(System(), s') && forall k | k in s'.locks :: s'.locks[k] == p
    ensures
      var t, writes := s.txns[p], ClearedFor(s.table, s.txns[p].r);
      s' == s.(locks := s'.locks, txns := map[p :=
        if t.r.primary then PrimaryCleared(t.r, t.at, t.seen, writes) else Critical(t.r, t.at, t.seen, writes)])
  {
    var t := s.txns[p];
    s' := s;
    if t.r.primary {
      assert s.table + map[] == s.table;
      var hit := Devices.Cleared(s.table, t.r.key.subject);
      assert t.writes + hit == hit;
      s' := s.(locks := s.locks + LockedBy(hit.Keys, p), txns := map[p := PrimaryCleared(t.r, t.at, t.seen, hit)]);
      Extend(System(), s, Clear(p), s');
    }
  }

  lemma MarkServed(s: State, p: Pid) returns (s': State)
    requires Reachable(System(), s) && p in s.txns && s.txns == map[p := s.txns[p]]
    requires s.txns[p].PrimaryCleared? || (s.txns[p].Critical? && !s.txns[p].r.primary)
    requires s.txns[p].r.key in s.table && s.txns[p].writes == ClearedFor(s.table, s.txns[p].r)
    requires s.txns[p].PrimaryCleared? ==> s.txns[p].r.primary
    ensures Reachable(System(), s')
    ensures
      var t := s.txns[p];
      s' == s.(txns := map[p := Done(t.r, t.at, t.seen, Writes(s.table, t.r, t.at))])
  {
    var t := s.txns[p];
    s' := s.(txns := map[p := Done(t.r, t.at, t.seen, Writes(s.table, t.r, t.at))]);
    Extend(System(), s, Mark(p), s');
  }

  lemma SectionServed(s: State, p: Pid) returns (s': State)
    requires Reachable(System(), s) && p in s.txns && s.txns[p].Critical? && s.txns == map[p := s.txns[p]]
    requires s.txns[p].r.key in s.table && s.txns[p].writes == map[] && forall k | k in s.locks :: s.locks[k] == p
    ensures Reachable(System(), s')
    ensures s' == s.(table := Assigned(s.table, s.txns[p].r, s.txns[p].at), locks := map[], txns := map[])
  {
    var t := s.txns[p];
    var s1 := ClearServed(s, p);
    var s2 := MarkServed(s1, p);
    s' := s.(table := Assigned(s.table, t.r, t.at), locks := map[], txns := map[]);
    assert Without(s2.locks, p) == map[] && s2.txns - {p} == map[];
    Extend(System(), s2, Commit(p), s');
  }
}
