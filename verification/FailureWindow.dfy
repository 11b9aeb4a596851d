/**
  The sliding-window limit under any interleaving of keyed checks, records, clears and global
  prunes. A record is stamped when its transaction begins, decides later under the key's advisory
  lock, and meanwhile others prune; the theorems say what bound survives that.
 */
module FailureWindow {
  import opened Prelude
  import opened LoginFailures
  import opened Runs

  type Pid = nat

  /** `window` W, `max` failures, and `lag`: the longest a record may take from BEGIN to its INSERT. */
  datatype Config = Config(window: nat, max: nat, lag: nat)

  datatype Job = Check | Record | Clear

  datatype Stage = Begun | Locked | Swept | Decided

  /**
    An open transaction: rows it has deleted and the row it has inserted are private until commit;
    `limited` is its answer, that the limit was reached.
   */
  datatype Txn = Txn(
    job: Job, key: string, since: int, at: int, stage: Stage, gone: set<RowId>, limited: bool, row: Option<RowId>)

  function Opened(job: Job, key: string, since: int, at: int): Txn {
    Txn(job, key, since, at, Begun, {}, false, None)
  }

  /** `log` keeps every committed failure since its key was last cleared; `edge` is the highest cut so far. */
  datatype State = State(
    table: Table, log: Table, next: RowId,
    locks: map<string, Pid>, txns: map<Pid, Txn>, now: int, edge: int)

  datatype Event =
    | Tick(later: int)
    | Begin(p: Pid, job: Job, key: string, since: int)
    | Lock(p: Pid)
    | Sweep(p: Pid)
    | Decide(p: Pid)
    | Commit(p: Pid)
    | Abort(p: Pid)
    | Prune(before: int, victims: set<RowId>)

  function Unlock(locks: map<string, Pid>, p: Pid): map<string, Pid> {
    map k | k in locks && locks[k] != p :: locks[k]
  }

  /** Rows some open transaction has deleted, hence locked. */
  ghost predicate Untouched(s: State, rows: set<RowId>) {
    forall p | p in s.txns :: s.txns[p].gone !! rows
  }

  function Max(a: int, b: int): int { if a < b then b else a }

  /** The rows the keyed sweep of a transaction deletes. */
  function SweepOf(table: Table, t: Txn): set<RowId> {
    if t.job == Clear then AllOf(table, t.key) else StaleOf(table, t.key, t.since)
  }

  /** What the log becomes at commit. */
  function LogAfter(log: Table, t: Txn): Table {
    match t.job
    case Check => log
    case Clear => log - AllOf(log, t.key)
    case Record => if t.row.Some? then log[t.row.value := Failure(t.key, t.at)] else log
  }

  function TableAfter(table: Table, t: Txn): Table {
    var swept := table - t.gone;
    if t.job == Record && t.row.Some? then swept[t.row.value := Failure(t.key, t.at)] else swept
  }

  ghost predicate Step(c: Config, s: State, e: Event, s': State) {
    match e
    case Tick(later) => s.now <= later && s' == s.(now := later)
    case Begin(p, job, key, since) =>
      && p !in s.txns && since + c.window <= s.now
      && s' == s.(txns := s.txns[p := Opened(job, key, since, s.now)])
    case Lock(p) =>
      && p in s.txns && s.txns[p].stage == Begun && s.txns[p].key !in s.locks
      && s' == s.(locks := s.locks[s.txns[p].key := p], txns := s.txns[p := s.txns[p].(stage := Locked)])
    case Sweep(p) =>
      && p in s.txns && s.txns[p].stage == Locked
      && var t := s.txns[p];
      s' == s.(txns := s.txns[p := t.(stage := Swept, gone := SweepOf(s.table, t))],
               edge := if t.job == Clear then s.edge else Max(s.edge, t.since))
    case Decide(p) =>
      && p in s.txns && s.txns[p].stage == Swept
      && var t := s.txns[p];
      && (t.job == Record ==> s.now - t.at <= c.lag)
      && var limited := |Recent(s.table - t.gone, t.key, t.since)| >= c.max;
      var admitted := t.job == Record && !limited;
      var row := if admitted then Some(s.next) else None;
      s' == s.(txns := s.txns[p := t.(stage := Decided, limited := limited, row := row)],
               next := if admitted then s.next + 1 else s.next)
    case Commit(p) =>
      && p in s.txns && s.txns[p].stage == Decided
      && s' == s.(table := TableAfter(s.table, s.txns[p]), log := LogAfter(s.log, s.txns[p]),
                  locks := Unlock(s.locks, p), txns := s.txns - {p})
    case Abort(p) =>
      && p in s.txns
      && s' == s.(locks := Unlock(s.locks, p), txns := s.txns - {p})
    case Prune(before, victims) =>
      && before + c.window <= s.now
      && victims <= Stale(s.table, before) && |victims| <= PRUNE_BATCH && Untouched(s, victims)
      && s' == s.(table := s.table - victims, edge := Max(s.edge, before))
  }

  ghost predicate Init(c: Config, s: State) {
    s == State(map[], map[], 0, map[], map[], s.now, s.now - c.window)
  }

  ghost function System(c: Config): Machine<State, Event> {
    Machine(s => Init(c, s), (s, e, s') => Step(c, s, e, s'))
  }

  // ---- What every step keeps --------------------------------------------------------------

  /** Rows of a key stamped inside the closed interval. */
  function Within(t: Table, key: string, lo: int, hi: int): set<RowId> {
    set r | r in t && t[r].key == key && lo <= t[r].at <= hi
  }

  /** At most `max` rows of any key in any closed interval no longer than `length`. */
  ghost predicate Bounded(t: Table, max: nat, length: nat) {
    forall key, lo, hi | hi <= lo + length :: |Within(t, key, lo, hi)| <= max
  }

  /** Nothing vanishes from the table before the highest cut has passed it. */
  ghost predicate RowsFit(c: Config, s: State) {
    && s.edge + c.window <= s.now
    && (forall r | r in s.table :: r in s.log && s.table[r] == s.log[r])
    && (forall r | r in s.log :: r < s.next && s.log[r].at <= s.now)
    && (forall r | r in s.log && r !in s.table :: s.log[r].at < s.edge)
  }

  /** Past its first statement a transaction holds its key; its times are in order. */
  ghost predicate LocksFit(c: Config, s: State) {
    && (forall k | k in s.locks :: s.locks[k] in s.txns)
    && (forall p | p in s.txns ::
          && s.txns[p].since + c.window <= s.txns[p].at <= s.now
          && (s.txns[p].stage != Begun ==> s.txns[p].key in s.locks && s.locks[s.txns[p].key] == p))
  }

  /** A private insert carries a row id no one else has. */
  ghost predicate InsertsFit(s: State) {
    && (forall p | p in s.txns && s.txns[p].row.Some? ::
          && s.txns[p].job == Record && s.txns[p].stage == Decided
          && s.txns[p].row.value < s.next && s.txns[p].row.value !in s.log)
    && (forall p, q | p in s.txns && q in s.txns && p != q && s.txns[p].row.Some? ::
          s.txns[p].row != s.txns[q].row)
  }

  /** Nothing is deleted before the sweep, and nothing past the highest cut but by a clear. */
  ghost predicate CutsFit(s: State) {
    forall p | p in s.txns ::
      && (s.txns[p].stage == Begun || s.txns[p].stage == Locked ==> s.txns[p].gone == {})
      && (s.txns[p].gone != {} && s.txns[p].job != Clear ==> s.txns[p].since <= s.edge)
  }

  predicate HasSwept(t: Txn) { t.stage == Swept || t.stage == Decided }

  /** Private deletes are what the keyed sweep selects, still there and stale. */
  ghost predicate DeletesFit(s: State) {
    forall p | p in s.txns && HasSwept(s.txns[p]) ::
      if s.txns[p].job == Clear then s.txns[p].gone == AllOf(s.table, s.txns[p].key)
      else s.txns[p].gone <= StaleOf(s.table, s.txns[p].key, s.txns[p].since)
  }

  ghost predicate Wellformed(c: Config, s: State) {
    RowsFit(c, s) && LocksFit(c, s) && InsertsFit(s) && CutsFit(s) && DeletesFit(s)
  }

  lemma LocksStayFit(c: Config, s: State, e: Event, s': State)
    requires LocksFit(c, s) && Step(c, s, e, s')
    ensures LocksFit(c, s')
  {
  }

  lemma InsertsStayFit(c: Config, s: State, e: Event, s': State)
    requires RowsFit(c, s) && InsertsFit(s) && Step(c, s, e, s')
    ensures InsertsFit(s')
  {
  }

  lemma RowsStayFit(c: Config, s: State, e: Event, s': State)
    requires Wellformed(c, s) && Step(c, s, e, s')
    ensures RowsFit(c, s')
  {
  }

  lemma CutsStayFit(c: Config, s: State, e: Event, s': State)
    requires CutsFit(s) && Step(c, s, e, s')
    ensures CutsFit(s')
  {
  }

  /** Someone else's commit, for another key, leaves a sweep's rows as they were. */
  lemma CommitBesideSweep(table: Table, log: Table, t: Txn, other: Txn)
    requires table.Keys <= log.Keys && t.key != other.key && HasSwept(other)
    requires t.row.Some? ==> t.row.value !in log
    requires t.gone <= AllOf(table, t.key)
    ensures AllOf(TableAfter(table, t), other.key) == AllOf(table, other.key)
    ensures StaleOf(TableAfter(table, t), other.key, other.since) == StaleOf(table, other.key, other.since)
  {
  }

  /** A prune never takes a row someone has deleted. */
  lemma PruneBesideSweep(table: Table, t: Txn, victims: set<RowId>)
    requires t.gone !! victims
    ensures t.gone == AllOf(table, t.key) ==> t.gone == AllOf(table - victims, t.key)
    ensures t.gone <= StaleOf(table, t.key, t.since) ==> t.gone <= StaleOf(table - victims, t.key, t.since)
  {
  }

  lemma DeletesStayFit(c: Config, s: State, e: Event, s': State)
    requires Wellformed(c, s) && Step(c, s, e, s')
    ensures DeletesFit(s')
  {
    forall q | q in s'.txns && HasSwept(s'.txns[q])
      ensures if s'.txns[q].job == Clear then s'.txns[q].gone == AllOf(s'.table, s'.txns[q].key)
              else s'.txns[q].gone <= StaleOf(s'.table, s'.txns[q].key, s'.txns[q].since)
    {
      match e
      case Commit(p) => CommitBesideSweep(s.table, s.log, s.txns[p], s.txns[q]);
      case Prune(_, victims) => PruneBesideSweep(s.table, s.txns[q], victims);
      case _ =>
    }
  }

  lemma StaysWellformed(c: Config, s: State, e: Event, s': State)
    requires Wellformed(c, s) && Step(c, s, e, s')
    ensures Wellformed(c, s')
  {
    LocksStayFit(c, s, e, s');
    InsertsStayFit(c, s, e, s');
    RowsStayFit(c, s, e, s');
    CutsStayFit(c, s, e, s');
    DeletesStayFit(c, s, e, s');
  }

  lemma {:induction false} AlwaysWellformed(c: Config, states: seq<State>, events: seq<Event>, n: nat)
    requires IsRun(System(c), states, events) && n < |states|
    ensures Wellformed(c, states[n])
  {
    if n > 0 {
      AlwaysWellformed(c, states, events, n - 1);
      StaysWellformed(c, states[n - 1], events[n - 1], states[n]);
    }
  }

  // ---- The bound on every recorded failure --------------------------------------------------

  /** There is room in `t` for one more row of this key and stamp, in every interval around the stamp. */
  ghost predicate Room(t: Table, key: string, at: int, max: nat, length: nat) {
    forall lo, hi | lo <= at <= hi <= lo + length :: |Within(t, key, lo, hi)| < max
  }

  ghost predicate LogRoom(c: Config, s: State, length: nat) {
    forall p | p in s.txns && s.txns[p].row.Some? :: Room(s.log, s.txns[p].key, s.txns[p].at, c.max, length)
  }

  /** An admitted record saw every logged failure of the interval: none of them can have been cut yet. */
  lemma DecisionSeesLog(c: Config, s: State, p: Pid, length: nat)
    requires Wellformed(c, s) && p in s.txns && s.txns[p].stage == Swept
    requires s.txns[p].job == Record && s.now - s.txns[p].at <= c.lag && length + c.lag <= c.window
    requires |Recent(s.table - s.txns[p].gone, s.txns[p].key, s.txns[p].since)| < c.max
    ensures Room(s.log, s.txns[p].key, s.txns[p].at, c.max, length)
  {
    var t := s.txns[p];
    var counted := Recent(s.table - t.gone, t.key, t.since);
    forall lo, hi | lo <= t.at <= hi <= lo + length ensures |Within(s.log, t.key, lo, hi)| < c.max {
      assert Within(s.log, t.key, lo, hi) <= counted;
      SubsetSize(Within(s.log, t.key, lo, hi), counted);
    }
  }

  /** Adding one row where there is room keeps the bound. */
  lemma RoomForOne(t: Table, r: RowId, key: string, at: int, max: nat, length: nat)
    requires r !in t && Bounded(t, max, length) && Room(t, key, at, max, length)
    ensures Bounded(t[r := Failure(key, at)], max, length)
  {
    var t' := t[r := Failure(key, at)];
    forall k, lo, hi | hi <= lo + length ensures |Within(t', k, lo, hi)| <= max {
      if k == key && lo <= at <= hi {
        assert Within(t', k, lo, hi) == Within(t, k, lo, hi) + {r};
      } else {
        assert Within(t', k, lo, hi) == Within(t, k, lo, hi);
      }
    }
  }

  /** Removing rows keeps the bound and the room. */
  lemma FewerRows(t: Table, t': Table, max: nat, length: nat)
    requires t'.Keys <= t.Keys && forall r | r in t' :: t'[r] == t[r]
    ensures Bounded(t, max, length) ==> Bounded(t', max, length)
    ensures forall key, at | Room(t, key, at, max, length) :: Room(t', key, at, max, length)
  {
    forall key, lo, hi ensures |Within(t', key, lo, hi)| <= |Within(t, key, lo, hi)| {
      SubsetSize(Within(t', key, lo, hi), Within(t, key, lo, hi));
    }
  }

  /** A change confined to other keys keeps the room. */
  lemma OtherKeys(t: Table, t': Table, key: string, at: int, max: nat, length: nat)
    requires Room(t, key, at, max, length)
    requires forall r :: (r in t && t[r].key == key) || (r in t' && t'[r].key == key) ==>
      r in t && r in t' && t[r] == t'[r]
    ensures Room(t', key, at, max, length)
  {
    forall lo, hi | lo <= at <= hi <= lo + length ensures |Within(t', key, lo, hi)| < max {
      assert Within(t', key, lo, hi) == Within(t, key, lo, hi);
    }
  }

  lemma LogStaysBounded(c: Config, s: State, e: Event, s': State, length: nat)
    requires Wellformed(c, s) && Step(c, s, e, s') && length + c.lag <= c.window
    requires Bounded(s.log, c.max, length) && LogRoom(c, s, length)
    ensures Bounded(s'.log, c.max, length) && LogRoom(c, s', length)
  {
    match e
    case Decide(p) =>
      if s'.txns[p].row.Some? {
        DecisionSeesLog(c, s, p, length);
      }
    case Commit(p) =>
      var t := s.txns[p];
      if t.row.Some? {
        RoomForOne(s.log, t.row.value, t.key, t.at, c.max, length);
      } else {
        FewerRows(s.log, s'.log, c.max, length);
      }
      forall q | q in s'.txns && s'.txns[q].row.Some?
        ensures Room(s'.log, s'.txns[q].key, s'.txns[q].at, c.max, length)
      {
        OtherKeys(s.log, s'.log, s.txns[q].key, s.txns[q].at, c.max, length);
      }
    case _ =>
  }

  lemma {:induction false} LogAlwaysBounded(c: Config, states: seq<State>, events: seq<Event>, n: nat, length: nat)
    requires IsRun(System(c), states, events) && n < |states| && length + c.lag <= c.window
    ensures Bounded(states[n].log, c.max, length) && LogRoom(c, states[n], length)
  {
    if n > 0 {
      LogAlwaysBounded(c, states, events, n - 1, length);
      AlwaysWellformed(c, states, events, n - 1);
      LogStaysBounded(c, states[n - 1], events[n - 1], states[n], length);
    }
  }

  // ---- The bound on the rows still in the table ---------------------------------------------

  ghost predicate TableRoom(c: Config, s: State) {
    forall p | p in s.txns && s.txns[p].row.Some? ::
      Room(s.table - s.txns[p].gone, s.txns[p].key, s.txns[p].at, c.max, c.window)
  }

  lemma DecisionSeesTable(c: Config, s: State, p: Pid)
    requires Wellformed(c, s) && p in s.txns && s.txns[p].stage == Swept
    requires |Recent(s.table - s.txns[p].gone, s.txns[p].key, s.txns[p].since)| < c.max
    ensures Room(s.table - s.txns[p].gone, s.txns[p].key, s.txns[p].at, c.max, c.window)
  {
    var t := s.txns[p];
    var left := s.table - t.gone;
    forall lo, hi | lo <= t.at <= hi <= lo + c.window ensures |Within(left, t.key, lo, hi)| < c.max {
      SubsetSize(Within(left, t.key, lo, hi), Recent(left, t.key, t.since));
    }
  }

  lemma TableStaysBounded(c: Config, s: State, e: Event, s': State)
    requires Wellformed(c, s) && Step(c, s, e, s')
    requires Bounded(s.table, c.max, c.window) && TableRoom(c, s)
    ensures Bounded(s'.table, c.max, c.window) && TableRoom(c, s')
  {
    match e
    case Decide(p) =>
      if s'.txns[p].row.Some? {
        DecisionSeesTable(c, s, p);
      }
    case Commit(p) =>
      var t := s.txns[p];
      var swept := s.table - t.gone;
      FewerRows(s.table, swept, c.max, c.window);
      if t.row.Some? {
        RoomForOne(swept, t.row.value, t.key, t.at, c.max, c.window);
      }
      forall q | q in s'.txns && s'.txns[q].row.Some?
        ensures Room(s'.table - s'.txns[q].gone, s'.txns[q].key, s'.txns[q].at, c.max, c.window)
      {
        var u := s.txns[q];
        OtherKeys(s.table - u.gone, s'.table - u.gone, u.key, u.at, c.max, c.window);
      }
    case Prune(before, victims) =>
      FewerRows(s.table, s'.table, c.max, c.window);
      forall q | q in s'.txns && s'.txns[q].row.Some?
        ensures Room(s'.table - s'.txns[q].gone, s'.txns[q].key, s'.txns[q].at, c.max, c.window)
      {
        FewerRows(s.table - s.txns[q].gone, s'.table - s.txns[q].gone, c.max, c.window);
      }
    case _ =>
  }

  /** Whatever the lag, no window of the configured length ever holds more than `max` rows of a key. */
  lemma {:induction false} TableAlwaysBounded(c: Config, states: seq<State>, events: seq<Event>, n: nat)
    requires IsRun(System(c), states, events) && n < |states|
    ensures Bounded(states[n].table, c.max, c.window) && TableRoom(c, states[n])
  {
    if n > 0 {
      TableAlwaysBounded(c, states, events, n - 1);
      AlwaysWellformed(c, states, events, n - 1);
      TableStaysBounded(c, states[n - 1], events[n - 1], states[n]);
    }
  }

  // ---- Pruning refines the full log ---------------------------------------------------------

  /** At any edge no older than the highest cut, the table answers as the unpruned log would. */
  lemma CountsAsFullLog(c: Config, s: State, key: string, since: int)
    requires Wellformed(c, s) && s.edge <= since
    ensures Recent(s.table, key, since) == Recent(s.log, key, since)
  {
  }

  /** In particular at the current window edge, in every reachable state. */
  lemma CurrentEdgeAnswers(c: Config, states: seq<State>, events: seq<Event>, n: nat, key: string)
    requires IsRun(System(c), states, events) && n < |states|
    ensures
      var edge := states[n].now - c.window;
      Recent(states[n].table, key, edge) == Recent(states[n].log, key, edge)
  {
    AlwaysWellformed(c, states, events, n);
    CountsAsFullLog(c, states[n], key, states[n].now - c.window);
  }

  /**
    The limit itself, whatever the lag: at every instant of every run, at most `max` failures of a
    key, recorded since its last clear, lie in the window that ends then.
   */
  lemma NowBounded(c: Config, states: seq<State>, events: seq<Event>, n: nat, key: string)
    requires IsRun(System(c), states, events) && n < |states|
    ensures |Within(states[n].log, key, states[n].now - c.window, states[n].now)| <= c.max
  {
    var s := states[n];
    TableAlwaysBounded(c, states, events, n);
    AlwaysWellformed(c, states, events, n);
    assert Within(s.log, key, s.now - c.window, s.now) == Within(s.table, key, s.now - c.window, s.now);
  }

  // ---- What a refusal means -------------------------------------------------------------------

  /** A check that answers yes, or a record that inserts nothing. */
  predicate Refusing(t: Txn) {
    t.stage == Decided && match t.job case Check => t.limited case Record => t.row.None? case Clear => false
  }

  /** A transaction that found the limit reached still has that many failures on record. */
  ghost predicate RefusalsFit(c: Config, s: State) {
    forall p | p in s.txns && Refusing(s.txns[p]) :: |Recent(s.log, s.txns[p].key, s.txns[p].since)| >= c.max
  }

  lemma DecisionOnRecord(c: Config, s: State, p: Pid)
    requires Wellformed(c, s) && p in s.txns && s.txns[p].stage == Swept && s.txns[p].job != Clear
    ensures
      var t := s.txns[p];
      && |Recent(s.table - t.gone, t.key, t.since)| <= |Recent(s.log, t.key, t.since)|
      && (s.edge <= t.since ==> Recent(s.table - t.gone, t.key, t.since) == Recent(s.log, t.key, t.since))
  {
    var t := s.txns[p];
    SubsetSize(Recent(s.table - t.gone, t.key, t.since), Recent(s.log, t.key, t.since));
  }

  /** A commit for another key leaves the failures on record alone. */
  lemma OtherKeyOnRecord(log: Table, t: Txn, key: string, since: int)
    requires t.key != key && (t.row.Some? ==> t.row.value !in log)
    ensures Recent(LogAfter(log, t), key, since) == Recent(log, key, since)
  {
  }

  lemma RefusalsStayFit(c: Config, s: State, e: Event, s': State)
    requires Wellformed(c, s) && RefusalsFit(c, s) && Step(c, s, e, s')
    ensures RefusalsFit(c, s')
  {
    match e
    case Decide(p) =>
      if s.txns[p].job != Clear {
        DecisionOnRecord(c, s, p);
      }
    case Commit(p) =>
      forall q | q in s'.txns && Refusing(s'.txns[q])
        ensures |Recent(s'.log, s'.txns[q].key, s'.txns[q].since)| >= c.max
      {
        OtherKeyOnRecord(s.log, s.txns[p], s.txns[q].key, s.txns[q].since);
      }
    case _ =>
  }

  lemma {:induction false} RefusalsAlwaysFit(c: Config, states: seq<State>, events: seq<Event>, n: nat)
    requires IsRun(System(c), states, events) && n < |states|
    ensures RefusalsFit(c, states[n])
  {
    if n > 0 {
      RefusalsAlwaysFit(c, states, events, n - 1);
      AlwaysWellformed(c, states, events, n - 1);
      RefusalsStayFit(c, states[n - 1], events[n - 1], states[n]);
    }
  }

  /** A decision at an edge no cut has passed refuses exactly when the limit is on record. */
  lemma RefusedIff(c: Config, states: seq<State>, events: seq<Event>, n: nat, p: Pid)
    requires IsRun(System(c), states, events) && n < |events| && events[n] == Decide(p)
    requires p in states[n].txns && states[n].txns[p].job != Clear && states[n].edge <= states[n].txns[p].since
    ensures p in states[n + 1].txns
    ensures
      var t := states[n].txns[p];
      states[n + 1].txns[p].limited <==> |Recent(states[n].log, t.key, t.since)| >= c.max
  {
    AlwaysWellformed(c, states, events, n);
    assert Step(c, states[n], events[n], states[n + 1]);
    DecisionOnRecord(c, states[n], p);
  }

  // ---- Past intervals: the bound and where it ends ----------------------------

  function Burst(rows: nat): (t: Table)
    ensures |t| == rows
    ensures forall r | r in t :: r < rows && t[r] == Failure("a", 0)
  {
    if rows == 0 then map[] else Burst(rows - 1)[rows - 1 := Failure("a", 0)]
  }

  /** A burst of failures of key "a" stamped 0, nothing open. */
  function Filled(c: Config, rows: nat): State {
    var edge: int := 0 - c.window;
    State(Burst(rows), Burst(rows), rows, map[], map[], 0, edge)
  }

  lemma {:induction false} FilledReachable(c: Config, rows: nat)
    requires rows <= c.max
    ensures Reachable(System(c), Filled(c, rows))
  {
    if rows == 0 {
      assert RunTo(System(c), [Filled(c, 0)], [], Filled(c, 0));
    } else {
      FilledReachable(c, rows - 1);
      var s0 := Filled(c, rows - 1);
      var since: int := 0 - c.window;
      var s1 := s0.(txns := map[0 := Opened(Record, "a", since, 0)]);
      Extend(System(c), s0, Begin(0, Record, "a", since), s1);
      RecordRuns(c, s1, 0);
      assert Recent(s0.table, "a", since) == s0.table.Keys;
      assert AfterRecord(s1, 0) == Filled(c, rows);
    }
  }

  /** A begun record whose key is free, run to its commit without interference and admitted. */
  function AfterRecord(s: State, p: Pid): State
    requires p in s.txns
  {
    var t := s.txns[p];
    var row := s.next;
    s.(table := s.table[row := Failure(t.key, t.at)], log := s.log[row := Failure(t.key, t.at)],
       next := row + 1, txns := s.txns - {p}, edge := Max(s.edge, t.since))
  }

  /** A begun record takes its free key and sweeps; nothing of the key is stale. */
  lemma RecordSweeps(c: Config, s: State, p: Pid) returns (s': State)
    requires Reachable(System(c), s) && p in s.txns && s.locks == map[]
    requires s.txns[p] == Opened(Record, s.txns[p].key, s.txns[p].since, s.txns[p].at)
    requires StaleOf(s.table, s.txns[p].key, s.txns[p].since) == {}
    ensures Reachable(System(c), s')
    ensures s' == s.(locks := map[s.txns[p].key := p], txns := s.txns[p := s.txns[p].(stage := Swept)],
                     edge := Max(s.edge, s.txns[p].since))
  {
    var t := s.txns[p];
    var s1 := s.(locks := map[t.key := p], txns := s.txns[p := t.(stage := Locked)]);
    Extend(System(c), s, Lock(p), s1);
    s' := s1.(txns := s1.txns[p := t.(stage := Swept)], edge := Max(s.edge, t.since));
    Extend(System(c), s1, Sweep(p), s');
  }

  lemma RecordRuns(c: Config, s: State, p: Pid)
    requires Reachable(System(c), s) && p in s.txns && s.locks == map[]
    requires s.txns[p] == Opened(Record, s.txns[p].key, s.txns[p].since, s.txns[p].at)
    requires s.now - s.txns[p].at <= c.lag
    requires StaleOf(s.table, s.txns[p].key, s.txns[p].since) == {}
    ensures |Recent(s.table, s.txns[p].key, s.txns[p].since)| < c.max ==> Reachable(System(c), AfterRecord(s, p))
  {
    var t := s.txns[p];
    if |Recent(s.table, t.key, t.since)| < c.max {
      var s2 := RecordSweeps(c, s, p);
      assert s.table - {} == s.table;
      var s3 := s2.(txns := s2.txns[p := t.(stage := Decided, limited := false, row := Some(s.next))],
          next := s.next + 1);
      Extend(System(c), s2, Decide(p), s3);
      var s4 := AfterRecord(s, p);
      assert Unlock(s3.locks, p) == map[];
      assert s3.txns - {p} == s.txns - {p};
      Extend(System(c), s3, Commit(p), s4);
    }
  }

  /** With more lag than the slack, one late record lands in an interval already full. */
  lemma LateRecordOverflows(c: Config, length: nat) returns (s: State)
    requires 1 <= c.max <= PRUNE_BATCH && c.window < length + c.lag
    ensures Reachable(System(c), s) && |Within(s.log, "a", 0, length)| == c.max + 1
  {
    var s0 := Filled(c, c.max);
    FilledReachable(c, c.max);
    var at := Max(0, c.window - c.lag + 1);
    var s1 := s0.(now := at);
    Extend(System(c), s0, Tick(at), s1);
    var s2 := s1.(txns := map[0 := Opened(Record, "a", at - c.window, at)]);
    Extend(System(c), s1, Begin(0, Record, "a", at - c.window), s2);
    var s3 := s2.(now := c.window + 1);
    Extend(System(c), s2, Tick(c.window + 1), s3);
    var victims := s0.table.Keys;
    var s4 := s3.(table := map[], edge := 1);
    assert s3.table - victims == map[];
    assert Stale(s3.table, 1) == victims;
    Extend(System(c), s3, Prune(1, victims), s4);
    assert Recent(s4.table, "a", at - c.window) == {} && StaleOf(s4.table, "a", at - c.window) == {};
    RecordRuns(c, s4, 0);
    s := AfterRecord(s4, 0);
    assert Within(s.log, "a", 0, length) == victims + {c.max};
  }

  /**
    Intervals that lie in the past can still gain late records. Every run keeps every interval of
    `length`, wherever it lies, to `max` recorded failures exactly when the length leaves room for
    the lag; the window that ends now needs no such room.
   */
  lemma WindowBoundIff(c: Config, length: nat)
    requires 1 <= c.max <= 100
    ensures (forall s | Reachable(System(c), s) :: Bounded(s.log, c.max, length)) <==> length + c.lag <= c.window
  {
    if length + c.lag <= c.window {
      forall s | Reachable(System(c), s) ensures Bounded(s.log, c.max, length) {
        var states, events :| RunTo(System(c), states, events, s);
        LogAlwaysBounded(c, states, events, |events|, length);
      }
    } else {
      var s := LateRecordOverflows(c, length);
      assert !Bounded(s.log, c.max, length);
    }
  }
}
