/**
  The transaction shape shared by flow consumption, code exchange and OTP verification: lock one
  row with SELECT ... FOR UPDATE, read the clock, decide, write that row or give up, commit.

  The theorem: whatever the interleaving, every answer and the committed rows are those of a serial
  history in which each request decides at once. Single-use laws are then proved on histories.
 */
module RowTransactions {
  import opened Prelude
  import opened Runs

  type Pid = nat

  /** What a request decides on the row it holds: a new row to commit, or `None` to roll back. */
  datatype Decision<R, O> = Decision(write: Option<R>, answer: O)

  /** One entry of a serial history. */
  datatype Op<K, R, Q, O> =
    | Created(k: K, row: R)
    | Deleted(k: K)
    | Asked(k: K, q: Q, clock: int, answer: O)

  /** The fixed part of a store: how a held row is decided, and the answer when there is no row. */
  datatype Store<!R, !Q, !O> = Store(decide: (Q, R, int) -> Decision<R, O>, missing: O)

  function After<K, R, Q, O>(store: Store<R, Q, O>, ops: seq<Op<K, R, Q, O>>): map<K, R> {
    if ops == [] then map[]
    else Apply(store, After(store, ops[..|ops| - 1]), ops[|ops| - 1])
  }

  function Apply<K, R, Q, O>(store: Store<R, Q, O>, rows: map<K, R>, op: Op<K, R, Q, O>): map<K, R> {
    match op
    case Created(k, row) => rows[k := row]
    case Deleted(k) => rows - {k}
    case Asked(k, q, clock, _) =>
      if k !in rows then rows
      else
        match store.decide(q, rows[k], clock).write
        case Some(row) => rows[k := row]
        case None => rows
  }

  function AnswerOn<K, R, Q, O>(store: Store<R, Q, O>, rows: map<K, R>, k: K, q: Q, clock: int): O {
    if k in rows then store.decide(q, rows[k], clock).answer else store.missing
  }

  ghost predicate Mentions<K, R, Q, O>(ops: seq<Op<K, R, Q, O>>, k: K) {
    exists i | 0 <= i < |ops| :: ops[i].Created? && ops[i].k == k
  }

  /** Keys are created once, and every answer is the one the rows at that point give. */
  ghost predicate Serial<K, R, Q, O>(store: Store<R, Q, O>, ops: seq<Op<K, R, Q, O>>) {
    ops != [] ==>
      var before, op := ops[..|ops| - 1], ops[|ops| - 1];
      && Serial(store, before)
      && (op.Created? ==> !Mentions(before, op.k))
      && (op.Asked? ==> op.answer == AnswerOn(store, After(store, before), op.k, op.q, op.clock))
  }

  /** A front of a serial history is one. */
  lemma {:induction false} PrefixSerial<K, R, Q, O>(store: Store<R, Q, O>, ops: seq<Op<K, R, Q, O>>, n: nat)
    requires Serial(store, ops) && n <= |ops|
    ensures Serial(store, ops[..n])
    decreases |ops|
  {
    if n < |ops| {
      PrefixSerial(store, ops[..|ops| - 1], n);
      assert ops[..|ops| - 1][..n] == ops[..n];
    } else {
      assert ops[..n] == ops;
    }
  }

  // ---- The interleaved machine ------------------------------------------------------------

  datatype Txn<K, R, Q, O> =
    | Begun(k: K, q: Q)
    | Holding(k: K, q: Q, row: R)
    | Written(k: K, q: Q, row: R, clock: int, write: R, answer: O)

  datatype State<K, R, Q, O> = State(
    rows: map<K, R>, owner: map<K, Pid>, txns: map<Pid, Txn<K, R, Q, O>>, now: int,
    ops: seq<Op<K, R, Q, O>>)

  datatype Event<K, R, Q> =
    | Tick(later: int)
    | Create(k: K, row: R)
    | Delete(k: K)
    | Begin(p: Pid, k: K, q: Q)
    | Read(p: Pid)
    | Decide(p: Pid)
    | Commit(p: Pid)
    | Abort(p: Pid)

  function Release<K, R, Q, O>(s: State<K, R, Q, O>, p: Pid): State<K, R, Q, O> {
    s.(owner := map k | k in s.owner && s.owner[k] != p :: s.owner[k], txns := s.txns - {p})
  }

  ghost predicate Step<K, R, Q, O>(
      store: Store<R, Q, O>, s: State<K, R, Q, O>, e: Event<K, R, Q>, s': State<K, R, Q, O>) {
    match e
    case Tick(later) => s.now <= later && s' == s.(now := later)
    case Create(k, row) => !Mentions(s.ops, k) && s' == s.(rows := s.rows[k := row], ops := s.ops + [Created(k, row)])
    case Delete(k) => k !in s.owner && s' == s.(rows := s.rows - {k}, ops := s.ops + [Deleted(k)])
    case Begin(p, k, q) => p !in s.txns && s' == s.(txns := s.txns[p := Begun(k, q)])
    case Read(p) =>
      && p in s.txns && s.txns[p].Begun?
      && var t := s.txns[p];
      if t.k !in s.rows then
        s' == Release(s, p).(ops := s.ops + [Asked(t.k, t.q, s.now, store.missing)])
      else
        && t.k !in s.owner
        && s' == s.(owner := s.owner[t.k := p], txns := s.txns[p := Holding(t.k, t.q, s.rows[t.k])])
    case Decide(p) =>
      && p in s.txns && s.txns[p].Holding?
      && var t := s.txns[p];
      var d := store.decide(t.q, t.row, s.now);
      if d.write.None? then
        s' == Release(s, p).(ops := s.ops + [Asked(t.k, t.q, s.now, d.answer)])
      else
        s' == s.(txns := s.txns[p := Written(t.k, t.q, t.row, s.now, d.write.value, d.answer)])
    case Commit(p) =>
      && p in s.txns && s.txns[p].Written?
      && var t := s.txns[p];
      s' == Release(s, p).(rows := s.rows[t.k := t.write], ops := s.ops + [Asked(t.k, t.q, t.clock, t.answer)])
    case Abort(p) => p in s.txns && s' == Release(s, p)
  }

  ghost predicate Init<K, R, Q, O>(s: State<K, R, Q, O>) {
    s.rows == map[] && s.owner == map[] && s.txns == map[] && s.ops == []
  }

  ghost function System<K, R, Q, O>(store: Store<R, Q, O>): Machine<State<K, R, Q, O>, Event<K, R, Q>> {
    Machine(s => Init(s), (s, e, s') => Step(store, s, e, s'))
  }

  /** A transaction past its read owns its row, which is still as it read it. */
  ghost predicate RowsHeld<K, R, Q, O>(s: State<K, R, Q, O>) {
    forall p | p in s.txns && !s.txns[p].Begun? ::
      var t := s.txns[p];
      t.k in s.owner && s.owner[t.k] == p && t.k in s.rows && s.rows[t.k] == t.row
  }

  ghost predicate WritesDecided<K, R, Q, O>(store: Store<R, Q, O>, s: State<K, R, Q, O>) {
    forall p | p in s.txns && s.txns[p].Written? ::
      var t := s.txns[p];
      store.decide(t.q, t.row, t.clock) == Decision(Some(t.write), t.answer)
  }

  ghost predicate RowsCreated<K, R, Q, O>(s: State<K, R, Q, O>) {
    forall k | k in s.rows :: Mentions(s.ops, k)
  }

  /** Only an open transaction past its read owns a row. */
  ghost predicate OwnersOpen<K, R, Q, O>(s: State<K, R, Q, O>) {
    forall k | k in s.owner :: s.owner[k] in s.txns && !s.txns[s.owner[k]].Begun? && s.txns[s.owner[k]].k == k
  }

  ghost predicate Inv<K, R, Q, O>(store: Store<R, Q, O>, s: State<K, R, Q, O>) {
    && RowsHeld(s) && OwnersOpen(s) && WritesDecided(store, s) && RowsCreated(s)
    && s.rows == After(store, s.ops) && Serial(store, s.ops)
  }

  lemma OneMore<K, R, Q, O>(store: Store<R, Q, O>, ops: seq<Op<K, R, Q, O>>, op: Op<K, R, Q, O>)
    ensures After(store, ops + [op]) == Apply(store, After(store, ops), op)
    ensures Serial(store, ops)
      && (op.Created? ==> !Mentions(ops, op.k))
      && (op.Asked? ==> op.answer == AnswerOn(store, After(store, ops), op.k, op.q, op.clock))
      ==> Serial(store, ops + [op])
    ensures forall k | Mentions(ops, k) :: Mentions(ops + [op], k)
  {
    assert (ops + [op])[..|ops|] == ops;
    forall k | Mentions(ops, k) ensures Mentions(ops + [op], k) {
      var i :| 0 <= i < |ops| && ops[i].Created? && ops[i].k == k;
      assert (ops + [op])[i] == ops[i];
    }
  }

  lemma StepKeepsHeld<K, R, Q, O>(store: Store<R, Q, O>, s: State<K, R, Q, O>, e: Event<K, R, Q>, s': State<K, R, Q, O>)
    requires RowsHeld(s) && RowsCreated(s) && Step(store, s, e, s')
    ensures RowsHeld(s')
  {
  }

  lemma StepKeepsOwners<K, R, Q, O>(
      store: Store<R, Q, O>, s: State<K, R, Q, O>, e: Event<K, R, Q>, s': State<K, R, Q, O>)
    requires OwnersOpen(s) && Step(store, s, e, s')
    ensures OwnersOpen(s')
  {
  }

  lemma StepKeepsDecided<K, R, Q, O>(
      store: Store<R, Q, O>, s: State<K, R, Q, O>, e: Event<K, R, Q>, s': State<K, R, Q, O>)
    requires WritesDecided(store, s) && Step(store, s, e, s')
    ensures WritesDecided(store, s')
  {
  }

  lemma StepKeepsCreated<K, R, Q, O>(
      store: Store<R, Q, O>, s: State<K, R, Q, O>, e: Event<K, R, Q>, s': State<K, R, Q, O>)
    requires RowsHeld(s) && RowsCreated(s) && Step(store, s, e, s')
    ensures RowsCreated(s')
  {
    if s'.ops != s.ops {
      var op := s'.ops[|s.ops|];
      OneMore(store, s.ops, op);
      assert (s.ops + [op])[|s.ops|] == op;
    }
  }

  lemma StepKeepsHistory<K, R, Q, O>(
      store: Store<R, Q, O>, s: State<K, R, Q, O>, e: Event<K, R, Q>, s': State<K, R, Q, O>)
    requires RowsHeld(s) && WritesDecided(store, s) && Step(store, s, e, s')
    requires s.rows == After(store, s.ops) && Serial(store, s.ops)
    ensures s'.rows == After(store, s'.ops) && Serial(store, s'.ops)
  {
    if s'.ops != s.ops {
      OneMore(store, s.ops, s'.ops[|s.ops|]);
    }
  }

  lemma StepKeepsInv<K, R, Q, O>(store: Store<R, Q, O>, s: State<K, R, Q, O>, e: Event<K, R, Q>, s': State<K, R, Q, O>)
    requires Inv(store, s) && Step(store, s, e, s')
    ensures Inv(store, s')
  {
    StepKeepsHeld(store, s, e, s');
    StepKeepsOwners(store, s, e, s');
    StepKeepsDecided(store, s, e, s');
    StepKeepsCreated(store, s, e, s');
    StepKeepsHistory(store, s, e, s');
  }

  /** Every interleaved run has committed exactly what its serial history says, answers included. */
  lemma {:induction false} RunsAreSerial<K, R, Q, O>(
      store: Store<R, Q, O>, states: seq<State<K, R, Q, O>>, events: seq<Event<K, R, Q>>, n: nat)
    requires IsRun(System(store), states, events) && n < |states|
    ensures Inv(store, states[n])
    ensures Serial(store, states[n].ops) && states[n].rows == After(store, states[n].ops)
  {
    if n > 0 {
      RunsAreSerial(store, states, events, n - 1);
      StepKeepsInv(store, states[n - 1], events[n - 1], states[n]);
    }
  }

  // ---- One request among others -----------------------------------------------------------

  /** An event that one caller's transaction makes. */
  predicate IsRequest<K, R, Q>(e: Event<K, R, Q>) { e.Begin? || e.Read? || e.Decide? || e.Commit? || e.Abort? }

  lemma StepGrowsOps<K, R, Q, O>(store: Store<R, Q, O>, s: State<K, R, Q, O>, e: Event<K, R, Q>, s': State<K, R, Q, O>)
    requires Step(store, s, e, s')
    ensures |s.ops| <= |s'.ops| <= |s.ops| + 1 && s'.ops[..|s.ops|] == s.ops
    ensures |s'.ops| > |s.ops| && s'.ops[|s.ops|].Created? ==> e == Create(s'.ops[|s.ops|].k, s'.ops[|s.ops|].row)
  {
  }

  /** Until its own end a transaction stays open, with its own request. */
  lemma OpenStays<K, R, Q, O>(
      store: Store<R, Q, O>, s: State<K, R, Q, O>, e: Event<K, R, Q>, s': State<K, R, Q, O>, p: Pid)
    requires Step(store, s, e, s') && p in s.txns
    ensures !IsRequest(e) || e.p != p ==> p in s'.txns
    ensures p in s'.txns ==> s'.txns[p].k == s.txns[p].k && s'.txns[p].q == s.txns[p].q
  {
  }

  /** A transaction that ends has aborted, or the last entry of the history is its answer. */
  lemma EndAnswers<K, R, Q, O>(
      store: Store<R, Q, O>, s: State<K, R, Q, O>, e: Event<K, R, Q>, s': State<K, R, Q, O>, p: Pid)
    requires Step(store, s, e, s') && p in s.txns && p !in s'.txns
    ensures s'.ops != s.ops ==>
      && |s'.ops| == |s.ops| + 1 && s'.ops[|s.ops|].Asked?
      && s'.ops[|s.ops|].k == s.txns[p].k && s'.ops[|s.ops|].q == s.txns[p].q
  {
  }

  /** Run alone on a free row, a request that decides to write commits its decision. */
  lemma RunsAlone<K, R, Q, O>(store: Store<R, Q, O>, s: State<K, R, Q, O>, p: Pid, k: K, q: Q)
    returns (begun: State<K, R, Q, O>, holding: State<K, R, Q, O>, written: State<K, R, Q, O>, done: State<K, R, Q, O>)
    requires p !in s.txns && k in s.rows && k !in s.owner && (forall j | j in s.owner :: s.owner[j] != p)
    requires store.decide(q, s.rows[k], s.now).write.Some?
    ensures Step(store, s, Begin(p, k, q), begun) && Step(store, begun, Read(p), holding)
    ensures Step(store, holding, Decide(p), written) && Step(store, written, Commit(p), done)
    ensures p in begun.txns && p in holding.txns && p in written.txns
    ensures begun.ops == s.ops && holding.ops == s.ops && written.ops == s.ops
    ensures done == s.(rows := done.rows, ops := s.ops + [Asked(k, q, s.now, store.decide(q, s.rows[k], s.now).answer)])
  {
    var d := store.decide(q, s.rows[k], s.now);
    begun := s.(txns := s.txns[p := Begun(k, q)]);
    holding := begun.(owner := s.owner[k := p], txns := begun.txns[p := Holding(k, q, s.rows[k])]);
    written := holding.(txns := holding.txns[p := Written(k, q, s.rows[k], s.now, d.write.value, d.answer)]);
    done := Release(written, p).(rows := s.rows[k := d.write.value], ops := s.ops + [Asked(k, q, s.now, d.answer)]);
    assert Release(written, p).owner == s.owner;
    assert written.txns - {p} == s.txns;
  }

  /** A key that was never created has no row, and no one holds it. */
  lemma UncreatedFree<K, R, Q, O>(store: Store<R, Q, O>, s: State<K, R, Q, O>, k: K)
    requires Inv(store, s) && !Mentions(s.ops, k)
    ensures k !in s.rows && k !in s.owner
  {
    assert forall j | j in s.owner :: s.txns[s.owner[j]].k == j && j in s.rows;
  }
}
