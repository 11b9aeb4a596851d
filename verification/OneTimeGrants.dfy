/**
  Rows that can be redeemed once, in a serial history of requests: the laws shared by OAuth flows
  and authorization codes, whatever else the rows hold.
 */
module OneTimeGrants {
  import opened Prelude
  import opened RowTransactions

  /** How to tell a redeemed row, and a request that redeemed one. */
  datatype Law<!R, !O> = Law(used: R -> bool, granted: O -> bool)

  /** Only an unused row is granted, a grant marks it used, and nothing else writes. */
  ghost predicate IsOneTime<R(!new), Q(!new), O(!new)>(store: Store<R, Q, O>, law: Law<R, O>) {
    && !law.granted(store.missing)
    && forall q: Q, row: R, clock: int ::
         var d := store.decide(q, row, clock);
         if law.granted(d.answer) then !law.used(row) && d.write.Some? && law.used(d.write.value) else d.write.None?
  }

  ghost predicate CreatedUnused<K, R, Q, O>(law: Law<R, O>, ops: seq<Op<K, R, Q, O>>) {
    forall i | 0 <= i < |ops| && ops[i].Created? :: !law.used(ops[i].row)
  }

  predicate Grants<K(==), R, Q, O>(law: Law<R, O>, op: Op<K, R, Q, O>, k: K) {
    op.Asked? && op.k == k && law.granted(op.answer)
  }

  function GrantCount<K(==), R, Q, O>(law: Law<R, O>, ops: seq<Op<K, R, Q, O>>, k: K): nat {
    if ops == [] then 0
    else GrantCount(law, ops[..|ops| - 1], k) + if Grants(law, ops[|ops| - 1], k) then 1 else 0
  }

  /** The row exists exactly as it was created at some point of the history. */
  ghost predicate AsCreated<K, R, Q, O>(ops: seq<Op<K, R, Q, O>>, k: K, row: R) {
    exists i | 0 <= i < |ops| :: ops[i] == Created(k, row)
  }

  lemma AsCreatedLater<K, R, Q, O>(before: seq<Op<K, R, Q, O>>, op: Op<K, R, Q, O>)
    ensures forall k, row | AsCreated(before, k, row) :: AsCreated(before + [op], k, row)
    ensures op.Created? ==> AsCreated(before + [op], op.k, op.row)
  {
    forall k, row | AsCreated(before, k, row) ensures AsCreated(before + [op], k, row) {
      var i :| 0 <= i < |before| && before[i] == Created(k, row);
      assert (before + [op])[i] == Created(k, row);
    }
    assert (before + [op])[|before|] == op;
  }

  /** A row is used exactly when it was granted, once; until then it is what was created. */
  lemma {:induction false} RowTellsGrants<K, R(!new), Q(!new), O(!new)>(
      store: Store<R, Q, O>, law: Law<R, O>, ops: seq<Op<K, R, Q, O>>, k: K)
    requires IsOneTime(store, law) && Serial(store, ops) && CreatedUnused(law, ops)
    ensures GrantCount(law, ops, k) <= 1
    ensures !Mentions(ops, k) ==> k !in After(store, ops) && GrantCount(law, ops, k) == 0
    ensures k in After(store, ops) ==>
      && (law.used(After(store, ops)[k]) <==> GrantCount(law, ops, k) == 1)
      && (!law.used(After(store, ops)[k]) ==> AsCreated(ops, k, After(store, ops)[k]))
  {
    if ops != [] {
      var before, op := ops[..|ops| - 1], ops[|ops| - 1];
      assert before + [op] == ops;
      RowTellsGrants(store, law, before, k);
      OneMore(store, before, op);
      AsCreatedLater(before, op);
      assert op.Created? ==> Mentions(ops, op.k) by { assert ops[|ops| - 1] == op; }
    }
  }

  /** Each grant is decided on the very row that was created, earlier in the history. */
  lemma GrantFromCreated<K, R(!new), Q(!new), O(!new)>(
      store: Store<R, Q, O>, law: Law<R, O>, ops: seq<Op<K, R, Q, O>>, n: nat) returns (row: R)
    requires IsOneTime(store, law) && Serial(store, ops) && CreatedUnused(law, ops)
    requires n < |ops| && ops[n].Asked? && law.granted(ops[n].answer)
    ensures AsCreated(ops[..n], ops[n].k, row)
    ensures ops[n].answer == store.decide(ops[n].q, row, ops[n].clock).answer
  {
    PrefixSerial(store, ops, n + 1);
    var before := ops[..n];
    assert ops[..n + 1][..n] == before;
    RowTellsGrants(store, law, before, ops[n].k);
    assert AnswerOn(store, After(store, before), ops[n].k, ops[n].q, ops[n].clock) == ops[n].answer;
    row := After(store, before)[ops[n].k];
  }

  lemma {:induction false} CountsEach<K, R, Q, O>(law: Law<R, O>, ops: seq<Op<K, R, Q, O>>, i: nat, j: nat, k: K)
    requires i < j < |ops| && Grants(law, ops[i], k) && Grants(law, ops[j], k)
    ensures GrantCount(law, ops, k) >= 2
    decreases |ops|
  {
    var before := ops[..|ops| - 1];
    if j < |ops| - 1 {
      CountsEach(law, before, i, j, k);
    } else {
      CountsOne(law, before, i, k);
    }
  }

  lemma {:induction false} CountsOne<K, R, Q, O>(law: Law<R, O>, ops: seq<Op<K, R, Q, O>>, i: nat, k: K)
    requires i < |ops| && Grants(law, ops[i], k)
    ensures GrantCount(law, ops, k) >= 1
    decreases |ops|
  {
    if i < |ops| - 1 {
      CountsOne(law, ops[..|ops| - 1], i, k);
    }
  }

  /** No two requests of a history redeem the same row. */
  lemma GrantedOnce<K, R(!new), Q(!new), O(!new)>(
      store: Store<R, Q, O>, law: Law<R, O>, ops: seq<Op<K, R, Q, O>>, i: nat, j: nat)
    requires IsOneTime(store, law) && Serial(store, ops) && CreatedUnused(law, ops)
    requires i < |ops| && j < |ops| && ops[i].Asked? && Grants(law, ops[i], ops[i].k) && Grants(law, ops[j], ops[i].k)
    ensures i == j
  {
    RowTellsGrants(store, law, ops, ops[i].k);
    if i < j {
      CountsEach(law, ops, i, j, ops[i].k);
    } else if j < i {
      CountsEach(law, ops, j, i, ops[i].k);
    }
  }
}
