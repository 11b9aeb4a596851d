/**
  The failure tables behind password and phone-password login: what each statement selects, the
  store that runs one transaction at a time, and the login that drives it.
 */
module LoginFailures {
  import opened Prelude

  /** `RowId` plays the part of `ctid`: it tells rows of one table apart. */
  type RowId = nat

  datatype Failure = Failure(key: string, at: int)

  type Table = map<RowId, Failure>

  datatype Admission = Recorded | RateLimited

  const PRUNE_BATCH: nat := 256

  function Stale(t: Table, before: int): set<RowId> {
    set r | r in t && t[r].at < before
  }

  function Recent(t: Table, key: string, since: int): set<RowId> {
    set r | r in t && t[r].key == key && since <= t[r].at
  }

  function StaleOf(t: Table, key: string, since: int): set<RowId> {
    set r | r in t && t[r].key == key && t[r].at < since
  }

  function AllOf(t: Table, key: string): set<RowId> {
    set r | r in t && t[r].key == key
  }

  /** The order in which the bounded prune takes rows. */
  predicate Older(t: Table, r1: RowId, r2: RowId)
    requires r1 in t && r2 in t
  {
    t[r1].at < t[r2].at || (t[r1].at == t[r2].at && r1 <= r2)
  }

  /** One bounded global prune with no row locked: the oldest stale rows, at most a batch of them. */
  ghost predicate IsPrune(t: Table, before: int, t': Table) {
    exists victims: set<RowId> :: AreVictims(t, before, victims) && t' == t - victims
  }

  ghost predicate AreVictims(t: Table, before: int, victims: set<RowId>) {
    && victims <= Stale(t, before)
    && |victims| == (if |Stale(t, before)| < PRUNE_BATCH then |Stale(t, before)| else PRUNE_BATCH)
    && (forall v, r | v in victims && r in Stale(t, before) - victims :: Older(t, v, r))
  }

  predicate IsOldest(t: Table, rows: set<RowId>, o: RowId)
    requires rows <= t.Keys
  {
    o in rows && forall r | r in rows :: Older(t, o, r)
  }

  lemma {:induction false} OldestExists(t: Table, rows: set<RowId>)
    requires rows != {} && rows <= t.Keys
    ensures exists o :: IsOldest(t, rows, o)
  {
    var x :| x in rows;
    if rows == {x} {
      assert IsOldest(t, rows, x);
    } else {
      OldestExists(t, rows - {x});
      var o :| IsOldest(t, rows - {x}, o);
      var best := if Older(t, o, x) then o else x;
      forall r | r in rows ensures Older(t, best, r) {
        assert r == x || r in rows - {x};
      }
      assert IsOldest(t, rows, best);
    }
  }

  /** Deleting rows before `since` leaves the recent rows alone. */
  lemma RecentKept(t: Table, t': Table, key: string, since: int)
    requires forall r | r in t' :: r in t && t'[r] == t[r]
    requires forall r | r in t && since <= t[r].at :: r in t'
    ensures Recent(t', key, since) == Recent(t, key, since)
  {
  }

  /** The keyed sweep leaves exactly the recent rows of its key. */
  lemma SweepLeavesRecent(t: Table, key: string, since: int)
    ensures Recent(t - StaleOf(t, key, since), key, since) == Recent(t, key, since)
    ensures AllOf(t - StaleOf(t, key, since), key) == Recent(t, key, since)
  {
  }

  // ---- Draining a backlog -----------------------------------------------------------------

  /** A prune takes stale rows only, and as many of them as the batch allows. */
  lemma PruneTakes(t: Table, before: int, t': Table)
    requires IsPrune(t, before, t')
    ensures |Stale(t', before)| == if |Stale(t, before)| < PRUNE_BATCH then 0 else |Stale(t, before)| - PRUNE_BATCH
    ensures forall r | r in t && before <= t[r].at :: r in t' && t'[r] == t[r]
    ensures forall r | r in t' :: r in t && t'[r] == t[r]
  {
    var victims: set<RowId> :| AreVictims(t, before, victims) && t' == t - victims;
    assert Stale(t', before) == Stale(t, before) - victims;
  }

  /** A row a prune takes is stale, and older than every stale row it leaves; of one time, the lower row goes first. */
  lemma PruneTakesOldest(t: Table, before: int, t': Table, v: RowId, r: RowId)
    requires IsPrune(t, before, t') && v in t && v !in t' && r in t' && t'[r].at < before
    ensures t[v].at < before && (t[v].at < t'[r].at || (t[v].at == t'[r].at && v < r))
  {
    var victims: set<RowId> :| AreVictims(t, before, victims) && t' == t - victims;
    assert v in victims && r in Stale(t, before) - victims;
  }

  /** A backlog of n stale rows is gone after exactly ceil(n / batch) prunes, and not before. */
  lemma {:induction false} BacklogDrains(tables: seq<Table>, before: int, calls: nat)
    requires calls < |tables|
    requires forall i | 0 <= i < |tables| - 1 :: IsPrune(tables[i], before, tables[i + 1])
    ensures Stale(tables[calls], before) == {} <==> |Stale(tables[0], before)| <= PRUNE_BATCH * calls
    ensures forall r | r in tables[0] && before <= tables[0][r].at ::
      r in tables[calls] && tables[calls][r] == tables[0][r]
  {
    StaleAfter(tables, before, calls);
  }

  lemma {:induction false} StaleAfter(tables: seq<Table>, before: int, calls: nat)
    requires calls < |tables|
    requires forall i | 0 <= i < |tables| - 1 :: IsPrune(tables[i], before, tables[i + 1])
    ensures |Stale(tables[calls], before)| ==
      if |Stale(tables[0], before)| <= PRUNE_BATCH * calls then 0 else |Stale(tables[0], before)| - PRUNE_BATCH * calls
    ensures forall r | r in tables[0] && before <= tables[0][r].at ::
      r in tables[calls] && tables[calls][r] == tables[0][r]
  {
    if calls > 0 {
      StaleAfter(tables, before, calls - 1);
      PruneTakes(tables[calls - 1], before, tables[calls]);
    }
  }

  /** `ORDER BY failed_at, ctid ... LIMIT`: the oldest stale rows, one by one, at most a batch. */
  method OldestStale(t: Table, before: int) returns (victims: set<RowId>)
    ensures AreVictims(t, before, victims)
  {
    var stale := Stale(t, before);
    victims := {};
    while victims < stale && |victims| < PRUNE_BATCH
      invariant victims <= stale && |victims| <= PRUNE_BATCH
      invariant forall v, r | v in victims && r in stale - victims :: Older(t, v, r)
      decreases stale - victims
    {
      OldestExists(t, stale - victims);
      var oldest :| IsOldest(t, stale - victims, oldest);
      victims := victims + {oldest};
    }
    SubsetSize(victims, stale);
    assert victims == stale || |victims| == PRUNE_BATCH;
  }

  // ---- The store, one transaction at a time -----------------------------------------------

  class FailureStore {
    var table: Table
    var next: RowId

    ghost predicate Valid()
      reads this
    {
      forall r | r in table :: r < next
    }

    constructor ()
      ensures Valid() && table == map[]
    {
      table, next := map[], 0;
    }

    /** The bounded global prune: select the oldest stale rows, then delete them. */
    method PruneStale(before: int) returns (removed: nat)
      requires Valid()
      modifies this
      ensures Valid() && next == old(next)
      ensures IsPrune(old(table), before, table)
      ensures removed == |old(table)| - |table|
    {
      var victims := OldestStale(table, before);
      ghost var t := table;
      table := table - victims;
      removed := |victims|;
      assert t.Keys == table.Keys + victims;
      assert |t.Keys| == |table.Keys| + |victims|;
    }

    method FailureLimitReached(key: string, since: int, max: nat) returns (reached: bool)
      requires Valid()
      modifies this
      ensures Valid() && next == old(next)
      ensures reached <==> |Recent(old(table), key, since)| >= max
      ensures forall r | r in old(table) && since <= old(table)[r].at :: r in table && table[r] == old(table)[r]
      ensures (forall r | r in table :: r in old(table) && table[r] == old(table)[r])
      ensures AllOf(table, key) == Recent(table, key, since)
    {
      var _ := PruneStale(since);
      PruneTakes(old(table), since, table);
      RecentKept(old(table), table, key, since);
      SweepLeavesRecent(table, key, since);
      table := table - StaleOf(table, key, since);
      reached := |Recent(table, key, since)| >= max;
    }

    method RecordFailureIfAllowed(key: string, since: int, at: int, max: nat) returns (admission: Admission)
      requires Valid()
      modifies this
      ensures Valid()
      ensures admission == Recorded <==> |Recent(old(table), key, since)| < max
      ensures
        var swept := old(table) - StaleOf(old(table), key, since);
        table == if admission == Recorded then swept[old(next) := Failure(key, at)] else swept
      ensures since <= at ==> |Recent(old(table), key, since)| <= max ==> |Recent(table, key, since)| <= max
    {
      SweepLeavesRecent(table, key, since);
      table := table - StaleOf(table, key, since);
      if |Recent(table, key, since)| < max {
        ghost var swept := table;
        table := table[next := Failure(key, at)];
        assert since <= at ==> Recent(table, key, since) == Recent(swept, key, since) + {next};
        next := next + 1;
        admission := Recorded;
      } else {
        admission := RateLimited;
      }
    }

    method ClearFailures(key: string)
      requires Valid()
      modifies this
      ensures Valid() && next == old(next)
      ensures AllOf(table, key) == {}
      ensures table == old(table) - AllOf(old(table), key)
    {
      table := table - AllOf(table, key);
    }
  }
}
