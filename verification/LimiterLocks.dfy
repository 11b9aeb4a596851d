/**
  Who waits for whom among keyed limiter transactions, global pruners and OTP reservations.
  Keyed transactions take their key's advisory lock and then rows of that key; pruners skip locked
  rows; reservations take the phone lock before the source lock.
 */
module LimiterLocks {
  import opened Prelude
  import opened Runs

  type Pid = nat
  type RowId = nat

  const LOGIN_PREFIX := "lenso-auth-phone-password:"
  const PHONE_PREFIX := "lenso-auth-phone-otp-phone:"
  const SOURCE_PREFIX := "lenso-auth-phone-otp-source:"

  /** Advisory locks are named by text; row locks by row. Distinct names are assumed not to collide. */
  datatype Resource = Advisory(name: string) | Row(id: RowId)

  datatype Proc =
    | Keyed(key: string, entered: bool, wanted: Option<RowId>)
    | Pruner
    | Otp(phone: string, source: string, taken: nat)

  /** `keyOf` says which key a failure row belongs to. */
  datatype State = State(procs: map<Pid, Proc>, owner: map<Resource, Pid>, keyOf: map<RowId, string>)

  datatype Event =
    | Insert(id: RowId, key: string)
    | Start(p: Pid, proc: Proc)
    | Grant(p: Pid)
    | Reach(p: Pid, id: RowId)
    | Skip(p: Pid, id: RowId)
    | Finish(p: Pid)

  /** The lock a transaction is asking for, if it is asking. */
  function Wanted(proc: Proc): Option<Resource> {
    match proc
    case Keyed(key, entered, wanted) =>
      if !entered then Some(Advisory(LOGIN_PREFIX + key))
      else if wanted.Some? then Some(Row(wanted.value)) else None
    case Pruner => None
    case Otp(phone, source, taken) =>
      if taken == 0 then Some(Advisory(PHONE_PREFIX + phone))
      else if taken == 1 then Some(Advisory(SOURCE_PREFIX + source)) else None
  }

  /** The transaction once the lock it asked for is its own. */
  function Granted(proc: Proc): Proc {
    match proc
    case Keyed(key, entered, _) => Keyed(key, true, None)
    case Pruner => Pruner
    case Otp(phone, source, taken) => Otp(phone, source, taken + 1)
  }

  ghost predicate Fresh(proc: Proc) {
    match proc
    case Keyed(_, entered, wanted) => !entered && wanted == None
    case Pruner => true
    case Otp(_, _, taken) => taken == 0
  }

  ghost predicate Step(s: State, e: Event, s': State) {
    match e
    case Insert(id, key) => id !in s.keyOf && s' == s.(keyOf := s.keyOf[id := key])
    case Start(p, proc) => p !in s.procs && Fresh(proc) && s' == s.(procs := s.procs[p := proc])
    case Grant(p) =>
      && p in s.procs && Wanted(s.procs[p]).Some? && Wanted(s.procs[p]).value !in s.owner
      && s' == s.(procs := s.procs[p := Granted(s.procs[p])], owner := s.owner[Wanted(s.procs[p]).value := p])
    case Reach(p, id) =>
      && p in s.procs && s.procs[p].Keyed? && s.procs[p].entered && s.procs[p].wanted == None
      && id in s.keyOf && s.keyOf[id] == s.procs[p].key
      && s' == s.(procs := s.procs[p := s.procs[p].(wanted := Some(id))])
    case Skip(p, id) =>
      && p in s.procs && s.procs[p].Pruner? && id in s.keyOf && Row(id) !in s.owner
      && s' == s.(owner := s.owner[Row(id) := p])
    case Finish(p) =>
      && p in s.procs
      && s' == s.(procs := s.procs - {p}, owner := map r | r in s.owner && s.owner[r] != p :: s.owner[r])
  }

  ghost function System(): Machine<State, Event> {
    Machine(s => s == State(map[], map[], map[]), (s, e, s') => Step(s, e, s'))
  }

  /** A transaction may own only the locks its progress explains. */
  ghost predicate MayOwn(s: State, p: Pid, r: Resource)
    requires p in s.procs
  {
    match s.procs[p]
    case Keyed(key, entered, _) =>
      entered && (r == Advisory(LOGIN_PREFIX + key) || (r.Row? && r.id in s.keyOf && s.keyOf[r.id] == key))
    case Pruner => r.Row?
    case Otp(phone, source, taken) =>
      (r == Advisory(PHONE_PREFIX + phone) && taken >= 1) || (r == Advisory(SOURCE_PREFIX + source) && taken >= 2)
  }

  ghost predicate Inv(s: State) {
    && (forall r | r in s.owner :: s.owner[r] in s.procs && MayOwn(s, s.owner[r], r))
    && (forall p | p in s.procs && s.procs[p].Keyed? && s.procs[p].entered ::
          var r := Advisory(LOGIN_PREFIX + s.procs[p].key); r in s.owner && s.owner[r] == p)
    && (forall p | p in s.procs && s.procs[p].Keyed? && s.procs[p].wanted.Some? ::
          s.procs[p].wanted.value in s.keyOf && s.keyOf[s.procs[p].wanted.value] == s.procs[p].key)
  }

  /** The three kinds of lock name never coincide, whatever identifiers they carry. */
  lemma NamesApart(a: string, b: string, c: string)
    ensures LOGIN_PREFIX + a != PHONE_PREFIX + b
    ensures LOGIN_PREFIX + a != SOURCE_PREFIX + c
    ensures PHONE_PREFIX + b != SOURCE_PREFIX + c
  {
    assert (LOGIN_PREFIX + a)[17] == 'p' && (PHONE_PREFIX + b)[17] == 'o' && (SOURCE_PREFIX + c)[17] == 'o';
    assert (PHONE_PREFIX + b)[21] == 'p' && (SOURCE_PREFIX + c)[21] == 's';
  }

  lemma StepKeepsInv(s: State, e: Event, s': State)
    requires Inv(s) && Step(s, e, s')
    ensures Inv(s')
  {
  }

  ghost predicate WaitsFor(s: State, p: Pid, q: Pid) {
    && p in s.procs && Wanted(s.procs[p]).Some? && Wanted(s.procs[p]).value in s.owner
    && s.owner[Wanted(s.procs[p]).value] == q
  }

  function Rank(proc: Proc): nat {
    match proc
    case Keyed(_, entered, _) => if entered then 1 else 2
    case Pruner => 0
    case Otp(_, _, taken) => if taken >= 2 then 0 else 2 - taken
  }

  /** Every wait leads to a transaction of lower rank. */
  lemma WaitingLowersRank(s: State, p: Pid, q: Pid)
    requires Inv(s) && WaitsFor(s, p, q) && p != q
    ensures q in s.procs && Rank(s.procs[q]) < Rank(s.procs[p])
  {
    var a := if s.procs[p].Keyed? then s.procs[p].key else if s.procs[q].Keyed? then s.procs[q].key else "";
    var b := if s.procs[p].Otp? then s.procs[p] else s.procs[q];
    if b.Otp? {
      NamesApart(a, b.phone, b.source);
    }
    if s.procs[p].Otp? && s.procs[q].Otp? {
      NamesApart(a, s.procs[p].phone, s.procs[q].source);
      NamesApart(a, s.procs[q].phone, s.procs[p].source);
    }
  }

  ghost predicate Blocked(s: State, group: set<Pid>, p: Pid) {
    exists q | q in group && q != p :: WaitsFor(s, p, q)
  }

  /** A set of transactions that all wait, each for another of the set. */
  ghost predicate Deadlocked(s: State, group: set<Pid>) {
    group != {} && forall p {:trigger Blocked(s, group, p)} | p in group :: Blocked(s, group, p)
  }

  /** Some member of a group of open transactions has the least rank. */
  lemma {:induction false} LeastRank(s: State, group: set<Pid>, p: Pid) returns (least: Pid)
    requires group <= s.procs.Keys && p in group
    ensures least in group && forall q | q in group :: Rank(s.procs[least]) <= Rank(s.procs[q])
    decreases Rank(s.procs[p])
  {
    if q :| q in group && Rank(s.procs[q]) < Rank(s.procs[p]) {
      least := LeastRank(s, group, q);
    } else {
      least := p;
    }
  }

  lemma BlockedByLower(s: State, group: set<Pid>, p: Pid) returns (q: Pid)
    requires Inv(s) && Blocked(s, group, p)
    ensures p in s.procs && q in group && q in s.procs && Rank(s.procs[q]) < Rank(s.procs[p])
  {
    q :| q in group && q != p && WaitsFor(s, p, q);
    WaitingLowersRank(s, p, q);
  }

  lemma NoDeadlock(s: State, group: set<Pid>)
    requires Inv(s)
    ensures !Deadlocked(s, group)
  {
    if Deadlocked(s, group) {
      assert group <= s.procs.Keys by {
        forall p | p in group ensures p in s.procs {
          assert Blocked(s, group, p);
        }
      }
      var p :| p in group;
      var least := LeastRank(s, group, p);
      assert Blocked(s, group, least);
      var next := BlockedByLower(s, group, least);
    }
  }

  lemma {:induction false} InvAlways(states: seq<State>, events: seq<Event>, n: nat)
    requires IsRun(System(), states, events) && n < |states|
    ensures Inv(states[n])
  {
    if n > 0 {
      InvAlways(states, events, n - 1);
      StepKeepsInv(states[n - 1], events[n - 1], states[n]);
    }
  }

  /** No group of transactions is ever deadlocked, in any run of any number of them. */
  lemma NeverDeadlocked(states: seq<State>, events: seq<Event>, n: nat, group: set<Pid>)
    requires IsRun(System(), states, events) && n < |states|
    ensures !Deadlocked(states[n], group)
  {
    InvAlways(states, events, n);
    NoDeadlock(states[n], group);
  }
}
