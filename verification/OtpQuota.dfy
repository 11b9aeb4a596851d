/**
  OTP starts under any interleaving: each reservation reads the clock, begins its transaction (which
  stamps `created_at`), takes the phone lock, then the source lock, counts, looks at the newest
  challenge of the phone, inserts and commits; failed deliveries delete challenges at any time.
 */
module OtpQuota {
  import opened Prelude
  import opened OtpChallenges
  import opened Runs

  type Pid = nat

  /** `lag`: the longest between a reservation's clock reading and the start of its transaction. */
  datatype Config = Config(window: nat, maxStarts: nat, cooldown: nat, lag: nat)

  datatype Stage = Begun | PhoneLocked | BothLocked | Counted | Admitted

  /** An open reservation, with the time of its BEGIN. */
  datatype Txn = Txn(r: Reservation, at: int, stage: Stage)

  /** A reservation as `start_otp` fills it in from the configuration and its clock reading. */
  predicate Configured(c: Config, r: Reservation) {
    r.window == c.window && r.maxStarts == c.maxStarts && r.resendAfter == r.now + c.cooldown
  }

  /** Advisory locks by name; a missing address locks the name "<missing>". */
  datatype Lock = PhoneLock(phone: string) | SourceLock(name: string)

  datatype State = State(table: Table, owner: map<Lock, Pid>, txns: map<Pid, Txn>, used: set<string>, now: int)

  datatype Event =
    | Tick(later: int)
    | Begin(p: Pid, r: Reservation)
    | LockPhone(p: Pid)
    | LockSource(p: Pid)
    | Count(p: Pid)
    | CheckResend(p: Pid, newest: Option<string>)
    | Commit(p: Pid)
    | Leave(p: Pid)
    | Delete(id: string)
    | Verified(id: string, attempts: nat, consumed: bool)

  function SourceName(source: Option<string>): string {
    if source.Some? then source.value else "<missing>"
  }

  /** What the newest challenge of the phone says, if there is one. */
  ghost predicate Found(t: Table, phone: string, newest: Option<string>) {
    match newest
    case None => OfPhone(t, phone) == {}
    case Some(k) => IsNewest(t, phone, k)
  }

  function Close(s: State, p: Pid): State {
    s.(owner := map l | l in s.owner && s.owner[l] != p :: s.owner[l], txns := s.txns - {p})
  }

  function At(s: State, p: Pid, stage: Stage): State
    requires p in s.txns
  {
    s.(txns := s.txns[p := s.txns[p].(stage := stage)])
  }

  ghost predicate Step(c: Config, s: State, e: Event, s': State) {
    match e
    case Tick(later) => s.now <= later && s' == s.(now := later)
    case Begin(p, r) =>
      && p !in s.txns && r.id !in s.used && Configured(c, r) && r.now <= s.now <= r.now + c.lag
      && s' == s.(txns := s.txns[p := Txn(r, s.now, Begun)], used := s.used + {r.id})
    case LockPhone(p) =>
      && p in s.txns && s.txns[p].stage == Begun && PhoneLock(s.txns[p].r.phone) !in s.owner
      && s' == At(s, p, PhoneLocked).(owner := s.owner[PhoneLock(s.txns[p].r.phone) := p])
    case LockSource(p) =>
      && p in s.txns && s.txns[p].stage == PhoneLocked
      && var name := SourceLock(SourceName(s.txns[p].r.source));
      && name !in s.owner
      && s' == At(s, p, BothLocked).(owner := s.owner[name := p])
    case Count(p) =>
      && p in s.txns && s.txns[p].stage == BothLocked
      && |StartsSince(s.table, s.txns[p].r.source, s.txns[p].r.now - c.window)| < c.maxStarts
      && s' == At(s, p, Counted)
    case CheckResend(p, newest) =>
      && p in s.txns && s.txns[p].stage == Counted && Found(s.table, s.txns[p].r.phone, newest)
      && (newest.Some? ==> s.table[newest.value].resendAfter <= s.txns[p].r.now)
      && s' == At(s, p, Admitted)
    case Commit(p) =>
      && p in s.txns && s.txns[p].stage == Admitted
      && s' == Close(s, p).(table := s.table[s.txns[p].r.id := NewChallenge(s.txns[p].r, s.txns[p].at)])
    case Leave(p) => p in s.txns && s' == Close(s, p)
    case Delete(id) => s' == s.(table := s.table - {id})
    case Verified(id, attempts, consumed) =>
      id in s.table && s' == s.(table := s.table[id := s.table[id].(attempts := attempts, consumed := consumed)])
  }

  ghost function System(c: Config): Machine<State, Event> {
    Machine((s: State) => s == State(map[], map[], map[], {}, s.now), (s, e, s') => Step(c, s, e, s'))
  }

  // ---- What every step keeps --------------------------------------------------------------

  /** Rows are stamped no more than the lag after the clock reading behind their cooldown; times are in order. */
  ghost predicate TimesFit(c: Config, s: State) {
    && (forall k | k in s.table :: s.table[k].createdAt + c.cooldown <= s.table[k].resendAfter + c.lag)
    && (forall p | p in s.txns ::
          Configured(c, s.txns[p].r) && s.txns[p].r.now <= s.txns[p].at <= s.txns[p].r.now + c.lag)
  }

  /** Each challenge id is used once. */
  ghost predicate IdsFit(s: State) {
    && (forall k | k in s.table :: k in s.used)
    && (forall p | p in s.txns :: s.txns[p].r.id in s.used && s.txns[p].r.id !in s.table)
    && (forall p, q | p in s.txns && q in s.txns && p != q :: s.txns[p].r.id != s.txns[q].r.id)
  }

  predicate HasPhone(x: Txn) { x.stage != Begun }

  predicate HasSource(x: Txn) { HasPhone(x) && x.stage != PhoneLocked }

  ghost predicate LocksFit(s: State) {
    forall p | p in s.txns ::
      && (HasPhone(s.txns[p]) ==> PhoneLock(s.txns[p].r.phone) in s.owner && s.owner[PhoneLock(s.txns[p].r.phone)] == p)
      && (HasSource(s.txns[p]) ==>
            var name := SourceLock(SourceName(s.txns[p].r.source)); name in s.owner && s.owner[name] == p)
  }

  ghost predicate Wellformed(c: Config, s: State) { TimesFit(c, s) && IdsFit(s) && LocksFit(s) }

  lemma TimesStayFit(c: Config, s: State, e: Event, s': State)
    requires TimesFit(c, s) && Step(c, s, e, s')
    ensures TimesFit(c, s')
  {
  }

  lemma IdsStayFit(c: Config, s: State, e: Event, s': State)
    requires IdsFit(s) && Step(c, s, e, s')
    ensures IdsFit(s')
  {
  }

  lemma LocksStayFit(c: Config, s: State, e: Event, s': State)
    requires LocksFit(s) && Step(c, s, e, s')
    ensures LocksFit(s')
  {
  }

  lemma StaysWellformed(c: Config, s: State, e: Event, s': State)
    requires Wellformed(c, s) && Step(c, s, e, s')
    ensures Wellformed(c, s')
  {
    TimesStayFit(c, s, e, s');
    IdsStayFit(c, s, e, s');
    LocksStayFit(c, s, e, s');
  }

  /** Challenges of a source stamped inside the closed interval. */
  function Within(t: Table, source: Option<string>, lo: int, hi: int): set<string> {
    set k | k in t && t[k].source == source && lo <= t[k].createdAt <= hi
  }

  ghost predicate QuotaKept(c: Config, t: Table) {
    forall source, lo, hi | hi <= lo + c.window :: |Within(t, source, lo, hi)| <= c.maxStarts
  }

  /** There is room for one more challenge of the source, stamped `at`, in every interval around it. */
  ghost predicate QuotaRoom(c: Config, t: Table, source: Option<string>, at: int) {
    forall lo, hi | lo <= at <= hi <= lo + c.window :: |Within(t, source, lo, hi)| < c.maxStarts
  }

  /** Two challenges of one phone are stamped at least `gap` apart. */
  ghost predicate Spaced(t: Table, gap: int) {
    forall k1, k2 | k1 in t && k2 in t && k1 != k2 && t[k1].phone == t[k2].phone
        && t[k1].createdAt <= t[k2].createdAt ::
      t[k1].createdAt + gap <= t[k2].createdAt
  }

  ghost predicate SpaceAfter(t: Table, phone: string, at: int, gap: int) {
    forall k | k in t && t[k].phone == phone :: t[k].createdAt + gap <= at
  }

  function Gap(c: Config): int {
    if c.cooldown <= c.lag then 0 else c.cooldown - c.lag
  }

  predicate HasCounted(x: Txn) { x.stage == Counted || x.stage == Admitted }

  ghost predicate QuotaInv(c: Config, s: State) {
    && QuotaKept(c, s.table)
    && (forall p | p in s.txns && HasCounted(s.txns[p]) :: QuotaRoom(c, s.table, s.txns[p].r.source, s.txns[p].at))
  }

  ghost predicate SpacingInv(c: Config, s: State) {
    && Spaced(s.table, Gap(c))
    && (forall p | p in s.txns && s.txns[p].stage == Admitted ::
          SpaceAfter(s.table, s.txns[p].r.phone, s.txns[p].at, c.cooldown - c.lag))
  }

  /** The limits look at four columns; deleting and verifying challenges changes none of a row that stays. */
  ghost predicate Restricts(t': Table, t: Table) {
    forall k | k in t' ::
      && k in t && t'[k].source == t[k].source && t'[k].phone == t[k].phone
      && t'[k].createdAt == t[k].createdAt && t'[k].resendAfter == t[k].resendAfter
  }

  lemma RestrictedKeepsQuota(c: Config, t: Table, t': Table)
    requires Restricts(t', t)
    ensures QuotaKept(c, t) ==> QuotaKept(c, t')
    ensures forall source, at | QuotaRoom(c, t, source, at) :: QuotaRoom(c, t', source, at)
  {
    forall source, lo, hi ensures |Within(t', source, lo, hi)| <= |Within(t, source, lo, hi)| {
      SubsetSize(Within(t', source, lo, hi), Within(t, source, lo, hi));
    }
  }

  lemma CountLeavesRoom(c: Config, t: Table, source: Option<string>, now: int, at: int)
    requires now <= at && |StartsSince(t, source, now - c.window)| < c.maxStarts
    ensures QuotaRoom(c, t, source, at)
  {
    forall lo, hi | lo <= at <= hi <= lo + c.window ensures |Within(t, source, lo, hi)| < c.maxStarts {
      SubsetSize(Within(t, source, lo, hi), StartsSince(t, source, now - c.window));
    }
  }

  lemma CommitKeepsQuota(c: Config, t: Table, id: string, row: Challenge)
    requires QuotaKept(c, t) && QuotaRoom(c, t, row.source, row.createdAt) && id !in t
    ensures QuotaKept(c, t[id := row])
  {
    var t' := t[id := row];
    forall source, lo, hi | hi <= lo + c.window ensures |Within(t', source, lo, hi)| <= c.maxStarts {
      if source == row.source && lo <= row.createdAt <= hi {
        assert Within(t', source, lo, hi) == Within(t, source, lo, hi) + {id};
      } else {
        assert Within(t', source, lo, hi) == Within(t, source, lo, hi);
      }
    }
  }

  lemma OtherSourceKeepsRoom(c: Config, t: Table, id: string, row: Challenge, source: Option<string>, at: int)
    requires QuotaRoom(c, t, source, at) && id !in t && row.source != source
    ensures QuotaRoom(c, t[id := row], source, at)
  {
    var t' := t[id := row];
    forall lo, hi | lo <= at <= hi <= lo + c.window ensures |Within(t', source, lo, hi)| < c.maxStarts {
      assert Within(t', source, lo, hi) == Within(t, source, lo, hi);
    }
  }

  lemma QuotaStays(c: Config, s: State, e: Event, s': State)
    requires Wellformed(c, s) && QuotaInv(c, s) && Step(c, s, e, s')
    ensures QuotaInv(c, s')
  {
    match e
    case Count(p) => CountLeavesRoom(c, s.table, s.txns[p].r.source, s.txns[p].r.now, s.txns[p].at);
    case Commit(p) =>
      var row := NewChallenge(s.txns[p].r, s.txns[p].at);
      CommitKeepsQuota(c, s.table, s.txns[p].r.id, row);
      forall q | q in s'.txns && HasCounted(s'.txns[q])
        ensures QuotaRoom(c, s'.table, s'.txns[q].r.source, s'.txns[q].at)
      {
        OtherSourceKeepsRoom(c, s.table, s.txns[p].r.id, row, s.txns[q].r.source, s.txns[q].at);
      }
    case Delete(_) => RestrictedKeepsQuota(c, s.table, s'.table);
    case Verified(_, _, _) => RestrictedKeepsQuota(c, s.table, s'.table);
    case _ =>
  }

  /** The newest challenge's cooldown has passed, so every one of the phone lies a cooldown less the lag back. */
  lemma ResendLeavesSpace(c: Config, t: Table, x: Txn, newest: Option<string>)
    requires forall k | k in t :: t[k].createdAt + c.cooldown <= t[k].resendAfter + c.lag
    requires Found(t, x.r.phone, newest) && x.r.now <= x.at
    requires newest.Some? ==> t[newest.value].resendAfter <= x.r.now
    ensures SpaceAfter(t, x.r.phone, x.at, c.cooldown - c.lag)
  {
    assert forall k | k in t && t[k].phone == x.r.phone :: k in OfPhone(t, x.r.phone);
  }

  lemma CommitKeepsSpacing(c: Config, t: Table, id: string, row: Challenge)
    requires Spaced(t, Gap(c)) && SpaceAfter(t, row.phone, row.createdAt, c.cooldown - c.lag) && id !in t
    ensures Spaced(t[id := row], Gap(c))
  {
  }

  lemma OtherPhoneKeepsSpace(t: Table, id: string, row: Challenge, phone: string, at: int, gap: int)
    requires SpaceAfter(t, phone, at, gap) && row.phone != phone
    ensures SpaceAfter(t[id := row], phone, at, gap)
  {
  }

  lemma RestrictedKeepsSpacing(t: Table, t': Table, gap: int)
    requires Restricts(t', t)
    ensures Spaced(t, gap) ==> Spaced(t', gap)
    ensures forall phone, at, wide: int | SpaceAfter(t, phone, at, wide) :: SpaceAfter(t', phone, at, wide)
  {
  }

  lemma SpacingStays(c: Config, s: State, e: Event, s': State)
    requires Wellformed(c, s) && SpacingInv(c, s) && Step(c, s, e, s')
    ensures SpacingInv(c, s')
  {
    match e
    case CheckResend(p, newest) => ResendLeavesSpace(c, s.table, s.txns[p], newest);
    case Commit(p) => CommitStaysSpaced(c, s, p, s');
    case Delete(_) => RestrictedKeepsSpacing(s.table, s'.table, Gap(c));
    case Verified(_, _, _) => RestrictedKeepsSpacing(s.table, s'.table, Gap(c));
    case _ =>
  }

  lemma CommitStaysSpaced(c: Config, s: State, p: Pid, s': State)
    requires Wellformed(c, s) && SpacingInv(c, s) && Step(c, s, Commit(p), s')
    ensures SpacingInv(c, s')
  {
    var row := NewChallenge(s.txns[p].r, s.txns[p].at);
    CommitKeepsSpacing(c, s.table, s.txns[p].r.id, row);
    forall q | q in s'.txns && s'.txns[q].stage == Admitted
      ensures SpaceAfter(s'.table, s'.txns[q].r.phone, s'.txns[q].at, c.cooldown - c.lag)
    {
      OtherPhoneKeepsSpace(s.table, s.txns[p].r.id, row, s.txns[q].r.phone, s.txns[q].at, c.cooldown - c.lag);
    }
  }

  lemma {:induction false} LimitsAlwaysKept(c: Config, states: seq<State>, events: seq<Event>, n: nat)
    requires IsRun(System(c), states, events) && n < |states|
    ensures Wellformed(c, states[n]) && QuotaInv(c, states[n]) && SpacingInv(c, states[n])
  {
    if n > 0 {
      LimitsAlwaysKept(c, states, events, n - 1);
      StaysWellformed(c, states[n - 1], events[n - 1], states[n]);
      QuotaStays(c, states[n - 1], events[n - 1], states[n]);
      SpacingStays(c, states[n - 1], events[n - 1], states[n]);
    }
  }

  // ---- Over whole runs --------------------------------------------------------------------

  /** Whatever the commit order, every window of every source holds at most `maxStarts` live challenges. */
  lemma QuotaAlways(c: Config, states: seq<State>, events: seq<Event>, n: nat, source: Option<string>, lo: int, hi: int)
    requires IsRun(System(c), states, events) && n < |states| && hi <= lo + c.window
    ensures |Within(states[n].table, source, lo, hi)| <= c.maxStarts
  {
    LimitsAlwaysKept(c, states, events, n);
  }

  lemma ReservationLocks(c: Config, s: State, p: Pid) returns (s': State)
    requires Reachable(System(c), s) && p in s.txns && s.txns[p].stage == Begun && s.owner == map[]
    ensures Reachable(System(c), s') && s' == At(s, p, BothLocked).(owner := s'.owner)
    ensures forall l | l in s'.owner :: s'.owner[l] == p
  {
    var r := s.txns[p].r;
    var s1 := At(s, p, PhoneLocked).(owner := map[PhoneLock(r.phone) := p]);
    Extend(System(c), s, LockPhone(p), s1);
    s' := At(s1, p, BothLocked).(owner := s1.owner[SourceLock(SourceName(r.source)) := p]);
    Extend(System(c), s1, LockSource(p), s');
  }

  lemma ReservationDecides(c: Config, s: State, p: Pid) returns (s': State)
    requires Reachable(System(c), s) && p in s.txns && s.txns[p].stage == BothLocked
    requires Configured(c, s.txns[p].r) && Admits(s.table, s.txns[p].r)
    ensures Reachable(System(c), s') && s' == At(s, p, Admitted)
  {
    var r := s.txns[p].r;
    var newest := None;
    if OfPhone(s.table, r.phone) != {} {
      var k :| IsNewest(s.table, r.phone, k) && s.table[k].resendAfter <= r.now;
      newest := Some(k);
    }
    var s1 := At(s, p, Counted);
    Extend(System(c), s, Count(p), s1);
    s' := At(s1, p, Admitted);
    Extend(System(c), s1, CheckResend(p, newest), s');
  }

  /** The table a store leaves that is asked alone and admits the reservation is one the machine reaches. */
  lemma ReserveServed(c: Config, s: State, r: Reservation) returns (s': State)
    requires Reachable(System(c), s) && s.txns == map[] && s.owner == map[]
    requires r.id !in s.used && Configured(c, r) && r.now <= s.now <= r.now + c.lag && Admits(s.table, r)
    ensures Reachable(System(c), s')
    ensures s' == s.(table := s.table[r.id := NewChallenge(r, s.now)], used := s.used + {r.id})
  {
    var t := Txn(r, s.now, Begun);
    var s1 := s.(txns := map[0 := t], used := s.used + {r.id});
    Extend(System(c), s, Begin(0, r), s1);
    var s2 := ReservationLocks(c, s1, 0);
    var s3 := ReservationDecides(c, s2, 0);
    s' := s.(table := s.table[r.id := NewChallenge(r, s.now)], used := s.used + {r.id});
    assert Close(s3, 0).owner == map[] && s3.txns - {0} == map[];
    Extend(System(c), s3, Commit(0), s');
  }

  /** A reservation for phone "a", read at `now`. */
  function Sample(c: Config, id: string, source: Option<string>, now: int): Reservation {
    Reservation(id, "a", OtpDigest(id, ""), source, now, now + c.cooldown, now, c.window, c.maxStarts)
  }

  /** Two starts of one phone can be stamped as little as cooldown - lag apart. */
  lemma LateStampsComeClose(c: Config) returns (s: State)
    requires 1 <= c.maxStarts
    ensures Reachable(System(c), s) && "1" in s.table && "2" in s.table && s.table["1"].phone == s.table["2"].phone
    ensures s.table["2"].createdAt == s.table["1"].createdAt + Gap(c)
  {
    var first: int := c.cooldown - Gap(c);
    var s0 := State(map[], map[], map[], {}, first);
    Start(System(c), s0);
    var r1, r2 := Sample(c, "1", None, 0), Sample(c, "2", Some("b"), c.cooldown);
    assert StartsSince(s0.table, None, 0 - c.window) == {} && OfPhone(s0.table, "a") == {};
    var s1 := ReserveServed(c, s0, r1);
    var s2 := s1.(now := c.cooldown);
    Extend(System(c), s1, Tick(c.cooldown), s2);
    assert StartsSince(s2.table, Some("b"), c.cooldown - c.window) == {};
    assert IsNewest(s2.table, "a", "1") && s2.table["1"].resendAfter <= r2.now;
    s := ReserveServed(c, s2, r2);
  }

  /** Live challenges of one phone are always `gap` apart exactly when the gap allows for the lag. */
  lemma SpacingIff(c: Config, gap: nat)
    requires 1 <= c.maxStarts
    ensures (forall s | Reachable(System(c), s) :: Spaced(s.table, gap)) <==> gap <= Gap(c)
  {
    if gap <= Gap(c) {
      forall s | Reachable(System(c), s) ensures Spaced(s.table, gap) {
        var states, events :| RunTo(System(c), states, events, s);
        LimitsAlwaysKept(c, states, events, |events|);
      }
    } else {
      var s := LateStampsComeClose(c);
      assert "1" != "2" && !Spaced(s.table, gap);
    }
  }
}
