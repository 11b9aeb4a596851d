/**
  Password logins of any number of callers at once. Each login checks the limit in one transaction,
  verifies the password without any lock, and records the failure or clears the key in another;
  between its steps others check, record, clear, prune and register. All transactions run on the
  machine of `FailureWindow`, and the answers given are kept in order.
 */
module ConcurrentLogins {
  import opened Prelude
  import opened Runs
  import opened LoginFailures
  import opened PasswordLogin
  import W = FailureWindow

  type Pid = nat

  datatype Login =
    | Checking(key: string, password: string, since: int)
    | Verifying(key: string, password: string, since: int)
    | Recording(key: string, password: string, since: int)
    | Clearing(key: string, password: string, since: int, subject: string)

  datatype State = State(
    w: W.State, credentials: map<string, Credential>, logins: map<Pid, Login>, answers: seq<Attempt>)

  datatype Event =
    | Inner(e: W.Event)
    | Register(key: string, credential: Credential)
    | Arrive(p: Pid, key: string, password: string, since: int)
    | CheckDone(p: Pid)
    | Saturated(p: Pid)
    | Verify(p: Pid)
    | RecordDone(p: Pid)
    | ClearDone(p: Pid, reply: Issuing)
    | Fail(p: Pid)

  /** The transactions' own statements between BEGIN and COMMIT, pruning, and passing time. */
  predicate IsInner(e: W.Event) { e.Tick? || e.Lock? || e.Sweep? || e.Decide? || e.Prune? }

  /** What an event means to the limiter; one that does not touch it is a moment without change. */
  function Projected(s: State, e: Event): W.Event {
    match e
    case Inner(inner) => inner
    case Arrive(p, key, _, since) => W.Begin(p, W.Check, key, since)
    case CheckDone(p) => W.Commit(p)
    case Verify(p) =>
      if p !in s.logins then W.Tick(s.w.now)
      else
        var t := s.logins[p];
        W.Begin(p, if Right(s.credentials, t.key, t.password) then W.Clear else W.Record, t.key, t.since)
    case RecordDone(p) => W.Commit(p)
    case ClearDone(p, _) => W.Commit(p)
    case Fail(p) => if p in s.w.txns then W.Abort(p) else W.Tick(s.w.now)
    case _ => W.Tick(s.w.now)
  }

  /** The answer of a login whose record has been decided. */
  function RecordAnswer(t: W.Txn): Answer { if t.row.Some? then InvalidCredentials else TryLater }

  ghost predicate LoginStep(s: State, e: Event, s': State) {
    match e
    case Inner(inner) => IsInner(inner) && s' == s.(w := s'.w)
    case Register(key, credential) =>
      key !in s.credentials && s' == s.(w := s'.w, credentials := s.credentials[key := credential])
    case Arrive(p, key, password, since) =>
      p !in s.logins && s' == s.(w := s'.w, logins := s.logins[p := Checking(key, password, since)])
    case CheckDone(p) =>
      && p in s.logins && s.logins[p].Checking? && p in s.w.txns
      && var t := s.logins[p];
      if s.w.txns[p].limited then
        s' == s.(w := s'.w, logins := s.logins - {p},
            answers := s.answers + [Attempt(t.key, t.password, s.w.now, TryLater)])
      else s' == s.(w := s'.w, logins := s.logins[p := Verifying(t.key, t.password, t.since)])
    case Saturated(p) =>
      && p in s.logins && s.logins[p].Verifying?
      && var t := s.logins[p];
      s' == s.(w := s'.w, logins := s.logins - {p},
          answers := s.answers + [Attempt(t.key, t.password, s.w.now, TryLater)])
    case Verify(p) =>
      && p in s.logins && s.logins[p].Verifying?
      && var t := s.logins[p];
      s' == s.(w := s'.w, logins := s.logins[p :=
        if Right(s.credentials, t.key, t.password)
        then Clearing(t.key, t.password, t.since, s.credentials[t.key].subject)
        else Recording(t.key, t.password, t.since)])
    case RecordDone(p) =>
      && p in s.logins && s.logins[p].Recording? && p in s.w.txns
      && var t := s.logins[p];
      s' == s.(w := s'.w, logins := s.logins - {p},
               answers := s.answers + [Attempt(t.key, t.password, s.w.txns[p].at, RecordAnswer(s.w.txns[p]))])
    case ClearDone(p, reply) =>
      && p in s.logins && s.logins[p].Clearing?
      && var t := s.logins[p];
      s' == s.(w := s'.w, logins := s.logins - {p},
               answers := s.answers + [Attempt(t.key, t.password, s.w.now, AnswerTo(t.subject, reply))])
    case Fail(p) => p in s.logins && s' == s.(w := s'.w, logins := s.logins - {p})
  }

  ghost predicate Step(c: W.Config, s: State, e: Event, s': State) {
    W.Step(c, s.w, Projected(s, e), s'.w) && LoginStep(s, e, s')
  }

  ghost function System(c: W.Config): Machine<State, Event> {
    Machine((s: State) => W.Init(c, s.w) && s == State(s.w, map[], map[], []), (s, e, s') => Step(c, s, e, s'))
  }

  /** The limiter of a reachable state is a reachable limiter: all its theorems apply. */
  lemma {:induction false} LimiterReached(c: W.Config, states: seq<State>, events: seq<Event>, n: nat)
    requires IsRun(System(c), states, events) && n < |states|
    ensures Reachable(W.System(c), states[n].w)
  {
    if n == 0 {
      Start(W.System(c), states[0].w);
    } else {
      LimiterReached(c, states, events, n - 1);
      var s, e, s' := states[n - 1], events[n - 1], states[n];
      assert Step(c, s, e, s');
      Extend(W.System(c), s.w, Projected(s, e), s'.w);
    }
  }

  // ---- What every step keeps --------------------------------------------------------------

  /** A login runs the transaction its stage says, for its own key and edge. */
  ghost predicate LoginsFit(s: State) {
    forall p | p in s.logins && !s.logins[p].Verifying? ::
      && p in s.w.txns && s.w.txns[p].key == s.logins[p].key && s.w.txns[p].since == s.logins[p].since
      && s.w.txns[p].job ==
           (if s.logins[p].Checking? then W.Check else if s.logins[p].Recording? then W.Record else W.Clear)
  }

  /** The failures on record are the wrong answers since each key's last right password. */
  ghost predicate Tallied(s: State) {
    forall edge :: Counts(s.w.log, s.answers, edge)
  }

  lemma StepKeepsLogins(c: W.Config, s: State, e: Event, s': State)
    requires LoginsFit(s) && Step(c, s, e, s')
    ensures LoginsFit(s')
  {
  }

  /** How one answer goes with the failures on record. */
  ghost predicate Answered(log: Table, log': Table, a: Attempt) {
    if a.answer == InvalidCredentials then exists row: RowId :: row !in log && log' == log[row := Failure(a.key, a.at)]
    else if Cleared(a.answer) then log' == log - AllOf(log, a.key)
    else log' == log
  }

  lemma AnswersMove(c: W.Config, s: State, e: Event, s': State)
    requires LoginsFit(s) && W.Wellformed(c, s.w) && Step(c, s, e, s')
    ensures s'.answers == s.answers ==> s'.w.log == s.w.log
    ensures s'.answers != s.answers ==>
      && |s'.answers| == |s.answers| + 1 && s'.answers[..|s.answers|] == s.answers
      && Answered(s.w.log, s'.w.log, s'.answers[|s.answers|])
  {
    if e.RecordDone? && s.w.txns[e.p].row.Some? {
      assert s.w.txns[e.p].row.value !in s.w.log;
    }
  }

  lemma AnswerKeepsTally(log: Table, answers: seq<Attempt>, log': Table, a: Attempt, edge: int)
    requires Counts(log, answers, edge) && Answered(log, log', a)
    ensures Counts(log', answers + [a], edge)
  {
    if a.answer == InvalidCredentials {
      var row: RowId :| row !in log && log' == log[row := Failure(a.key, a.at)];
      CountsAfterRecord(log, answers, edge, row, a);
    } else if Cleared(a.answer) {
      CountsAfterClear(log, answers, edge, a);
    } else {
      CountsAfterRefusal(log, answers, edge, a);
    }
  }

  lemma StepKeepsTally(c: W.Config, s: State, e: Event, s': State)
    requires LoginsFit(s) && W.Wellformed(c, s.w) && Tallied(s) && Step(c, s, e, s')
    ensures Tallied(s')
  {
    AnswersMove(c, s, e, s');
    forall edge ensures Counts(s'.w.log, s'.answers, edge) {
      assert Counts(s.w.log, s.answers, edge);
      if s'.answers != s.answers {
        AnswerKeepsTally(s.w.log, s.answers, s'.w.log, s'.answers[|s.answers|], edge);
        assert s.answers + [s'.answers[|s.answers|]] == s'.answers;
      }
    }
  }

  lemma LimiterFits(c: W.Config, states: seq<State>, events: seq<Event>, n: nat, key: string)
    requires IsRun(System(c), states, events) && n < |states|
    ensures W.Wellformed(c, states[n].w) && W.RefusalsFit(c, states[n].w)
    ensures |W.Within(states[n].w.log, key, states[n].w.now - c.window, states[n].w.now)| <= c.max
  {
    LimiterReached(c, states, events, n);
    var ws, es :| RunTo(W.System(c), ws, es, states[n].w);
    W.AlwaysWellformed(c, ws, es, |es|);
    W.RefusalsAlwaysFit(c, ws, es, |es|);
    W.NowBounded(c, ws, es, |es|, key);
  }

  lemma {:induction false} AlwaysTallied(c: W.Config, states: seq<State>, events: seq<Event>, n: nat)
    requires IsRun(System(c), states, events) && n < |states|
    ensures LoginsFit(states[n]) && Tallied(states[n])
  {
    if n > 0 {
      AlwaysTallied(c, states, events, n - 1);
      LimiterFits(c, states, events, n - 1, "");
      StepKeepsLogins(c, states[n - 1], events[n - 1], states[n]);
      StepKeepsTally(c, states[n - 1], events[n - 1], states[n]);
    } else {
      assert states[0].w.log == map[] && states[0].answers == [];
      assert forall key, since :: Recent(states[0].w.log, key, since) == {};
    }
  }

  // ---- Over whole runs --------------------------------------------------------------------

  /**
    At every instant of every run, at most `max` wrong-password answers to a key, given since its
    last right password, carry a stamp in the window that ends then.
   */
  lemma WrongAnswersBounded(c: W.Config, states: seq<State>, events: seq<Event>, n: nat, key: string)
    requires IsRun(System(c), states, events) && n < |states|
    ensures WrongSince(states[n].answers, key, states[n].w.now - c.window) <= c.max
  {
    AlwaysTallied(c, states, events, n);
    LimiterFits(c, states, events, n, key);
    var w := states[n].w;
    assert Recent(w.log, key, w.now - c.window) == W.Within(w.log, key, w.now - c.window, w.now);
    assert Counts(w.log, states[n].answers, w.now - c.window);
  }

  /**
    A login the limiter refuses, at its check or only when its failure is to be recorded, has `max`
    wrong answers to its key on record since its own edge, however much was pruned meanwhile.
   */
  lemma RefusedOnRecord(c: W.Config, states: seq<State>, events: seq<Event>, n: nat, p: Pid)
    requires IsRun(System(c), states, events) && n < |events|
    requires (events[n] == CheckDone(p) || events[n] == RecordDone(p))
    requires |states[n + 1].answers| > |states[n].answers|
    requires states[n + 1].answers[|states[n].answers|].answer == TryLater
    ensures p in states[n].logins
    ensures WrongSince(states[n].answers, states[n].logins[p].key, states[n].logins[p].since) >= c.max
  {
    AlwaysTallied(c, states, events, n);
    LimiterFits(c, states, events, n, "");
    var s := states[n];
    assert Step(c, s, events[n], states[n + 1]);
    assert W.Refusing(s.w.txns[p]);
    assert Counts(s.w.log, s.answers, s.logins[p].since);
  }

  // ---- What the answers say of the passwords ----------------------------------------------

  /** An earlier event registered this credential for the key. */
  ghost predicate Registered(events: seq<Event>, n: nat, key: string, credential: Credential) {
    exists m: nat | m < n && m < |events| :: events[m] == Register(key, credential)
  }

  /** An earlier event verified this password, and found the key unregistered or with another password. */
  ghost predicate FoundWrong(states: seq<State>, events: seq<Event>, n: nat, key: string, password: string) {
    exists m: nat | m < n && m < |events| && m < |states| :: VerifiedWrong(states[m], events[m], key, password)
  }

  ghost predicate VerifiedWrong(s: State, e: Event, key: string, password: string) {
    && e.Verify? && e.p in s.logins && s.logins[e.p].key == key && s.logins[e.p].password == password
    && (key !in s.credentials || s.credentials[key].hash != HashOf(password))
  }

  /** Every stored credential was registered, and right passwords are answered as their credential says. */
  ghost predicate RightsTrue(s: State) {
    && (forall p | p in s.logins && s.logins[p].Clearing? ::
          && s.logins[p].key in s.credentials
          && s.credentials[s.logins[p].key] == Credential(s.logins[p].subject, HashOf(s.logins[p].password)))
    && (forall k | 0 <= k < |s.answers| && Cleared(s.answers[k].answer) ::
          && s.answers[k].key in s.credentials
          && s.credentials[s.answers[k].key].hash == HashOf(s.answers[k].password)
          && (s.answers[k].answer.LoggedIn? ==> s.credentials[s.answers[k].key].subject == s.answers[k].answer.subject))
  }

  ghost predicate WrongsTrue(states: seq<State>, events: seq<Event>, n: nat)
    requires n < |states|
  {
    var s := states[n];
    && (forall p | p in s.logins && s.logins[p].Recording? ::
          FoundWrong(states, events, n, s.logins[p].key, s.logins[p].password))
    && (forall k | 0 <= k < |s.answers| && s.answers[k].answer == InvalidCredentials ::
          FoundWrong(states, events, n, s.answers[k].key, s.answers[k].password))
  }

  ghost predicate AllRegistered(states: seq<State>, events: seq<Event>, n: nat)
    requires n < |states|
  {
    forall key | key in states[n].credentials :: Registered(events, n, key, states[n].credentials[key])
  }

  lemma StepKeepsRights(s: State, e: Event, s': State)
    requires RightsTrue(s) && LoginStep(s, e, s')
    ensures RightsTrue(s')
  {
  }

  lemma StepKeepsWrongs(states: seq<State>, events: seq<Event>, n: nat)
    requires n + 1 < |states| && n < |events| && WrongsTrue(states, events, n)
    requires LoginStep(states[n], events[n], states[n + 1])
    ensures WrongsTrue(states, events, n + 1)
  {
    var s, e := states[n], events[n];
    assert forall key, password | FoundWrong(states, events, n, key, password) ::
      FoundWrong(states, events, n + 1, key, password);
    assert forall key, password | VerifiedWrong(s, e, key, password) ::
        FoundWrong(states, events, n + 1, key, password);
  }

  lemma StepKeepsRegistered(states: seq<State>, events: seq<Event>, n: nat)
    requires n + 1 < |states| && n < |events| && AllRegistered(states, events, n)
    requires LoginStep(states[n], events[n], states[n + 1])
    ensures AllRegistered(states, events, n + 1)
  {
    assert forall key, credential | Registered(events, n, key, credential) ::
        Registered(events, n + 1, key, credential);
  }

  lemma {:induction false} AnswersAlwaysTrue(c: W.Config, states: seq<State>, events: seq<Event>, n: nat)
    requires IsRun(System(c), states, events) && n < |states|
    ensures RightsTrue(states[n]) && WrongsTrue(states, events, n) && AllRegistered(states, events, n)
  {
    if n > 0 {
      AnswersAlwaysTrue(c, states, events, n - 1);
      assert Step(c, states[n - 1], events[n - 1], states[n]);
      StepKeepsRights(states[n - 1], events[n - 1], states[n]);
      StepKeepsWrongs(states, events, n - 1);
      StepKeepsRegistered(states, events, n - 1);
    }
  }

  /** Whoever was logged in presented the password an earlier event registered for the key and subject. */
  lemma LoggedInWasRegistered(c: W.Config, states: seq<State>, events: seq<Event>, n: nat, k: nat) returns (m: nat)
    requires IsRun(System(c), states, events) && n < |states|
    requires k < |states[n].answers| && states[n].answers[k].answer.LoggedIn?
    ensures m < n && m < |events|
    ensures
      var a := states[n].answers[k];
      events[m] == Register(a.key, Credential(a.answer.subject, HashOf(a.password)))
  {
    AnswersAlwaysTrue(c, states, events, n);
    var a := states[n].answers[k];
    assert Registered(events, n, a.key, states[n].credentials[a.key]);
    m :| m < n && m < |events| && events[m] == Register(a.key, states[n].credentials[a.key]);
  }

  /**
    Each wrong-password answer goes back to a verification that found the key unregistered, or
    registered with the hash of another password.
   */
  lemma CountedWasWrong(c: W.Config, states: seq<State>, events: seq<Event>, n: nat, k: nat) returns (m: nat)
    requires IsRun(System(c), states, events) && n < |states|
    requires k < |states[n].answers| && states[n].answers[k].answer == InvalidCredentials
    ensures m < n && m < |events| && m < |states| && events[m].Verify? && events[m].p in states[m].logins
    ensures
      var a, s := states[n].answers[k], states[m];
      && s.logins[events[m].p].key == a.key && s.logins[events[m].p].password == a.password
      && (a.key !in s.credentials || s.credentials[a.key].hash != HashOf(a.password))
  {
    AnswersAlwaysTrue(c, states, events, n);
    var a := states[n].answers[k];
    assert FoundWrong(states, events, n, a.key, a.password);
    m :| m < n && m < |events| && m < |states| && VerifiedWrong(states[m], events[m], a.key, a.password);
  }

  // ---- A login served alone ---------------------------------------------------------------

  /** The one open transaction once it has decided. */
  function DecidedTxn(c: W.Config, w: W.State, t: W.Txn): W.Txn {
    var gone := W.SweepOf(w.table, t);
    var limited := |Recent(w.table - gone, t.key, t.since)| >= c.max;
    t.(stage := W.Decided, gone := gone, limited := limited,
       row := if t.job == W.Record && !limited then Some(w.next) else None)
  }

  /** Nothing else is open at the limiter. */
  ghost predicate Alone(s: State, p: Pid) {
    && p in s.w.txns && s.w.txns == map[p := s.w.txns[p]] && s.w.locks == map[]
    && s.w.txns[p] == W.Opened(s.w.txns[p].job, s.w.txns[p].key, s.w.txns[p].since, s.w.txns[p].at)
  }

  lemma DoInner(c: W.Config, s: State, e: W.Event, w: W.State) returns (s': State)
    requires Reachable(System(c), s) && IsInner(e) && W.Step(c, s.w, e, w)
    ensures Reachable(System(c), s') && s' == s.(w := w)
  {
    s' := s.(w := w);
    Extend(System(c), s, Inner(e), s');
  }

  lemma LimiterDecides(c: W.Config, w: W.State, p: Pid) returns (w1: W.State, w2: W.State, w3: W.State)
    requires p in w.txns && w.txns == map[p := w.txns[p]] && w.locks == map[] && w.txns[p].at == w.now
    requires w.txns[p] == W.Opened(w.txns[p].job, w.txns[p].key, w.txns[p].since, w.txns[p].at)
    ensures W.Step(c, w, W.Lock(p), w1) && W.Step(c, w1, W.Sweep(p), w2) && W.Step(c, w2, W.Decide(p), w3)
    ensures w3 == w.(locks := map[w.txns[p].key := p], txns := map[p := DecidedTxn(c, w, w.txns[p])],
                     next := w3.next, edge := w3.edge)
  {
    var t := w.txns[p];
    w1 := w.(locks := map[t.key := p], txns := map[p := t.(stage := W.Locked)]);
    var swept := t.(stage := W.Swept, gone := W.SweepOf(w.table, t));
    w2 := w1.(txns := map[p := swept], edge := if t.job == W.Clear then w.edge else W.Max(w.edge, t.since));
    var d := DecidedTxn(c, w, t);
    w3 := w2.(txns := map[p := d], next := if d.row.Some? then w.next + 1 else w.next);
  }

  /** A transaction alone locks, sweeps and decides. */
  lemma DecidesAlone(c: W.Config, s: State, p: Pid) returns (s': State)
    requires Reachable(System(c), s) && Alone(s, p) && s.w.txns[p].at == s.w.now
    ensures Reachable(System(c), s')
    ensures
      var t := s.w.txns[p];
      s' == s.(w := s'.w) && s'.w == s.w.(
        locks := map[t.key := p], txns := map[p := DecidedTxn(c, s.w, t)], next := s'.w.next, edge := s'.w.edge)
  {
    var w1, w2, w3 := LimiterDecides(c, s.w, p);
    var s1 := DoInner(c, s, W.Lock(p), w1);
    var s2 := DoInner(c, s1, W.Sweep(p), w2);
    s' := DoInner(c, s2, W.Decide(p), w3);
  }

  lemma CommitsAlone(w: W.State, p: Pid, c: W.Config) returns (w': W.State)
    requires p in w.txns && w.txns == map[p := w.txns[p]] && w.locks == map[w.txns[p].key := p]
    requires w.txns[p].stage == W.Decided
    ensures W.Step(c, w, W.Commit(p), w')
    ensures w'.txns == map[] && w'.locks == map[] && w'.now == w.now
    ensures w'.table == W.TableAfter(w.table, w.txns[p]) && w'.log == W.LogAfter(w.log, w.txns[p])
  {
    w' := w.(table := W.TableAfter(w.table, w.txns[p]), log := W.LogAfter(w.log, w.txns[p]),
             locks := map[], txns := map[]);
    assert W.Unlock(w.locks, p) == map[] && w.txns - {p} == map[];
  }

  lemma ArrivesAlone(c: W.Config, s: State, p: Pid, key: string, password: string, since: int) returns (s': State)
    requires Reachable(System(c), s) && s.w.txns == map[] && s.w.locks == map[] && p !in s.logins
    requires since + c.window == s.w.now
    ensures Reachable(System(c), s')
    ensures s' == s.(w := s.w.(txns := map[p := W.Opened(W.Check, key, since, s.w.now)]),
                     logins := s.logins[p := Checking(key, password, since)])
  {
    s' := s.(w := s.w.(txns := map[p := W.Opened(W.Check, key, since, s.w.now)]),
             logins := s.logins[p := Checking(key, password, since)]);
    Extend(System(c), s, Arrive(p, key, password, since), s');
  }

  /** The store's rows and locks once a transaction alone has committed. */
  ghost predicate Quiet(w: W.State, w': W.State, t: W.Txn) {
    && w'.txns == map[] && w'.locks == map[] && w'.now == w.now
    && w'.table == W.TableAfter(w.table, t) && w'.log == W.LogAfter(w.log, t)
  }

  lemma CheckEnds(c: W.Config, s: State, p: Pid) returns (s': State)
    requires Reachable(System(c), s) && p in s.w.txns && s.w.txns == map[p := s.w.txns[p]]
    requires s.w.locks == map[s.w.txns[p].key := p] && s.w.txns[p].stage == W.Decided
    requires p in s.logins && s.logins[p].Checking?
    ensures Reachable(System(c), s') && Quiet(s.w, s'.w, s.w.txns[p])
    ensures
      var t := s.logins[p];
      s' == if s.w.txns[p].limited
            then s.(w := s'.w, logins := s.logins - {p},
                    answers := s.answers + [Attempt(t.key, t.password, s.w.now, TryLater)])
            else s.(w := s'.w, logins := s.logins[p := Verifying(t.key, t.password, t.since)])
  {
    var t := s.logins[p];
    var w := CommitsAlone(s.w, p, c);
    s' := if s.w.txns[p].limited
          then s.(w := w, logins := s.logins - {p},
              answers := s.answers + [Attempt(t.key, t.password, s.w.now, TryLater)])
          else s.(w := w, logins := s.logins[p := Verifying(t.key, t.password, t.since)]);
    Extend(System(c), s, CheckDone(p), s');
  }

  /** The login arrives and its check decides. */
  lemma ChecksAlone(c: W.Config, s: State, p: Pid, key: string, password: string, since: int) returns (s': State)
    requires Reachable(System(c), s) && s.w.txns == map[] && s.w.locks == map[] && p !in s.logins
    requires since + c.window == s.w.now
    ensures Reachable(System(c), s') && s'.credentials == s.credentials && s'.w.now == s.w.now
    ensures s'.w.txns == map[] && s'.w.locks == map[]
    ensures
      if |Recent(s.w.table, key, since)| >= c.max then
        s'.logins == s.logins && s'.answers == s.answers + [Attempt(key, password, s.w.now, TryLater)]
      else s'.logins == s.logins[p := Verifying(key, password, since)] && s'.answers == s.answers
    ensures Recent(s'.w.table, key, since) == Recent(s.w.table, key, since)
  {
    var s1 := ArrivesAlone(c, s, p, key, password, since);
    var s2 := DecidesAlone(c, s1, p);
    s' := CheckEnds(c, s2, p);
    CheckKeepsRecent(c, s.w, key, since);
    assert s2.logins - {p} == s.logins;
  }

  lemma CheckKeepsRecent(c: W.Config, w: W.State, key: string, since: int)
    ensures
      var t := W.Opened(W.Check, key, since, w.now);
      && DecidedTxn(c, w, t).limited == (|Recent(w.table, key, since)| >= c.max)
      && Recent(W.TableAfter(w.table, DecidedTxn(c, w, t)), key, since) == Recent(w.table, key, since)
  {
    SweepLeavesRecent(w.table, key, since);
  }

  lemma VerifyBegins(c: W.Config, s: State, p: Pid) returns (s': State)
    requires Reachable(System(c), s) && s.w.txns == map[] && s.w.locks == map[]
    requires p in s.logins && s.logins[p].Verifying? && s.logins[p].since + c.window == s.w.now
    ensures Reachable(System(c), s')
    ensures
      var t := s.logins[p];
      var right := Right(s.credentials, t.key, t.password);
      s' == s.(
        w := s.w.(txns := map[p := W.Opened(if right then W.Clear else W.Record, t.key, t.since, s.w.now)]),
        logins := s.logins[p :=
          if right then Clearing(t.key, t.password, t.since, s.credentials[t.key].subject)
          else Recording(t.key, t.password, t.since)])
  {
    var t := s.logins[p];
    var right := Right(s.credentials, t.key, t.password);
    s' := s.(
      w := s.w.(txns := map[p := W.Opened(if right then W.Clear else W.Record, t.key, t.since, s.w.now)]),
      logins := s.logins[p :=
        if right then Clearing(t.key, t.password, t.since, s.credentials[t.key].subject)
        else Recording(t.key, t.password, t.since)]);
    Extend(System(c), s, Verify(p), s');
  }

  lemma VerifyEnds(c: W.Config, s: State, p: Pid, reply: Issuing) returns (s': State)
    requires Reachable(System(c), s) && p in s.w.txns && s.w.txns == map[p := s.w.txns[p]]
    requires s.w.locks == map[s.w.txns[p].key := p] && s.w.txns[p].stage == W.Decided && s.w.txns[p].at == s.w.now
    requires p in s.logins && (s.logins[p].Recording? || s.logins[p].Clearing?)
    ensures Reachable(System(c), s') && Quiet(s.w, s'.w, s.w.txns[p])
    ensures
      var t := s.logins[p];
      s' == s.(w := s'.w, logins := s.logins - {p}, answers := s.answers + [Attempt(
        t.key, t.password, s.w.now,
        if t.Clearing? then AnswerTo(t.subject, reply) else RecordAnswer(s.w.txns[p]))])
  {
    var t := s.logins[p];
    var w := CommitsAlone(s.w, p, c);
    s' := s.(w := w, logins := s.logins - {p}, answers := s.answers + [Attempt(
      t.key, t.password, s.w.now,
      if t.Clearing? then AnswerTo(t.subject, reply) else RecordAnswer(s.w.txns[p]))]);
    Extend(System(c), s, if t.Clearing? then ClearDone(p, reply) else RecordDone(p), s');
  }

  lemma VerifiesAlone(c: W.Config, s: State, p: Pid, reply: Issuing) returns (s': State)
    requires Reachable(System(c), s) && s.w.txns == map[] && s.w.locks == map[]
    requires p in s.logins && s.logins[p].Verifying? && s.logins[p].since + c.window == s.w.now
    requires |Recent(s.w.table, s.logins[p].key, s.logins[p].since)| < c.max
    ensures Reachable(System(c), s') && s'.logins == s.logins - {p}
    ensures
      var t := s.logins[p];
      s'.answers == s.answers + [Attempt(
        t.key, t.password, s.w.now,
        if Right(s.credentials, t.key, t.password) then AnswerTo(s.credentials[t.key].subject, reply)
        else InvalidCredentials)]
  {
    var t := s.logins[p];
    var s1 := VerifyBegins(c, s, p);
    var s2 := DecidesAlone(c, s1, p);
    s' := VerifyEnds(c, s2, p, reply);
    SweepLeavesRecent(s.w.table, t.key, t.since);
    assert s2.logins - {p} == s.logins - {p};
  }

  /**
    A login that nothing hinders, with its edge at the current window's, is answered as the store
    answers it: refused on max wrong answers in the window, and otherwise as its password deserves.
   */
  lemma LoginServed(c: W.Config, s: State, p: Pid, key: string, password: string, reply: Issuing) returns (s': State)
    requires Reachable(System(c), s) && s.w.txns == map[] && s.w.locks == map[] && p !in s.logins
    ensures Reachable(System(c), s') && s'.logins == s.logins
    ensures
      var answer :=
        if WrongSince(s.answers, key, s.w.now - c.window) >= c.max then TryLater
        else if Right(s.credentials, key, password) then AnswerTo(s.credentials[key].subject, reply)
        else InvalidCredentials;
      s'.answers == s.answers + [Attempt(key, password, s.w.now, answer)]
  {
    TableTallied(c, s, key);
    s' := ChecksAlone(c, s, p, key, password, s.w.now - c.window);
    if p in s'.logins {
      s' := VerifiesAlone(c, s', p, reply);
      assert s.logins[p := Verifying(key, password, s.w.now - c.window)] - {p} == s.logins;
    }
  }

  /** At the current edge the stored rows are the wrong answers. */
  lemma TableTallied(c: W.Config, s: State, key: string)
    requires Reachable(System(c), s)
    ensures |Recent(s.w.table, key, s.w.now - c.window)| == WrongSince(s.answers, key, s.w.now - c.window)
  {
    var states, events :| RunTo(System(c), states, events, s);
    AlwaysTallied(c, states, events, |events|);
    LimiterFits(c, states, events, |events|, key);
    W.CountsAsFullLog(c, s.w, key, s.w.now - c.window);
    assert Counts(s.w.log, s.answers, s.w.now - c.window);
  }
}
