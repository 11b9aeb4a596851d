/**
  `ensure_identity` under races: any number of callers, statement by statement. An INSERT into the
  bindings waits while another open transaction holds the same primary key, does nothing when the
  key is already committed, and otherwise claims it until the transaction ends.
 */
module IdentityRaces {
  import opened Prelude
  import opened Runs
  import opened Accounts

  type Pid = nat

  datatype Call =
    | Begun(key: BindingKey, minted: string)
    | NotFound(key: BindingKey, minted: string)
    | SubjectWritten(key: BindingKey, minted: string)
    | Won(key: BindingKey, minted: string)
    | Lost(key: BindingKey)

  /** What a caller was told; `Missing` is the error of a read after a lost race that finds nothing. */
  datatype Answer = Found(key: BindingKey, subject: string, created: bool) | Missing(key: BindingKey)

  datatype State = State(
    subjects: Subjects, bindings: Bindings, claims: map<BindingKey, Pid>,
    calls: map<Pid, Call>, used: set<string>, answers: seq<Answer>)

  datatype Event =
    | Begin(p: Pid, key: BindingKey, minted: string)
    | ReadBinding(p: Pid)
    | WriteSubject(p: Pid)
    | WriteBinding(p: Pid)
    | Commit(p: Pid)
    | ReadRaced(p: Pid)
    | Fail(p: Pid)
    | SetSubject(subject: string, row: Subject)

  ghost predicate Step(s: State, e: Event, s': State) {
    match e
    case Begin(p, key, minted) =>
      && p !in s.calls && minted !in s.used
      && s' == s.(calls := s.calls[p := Begun(key, minted)], used := s.used + {minted})
    case ReadBinding(p) =>
      && p in s.calls && s.calls[p].Begun?
      && var key := s.calls[p].key;
      if key in s.bindings then
        s' == s.(calls := s.calls - {p}, answers := s.answers + [Found(key, s.bindings[key], false)])
      else s' == s.(calls := s.calls[p := NotFound(key, s.calls[p].minted)])
    case WriteSubject(p) =>
      && p in s.calls && s.calls[p].NotFound?
      && s' == s.(calls := s.calls[p := SubjectWritten(s.calls[p].key, s.calls[p].minted)])
    case WriteBinding(p) =>
      && p in s.calls && s.calls[p].SubjectWritten?
      && var key := s.calls[p].key;
      && key !in s.claims
      && if key in s.bindings then s' == s.(calls := s.calls[p := Lost(key)])
         else s' == s.(calls := s.calls[p := Won(key, s.calls[p].minted)], claims := s.claims[key := p])
    case Commit(p) =>
      && p in s.calls && s.calls[p].Won?
      && var key, minted := s.calls[p].key, s.calls[p].minted;
      s' == s.(subjects := s.subjects[minted := Subject(Active, None, None)], bindings := s.bindings[key := minted],
               claims := s.claims - {key}, calls := s.calls - {p}, answers := s.answers + [Found(key, minted, true)])
    case ReadRaced(p) =>
      && p in s.calls && s.calls[p].Lost?
      && var key := s.calls[p].key;
      s' == s.(calls := s.calls - {p},
               answers := s.answers + [if key in s.bindings then Found(key, s.bindings[key], false) else Missing(key)])
    case Fail(p) =>
      && p in s.calls
      && s' == s.(calls := s.calls - {p}, claims := if s.calls[p].Won? then s.claims - {s.calls[p].key} else s.claims)
    case SetSubject(subject, row) => subject in s.subjects && s' == s.(subjects := s.subjects[subject := row])
  }

  ghost function System(): Machine<State, Event> {
    Machine(s => s == State(map[], map[], map[], map[], {}, []), (s, e, s') => Step(s, e, s'))
  }

  predicate Pending(t: Call) { !t.Lost? }

  /** Claims belong to the callers that won, on keys still unbound; a loser's key is bound. */
  ghost predicate ClaimsFit(s: State) {
    && (forall p | p in s.calls && s.calls[p].Won? ::
          && s.calls[p].key in s.claims && s.claims[s.calls[p].key] == p && s.calls[p].key !in s.bindings)
    && (forall p | p in s.calls && s.calls[p].Lost? :: s.calls[p].key in s.bindings)
  }

  /** Minted ids are used once. */
  ghost predicate MintedFit(s: State) {
    && s.subjects.Keys <= s.used
    && (forall p | p in s.calls && Pending(s.calls[p]) ::
          s.calls[p].minted in s.used && s.calls[p].minted !in s.subjects)
    && (forall p, q | p in s.calls && q in s.calls && p != q && Pending(s.calls[p]) && Pending(s.calls[q]) ::
          s.calls[p].minted != s.calls[q].minted)
  }

  /** Subjects and bindings are in one-to-one correspondence. */
  ghost predicate Paired(s: State) {
    && s.bindings.Values == s.subjects.Keys
    && (forall a, b | a in s.bindings && b in s.bindings && s.bindings[a] == s.bindings[b] :: a == b)
  }

  function CreatedFor(answers: seq<Answer>, key: BindingKey): nat {
    if answers == [] then 0
    else
      var last := answers[|answers| - 1];
      CreatedFor(answers[..|answers| - 1], key) + if last.Found? && last.key == key && last.created then 1 else 0
  }

  ghost predicate AnswersFit(s: State) {
    && (forall k | 0 <= k < |s.answers| ::
          s.answers[k].Found? && s.answers[k].key in s.bindings && s.bindings[s.answers[k].key] == s.answers[k].subject)
    && (forall key :: CreatedFor(s.answers, key) == if key in s.bindings then 1 else 0)
  }

  ghost predicate Inv(s: State) { ClaimsFit(s) && MintedFit(s) && Paired(s) && AnswersFit(s) }

  lemma StepKeepsClaims(s: State, e: Event, s': State)
    requires ClaimsFit(s) && Step(s, e, s')
    ensures ClaimsFit(s')
  {
  }

  lemma StepKeepsMinted(s: State, e: Event, s': State)
    requires MintedFit(s) && Step(s, e, s')
    ensures MintedFit(s')
  {
  }

  lemma StepKeepsPairs(s: State, e: Event, s': State)
    requires ClaimsFit(s) && MintedFit(s) && Paired(s) && Step(s, e, s')
    ensures Paired(s')
  {
    if e.Commit? {
      var key, minted := s.calls[e.p].key, s.calls[e.p].minted;
      assert forall k | k in s.bindings :: s'.bindings[k] == s.bindings[k];
      assert s'.bindings[key] == minted;
    }
  }

  lemma OneMoreAnswer(answers: seq<Answer>, last: Answer, key: BindingKey)
    ensures CreatedFor(answers + [last], key)
      == CreatedFor(answers, key) + if last.Found? && last.key == key && last.created then 1 else 0
  {
    assert (answers + [last])[..|answers|] == answers;
  }

  lemma StepKeepsAnswers(s: State, e: Event, s': State)
    requires ClaimsFit(s) && AnswersFit(s) && Step(s, e, s')
    ensures AnswersFit(s')
  {
    if s'.answers != s.answers {
      forall key { OneMoreAnswer(s.answers, s'.answers[|s.answers|], key); }
    }
  }

  lemma {:induction false} InvAlways(states: seq<State>, events: seq<Event>, n: nat)
    requires IsRun(System(), states, events) && n < |states|
    ensures Inv(states[n])
  {
    if n > 0 {
      InvAlways(states, events, n - 1);
      StepKeepsClaims(states[n - 1], events[n - 1], states[n]);
      StepKeepsMinted(states[n - 1], events[n - 1], states[n]);
      StepKeepsPairs(states[n - 1], events[n - 1], states[n]);
      StepKeepsAnswers(states[n - 1], events[n - 1], states[n]);
    }
  }

  /**
    Every answer ever given names the binding's one subject and none is `Missing`; a key is bound
    exactly when exactly one committed call has answered `created`.
   */
  lemma OneSubjectPerIdentity(states: seq<State>, events: seq<Event>, n: nat, k: nat)
    requires IsRun(System(), states, events) && n < |states| && k < |states[n].answers|
    ensures
      var answer := states[n].answers[k];
      && answer.Found? && answer.key in states[n].bindings && states[n].bindings[answer.key] == answer.subject
      && CreatedFor(states[n].answers, answer.key) == 1
  {
    InvAlways(states, events, n);
  }

  lemma CreatedExactlyWhenBound(states: seq<State>, events: seq<Event>, n: nat, key: BindingKey)
    requires IsRun(System(), states, events) && n < |states|
    ensures CreatedFor(states[n].answers, key) == if key in states[n].bindings then 1 else 0
  {
    InvAlways(states, events, n);
  }

  lemma StepKeepsBinding(s: State, e: Event, s': State, key: BindingKey)
    requires ClaimsFit(s) && Step(s, e, s') && key in s.bindings
    ensures key in s'.bindings && s'.bindings[key] == s.bindings[key]
  {
  }

  lemma NextKeepsBinding(states: seq<State>, events: seq<Event>, n: nat, key: BindingKey)
    requires IsRun(System(), states, events) && n < |events| && key in states[n].bindings
    ensures key in states[n + 1].bindings && states[n + 1].bindings[key] == states[n].bindings[key]
  {
    InvAlways(states, events, n);
    StepKeepsBinding(states[n], events[n], states[n + 1], key);
  }

  /** A binding, once committed, names the same subject in every later state. */
  lemma {:induction false} BoundForever(states: seq<State>, events: seq<Event>, i: nat, j: nat, key: BindingKey)
    requires IsRun(System(), states, events) && i <= j < |states| && key in states[i].bindings
    ensures key in states[j].bindings && states[j].bindings[key] == states[i].bindings[key]
    decreases j
  {
    if i < j {
      BoundForever(states, events, i, j - 1, key);
      NextKeepsBinding(states, events, j - 1, key);
    }
  }

  lemma {:induction false} SameSize(bindings: Bindings, subjects: set<string>)
    requires bindings.Values == subjects
    requires forall a, b | a in bindings && b in bindings && bindings[a] == bindings[b] :: a == b
    ensures |bindings| == |subjects|
    decreases |bindings|
  {
    if bindings != map[] {
      var key :| key in bindings;
      var rest := bindings - {key};
      assert rest.Values == subjects - {bindings[key]} by {
        forall v | v in subjects - {bindings[key]} ensures v in rest.Values {
          var k :| k in bindings && bindings[k] == v;
          assert k in rest;
        }
        forall v | v in rest.Values ensures v in subjects - {bindings[key]} {
          var k :| k in rest && rest[k] == v;
          assert bindings[k] in bindings.Values;
        }
      }
      assert |rest| == |bindings| - 1 by { assert rest.Keys == bindings.Keys - {key}; }
      assert bindings[key] in bindings.Values;
      SameSize(rest, subjects - {bindings[key]});
    }
  }

  /** Losers leave no orphan: subjects and bindings stay equal in number, each subject bound once. */
  lemma NoOrphans(states: seq<State>, events: seq<Event>, n: nat)
    requires IsRun(System(), states, events) && n < |states|
    ensures |states[n].subjects| == |states[n].bindings| && states[n].bindings.Values == states[n].subjects.Keys
  {
    InvAlways(states, events, n);
    SameSize(states[n].bindings, states[n].subjects.Keys);
    assert |states[n].subjects| == |states[n].subjects.Keys|;
  }

  /** A call that nothing hinders is answered as the store answers it. */
  lemma EnsureServed(s: State, p: Pid, key: BindingKey, minted: string) returns (s': State)
    requires Reachable(System(), s) && p !in s.calls && minted !in s.used && key !in s.claims
    ensures Reachable(System(), s') && s'.calls == s.calls
    ensures key in s.bindings ==>
      && s'.answers == s.answers + [Found(key, s.bindings[key], false)] && s'.bindings == s.bindings
      && s'.subjects == s.subjects
    ensures key !in s.bindings ==>
      && s'.answers == s.answers + [Found(key, minted, true)] && s'.bindings == s.bindings[key := minted]
      && s'.subjects == s.subjects[minted := Subject(Active, None, None)]
  {
    var s1 := s.(calls := s.calls[p := Begun(key, minted)], used := s.used + {minted});
    Extend(System(), s, Begin(p, key, minted), s1);
    if key in s.bindings {
      s' := s1.(calls := s1.calls - {p}, answers := s.answers + [Found(key, s.bindings[key], false)]);
      assert s'.calls == s.calls;
      Extend(System(), s1, ReadBinding(p), s');
    } else {
      var s2 := s1.(calls := s1.calls[p := NotFound(key, minted)]);
      Extend(System(), s1, ReadBinding(p), s2);
      s' := BindServed(s2, p);
      assert s'.calls == s.calls;
    }
  }

  lemma BindServed(s: State, p: Pid) returns (s': State)
    requires Reachable(System(), s) && p in s.calls && s.calls[p].NotFound?
    requires s.calls[p].key !in s.claims && s.calls[p].key !in s.bindings
    ensures Reachable(System(), s')
    ensures
      var key, minted := s.calls[p].key, s.calls[p].minted;
      s' == s.(subjects := s.subjects[minted := Subject(Active, None, None)], bindings := s.bindings[key := minted],
               calls := s.calls - {p}, answers := s.answers + [Found(key, minted, true)])
  {
    var key, minted := s.calls[p].key, s.calls[p].minted;
    var s1 := s.(calls := s.calls[p := SubjectWritten(key, minted)]);
    Extend(System(), s, WriteSubject(p), s1);
    var s2 := s1.(calls := s1.calls[p := Won(key, minted)], claims := s.claims[key := p]);
    Extend(System(), s1, WriteBinding(p), s2);
    s' := s.(subjects := s.subjects[minted := Subject(Active, None, None)], bindings := s.bindings[key := minted],
             calls := s.calls - {p}, answers := s.answers + [Found(key, minted, true)]);
    assert s2.calls - {p} == s.calls - {p} && s2.claims - {key} == s.claims;
    Extend(System(), s2, Commit(p), s');
  }
}
