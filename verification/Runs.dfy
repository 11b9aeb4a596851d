/** Runs of a labelled step machine, and the states they reach. */
module Runs {
  datatype Machine<!S, !E> = Machine(init: S -> bool, step: (S, E, S) -> bool)

  ghost predicate IsRun<S, E>(m: Machine<S, E>, states: seq<S>, events: seq<E>) {
    && |states| == |events| + 1 && m.init(states[0])
    && forall i {:trigger events[i]} | 0 <= i < |events| :: m.step(states[i], events[i], states[i + 1])
  }

  ghost predicate RunTo<S, E>(m: Machine<S, E>, states: seq<S>, events: seq<E>, s: S) {
    IsRun(m, states, events) && states[|events|] == s
  }

  ghost predicate Reachable<S(!new), E(!new)>(m: Machine<S, E>, s: S) {
    exists states: seq<S>, events: seq<E> :: RunTo(m, states, events, s)
  }

  lemma Start<S(!new), E(!new)>(m: Machine<S, E>, s: S)
    requires m.init(s)
    ensures RunTo(m, [s], [], s) && Reachable(m, s)
  {
    assert RunTo(m, [s], [], s);
  }

  /** One more step makes a longer run. */
  lemma Longer<S, E>(m: Machine<S, E>, states: seq<S>, events: seq<E>, s: S, e: E, s': S)
    requires RunTo(m, states, events, s) && m.step(s, e, s')
    ensures RunTo(m, states + [s'], events + [e], s')
  {
    var more, longer := events + [e], states + [s'];
    forall i | 0 <= i < |more| ensures m.step(longer[i], more[i], longer[i + 1]) {
      if i < |events| {
        assert more[i] == events[i] && longer[i] == states[i] && longer[i + 1] == states[i + 1];
      }
    }
  }

  lemma Extend<S(!new), E(!new)>(m: Machine<S, E>, s: S, e: E, s': S)
    requires Reachable(m, s) && m.step(s, e, s')
    ensures Reachable(m, s')
  {
    var states, events :| RunTo(m, states, events, s);
    Longer(m, states, events, s, e, s');
  }

  /** The same machine, started in a given state: what it reaches is what can follow that state. */
  ghost function From<S, E>(m: Machine<S, E>, s: S): Machine<S, E> { Machine(x => x == s, m.step) }
}
