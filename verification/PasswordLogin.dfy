/**
  Password login in its order: limit, verify, then record or clear. The store keeps a ghost log of
  its answers, and every answer is stated in terms of that log alone.
 */
module PasswordLogin {
  import opened Prelude
  import opened LoginFailures

  /** Argon2, taken as exact: a hash verifies the password it was made from. */
  datatype Hash = HashOf(password: string)

  datatype Credential = Credential(subject: string, hash: Hash)

  datatype Answer =
    | LoggedIn(subject: string)
    | Disabled
    | IssueFailed
    | InvalidCredentials
    | TryLater

  datatype Attempt = Attempt(key: string, password: string, at: int, answer: Answer)

  /** The credential issuer's reply, asked for after the failures are cleared. */
  datatype Issuing = Issued | SubjectDisabled | Failed

  function AnswerTo(subject: string, reply: Issuing): Answer {
    match reply
    case Issued => LoggedIn(subject)
    case SubjectDisabled => Disabled
    case Failed => IssueFailed
  }

  predicate Right(credentials: map<string, Credential>, key: string, password: string) {
    key in credentials && credentials[key].hash == HashOf(password)
  }

  predicate Cleared(a: Answer) { a.LoggedIn? || a.Disabled? || a.IssueFailed? }

  /** `InvalidCredentials` answers to a key since its last right password, not before `since`. */
  function WrongSince(log: seq<Attempt>, key: string, since: int): nat {
    if log == [] then 0
    else
      var before, last := log[..|log| - 1], log[|log| - 1];
      if last.key != key then WrongSince(before, key, since)
      else if Cleared(last.answer) then 0
      else WrongSince(before, key, since) + if last.answer == InvalidCredentials && since <= last.at then 1 else 0
  }

  lemma OneMoreAttempt(log: seq<Attempt>, a: Attempt)
    ensures forall key, since ::
      WrongSince(log + [a], key, since) ==
        if a.key != key then WrongSince(log, key, since)
        else if Cleared(a.answer) then 0
        else WrongSince(log, key, since) + if a.answer == InvalidCredentials && since <= a.at then 1 else 0
  {
    assert (log + [a])[..|log|] == log;
  }

  /** Rows of a table count the log's wrong answers, at least from `edge` on. */
  ghost predicate Counts(table: Table, log: seq<Attempt>, edge: int) {
    forall key, since | since >= edge :: |Recent(table, key, since)| == WrongSince(log, key, since)
  }

  lemma CountsAfterSweep(table: Table, table': Table, log: seq<Attempt>, edge: int, edge': int)
    requires Counts(table, log, edge) && edge <= edge'
    requires table'.Keys <= table.Keys && forall r | r in table' :: table'[r] == table[r]
    requires forall r | r in table && edge' <= table[r].at :: r in table'
    ensures Counts(table', log, edge')
  {
    forall key, since | since >= edge' ensures |Recent(table', key, since)| == WrongSince(log, key, since) {
      assert Recent(table', key, since) == Recent(table, key, since);
    }
  }

  lemma CountsAfterRecord(table: Table, log: seq<Attempt>, edge: int, row: RowId, a: Attempt)
    requires Counts(table, log, edge) && row !in table && a.answer == InvalidCredentials
    ensures Counts(table[row := Failure(a.key, a.at)], log + [a], edge)
  {
    OneMoreAttempt(log, a);
    var table' := table[row := Failure(a.key, a.at)];
    forall k, since | since >= edge ensures |Recent(table', k, since)| == WrongSince(log + [a], k, since) {
      if k == a.key && since <= a.at {
        assert Recent(table', k, since) == Recent(table, k, since) + {row};
      } else {
        assert Recent(table', k, since) == Recent(table, k, since);
      }
    }
  }

  lemma CountsAfterClear(table: Table, log: seq<Attempt>, edge: int, a: Attempt)
    requires Counts(table, log, edge) && Cleared(a.answer)
    ensures Counts(table - AllOf(table, a.key), log + [a], edge)
  {
    OneMoreAttempt(log, a);
    var table' := table - AllOf(table, a.key);
    forall k, since | since >= edge ensures |Recent(table', k, since)| == WrongSince(log + [a], k, since) {
      assert Recent(table', k, since) == if k == a.key then {} else Recent(table, k, since);
    }
  }

  lemma CountsAfterRefusal(table: Table, log: seq<Attempt>, edge: int, a: Attempt)
    requires Counts(table, log, edge) && a.answer == TryLater
    ensures Counts(table, log + [a], edge)
  {
    OneMoreAttempt(log, a);
  }

  class PasswordStore {
    const failures: FailureStore
    const window: nat
    const max: nat
    var credentials: map<string, Credential>
    ghost var log: seq<Attempt>
    ghost var clock: int

    ghost predicate Valid()
      reads this, failures
    {
      failures.Valid() && Counts(failures.table, log, clock - window)
    }

    constructor (window: nat, max: nat, now: int)
      ensures Valid() && fresh(failures) && log == [] && clock == now && credentials == map[]
      ensures this.window == window && this.max == max
    {
      failures := new FailureStore();
      this.window, this.max := window, max;
      credentials := map[];
      log, clock := [], now;
      new;
      assert forall key, since :: Recent(map[], key, since) == {};
    }

    /** Registration never replaces a credential. */
    method Register(key: string, credential: Credential) returns (inserted: bool)
      requires Valid()
      modifies this`credentials
      ensures Valid() && inserted == (key !in old(credentials))
      ensures credentials == if inserted then old(credentials)[key := credential] else old(credentials)
      ensures forall k | k in old(credentials) :: k in credentials && credentials[k] == old(credentials)[k]
    {
      inserted := key !in credentials;
      if inserted {
        credentials := credentials[key := credential];
      }
    }

    /**
      A login is refused exactly when the log shows `max` wrong answers in the window since the last
      right password, or the workers are saturated; then not even the right password is tried.
      Otherwise the answer says whether the password is right, and only a wrong one is counted.
     */
    method Login(key: string, password: string, now: int, saturated: bool, reply: Issuing)
      returns (answer: Answer)
      requires Valid() && clock <= now
      modifies this`log, this`clock, failures
      ensures Valid() && clock == now && log == old(log) + [Attempt(key, password, now, answer)]
      ensures answer == TryLater <==> WrongSince(old(log), key, now - window) >= max || saturated
      ensures answer != TryLater && (key !in credentials || credentials[key].hash != HashOf(password)) ==>
        answer == InvalidCredentials
      ensures answer != TryLater && key in credentials && credentials[key].hash == HashOf(password) ==>
        match reply
        case Issued => answer == LoggedIn(credentials[key].subject)
        case SubjectDisabled => answer == Disabled
        case Failed => answer == IssueFailed
      ensures answer != TryLater ==> Cleared(answer) || WrongSince(log, key, now - window) <= max
    {
      var since := now - window;
      ghost var table0 := failures.table;
      var reached := failures.FailureLimitReached(key, since, max);
      CountsAfterSweep(table0, failures.table, log, clock - window, since);
      clock := now;
      OneMoreAttempt(log, Attempt(key, password, now, InvalidCredentials));
      if reached || saturated {
        answer := TryLater;
        CountsAfterRefusal(failures.table, log, since, Attempt(key, password, now, answer));
      } else if !Right(credentials, key, password) {
        ghost var table1 := failures.table;
        assert StaleOf(table1, key, since) <= AllOf(table1, key);
        assert StaleOf(table1, key, since) == {};
        assert table1 - {} == table1;
        assert Recent(table1, key, since) == Recent(table0, key, since);
        ghost var row := failures.next;
        var admission := failures.RecordFailureIfAllowed(key, since, now, max);
        answer := InvalidCredentials;
        CountsAfterRecord(table1, log, since, row, Attempt(key, password, now, answer));
      } else {
        ghost var table1 := failures.table;
        failures.ClearFailures(key);
        answer := AnswerTo(credentials[key].subject, reply);
        CountsAfterClear(table1, log, since, Attempt(key, password, now, answer));
      }
      log := log + [Attempt(key, password, now, answer)];
    }
  }
}
