/** OTP challenges: reserving one, verifying one, and what any history of verifications keeps. */
module OtpChallenges {
  import opened Prelude
  import opened RowTransactions
  import opened Runs
  import opened Text

  /** HMAC over challenge id and code, taken as an injective function of the two. */
  datatype Digest = OtpDigest(id: string, code: string)

  datatype Challenge = Challenge(
    phone: string, digest: Digest, source: Option<string>, attempts: nat, consumed: bool,
    expiresAt: int, resendAfter: int, createdAt: int)

  type Table = map<string, Challenge>

  // ---- Verifying --------------------------------------------------------------------------

  datatype Guess = Guess(id: string, code: string)

  datatype Verdict = Verified(phone: string) | InvalidChallenge | InvalidCode | TooManyAttempts | Expired

  /** The checks on the locked row, in their order, against the clock read while holding it. */
  function Verify(maxAttempts: nat, g: Guess, row: Challenge, now: int): Decision<Challenge, Verdict> {
    if row.consumed then Decision(None, InvalidChallenge)
    else if row.attempts >= maxAttempts then Decision(None, TooManyAttempts)
    else if row.expiresAt <= now then Decision(None, Expired)
    else if row.digest != OtpDigest(g.id, g.code) then
      Decision(Some(row.(attempts := row.attempts + 1)),
               if row.attempts + 1 >= maxAttempts then TooManyAttempts else InvalidCode)
    else Decision(Some(row.(consumed := true)), Verified(row.phone))
  }

  function OtpStoreOf(maxAttempts: nat): Store<Challenge, Guess, Verdict> {
    Store((g, row, now) => Verify(maxAttempts, g, row, now), InvalidChallenge)
  }

  predicate WellFormedGuess(g: Guess, codeLength: nat) {
    ValidId(g.id) && |g.code| == codeLength && forall i | 0 <= i < |g.code| :: AsciiDigit(g.code[i])
  }

  type History = seq<Op<string, Challenge, Guess, Verdict>>

  /** Challenges are created unused: no attempts, not consumed. */
  ghost predicate CreatedUnused(ops: History) {
    forall i | 0 <= i < |ops| && ops[i].Created? :: ops[i].row.attempts == 0 && !ops[i].row.consumed
  }

  /** The challenge as it was created, while it is not deleted. */
  function Standing(ops: History, k: string): Option<Challenge> {
    if ops == [] then None
    else
      var before, op := ops[..|ops| - 1], ops[|ops| - 1];
      match op
      case Created(j, row) => if j == k then Some(row) else Standing(before, k)
      case Deleted(j) => if j == k then None else Standing(before, k)
      case Asked(_, _, _, _) => Standing(before, k)
  }

  function Successes(ops: History, k: string): nat {
    if ops == [] then 0
    else
      var op := ops[|ops| - 1];
      Successes(ops[..|ops| - 1], k) + if op.Asked? && op.k == k && op.answer.Verified? then 1 else 0
  }

  /** A guess at a standing challenge that has not succeeded, before its expiry, with a code that is not its own. */
  predicate IsWrongGuess(before: History, op: Op<string, Challenge, Guess, Verdict>, k: string) {
    && op.Asked? && op.k == k && Successes(before, k) == 0
    && Standing(before, k).Some? && op.clock < Standing(before, k).value.expiresAt
    && Standing(before, k).value.digest != OtpDigest(op.q.id, op.q.code)
  }

  /** Counted from the guesses alone, whatever was answered or written. */
  function WrongGuesses(ops: History, k: string): nat {
    if ops == [] then 0
    else
      var before, op := ops[..|ops| - 1], ops[|ops| - 1];
      WrongGuesses(before, k) + if IsWrongGuess(before, op, k) then 1 else 0
  }

  function Lesser(a: nat, b: nat): nat { if a <= b then a else b }

  /**
    The row is the challenge as created, its attempts the wrong guesses so far up to the cap, consumed
    once a guess has succeeded; no second one succeeds.
   */
  lemma {:induction false} RowCountsHistory(maxAttempts: nat, ops: History, k: string)
    requires Serial(OtpStoreOf(maxAttempts), ops) && CreatedUnused(ops)
    ensures
      var rows := After(OtpStoreOf(maxAttempts), ops);
      && (!Mentions(ops, k) ==> Standing(ops, k).None? && WrongGuesses(ops, k) == 0 && Successes(ops, k) == 0)
      && (k in rows <==> Standing(ops, k).Some?)
      && (k in rows ==> rows[k] == Standing(ops, k).value.(
            attempts := Lesser(maxAttempts, WrongGuesses(ops, k)), consumed := Successes(ops, k) == 1))
      && Successes(ops, k) <= 1
  {
    if ops != [] {
      var before, op := ops[..|ops| - 1], ops[|ops| - 1];
      RowCountsHistory(maxAttempts, before, k);
      OneMore(OtpStoreOf(maxAttempts), before, op);
      assert before + [op] == ops;
      assert op.Created? ==> ops[|ops| - 1] == op && Mentions(ops, op.k);
    }
  }

  /**
    Every answer, told from the history alone: none without a standing challenge or after a success;
    at the cap all guesses fail, the right code included; then expiry; then the code decides.
   */
  lemma AnswersByHistory(maxAttempts: nat, ops: History, k: string, g: Guess, clock: int)
    requires Serial(OtpStoreOf(maxAttempts), ops) && CreatedUnused(ops)
    ensures AnswerOn(OtpStoreOf(maxAttempts), After(OtpStoreOf(maxAttempts), ops), k, g, clock) ==
      if Standing(ops, k).None? || Successes(ops, k) > 0 then InvalidChallenge
      else if WrongGuesses(ops, k) >= maxAttempts then TooManyAttempts
      else if Standing(ops, k).value.expiresAt <= clock then Expired
      else if Standing(ops, k).value.digest == OtpDigest(g.id, g.code) then Verified(Standing(ops, k).value.phone)
      else if WrongGuesses(ops, k) + 1 == maxAttempts then TooManyAttempts
      else InvalidCode
  {
    RowCountsHistory(maxAttempts, ops, k);
  }

  /** Each wrong guess answers `TooManyAttempts` exactly when it is the last the cap allows or a later one. */
  lemma WrongGuessAnswers(maxAttempts: nat, ops: History, k: string, n: nat)
    requires Serial(OtpStoreOf(maxAttempts), ops) && CreatedUnused(ops) && n < |ops|
    requires IsWrongGuess(ops[..n], ops[n], k)
    ensures ops[n].answer == if WrongGuesses(ops[..n], k) + 1 >= maxAttempts then TooManyAttempts else InvalidCode
  {
    PrefixSerial(OtpStoreOf(maxAttempts), ops, n + 1);
    assert ops[..n + 1][..n] == ops[..n];
    AnswersByHistory(maxAttempts, ops[..n], k, ops[n].q, ops[n].clock);
  }

  /** The stored attempts stay within the cap; from the cap on, and after the one success, nothing succeeds. */
  lemma AttemptsAndSuccessBounded(maxAttempts: nat, ops: History, k: string, g: Guess, clock: int)
    requires Serial(OtpStoreOf(maxAttempts), ops) && CreatedUnused(ops)
    ensures
      var rows := After(OtpStoreOf(maxAttempts), ops);
      && Successes(ops, k) <= 1 && (k in rows ==> rows[k].attempts <= maxAttempts)
      && (WrongGuesses(ops, k) >= maxAttempts || Successes(ops, k) == 1 ==>
            !AnswerOn(OtpStoreOf(maxAttempts), rows, k, g, clock).Verified?)
  {
    RowCountsHistory(maxAttempts, ops, k);
    AnswersByHistory(maxAttempts, ops, k, g, clock);
  }

  /** The next guess succeeds exactly at a standing challenge, unused, under the cap, in time, with its code. */
  lemma SucceedsIff(maxAttempts: nat, ops: History, k: string, g: Guess, clock: int)
    requires Serial(OtpStoreOf(maxAttempts), ops) && CreatedUnused(ops)
    ensures
      var rows := After(OtpStoreOf(maxAttempts), ops);
      AnswerOn(OtpStoreOf(maxAttempts), rows, k, g, clock).Verified? <==>
        && Standing(ops, k).Some? && Successes(ops, k) == 0 && WrongGuesses(ops, k) < maxAttempts
        && clock < Standing(ops, k).value.expiresAt && Standing(ops, k).value.digest == OtpDigest(g.id, g.code)
  {
    AnswersByHistory(maxAttempts, ops, k, g, clock);
  }

  /** The counts hold for every interleaving of verifications, through its serial history. */
  lemma InterleavedVerifications(
      maxAttempts: nat, states: seq<State<string, Challenge, Guess, Verdict>>,
      events: seq<Event<string, Challenge, Guess>>,
      n: nat, k: string)
    requires IsRun(System(OtpStoreOf(maxAttempts)), states, events) && n < |states|
    requires CreatedUnused(states[n].ops)
    ensures
      var s := states[n];
      && Successes(s.ops, k) <= 1
      && (k in s.rows <==> Standing(s.ops, k).Some?)
      && (k in s.rows ==> s.rows[k] == Standing(s.ops, k).value.(
            attempts := Lesser(maxAttempts, WrongGuesses(s.ops, k)), consumed := Successes(s.ops, k) == 1))
  {
    RunsAreSerial(OtpStoreOf(maxAttempts), states, events, n);
    RowCountsHistory(maxAttempts, states[n].ops, k);
  }

  // ---- Reserving --------------------------------------------------------------------------

  datatype Reservation = Reservation(
    id: string, phone: string, digest: Digest, source: Option<string>,
    expiresAt: int, resendAfter: int, now: int, window: nat, maxStarts: nat)

  datatype ReservationOutcome = Inserted | RateLimited | ResendTooSoon

  /** Challenges of one source stamped no earlier than `since`; a missing address is a source of its own. */
  function StartsSince(t: Table, source: Option<string>, since: int): set<string> {
    set k | k in t && t[k].source == source && since <= t[k].createdAt
  }

  function OfPhone(t: Table, phone: string): set<string> {
    set k | k in t && t[k].phone == phone
  }

  /** A newest challenge of the phone, by its stamp. */
  ghost predicate IsNewest(t: Table, phone: string, k: string) {
    k in OfPhone(t, phone) && forall j | j in OfPhone(t, phone) :: t[j].createdAt <= t[k].createdAt
  }

  lemma {:induction false} NewestExists(t: Table, keys: set<string>)
    requires keys != {} && keys <= t.Keys
    ensures exists k | k in keys :: forall j | j in keys :: t[j].createdAt <= t[k].createdAt
  {
    var x :| x in keys;
    if keys != {x} {
      NewestExists(t, keys - {x});
      var k :| k in keys - {x} && forall j | j in keys - {x} :: t[j].createdAt <= t[k].createdAt;
      var best := if t[k].createdAt < t[x].createdAt then x else k;
      assert forall j | j in keys :: j == x || j in keys - {x};
      assert forall j | j in keys :: t[j].createdAt <= t[best].createdAt;
    }
  }

  function NewChallenge(r: Reservation, at: int): Challenge {
    Challenge(r.phone, r.digest, r.source, 0, false, r.expiresAt, r.resendAfter, at)
  }

  /** The source is under its limit, and a newest challenge of the phone, if any, allows another. */
  ghost predicate Admits(t: Table, r: Reservation) {
    && |StartsSince(t, r.source, r.now - r.window)| < r.maxStarts
    && (OfPhone(t, r.phone) == {} || exists k :: IsNewest(t, r.phone, k) && t[k].resendAfter <= r.now)
  }

  /** The challenge can still be guessed at. */
  predicate Open(t: Table, id: string, maxAttempts: nat, now: int) {
    id in t && !t[id].consumed && t[id].attempts < maxAttempts && now < t[id].expiresAt
  }

  /** `phone_otp_challenges` served one transaction at a time. */
  class OtpStore {
    var table: Table
    const maxAttempts: nat
    const codeLength: nat

    constructor (maxAttempts: nat, codeLength: nat)
      ensures table == map[] && this.maxAttempts == maxAttempts && this.codeLength == codeLength
    {
      table := map[];
      this.maxAttempts, this.codeLength := maxAttempts, codeLength;
    }

    method Reserve(r: Reservation, at: int) returns (outcome: ReservationOutcome)
      requires r.id !in table
      modifies this
      ensures outcome == RateLimited <==> |StartsSince(old(table), r.source, r.now - r.window)| >= r.maxStarts
      ensures outcome == RateLimited <==>
        r.maxStarts <= |set k | k in old(table) && old(table)[k].source == r.source
                                && r.now - r.window <= old(table)[k].createdAt|
      ensures outcome != RateLimited && (forall k | k in old(table) :: old(table)[k].phone != r.phone) ==>
        outcome == Inserted
      ensures outcome == ResendTooSoon ==>
        exists k | k in old(table) && old(table)[k].phone == r.phone :: old(table)[k].resendAfter > r.now
      ensures outcome == Inserted ==>
        forall k | k in old(table) && old(table)[k].phone == r.phone && old(table)[k].resendAfter > r.now ::
          exists j | j in old(table) && old(table)[j].phone == r.phone && j != k ::
            old(table)[k].createdAt <= old(table)[j].createdAt
      ensures outcome == ResendTooSoon ==>
        exists k | IsNewest(old(table), r.phone, k) :: old(table)[k].resendAfter > r.now
      ensures outcome == Inserted ==> Admits(old(table), r)
      ensures table == if outcome == Inserted then old(table)[r.id := NewChallenge(r, at)] else old(table)
      ensures outcome == Inserted ==>
        table[r.id] == Challenge(r.phone, r.digest, r.source, 0, false, r.expiresAt, r.resendAfter, at)
    {
      if |StartsSince(table, r.source, r.now - r.window)| >= r.maxStarts {
        return RateLimited;
      }
      var mine := OfPhone(table, r.phone);
      if mine != {} {
        NewestExists(table, mine);
        var newest :| newest in mine && forall j | j in mine :: table[j].createdAt <= table[newest].createdAt;
        assert IsNewest(table, r.phone, newest);
        if table[newest].resendAfter > r.now {
          return ResendTooSoon;
        }
      }
      ghost var t := table;
      assert forall k | k in t && t[k].phone == r.phone :: k in mine;
      assert mine != {} ==> exists j | j in mine ::
          t[j].resendAfter <= r.now && forall k | k in mine :: t[k].createdAt <= t[j].createdAt;
      table := table[r.id := NewChallenge(r, at)];
      outcome := Inserted;
    }

    method VerifyOtp(g: Guess, now: int) returns (verdict: Verdict)
      modifies this
      ensures !WellFormedGuess(g, codeLength) || g.id !in old(table) ==>
        verdict == InvalidChallenge && table == old(table)
      ensures !ValidId(g.id) || |g.code| != codeLength ==> verdict == InvalidChallenge && table == old(table)
      ensures (exists i | 0 <= i < |g.code| :: !('0' <= g.code[i] <= '9')) ==>
        verdict == InvalidChallenge && table == old(table)
      ensures
        ValidId(g.id) && |g.code| == codeLength && (forall i | 0 <= i < |g.code| :: '0' <= g.code[i] <= '9')
        && Open(old(table), g.id, maxAttempts, now) && old(table)[g.id].digest == OtpDigest(g.id, g.code) ==>
          verdict == Verified(old(table)[g.id].phone)
      ensures WellFormedGuess(g, codeLength) && g.id in old(table) ==>
        var d := Verify(maxAttempts, g, old(table)[g.id], now);
        verdict == d.answer && table == if d.write.Some? then old(table)[g.id := d.write.value] else old(table)
      ensures verdict.Verified? ==> Open(old(table), g.id, maxAttempts, now)
      ensures WellFormedGuess(g, codeLength) && Open(old(table), g.id, maxAttempts, now) ==>
        var row := old(table)[g.id];
        if row.digest == OtpDigest(g.id, g.code)
        then verdict == Verified(row.phone) && table == old(table)[g.id := row.(consumed := true)]
        else
          && verdict == (if row.attempts + 1 >= maxAttempts then TooManyAttempts else InvalidCode)
          && table == old(table)[g.id := row.(attempts := row.attempts + 1)]
      ensures !Open(old(table), g.id, maxAttempts, now) ==> table == old(table)
    {
      if !WellFormedGuess(g, codeLength) || g.id !in table {
        return InvalidChallenge;
      }
      var row := table[g.id];
      if row.consumed {
        return InvalidChallenge;
      }
      if row.attempts >= maxAttempts {
        return TooManyAttempts;
      }
      if row.expiresAt <= now {
        return Expired;
      }
      if row.digest != OtpDigest(g.id, g.code) {
        table := table[g.id := row.(attempts := row.attempts + 1)];
        return if row.attempts + 1 >= maxAttempts then TooManyAttempts else InvalidCode;
      }
      table := table[g.id := row.(consumed := true)];
      verdict := Verified(row.phone);
    }
  }
}
