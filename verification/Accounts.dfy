/** Subjects, identity bindings and sessions: rows, statements, and the store one transaction at a time. */
module Accounts {
  import opened Prelude
  import opened Json

  datatype Status = Active | Disabled

  datatype Subject = Subject(status: Status, reason: Option<string>, until: Option<int>)

  /** HMAC of a session token under the pepper, taken as injective. */
  datatype Digest = TokenDigest(token: string)

  datatype Session = Session(
    digest: Digest, subject: string, actorKind: string, assurance: string,
    audience: seq<string>, claims: map<string, Json>, expiresAt: int, revokedAt: Option<int>)

  datatype BindingKey = BindingKey(provider: string, external: string)

  type Subjects = map<string, Subject>
  type Bindings = map<BindingKey, string>
  type Sessions = map<string, Session>

  /** The SQL status expression, with `at` the transaction timestamp. */
  predicate EffectivelyDisabled(s: Subject, at: int) {
    s.status == Disabled && (s.until.None? || s.until.value > at)
  }

  /** A disable can lapse with time, never begin: what is disabled later was disabled before. */
  lemma DisabledEarlier(s: Subject, earlier: int, later: int)
    requires earlier <= later && EffectivelyDisabled(s, later)
    ensures EffectivelyDisabled(s, earlier)
  {
  }

  /** The two ways to change a subject: the admin request, and the operator's disable. */
  datatype Change =
    | SetStatus(status: Status, reason: Option<string>, until: Option<int>)
    | OperatorDisable

  function Applied(c: Change, row: Subject): Subject {
    match c
    case SetStatus(Active, _, _) => Subject(Active, None, None)
    case SetStatus(Disabled, reason, until) => Subject(Disabled, reason, until)
    case OperatorDisable => row.(status := Disabled)
  }

  /** The WHERE clause of the change, beyond the subject id. */
  predicate Matches(c: Change, row: Subject) {
    match c
    case SetStatus(_, _, _) => row != Applied(c, row)
    case OperatorDisable => row.status != Disabled
  }

  /** The row a change leaves behind, written or already so. */
  function RowAfter(c: Change, row: Subject): Subject { if Matches(c, row) then Applied(c, row) else row }

  /**
    A request to disable leaves the subject disabled with the reason and end asked for: at every time
    before the end, or for good without one, and at no other.
   */
  lemma DisableTakes(row: Subject, reason: Option<string>, until: Option<int>, at: int)
    ensures RowAfter(SetStatus(Disabled, reason, until), row) == Subject(Disabled, reason, until)
    ensures EffectivelyDisabled(RowAfter(SetStatus(Disabled, reason, until), row), at) <==>
      until.None? || at < until.value
    ensures Matches(SetStatus(Disabled, reason, until), row) <==>
      row.status != Disabled || row.reason != reason || row.until != until
  {
  }

  /** A request to activate leaves the subject active, never effectively disabled, without reason or end. */
  lemma ActivateTakes(row: Subject, reason: Option<string>, until: Option<int>, at: int)
    ensures RowAfter(SetStatus(Active, reason, until), row) == Subject(Active, None, None)
    ensures !EffectivelyDisabled(RowAfter(SetStatus(Active, reason, until), row), at)
    ensures Matches(SetStatus(Active, reason, until), row) <==>
      row.status != Active || row.reason.Some? || row.until.Some?
  {
  }

  /**
    The operator's disable takes hold for good exactly when the stored status was active or disabled
    without end: a stored disable that has lapsed, or will, is left as it is.
   */
  lemma OperatorDisableTakesIff(row: Subject, at: int)
    requires row.status == Active ==> row.until.None?
    ensures RowAfter(OperatorDisable, row) == Subject(Disabled, row.reason, row.until)
    ensures (forall later | at <= later :: EffectivelyDisabled(RowAfter(OperatorDisable, row), later)) <==>
      row.status == Active || row.until.None?
  {
    if row.status == Disabled && row.until.Some? {
      var later := if at < row.until.value then row.until.value else at;
      assert !EffectivelyDisabled(RowAfter(OperatorDisable, row), later);
    }
  }

  predicate Revokes(c: Change) {
    c.OperatorDisable? || c.status == Disabled
  }

  function LiveOf(sessions: Sessions, subject: string): set<string> {
    set id | id in sessions && sessions[id].subject == subject && sessions[id].revokedAt.None?
  }

  function Revoked(sessions: Sessions, hit: set<string>, at: int): Sessions {
    map id | id in sessions :: if id in hit then sessions[id].(revokedAt := Some(at)) else sessions[id]
  }

  function WithDigest(sessions: Sessions, digest: Digest): set<string> {
    set id | id in sessions && sessions[id].digest == digest
  }

  function LiveWith(sessions: Sessions, digest: Digest): set<string> {
    set id | id in WithDigest(sessions, digest) && sessions[id].revokedAt.None?
  }

  /** Stored `active` carries no expiry, so the operator's disable always lasts. */
  ghost predicate SubjectsFit(subjects: Subjects) {
    forall id | id in subjects && subjects[id].status == Active :: subjects[id].until.None?
  }

  ghost predicate SessionsFit(subjects: Subjects, sessions: Sessions) {
    && (forall id | id in sessions :: sessions[id].subject in subjects)
    && (forall a, b | a in sessions && b in sessions && sessions[a].digest == sessions[b].digest :: a == b)
  }

  /** A subject that is effectively disabled has no unrevoked session. */
  ghost predicate DisabledHaveNone(subjects: Subjects, sessions: Sessions, at: int) {
    forall id | id in sessions && sessions[id].subject in subjects
        && EffectivelyDisabled(subjects[sessions[id].subject], at) ::
      sessions[id].revokedAt.Some?
  }

  datatype IssueOutcome = Inserted | SubjectDisabled | InvalidSubject

  /** The row `load_session` finds would pass the status and revocation checks at this moment. */
  predicate Usable(subjects: Subjects, sessions: Sessions, id: string, at: int) {
    && id in sessions && sessions[id].subject in subjects
    && !EffectivelyDisabled(subjects[sessions[id].subject], at) && sessions[id].revokedAt.None?
  }

  datatype AuthError = Invalid | Dead | Expired

  datatype EnsureOutcome = EnsureOutcome(subject: string, disabled: bool, created: bool)

  /** The account schema served one transaction at a time; `at` is the transaction's timestamp. */
  class AccountStore {
    var subjects: Subjects
    var bindings: Bindings
    var sessions: Sessions

    ghost predicate Valid()
      reads this
    {
      && SubjectsFit(subjects) && SessionsFit(subjects, sessions)
      && bindings.Values <= subjects.Keys
    }

    constructor ()
      ensures Valid() && subjects == map[] && bindings == map[] && sessions == map[]
    {
      subjects, bindings, sessions := map[], map[], map[];
    }

    method EnsureIdentity(key: BindingKey, minted: string, at: int) returns (r: EnsureOutcome)
      requires Valid() && minted !in subjects
      modifies this`subjects, this`bindings
      ensures Valid()
      ensures key in bindings && bindings[key] == r.subject
      ensures r.created <==> key !in old(bindings)
      ensures !r.created ==> subjects == old(subjects) && bindings == old(bindings)
      ensures r.created ==>
        && subjects == old(subjects)[minted := Subject(Active, None, None)]
        && bindings == old(bindings)[key := minted]
      ensures r.disabled <==> EffectivelyDisabled(subjects[r.subject], at)
      ensures DisabledHaveNone(old(subjects), sessions, at) ==> DisabledHaveNone(subjects, sessions, at)
    {
      if key in bindings {
        assert bindings[key] in bindings.Values;
        return EnsureOutcome(bindings[key], EffectivelyDisabled(subjects[bindings[key]], at), false);
      }
      subjects := subjects[minted := Subject(Active, None, None)];
      bindings := bindings[key := minted];
      r := EnsureOutcome(minted, false, true);
    }

    method IssueSession(id: string, session: Session, at: int) returns (outcome: IssueOutcome)
      requires Valid() && session.revokedAt.None?
      requires id !in sessions && forall k | k in sessions :: sessions[k].digest != session.digest
      modifies this`sessions
      ensures Valid()
      ensures outcome == InvalidSubject <==> session.subject !in subjects
      ensures outcome == SubjectDisabled <==>
        session.subject in subjects && EffectivelyDisabled(subjects[session.subject], at)
      ensures sessions == if outcome == Inserted then old(sessions)[id := session] else old(sessions)
      ensures DisabledHaveNone(subjects, old(sessions), at) ==> DisabledHaveNone(subjects, sessions, at)
    {
      if session.subject !in subjects {
        return InvalidSubject;
      }
      if EffectivelyDisabled(subjects[session.subject], at) {
        return SubjectDisabled;
      }
      sessions := sessions[id := session];
      outcome := Inserted;
    }

    /** `None` is the not-found answer; the session update runs either way, as in the source. */
    method ChangeSubject(subject: string, c: Change, at: int) returns (changed: Option<bool>)
      requires Valid()
      modifies this`subjects, this`sessions
      ensures Valid()
      ensures changed.None? <==> subject !in old(subjects)
      ensures changed.None? ==> subjects == old(subjects) && sessions == old(sessions)
      ensures changed.Some? ==>
        && (changed.value <==> Matches(c, old(subjects)[subject]))
        && subjects == old(subjects)[subject := RowAfter(c, old(subjects)[subject])]
        && sessions ==
             (if Revokes(c) then Revoked(old(sessions), LiveOf(old(sessions), subject), at) else old(sessions))
      ensures changed.Some? && c.SetStatus? ==>
        && subjects[subject] ==
             (if c.status == Active then Subject(Active, None, None) else Subject(Disabled, c.reason, c.until))
        && (changed.value <==> subjects[subject] != old(subjects)[subject])
      ensures changed.Some? && c.OperatorDisable? ==>
        && subjects[subject] == Subject(Disabled, old(subjects)[subject].reason, old(subjects)[subject].until)
        && (changed.value <==> subjects[subject] != old(subjects)[subject])
      ensures forall id | id in old(sessions) ::
        && id in sessions && sessions[id].(revokedAt := None) == old(sessions)[id].(revokedAt := None)
        && sessions[id].revokedAt ==
             (if (c.OperatorDisable? || c.status == Disabled) && old(sessions)[id].subject == subject
                 && old(sessions)[id].revokedAt.None? then Some(at) else old(sessions)[id].revokedAt)
      ensures Revokes(c) ==> LiveOf(sessions, subject) == {}
      ensures forall id | id in old(sessions) && old(sessions)[id].revokedAt.Some? ::
        id in sessions && sessions[id] == old(sessions)[id]
      ensures DisabledHaveNone(old(subjects), old(sessions), at) ==> DisabledHaveNone(subjects, sessions, at)
    {
      var matched := subject in subjects && Matches(c, subjects[subject]);
      if matched {
        subjects := subjects[subject := Applied(c, subjects[subject])];
      }
      var exists1 := subject in subjects;
      if Revokes(c) {
        sessions := Revoked(sessions, LiveOf(sessions, subject), at);
      }
      assert !exists1 ==> LiveOf(old(sessions), subject) == {};
      assert !exists1 ==> sessions == old(sessions);
      changed := if exists1 then Some(matched) else None;
    }

    /** The operator's path: an unknown subject and an already disabled one both answer `false`. */
    method DisableSubject(subject: string, at: int) returns (changed: bool)
      requires Valid()
      modifies this`subjects, this`sessions
      ensures Valid()
      ensures changed <==> subject in old(subjects) && old(subjects)[subject].status == Active
      ensures changed ==> subject in subjects && forall later :: EffectivelyDisabled(subjects[subject], later)
      ensures !changed ==> subjects == old(subjects)
      ensures LiveOf(sessions, subject) == {}
    {
      var answer := ChangeSubject(subject, OperatorDisable, at);
      changed := answer == Some(true);
    }

    method RevokeSession(id: string, at: int) returns (changed: Option<bool>)
      requires Valid()
      modifies this`sessions
      ensures Valid()
      ensures changed == if id in old(sessions) then Some(old(sessions)[id].revokedAt.None?) else None
      ensures id in sessions ==> sessions[id].revokedAt.Some?
      ensures sessions ==
        if changed == Some(true) then old(sessions)[id := old(sessions)[id].(revokedAt := Some(at))] else old(sessions)
    {
      if id !in sessions {
        return None;
      }
      var already := sessions[id].revokedAt.Some?;
      if !already {
        sessions := Revoked(sessions, {id}, at);
      }
      changed := Some(!already);
    }

    method RevokeCredential(digest: Digest, at: int) returns (changed: Option<bool>)
      requires Valid()
      modifies this`sessions
      ensures Valid()
      ensures changed.None? <==> WithDigest(old(sessions), digest) == {}
      ensures changed == Some(true) <==>
        exists id :: id in WithDigest(old(sessions), digest) && old(sessions)[id].revokedAt.None?
      ensures forall id | id in sessions :: sessions[id].digest == digest ==> sessions[id].revokedAt.Some?
      ensures sessions == Revoked(old(sessions), LiveWith(old(sessions), digest), at)
      ensures forall id | id in old(sessions) ::
        && id in sessions && sessions[id].(revokedAt := None) == old(sessions)[id].(revokedAt := None)
        && sessions[id].revokedAt ==
             (if old(sessions)[id].digest == digest && old(sessions)[id].revokedAt.None? then Some(at)
              else old(sessions)[id].revokedAt)
    {
      var hit := LiveWith(sessions, digest);
      var known := WithDigest(sessions, digest) != {};
      sessions := Revoked(sessions, hit, at);
      if hit != {} {
        var id :| id in hit;
        assert id in WithDigest(old(sessions), digest);
        return Some(true);
      }
      changed := if known then Some(false) else None;
    }

    /** Load, check, then the validity of the assertion to mint: issue time and expiry. */
    method Authenticate(digest: Digest, at: int, clock: int, ttl: nat) returns (r: Result<(Session, int), AuthError>)
      requires Valid()
      ensures r == Err(Invalid) <==> WithDigest(sessions, digest) == {}
      ensures r.Ok? <==>
        exists id ::
          id in WithDigest(sessions, digest) && Usable(subjects, sessions, id, at) && clock < sessions[id].expiresAt
      ensures r.Ok? ==>
        && (exists id :: id in WithDigest(sessions, digest) && r.value.0 == sessions[id])
        && r.value.1 <= r.value.0.expiresAt && r.value.1 <= clock + ttl
        && (r.value.1 == r.value.0.expiresAt || r.value.1 == clock + ttl)
      ensures r == Err(Dead) <==> exists id :: id in WithDigest(sessions, digest) && !Usable(subjects, sessions, id, at)
    {
      var hits := WithDigest(sessions, digest);
      if hits == {} {
        return Err(Invalid);
      }
      var id :| id in hits;
      var session := sessions[id];
      assert forall k | k in hits :: k == id;
      if EffectivelyDisabled(subjects[session.subject], at) || session.revokedAt.Some? {
        return Err(Dead);
      }
      if session.expiresAt <= clock {
        return Err(Expired);
      }
      r := Ok((session, if session.expiresAt < clock + ttl then session.expiresAt else clock + ttl));
    }
  }
}
