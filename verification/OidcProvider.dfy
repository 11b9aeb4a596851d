/** Authorization codes: authorizing, exchanging, and what an exchange proves about its authorization. */
module OidcProvider {
  import opened Prelude
  import opened RowTransactions
  import opened Runs
  import opened OneTimeGrants
  import opened Text
  import opened Pkce
  import opened IdTokens

  /** HMAC of the code under the pepper, taken as injective. */
  datatype CodeDigest = CodeDigest(code: string)

  datatype Code = Code(
    subject: string, clientId: string, redirectUri: string, scope: seq<string>, challenge: Challenge,
    nonce: Option<string>, expiresAt: int, consumed: bool)

  type Table = map<CodeDigest, Code>

  datatype AuthorizeRequest = AuthorizeRequest(
    caller: string, responseType: string, challengeMethod: string, clientId: string, redirectUri: string,
    scope: seq<string>, challenge: Challenge, nonce: Option<string>, subject: string)

  datatype AuthorizeError =
    Forbidden | InvalidRequest | InvalidClient | InvalidRedirectUri | InvalidScope | InvalidPkce | DisabledSubject

  datatype Settings = Settings(provider: Provider, callers: set<string>, redirectUris: set<string>, codeTtl: nat)

  /** What the directory says of a subject. */
  datatype SubjectStatus = Active | Disabled | NotFound | InvalidSubject

  /** From a known caller, for the flow this provider offers. */
  predicate Addressed(c: Settings, r: AuthorizeRequest) {
    r.caller in c.callers && r.responseType == "code" && r.challengeMethod == "S256"
  }

  /** For a registered client and redirect target. */
  predicate Registered(c: Settings, r: AuthorizeRequest) {
    Addressed(c, r) && r.clientId == c.provider.clientId && r.redirectUri in c.redirectUris
  }

  /** All that the request itself must meet. */
  predicate Sound(c: Settings, r: AuthorizeRequest) {
    Registered(c, r) && (set w | w in r.scope) == {"openid"} && ValidChallenge(r.challenge)
  }

  predicate Authorizable(c: Settings, r: AuthorizeRequest, status: SubjectStatus) { Sound(c, r) && status == Active }

  function RowOf(c: Settings, r: AuthorizeRequest, now: int): Code {
    Code(r.subject, r.clientId, r.redirectUri, r.scope, r.challenge, r.nonce, now + c.codeTtl, false)
  }

  datatype ExchangeRequest = ExchangeRequest(
    grantType: string, clientId: string, code: string, redirectUri: string, verifier: string)

  predicate WellFormed(c: Settings, q: ExchangeRequest) {
    && q.grantType == "authorization_code" && q.clientId == c.provider.clientId
    && Utf8Length(q.code) <= 256 && 43 <= Utf8Length(q.verifier) <= 128
  }

  datatype Grant = Granted(subject: string, scope: seq<string>, nonce: Option<string>) | InvalidGrant

  function Exchange(q: ExchangeRequest, row: Code, now: int): Decision<Code, Grant> {
    if row.consumed || row.expiresAt <= now || row.clientId != q.clientId || row.redirectUri != q.redirectUri
       || S256(q.verifier) != row.challenge
    then Decision(None, InvalidGrant)
    else Decision(Some(row.(consumed := true)), Granted(row.subject, row.scope, row.nonce))
  }

  function CodeStoreOf(): Store<Code, ExchangeRequest, Grant> {
    Store((q, row, now) => Exchange(q, row, now), InvalidGrant)
  }

  function CodeLaw(): Law<Code, Grant> { Law((row: Code) => row.consumed, (a: Grant) => a.Granted?) }

  type History = seq<Op<CodeDigest, Code, ExchangeRequest, Grant>>

  /** Every code row of the history was made by a successful authorize for a subject the directory knows. */
  ghost predicate CreatedByAuthorize(c: Settings, ops: History) {
    forall i | 0 <= i < |ops| && ops[i].Created? :: MadeByAuthorize(c, ops[i].row)
  }

  ghost predicate MadeByAuthorize(c: Settings, row: Code) {
    exists r: AuthorizeRequest, at: int | Authorizable(c, r, Active) && ValidId(r.subject) :: row == RowOf(c, r, at)
  }

  /**
    A granted exchange belongs to one authorize: made for this client, redirect target and the S256
    of the verifier presented, still unexpired; it yields that request's subject, scope and nonce,
    and no other exchange of the history is granted for the same code.
   */
  lemma GrantAnswersAuthorize(c: Settings, ops: History, n: nat) returns (r: AuthorizeRequest, at: int)
    requires Serial(CodeStoreOf(), ops) && CreatedByAuthorize(c, ops)
    requires n < |ops| && ops[n].Asked? && ops[n].answer.Granted?
    ensures Authorizable(c, r, Active) && ValidId(r.subject) && AsCreated(ops[..n], ops[n].k, RowOf(c, r, at))
    ensures r.challenge == S256(ops[n].q.verifier) && r.clientId == ops[n].q.clientId
    ensures r.redirectUri == ops[n].q.redirectUri
    ensures ops[n].answer == Granted(r.subject, r.scope, r.nonce) && ops[n].clock < at + c.codeTtl
    ensures forall m | 0 <= m < |ops| && ops[m].Asked? && ops[m].k == ops[n].k && ops[m].answer.Granted? :: m == n
  {
    var row := GrantFromCreated(CodeStoreOf(), CodeLaw(), ops, n);
    var i :| 0 <= i < n && ops[i] == Created(ops[n].k, row);
    r, at :| Authorizable(c, r, Active) && ValidId(r.subject) && ops[i].row == RowOf(c, r, at);
    forall m | 0 <= m < |ops| && ops[m].Asked? && ops[m].k == ops[n].k && ops[m].answer.Granted? ensures m == n {
      GrantedOnce(CodeStoreOf(), CodeLaw(), ops, n, m);
    }
  }

  /**
    A code can be exchanged exactly while it stands unredeemed and unexpired, by the client and for
    the redirect target it was authorized with, with a verifier whose S256 is its challenge: any such
    verifier, and with or without a nonce.
   */
  lemma ExchangeableIff(c: Settings, ops: History, q: ExchangeRequest, now: int)
    requires Serial(CodeStoreOf(), ops) && CreatedByAuthorize(c, ops)
    ensures
      var k, rows := CodeDigest(q.code), After(CodeStoreOf(), ops);
      var answer := AnswerOn(CodeStoreOf(), rows, k, q, now);
      && (answer.Granted? <==>
            && k in rows && GrantCount(CodeLaw(), ops, k) == 0 && now < rows[k].expiresAt
            && rows[k].clientId == q.clientId && rows[k].redirectUri == q.redirectUri
            && rows[k].challenge == S256(q.verifier))
      && (answer.Granted? ==> answer == Granted(rows[k].subject, rows[k].scope, rows[k].nonce))
  {
    RowTellsGrants(CodeStoreOf(), CodeLaw(), ops, CodeDigest(q.code));
  }

  /** Single use for every interleaving of authorizations and exchanges. */
  lemma InterleavedExchanges(
      c: Settings, states: seq<State<CodeDigest, Code, ExchangeRequest, Grant>>,
      events: seq<Event<CodeDigest, Code, ExchangeRequest>>,
      n: nat, a: nat, b: nat)
    requires IsRun(System(CodeStoreOf()), states, events) && n < |states| && CreatedByAuthorize(c, states[n].ops)
    requires a < |states[n].ops| && b < |states[n].ops| && states[n].ops[a].Asked? && states[n].ops[b].Asked?
    requires states[n].ops[a].k == states[n].ops[b].k && states[n].ops[a].answer.Granted?
    requires states[n].ops[b].answer.Granted?
    ensures a == b
  {
    RunsAreSerial(CodeStoreOf(), states, events, n);
    var _, _ := GrantAnswersAuthorize(c, states[n].ops, a);
  }

  /** What the credential issuer answered, after the code was committed as consumed. */
  datatype Issued = IssuedSession | SubjectDisabled | Refused

  datatype Reply = Tokens(idToken: Token, scope: seq<string>) | InvalidExchange | BadGrant | NowDisabled

  /** `oidc_authorization_codes` served one request at a time. */
  class CodeStore {
    var table: Table
    const settings: Settings

    constructor (settings: Settings)
      ensures table == map[] && this.settings == settings
    {
      table := map[];
      this.settings := settings;
    }

    method Authorize(r: AuthorizeRequest, status: SubjectStatus, code: string, now: int)
        returns (answer: Result<string, AuthorizeError>)
      requires CodeDigest(code) !in table
      modifies this
      ensures answer.Ok? <==> Authorizable(settings, r, status)
      ensures answer.Ok? ==> answer.value == code
      ensures answer == Err(Forbidden) <==> r.caller !in settings.callers
      ensures answer == Err(InvalidClient) <==> Addressed(settings, r) && r.clientId != settings.provider.clientId
      ensures answer == Err(InvalidRedirectUri) <==>
        Addressed(settings, r) && r.clientId == settings.provider.clientId && r.redirectUri !in settings.redirectUris
      ensures answer == Err(InvalidScope) <==> Registered(settings, r) && (set w | w in r.scope) != {"openid"}
      ensures answer == Err(InvalidPkce) <==>
        && Registered(settings, r) && (set w | w in r.scope) == {"openid"}
        && r.challenge.Other? && !(43 <= |r.challenge.text| <= 128 && MadeOf(r.challenge.text, {'-', '_'}))
      ensures answer == Err(DisabledSubject) <==> Sound(settings, r) && (status == Disabled || status == NotFound)
      ensures answer == Err(InvalidRequest) <==>
        || (r.caller in settings.callers && (r.responseType != "code" || r.challengeMethod != "S256"))
        || (Sound(settings, r) && status == InvalidSubject)
      ensures table == if answer.Ok? then old(table)[CodeDigest(code) := RowOf(settings, r, now)] else old(table)
      ensures answer.Ok? ==>
        table[CodeDigest(code)] ==
          Code(r.subject, r.clientId, r.redirectUri, r.scope, r.challenge, r.nonce, now + settings.codeTtl, false)
    {
      if r.caller !in settings.callers {
        return Err(Forbidden);
      }
      if r.responseType != "code" || r.challengeMethod != "S256" {
        return Err(InvalidRequest);
      }
      if r.clientId != settings.provider.clientId {
        return Err(InvalidClient);
      }
      if r.redirectUri !in settings.redirectUris {
        return Err(InvalidRedirectUri);
      }
      if (set w | w in r.scope) != {"openid"} {
        return Err(InvalidScope);
      }
      if !ValidChallenge(r.challenge) {
        return Err(InvalidPkce);
      }
      match status {
        case Active =>
        case Disabled => return Err(DisabledSubject);
        case NotFound => return Err(DisabledSubject);
        case InvalidSubject => return Err(InvalidRequest);
      }
      table := table[CodeDigest(code) := RowOf(settings, r, now)];
      answer := Ok(code);
    }

    /** The code is spent before the session is issued: a subject disabled meanwhile loses both. */
    method ExchangeCode(q: ExchangeRequest, now: int, issued: Issued, startedAt: int, signedAt: int)
        returns (reply: Reply)
      modifies this
      ensures reply == InvalidExchange <==> !WellFormed(settings, q)
      ensures reply != InvalidExchange <==>
        && q.grantType == "authorization_code" && q.clientId == settings.provider.clientId
        && Utf8Length(q.code) <= 256 && 43 <= Utf8Length(q.verifier) <= 128
      ensures !WellFormed(settings, q) || CodeDigest(q.code) !in old(table) ==>
        table == old(table) && (reply == InvalidExchange || reply == BadGrant)
      ensures WellFormed(settings, q) && CodeDigest(q.code) in old(table) ==>
        var d := Exchange(q, old(table)[CodeDigest(q.code)], now);
        && table == (if d.write.Some? then old(table)[CodeDigest(q.code) := d.write.value] else old(table))
        && (reply.Tokens? <==> d.answer.Granted? && issued == IssuedSession)
        && (reply == NowDisabled <==> d.answer.Granted? && issued == SubjectDisabled)
        && (reply.Tokens? ==>
              && reply.idToken == Mint(settings.provider, d.answer.subject, d.answer.nonce, startedAt, signedAt)
              && reply.scope == d.answer.scope)
    {
      if !WellFormed(settings, q) {
        return InvalidExchange;
      }
      var k := CodeDigest(q.code);
      if k !in table {
        return BadGrant;
      }
      var row := table[k];
      if row.consumed || row.expiresAt <= now || row.clientId != q.clientId || row.redirectUri != q.redirectUri
         || S256(q.verifier) != row.challenge
      {
        return BadGrant;
      }
      table := table[k := row.(consumed := true)];
      if issued == SubjectDisabled {
        return NowDisabled;
      }
      if issued == Refused {
        return BadGrant;
      }
      reply := Tokens(Mint(settings.provider, row.subject, row.nonce, startedAt, signedAt), row.scope);
    }
  }
}
