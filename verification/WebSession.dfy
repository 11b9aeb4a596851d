/** The browser callback: a completed login becomes two cookies, or its session is revoked again. */
module WebSession {
  import opened Prelude
  import opened Text
  import opened Accounts

  const MAX_RETURN := 2048
  const MAX_COOKIE := 8192
  const TOKEN_PREFIX := "lenso_st_"

  predicate AsciiWhitespace(c: char) { c in {' ', '\t', '\n', '\U{0C}', '\r'} }

  predicate Ascii(s: string) { forall i | 0 <= i < |s| :: s[i] < '\U{80}' }

  /** The web plugin's own rule for return targets. */
  predicate ValidLocalReturn(s: string) {
    && |s| >= 1 && s[0] == '/' && !(|s| >= 2 && s[1] == '/') && |s| <= MAX_RETURN && Ascii(s)
    && forall i | 0 <= i < |s| :: !AsciiWhitespace(s[i]) && s[i] != '\\'
  }

  predicate CookieOctet(c: char) {
    c == '!' || '#' <= c <= '+' || '-' <= c <= ':' || '<' <= c <= '[' || ']' <= c <= '~'
  }

  /** Section 4.1.1 of RFC 6265: visible ASCII but for quote, comma, semicolon and backslash. */
  lemma CookieOctetIff(c: char)
    ensures CookieOctet(c) <==> '!' <= c <= '~' && c !in {'"', ',', ';', '\\'}
  {
  }

  predicate ValidCookieValue(s: string) { 0 < |s| <= MAX_COOKIE && forall i | 0 <= i < |s| :: CookieOctet(s[i]) }

  predicate ValidHttpToken(s: string) {
    0 < |s| <= 128 && MadeOf(s, {'!', '#', '$', '%', '&', '\'', '*', '+', '-', '.', '^', '_', '`', '|', '~'})
  }

  predicate HostCookieName(s: string) { "__Host-" <= s && ValidHttpToken(s) }

  predicate SessionToken(s: string) {
    TOKEN_PREFIX <= s && |s| == |TOKEN_PREFIX| + 43 && MadeOf(s[|TOKEN_PREFIX|..], {'-', '_'})
  }

  /** What a header value may hold: visible ASCII, space and tab. */
  predicate HeaderSafe(s: string) { forall i | 0 <= i < |s| :: ' ' <= s[i] <= '~' || s[i] == '\t' }

  // ---- What the validators let through ----------------------------------------------------

  /** A return target that passes the web plugin's rule makes a legal header exactly without control characters. */
  lemma LocalReturnSafeIff(s: string)
    requires ValidLocalReturn(s)
    ensures HeaderSafe(s) <==> forall i | 0 <= i < |s| :: !AsciiControl(s[i])
  {
  }

  /** A browser is sent to exactly these targets: paths of visible ASCII on this host, without backslash. */
  lemma SafeTargetIff(s: string)
    ensures ValidLocalReturn(s) && HeaderSafe(s) <==>
      && 1 <= |s| <= 2048 && s[0] == '/' && (|s| == 1 || s[1] != '/')
      && forall i | 0 <= i < |s| :: '!' <= s[i] <= '~' && s[i] != '\\'
  {
  }

  /** The rule alone does let control characters through. */
  lemma ControlPassesLocalRule()
    ensures ValidLocalReturn("/\U{01}") && !HeaderSafe("/\U{01}")
  {
    assert "/\U{01}"[1] == '\U{01}';
  }

  /** Together with the flow store's rule only the visible characters without backslash remain. */
  lemma BothRulesVisible(s: string)
    ensures ValidLocalReturn(s) && ValidReturn(s) <==>
      && |s| >= 1 && s[0] == '/' && !(|s| >= 2 && s[1] == '/') && |s| <= MAX_RETURN
      && forall i | 0 <= i < |s| :: '!' <= s[i] <= '~' && s[i] != '\\'
  {
    if Ascii(s) {
      AsciiLength(s);
    }
  }

  /** Every account token is a legal cookie value. */
  lemma TokensAreCookies(s: string)
    requires SessionToken(s)
    ensures ValidCookieValue(s)
  {
    forall i | 0 <= i < |s| ensures CookieOctet(s[i]) {
      if i < |TOKEN_PREFIX| {
        assert s[i] == TOKEN_PREFIX[i];
      } else {
        assert s[i] == s[|TOKEN_PREFIX|..][i - |TOKEN_PREFIX|];
      }
    }
  }

  // ---- Cookies ----------------------------------------------------------------------------

  function Decimal(n: nat): string {
    if n < 10 then [['0', '1', '2', '3', '4', '5', '6', '7', '8', '9'][n]] else Decimal(n / 10) + Decimal(n % 10)
  }

  function SessionCookie(name: string, credential: string, maxAge: nat): string {
    name + "=" + credential + ("; Path=/; Max-Age=" + Decimal(maxAge) + "; Secure; HttpOnly; SameSite=Lax")
  }

  function CsrfCookie(name: string, token: string, maxAge: nat): string {
    name + "=" + token + ("; Path=/; Max-Age=" + Decimal(maxAge) + "; Secure; SameSite=Lax")
  }

  lemma {:induction false} DecimalSafe(n: nat)
    ensures HeaderSafe(Decimal(n))
  {
    if n >= 10 {
      DecimalSafe(n / 10);
      DecimalSafe(n % 10);
    }
  }

  /** Both cookies can be written to headers. */
  lemma CookiesSafe(name: string, value: string, maxAge: nat)
    requires ValidHttpToken(name) && ValidCookieValue(value)
    ensures HeaderSafe(SessionCookie(name, value, maxAge)) && HeaderSafe(CsrfCookie(name, value, maxAge))
  {
    DecimalSafe(maxAge);
  }

  /** Reading a cookie back: from the first '=' to the first ';' after it. */
  function ValueIn(cookie: string): string {
    var eq := IndexOf(cookie, '=');
    if eq == |cookie| then "" else
      var rest := cookie[eq + 1..];
      rest[..IndexOf(rest, ';')]
  }

  function IndexOf(s: string, c: char): (k: nat)
    ensures k <= |s| && (k < |s| ==> s[k] == c) && forall i | 0 <= i < k :: s[i] != c
  {
    if s == "" || s[0] == c then 0 else 1 + IndexOf(s[1..], c)
  }

  lemma IndexIs(s: string, c: char, k: nat)
    requires k < |s| && s[k] == c && forall i | 0 <= i < k :: s[i] != c
    ensures IndexOf(s, c) == k
  {
  }

  /** Reading a cookie's name back: all before the first '='. */
  function NameIn(cookie: string): string { cookie[..IndexOf(cookie, '=')] }

  lemma CookieReadsBack(name: string, value: string, attributes: string)
    requires ValidHttpToken(name) && ValidCookieValue(value) && attributes != "" && attributes[0] == ';'
    ensures NameIn(name + "=" + value + attributes) == name && ValueIn(name + "=" + value + attributes) == value
  {
    var cookie := name + "=" + value + attributes;
    IndexIs(cookie, '=', |name|);
    assert cookie[..|name|] == name;
    var rest := cookie[|name| + 1..];
    assert rest == value + attributes;
    assert rest[..|value|] == value;
    IndexIs(rest, ';', |value|);
  }

  /** The session cookie hands the browser exactly the credential, and the other one the token. */
  lemma CookieCarriesCredential(name: string, value: string, maxAge: nat)
    requires ValidHttpToken(name) && ValidCookieValue(value)
    ensures NameIn(SessionCookie(name, value, maxAge)) == name && ValueIn(SessionCookie(name, value, maxAge)) == value
    ensures NameIn(CsrfCookie(name, value, maxAge)) == name && ValueIn(CsrfCookie(name, value, maxAge)) == value
  {
    CookieReadsBack(name, value, "; Path=/; Max-Age=" + Decimal(maxAge) + "; Secure; HttpOnly; SameSite=Lax");
    CookieReadsBack(name, value, "; Path=/; Max-Age=" + Decimal(maxAge) + "; Secure; SameSite=Lax");
  }

  // ---- The callback -----------------------------------------------------------------------

  datatype Names = Names(session: string, csrf: string)

  datatype Login = Login(credential: string, expiresAt: Option<int>, returnTo: string)

  /**
    What `complete` would do: issue a session and hand over its login, answer with an error, or fail
    at run time, in which case the session may have been issued all the same.
   */
  datatype Completion =
    | Completed(id: string, session: Session, login: Login)
    | Rejected(error: CompleteError)
    | CompletionFailed(lost: Option<NewSession>)

  datatype CompleteError = InvalidCallback | InvalidState | ProviderRejected | UnverifiedIdentity | Disabled | Unknown

  function ProblemOf(error: CompleteError): string {
    match error
    case InvalidCallback => "invalid_oidc_callback"
    case InvalidState => "invalid_oidc_callback"
    case ProviderRejected => "oidc_authentication_rejected"
    case UnverifiedIdentity => "oidc_authentication_rejected"
    case Disabled => "account_disabled"
    case Unknown => "login_provider_error"
  }

  datatype NewSession = NewSession(id: string, session: Session)

  datatype Outcome =
    | LoggedIn(location: string, sessionCookie: string, csrfCookie: string)
    | Problem(code: string)
    | RollbackFailed
    | HeaderRefused
    | RuntimeFailed

  predicate ValidCallbackValue(s: string, max: nat) {
    s != "" && Utf8Length(s) <= max && forall i | 0 <= i < |s| :: !AsciiControl(s[i])
  }

  /** Some session of the store bears this token. */
  ghost predicate Issued(store: AccountStore, token: string)
    reads store
  {
    WithDigest(store.sessions, TokenDigest(token)) != {}
  }

  /** Every session that bears the token is revoked. */
  ghost predicate AllRevoked(sessions: Sessions, token: string) {
    forall id | id in WithDigest(sessions, TokenDigest(token)) :: sessions[id].revokedAt.Some?
  }

  /** A session about to be issued: no other has its id or its token. */
  ghost predicate Unborn(sessions: Sessions, id: string, session: Session) {
    && session.revokedAt.None?
    && id !in sessions && forall k | k in sessions :: sessions[k].digest != session.digest
  }

  ghost predicate Fresh(sessions: Sessions, id: string, session: Session, login: Login) {
    SessionToken(login.credential) && session.digest == TokenDigest(login.credential) && Unborn(sessions, id, session)
  }

  /** The store may issue a session to this subject now. */
  predicate Issuable(subjects: Subjects, session: Session, now: int) {
    session.subject in subjects && !EffectivelyDisabled(subjects[session.subject], now)
  }

  /** The sessions once a completion has failed: what it had issued is there, and no one bears its token. */
  function AfterLoss(subjects: Subjects, sessions: Sessions, lost: Option<NewSession>, now: int): Sessions {
    if lost.Some? && Issuable(subjects, lost.value.session, now)
    then sessions[lost.value.id := lost.value.session] else sessions
  }

  /** No stranded session: if it is there and live, the browser has it or the failure was reported. */
  ghost predicate Settled(sessions: Sessions, id: string, login: Login, outcome: Outcome, reachable: bool) {
    && (id in sessions && sessions[id].revokedAt.None? ==>
          || (outcome.LoggedIn? && ValueIn(outcome.sessionCookie) == login.credential)
          || (outcome == RollbackFailed && !reachable)
          || outcome == HeaderRefused)
    && (outcome == HeaderRefused ==>
          ValidLocalReturn(login.returnTo) && !ValidReturn(login.returnTo) && !HeaderSafe(login.returnTo))
  }

  class WebSessionPlugin {
    const names: Names
    const store: AccountStore

    ghost predicate Valid()
      reads this, store
    {
      HostCookieName(names.session) && HostCookieName(names.csrf) && names.session != names.csrf && store.Valid()
    }

    constructor (names: Names, store: AccountStore)
      requires HostCookieName(names.session) && HostCookieName(names.csrf) && names.session != names.csrf
      requires store.Valid()
      ensures Valid() && this.names == names && this.store == store
    {
      this.names, this.store := names, store;
    }

    /** Revoke what was issued; anything but success is reported to the caller. */
    method RollbackCredential(token: string, reachable: bool, at: int) returns (ok: bool)
      requires Valid()
      modifies store`sessions
      ensures Valid()
      ensures ok <==> reachable && SessionToken(token) && old(Issued(store, token))
      ensures ok ==> AllRevoked(store.sessions, token)
      ensures ok ==>
        store.sessions == Revoked(old(store.sessions), LiveWith(old(store.sessions), TokenDigest(token)), at)
      ensures !ok ==> store.sessions == old(store.sessions)
      ensures store.sessions.Keys == old(store.sessions).Keys
    {
      if !reachable || !SessionToken(token) {
        return false;
      }
      ghost var before := store.sessions;
      var changed := store.RevokeCredential(TokenDigest(token), at);
      if changed.None? {
        assert store.sessions == before;
      }
      ok := changed.Some?;
    }

    /**
      The callback after its session was issued. It logs the browser in, or revokes the session, or
      says that it could not; and it strands a live session exactly when the return target passes
      the web plugin's rule but holds a control character.
     */
    method Finish(login: Login, csrf: string, now: int, reachable: bool) returns (outcome: Outcome)
      requires Valid() && Random32(csrf) && SessionToken(login.credential) && Issued(store, login.credential)
      modifies store`sessions
      ensures Valid()
      ensures outcome.LoggedIn? <==>
        login.expiresAt.Some? && now < login.expiresAt.value && ValidLocalReturn(login.returnTo)
        && HeaderSafe(login.returnTo)
      ensures outcome.LoggedIn? ==>
        && outcome.location == login.returnTo && store.sessions == old(store.sessions)
        && NameIn(outcome.sessionCookie) == names.session && ValueIn(outcome.sessionCookie) == login.credential
        && NameIn(outcome.csrfCookie) == names.csrf && ValueIn(outcome.csrfCookie) == csrf
        && outcome.sessionCookie == SessionCookie(names.session, login.credential, login.expiresAt.value - now)
        && outcome.csrfCookie == CsrfCookie(names.csrf, csrf, login.expiresAt.value - now)
      ensures outcome.Problem? ==>
        && AllRevoked(store.sessions, login.credential)
        && store.sessions
             == Revoked(old(store.sessions), LiveWith(old(store.sessions), TokenDigest(login.credential)), now)
      ensures outcome == RollbackFailed ==> !reachable && store.sessions == old(store.sessions)
      ensures outcome == HeaderRefused <==>
        login.expiresAt.Some? && now < login.expiresAt.value && ValidLocalReturn(login.returnTo)
        && !HeaderSafe(login.returnTo)
      ensures outcome == HeaderRefused ==> store.sessions == old(store.sessions)
      ensures ValidReturn(login.returnTo) ==> outcome != HeaderRefused
      ensures outcome != RuntimeFailed && store.sessions.Keys == old(store.sessions).Keys
    {
      if ValidReturn(login.returnTo) && ValidLocalReturn(login.returnTo) {
        LocalReturnSafeIff(login.returnTo);
      }
      TokensAreCookies(login.credential);
      if login.expiresAt.None? || login.expiresAt.value <= now {
        var ok := RollbackCredential(login.credential, reachable, now);
        return if ok then Problem("invalid_session_expiry") else RollbackFailed;
      }
      if !ValidLocalReturn(login.returnTo) || !ValidCookieValue(login.credential) {
        var ok := RollbackCredential(login.credential, reachable, now);
        return if ok then Problem("invalid_login_result") else RollbackFailed;
      }
      var maxAge := login.expiresAt.value - now;
      var session := SessionCookie(names.session, login.credential, maxAge);
      var csrfCookie := CsrfCookie(names.csrf, csrf, maxAge);
      CookiesSafe(names.session, login.credential, maxAge);
      CookiesSafe(names.csrf, csrf, maxAge);
      CookieCarriesCredential(names.session, login.credential, maxAge);
      CookieCarriesCredential(names.csrf, csrf, maxAge);
      if !HeaderSafe(login.returnTo) || !HeaderSafe(session) || !HeaderSafe(csrfCookie) {
        return HeaderRefused;
      }
      outcome := LoggedIn(login.returnTo, session, csrfCookie);
    }

    /** `complete` issues the session, if its subject may have one, and the callback finishes. */
    method CompleteLogin(id: string, session: Session, login: Login, csrf: string, now: int, reachable: bool)
        returns (outcome: Outcome)
      requires Valid() && Random32(csrf) && Fresh(store.sessions, id, session, login)
      modifies store`sessions
      ensures Valid()
      ensures store.sessions.Keys == old(store.sessions).Keys || store.sessions.Keys == old(store.sessions).Keys + {id}
      ensures Settled(store.sessions, id, login, outcome, reachable)
      ensures outcome.LoggedIn? ==> id in store.sessions && store.sessions[id].revokedAt.None?
      ensures outcome != RuntimeFailed
      ensures session.subject !in store.subjects ==> outcome == Problem("oidc_authentication_rejected")
      ensures session.subject in store.subjects && EffectivelyDisabled(store.subjects[session.subject], now) ==>
        outcome == Problem("account_disabled")
    {
      var issued := store.IssueSession(id, session, now);
      if issued != Inserted {
        return Problem(ProblemOf(if issued == SubjectDisabled then CompleteError.Disabled else ProviderRejected));
      }
      assert id in WithDigest(store.sessions, TokenDigest(login.credential));
      outcome := Finish(login, csrf, now, reachable);
    }

    /**
      The whole callback. A session whose login it was handed ends in the browser's cookies, or
      revoked, or with the failed revoke reported, for every return target the flow store admits. A
      completion that fails at run time is reported, and a session it issued before failing stays.
     */
    method Callback(
        refused: bool, code: Option<string>, state: Option<string>, completion: Completion, csrf: string, now: int,
        reachable: bool)
      returns (outcome: Outcome)
      requires Valid() && Random32(csrf)
      requires completion.Completed? ==> Fresh(store.sessions, completion.id, completion.session, completion.login)
      requires completion.CompletionFailed? && completion.lost.Some? ==>
        Unborn(store.sessions, completion.lost.value.id, completion.lost.value.session)
      modifies store`sessions
      ensures Valid()
      ensures completion.Completed? ==> Settled(store.sessions, completion.id, completion.login, outcome, reachable)
      ensures !completion.Completed? ==> !outcome.LoggedIn?
      ensures refused ==> outcome == Problem("oidc_callback_rejected")
      ensures !refused && (code.None? || state.None?) ==> outcome == Problem("invalid_oidc_callback")
      ensures completion.Rejected? || (outcome.Problem? && !completion.Completed?) ==>
        store.sessions == old(store.sessions)
      ensures outcome == RuntimeFailed ==> completion.CompletionFailed?
      ensures outcome == RuntimeFailed ==>
        store.sessions == AfterLoss(store.subjects, old(store.sessions), completion.lost, now)
      ensures outcome.LoggedIn? ==> completion.id in store.sessions && store.sessions[completion.id].revokedAt.None?
    {
      if refused {
        return Problem("oidc_callback_rejected");
      }
      if code.None? || state.None? || !ValidCallbackValue(code.value, 4096) || !ValidCallbackValue(state.value, 256) {
        return Problem("invalid_oidc_callback");
      }
      match completion {
        case Rejected(error) => outcome := Problem(ProblemOf(error));
        case CompletionFailed(lost) =>
          if lost.Some? {
            var _ := store.IssueSession(lost.value.id, lost.value.session, now);
          }
          outcome := RuntimeFailed;
        case Completed(id, session, login) => outcome := CompleteLogin(id, session, login, csrf, now, reachable);
      }
    }
  }
}
