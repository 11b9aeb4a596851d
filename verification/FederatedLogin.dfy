/**
  Flow store, provider and client together. The stores are the interleaved machines of
  `RowTransactions`, statement by statement; any number of logins run step by step while anyone
  creates and consumes flows, authorizes with any challenge and nonce, and exchanges any code.
 */
module FederatedLogin {
  import opened Prelude
  import opened Runs
  import opened RowTransactions
  import opened OneTimeGrants
  import opened Text
  import opened Pkce
  import F = OauthFlow
  import P = OidcProvider
  import opened IdTokens
  import opened Accounts

  type FlowDb = RowTransactions.State<F.StateDigest, F.Flow, F.ConsumeRequest, F.ConsumeAnswer>
  type FlowEvent = RowTransactions.Event<F.StateDigest, F.Flow, F.ConsumeRequest>
  type CodeDb = RowTransactions.State<P.CodeDigest, P.Code, P.ExchangeRequest, P.Grant>
  type CodeEvent = RowTransactions.Event<P.CodeDigest, P.Code, P.ExchangeRequest>

  datatype Config = Config(
    name: string, client: Client, redirectUri: string, flowKey: F.Key, settings: P.Settings)

  /** The client is registered with this provider under a configured signing key. */
  ghost predicate ValidConfig(c: Config) {
    && ValidProvider(c.settings.provider)
    && c.client == Client(c.settings.provider.issuer, c.settings.provider.clientId)
  }

  /**
    How far a login has come. While it consumes or exchanges, the transaction with its number is open
    in that store; afterwards it knows the position of its answer in the store's history.
   */
  datatype Login =
    | Arrived(code: string, state: string)
    | Consuming(code: string, state: string)
    | Redeemed(code: string, state: string, flow: F.ConsumeAnswer, flowAt: nat)
    | Exchanging(code: string, state: string, flow: F.ConsumeAnswer, flowAt: nat)
    | HasGrant(code: string, state: string, flow: F.ConsumeAnswer, flowAt: nat, grant: P.Grant, codeAt: nat)
    | HasToken(code: string, state: string, flow: F.ConsumeAnswer, flowAt: nat, token: Token, codeAt: nat)
    | Identified(code: string, state: string, flow: F.ConsumeAnswer, flowAt: nat, codeAt: nat, external: string)

  datatype Completed = Completed(
    code: string, state: string, flowAt: nat, codeAt: nat, external: string, subject: string, returnTo: string)

  datatype World = World(
    flowDb: FlowDb, codeDb: CodeDb, directory: Bindings, logins: map<Pid, Login>, done: seq<Completed>)

  datatype Event =
    | Pass(later: int)
    | CreateFlow(r: F.CreateRequest, d: F.Draw)
    | Authorize(request: P.AuthorizeRequest, code: string)
    | AtFlows(consume: FlowEvent)
    | AtCodes(exchange: CodeEvent)
    | Bind(key: BindingKey, subject: string)
    | Arrive(p: Pid, code: string, state: string)
    | StartConsume(p: Pid)
    | StartExchange(p: Pid)
    | TakeToken(p: Pid, startedAt: int, signedAt: int)
    | Identify(p: Pid)
    | Complete(p: Pid)
    | Drop(p: Pid)

  // ---- The stores -------------------------------------------------------------------------

  function FlowRequest(c: Config, t: Login): F.ConsumeRequest { F.ConsumeRequest(c.name, t.state) }

  function CodeRequest(c: Config, t: Login): P.ExchangeRequest
    requires !t.Arrived? && !t.Consuming? && t.flow.Consumed?
  {
    P.ExchangeRequest("authorization_code", c.client.clientId, t.code, c.redirectUri, t.flow.verifier)
  }

  /** What an event means to the flow store, if anything. */
  function FlowPart(c: Config, s: World, e: Event): Option<FlowEvent> {
    match e
    case Pass(later) => Some(Tick(later))
    case CreateFlow(r, d) => Some(Create(F.StateDigest(d.state), F.RowOf(c.flowKey, r, d)))
    case AtFlows(x) => Some(x)
    case StartConsume(p) =>
      if p in s.logins then Some(Begin(p, F.StateDigest(s.logins[p].state), FlowRequest(c, s.logins[p]))) else None
    case _ => None
  }

  predicate CanExchange(t: Login) { t.Redeemed? && t.flow.Consumed? }

  function CodePart(c: Config, s: World, e: Event): Option<CodeEvent> {
    match e
    case Pass(later) => Some(Tick(later))
    case Authorize(request, code) => Some(Create(P.CodeDigest(code), P.RowOf(c.settings, request, s.codeDb.now)))
    case AtCodes(x) => Some(x)
    case StartExchange(p) =>
      if p in s.logins && CanExchange(s.logins[p])
      then Some(Begin(p, P.CodeDigest(s.logins[p].code), CodeRequest(c, s.logins[p]))) else None
    case _ => None
  }

  ghost predicate FlowStep(c: Config, s: World, e: Event, s': World) {
    match FlowPart(c, s, e)
    case Some(x) => RowTransactions.Step(F.FlowStoreOf(c.flowKey), s.flowDb, x, s'.flowDb)
    case None => s'.flowDb == s.flowDb
  }

  ghost predicate CodeStep(c: Config, s: World, e: Event, s': World) {
    match CodePart(c, s, e)
    case Some(x) => RowTransactions.Step(P.CodeStoreOf(), s.codeDb, x, s'.codeDb)
    case None => s'.codeDb == s.codeDb
  }

  // ---- The logins -------------------------------------------------------------------------

  /** The client's checks on what a consume returned. */
  predicate Usable(a: F.ConsumeAnswer) {
    && a.Consumed? && a.nonce.Some? && ValidCorrelation(a.nonce.value) && ValidVerifier(a.verifier)
    && ValidReturn(a.returnTo)
  }

  /** When its transaction ends, a consuming login takes the answer or gives up. */
  function AfterFlows(s: World, db: FlowDb, p: Pid): map<Pid, Login> {
    if p !in s.logins || !s.logins[p].Consuming? || p in db.txns then s.logins
    else
      var t, n := s.logins[p], |s.flowDb.ops|;
      if n < |db.ops| && db.ops[n].Asked? && Usable(db.ops[n].answer)
      then s.logins[p := Redeemed(t.code, t.state, db.ops[n].answer, n)] else s.logins - {p}
  }

  function AfterCodes(s: World, db: CodeDb, p: Pid): map<Pid, Login> {
    if p !in s.logins || !s.logins[p].Exchanging? || p in db.txns then s.logins
    else
      var t, n := s.logins[p], |s.codeDb.ops|;
      if n < |db.ops| && db.ops[n].Asked? && db.ops[n].answer.Granted?
      then s.logins[p := HasGrant(t.code, t.state, t.flow, t.flowAt, db.ops[n].answer, n)] else s.logins - {p}
  }

  /** A login begins its own transactions; everyone else begins theirs. */
  predicate Foreign<K, R, Q>(s: World, x: RowTransactions.Event<K, R, Q>) {
    IsRequest(x) && (x.Begin? ==> x.p !in s.logins)
  }

  ghost predicate LoginStep(c: Config, s: World, e: Event, s': World) {
    match e
    case Pass(_) => s'.logins == s.logins && s'.done == s.done && s'.directory == s.directory
    case CreateFlow(r, d) =>
      && F.ProperDraw(d) && ValidName(r.provider) && ValidReturn(r.returnTo) && s.flowDb.now < r.expiresAt
      && s'.logins == s.logins && s'.done == s.done && s'.directory == s.directory
    case Authorize(request, code) =>
      && P.Authorizable(c.settings, request, P.Active) && ValidId(request.subject)
      && s'.logins == s.logins && s'.done == s.done && s'.directory == s.directory
    case AtFlows(x) =>
      Foreign(s, x) && s'.logins == AfterFlows(s, s'.flowDb, x.p) && s'.done == s.done && s'.directory == s.directory
    case AtCodes(x) =>
      Foreign(s, x) && s'.logins == AfterCodes(s, s'.codeDb, x.p) && s'.done == s.done && s'.directory == s.directory
    case Bind(key, subject) =>
      && key !in s.directory
      && s'.logins == s.logins && s'.done == s.done && s'.directory == s.directory[key := subject]
    case Arrive(p, code, state) =>
      && p !in s.logins && p !in s.flowDb.txns && p !in s.codeDb.txns
      && s'.logins == s.logins[p := Arrived(code, state)] && s'.done == s.done && s'.directory == s.directory
    case StartConsume(p) =>
      && p in s.logins && s.logins[p].Arrived?
      && s'.logins == s.logins[p := Consuming(s.logins[p].code, s.logins[p].state)]
      && s'.done == s.done && s'.directory == s.directory
    case StartExchange(p) =>
      && p in s.logins && CanExchange(s.logins[p]) && P.WellFormed(c.settings, CodeRequest(c, s.logins[p]))
      && var t := s.logins[p];
      && s'.logins == s.logins[p := Exchanging(t.code, t.state, t.flow, t.flowAt)]
      && s'.done == s.done && s'.directory == s.directory
    case TakeToken(p, startedAt, signedAt) =>
      && p in s.logins && s.logins[p].HasGrant? && s.logins[p].grant.Granted?
      && var t := s.logins[p];
      var token := Mint(c.settings.provider, t.grant.subject, t.grant.nonce, startedAt, signedAt);
      && s'.logins == s.logins[p := HasToken(t.code, t.state, t.flow, t.flowAt, token, t.codeAt)]
      && s'.done == s.done && s'.directory == s.directory
    case Identify(p) =>
      && p in s.logins && s.logins[p].HasToken? && s.logins[p].flow.Consumed? && s.logins[p].flow.nonce.Some?
      && var t := s.logins[p];
      var keys := Published(c.settings.provider.keys);
      var external := Accepted(c.client, t.token, keys, t.flow.nonce.value, s.codeDb.now);
      && s'.logins ==
           (if external.None? then s.logins - {p}
            else s.logins[p := Identified(t.code, t.state, t.flow, t.flowAt, t.codeAt, external.value)])
      && s'.done == s.done && s'.directory == s.directory
    case Complete(p) =>
      && p in s.logins && s.logins[p].Identified? && s.logins[p].flow.Consumed?
      && var t := s.logins[p];
      && BindingKey(c.name, t.external) in s.directory
      && s'.logins == s.logins - {p} && s'.directory == s.directory
      && s'.done == s.done + [Finished(c, s, t)]
    case Drop(p) =>
      && p in s.logins && !s.logins[p].Consuming? && !s.logins[p].Exchanging?
      && s'.logins == s.logins - {p} && s'.done == s.done && s'.directory == s.directory
  }

  function Finished(c: Config, s: World, t: Login): Completed
    requires t.Identified? && t.flow.Consumed? && BindingKey(c.name, t.external) in s.directory
  {
    Completed(t.code, t.state, t.flowAt, t.codeAt, t.external, s.directory[BindingKey(c.name, t.external)],
        t.flow.returnTo)
  }

  ghost predicate Step(c: Config, s: World, e: Event, s': World) {
    FlowStep(c, s, e, s') && CodeStep(c, s, e, s') && LoginStep(c, s, e, s')
  }

  ghost predicate Init(s: World) {
    && RowTransactions.Init(s.flowDb) && RowTransactions.Init(s.codeDb)
    && s.directory == map[] && s.logins == map[] && s.done == []
  }

  ghost function System(c: Config): Machine<World, Event> {
    Machine(s => Init(s), (s, e, s') => Step(c, s, e, s'))
  }

  // ---- What every step keeps: the stores --------------------------------------------------

  ghost predicate FlowsFit(c: Config, db: FlowDb) {
    RowTransactions.Inv(F.FlowStoreOf(c.flowKey), db) && F.CreatedByCreate(c.flowKey, db.ops)
  }

  ghost predicate CodesFit(c: Config, db: CodeDb) {
    RowTransactions.Inv(P.CodeStoreOf(), db) && P.CreatedByAuthorize(c.settings, db.ops)
  }

  lemma FlowDbStep(c: Config, db: FlowDb, x: FlowEvent, db': FlowDb)
    requires FlowsFit(c, db) && RowTransactions.Step(F.FlowStoreOf(c.flowKey), db, x, db')
    requires x.Create? ==> F.MadeByCreate(c.flowKey, x.k, x.row)
    ensures FlowsFit(c, db')
  {
    RowTransactions.StepKeepsInv(F.FlowStoreOf(c.flowKey), db, x, db');
    StepGrowsOps(F.FlowStoreOf(c.flowKey), db, x, db');
    MoreCreated(c, db.ops, x, db'.ops);
  }

  lemma MoreCreated(c: Config, before: F.History, x: FlowEvent, after: F.History)
    requires |before| <= |after| <= |before| + 1 && after[..|before|] == before && F.CreatedByCreate(c.flowKey, before)
    requires |after| > |before| && after[|before|].Created? ==> x == Create(after[|before|].k, after[|before|].row)
    requires x.Create? ==> F.MadeByCreate(c.flowKey, x.k, x.row)
    ensures F.CreatedByCreate(c.flowKey, after)
  {
    assert forall i | 0 <= i < |before| :: after[i] == after[..|before|][i];
  }

  lemma CodeDbStep(c: Config, db: CodeDb, x: CodeEvent, db': CodeDb)
    requires CodesFit(c, db) && RowTransactions.Step(P.CodeStoreOf(), db, x, db')
    requires x.Create? ==> P.MadeByAuthorize(c.settings, x.row)
    ensures CodesFit(c, db')
  {
    RowTransactions.StepKeepsInv(P.CodeStoreOf(), db, x, db');
    StepGrowsOps(P.CodeStoreOf(), db, x, db');
    MoreAuthorized(c, db.ops, x, db'.ops);
  }

  lemma MoreAuthorized(c: Config, before: P.History, x: CodeEvent, after: P.History)
    requires |before| <= |after| <= |before| + 1 && after[..|before|] == before
    requires P.CreatedByAuthorize(c.settings, before)
    requires |after| > |before| && after[|before|].Created? ==> x == Create(after[|before|].k, after[|before|].row)
    requires x.Create? ==> P.MadeByAuthorize(c.settings, x.row)
    ensures P.CreatedByAuthorize(c.settings, after)
  {
    assert forall i | 0 <= i < |before| :: after[i] == after[..|before|][i];
  }

  lemma StepKeepsFlows(c: Config, s: World, e: Event, s': World)
    requires FlowsFit(c, s.flowDb) && FlowStep(c, s, e, s') && LoginStep(c, s, e, s')
    ensures FlowsFit(c, s'.flowDb)
  {
    if FlowPart(c, s, e).Some? {
      FlowDbStep(c, s.flowDb, FlowPart(c, s, e).value, s'.flowDb);
    }
  }

  lemma StepKeepsCodes(c: Config, s: World, e: Event, s': World)
    requires CodesFit(c, s.codeDb) && CodeStep(c, s, e, s') && LoginStep(c, s, e, s')
    ensures CodesFit(c, s'.codeDb)
  {
    if CodePart(c, s, e).Some? {
      CodeDbStep(c, s.codeDb, CodePart(c, s, e).value, s'.codeDb);
    }
  }

  // ---- What every step keeps: the logins --------------------------------------------------

  /** Position `at` of the flow history is this client's successful consume of `state`. */
  ghost predicate ConsumedAt(c: Config, flows: F.History, at: nat, state: string, flow: F.ConsumeAnswer) {
    && at < |flows| && flows[at].Asked? && flows[at].k == F.StateDigest(state)
    && flows[at].q == F.ConsumeRequest(c.name, state) && flows[at].answer == flow && Usable(flow)
  }

  /** Position `at` of the code history is a granted exchange of `code` with that flow's verifier. */
  ghost predicate ExchangedAt(c: Config, codes: P.History, at: nat, code: string, flow: F.ConsumeAnswer) {
    && flow.Consumed?
    && at < |codes| && codes[at].Asked? && codes[at].k == P.CodeDigest(code) && codes[at].answer.Granted?
    && codes[at].q == P.ExchangeRequest("authorization_code", c.client.clientId, code, c.redirectUri, flow.verifier)
  }

  /** The token speaks for the grant at that position. */
  ghost predicate TokenOf(codes: P.History, at: nat, token: Token)
    requires at < |codes| && codes[at].Asked? && codes[at].answer.Granted?
  {
    token.Token? && token.claims.sub == codes[at].answer.subject && token.claims.nonce == codes[at].answer.nonce
  }

  /** The grant at that position is for this subject, under the flow's nonce. */
  ghost predicate GrantFor(codes: P.History, at: nat, flow: F.ConsumeAnswer, external: string)
    requires flow.Consumed? && at < |codes| && codes[at].Asked? && codes[at].answer.Granted?
  {
    codes[at].answer.subject == external && codes[at].answer.nonce == flow.nonce
  }

  /** What a login that has its flow's answer stands on. */
  ghost predicate FlowBacks(c: Config, flows: F.History, t: Login) {
    !t.Arrived? && !t.Consuming? ==> ConsumedAt(c, flows, t.flowAt, t.state, t.flow)
  }

  ghost predicate CodeBacks(c: Config, codes: P.History, t: Login) {
    match t
    case HasGrant(code, _, flow, _, grant, codeAt) =>
      ExchangedAt(c, codes, codeAt, code, flow) && codes[codeAt].answer == grant
    case HasToken(code, _, flow, _, token, codeAt) =>
      ExchangedAt(c, codes, codeAt, code, flow) && TokenOf(codes, codeAt, token)
    case Identified(code, _, flow, _, codeAt, external) =>
      ExchangedAt(c, codes, codeAt, code, flow) && GrantFor(codes, codeAt, flow, external)
    case _ => true
  }

  ghost predicate LoginsBacked(c: Config, s: World) {
    forall p | p in s.logins :: FlowBacks(c, s.flowDb.ops, s.logins[p]) && CodeBacks(c, s.codeDb.ops, s.logins[p])
  }

  /** While a login waits for a store, the transaction with its number is open there with its request. */
  ghost predicate ConsumingOpen(c: Config, s: World) {
    forall p | p in s.logins && s.logins[p].Consuming? ::
      && p in s.flowDb.txns && s.flowDb.txns[p].k == F.StateDigest(s.logins[p].state)
      && s.flowDb.txns[p].q == FlowRequest(c, s.logins[p])
  }

  ghost predicate ExchangingOpen(c: Config, s: World) {
    forall p | p in s.logins && s.logins[p].Exchanging? ::
      && s.logins[p].flow.Consumed? && p in s.codeDb.txns
      && s.codeDb.txns[p].k == P.CodeDigest(s.logins[p].code) && s.codeDb.txns[p].q == CodeRequest(c, s.logins[p])
  }

  ghost predicate CompletedFits(c: Config, flows: F.History, codes: P.History, directory: Bindings, d: Completed) {
    && d.flowAt < |flows| && flows[d.flowAt].Asked?
    && var flow := flows[d.flowAt].answer;
    && ConsumedAt(c, flows, d.flowAt, d.state, flow) && ExchangedAt(c, codes, d.codeAt, d.code, flow)
    && GrantFor(codes, d.codeAt, flow, d.external) && d.returnTo == flow.returnTo
    && BindingKey(c.name, d.external) in directory && directory[BindingKey(c.name, d.external)] == d.subject
  }

  ghost predicate DoneFits(c: Config, s: World) {
    forall i | 0 <= i < |s.done| :: CompletedFits(c, s.flowDb.ops, s.codeDb.ops, s.directory, s.done[i])
  }

  /** Histories and directory only grow. */
  ghost predicate Grows(s: World, s': World) {
    && |s.flowDb.ops| <= |s'.flowDb.ops| && s'.flowDb.ops[..|s.flowDb.ops|] == s.flowDb.ops
    && |s.codeDb.ops| <= |s'.codeDb.ops| && s'.codeDb.ops[..|s.codeDb.ops|] == s.codeDb.ops
    && (forall k | k in s.directory :: k in s'.directory && s'.directory[k] == s.directory[k])
  }

  lemma StepGrows(c: Config, s: World, e: Event, s': World)
    requires Step(c, s, e, s')
    ensures Grows(s, s')
  {
    if FlowPart(c, s, e).Some? {
      StepGrowsOps(F.FlowStoreOf(c.flowKey), s.flowDb, FlowPart(c, s, e).value, s'.flowDb);
    }
    if CodePart(c, s, e).Some? {
      StepGrowsOps(P.CodeStoreOf(), s.codeDb, CodePart(c, s, e).value, s'.codeDb);
    }
  }

  lemma BackingStays(c: Config, s: World, s': World, t: Login)
    requires Grows(s, s') && FlowBacks(c, s.flowDb.ops, t) && CodeBacks(c, s.codeDb.ops, t)
    ensures FlowBacks(c, s'.flowDb.ops, t) && CodeBacks(c, s'.codeDb.ops, t)
  {
    if !t.Arrived? && !t.Consuming? {
      assert s'.flowDb.ops[..|s.flowDb.ops|][t.flowAt] == s'.flowDb.ops[t.flowAt];
    }
    if t.HasGrant? || t.HasToken? || t.Identified? {
      assert s'.codeDb.ops[..|s.codeDb.ops|][t.codeAt] == s'.codeDb.ops[t.codeAt];
    }
  }

  lemma CompletedStays(c: Config, s: World, s': World, d: Completed)
    requires Grows(s, s') && CompletedFits(c, s.flowDb.ops, s.codeDb.ops, s.directory, d)
    ensures CompletedFits(c, s'.flowDb.ops, s'.codeDb.ops, s'.directory, d)
  {
    assert s'.flowDb.ops[..|s.flowDb.ops|][d.flowAt] == s'.flowDb.ops[d.flowAt];
    assert s'.codeDb.ops[..|s.codeDb.ops|][d.codeAt] == s'.codeDb.ops[d.codeAt];
  }

  /** The login that takes the flow store's answer is backed by it. */
  lemma FlowAnswerBacks(c: Config, s: World, x: FlowEvent, s': World)
    requires ConsumingOpen(c, s) && Foreign(s, x) && s'.logins == AfterFlows(s, s'.flowDb, x.p)
    requires RowTransactions.Step(F.FlowStoreOf(c.flowKey), s.flowDb, x, s'.flowDb)
    requires x.p in s'.logins && s'.logins[x.p] != s.logins[x.p]
    ensures s'.logins[x.p].Redeemed? && FlowBacks(c, s'.flowDb.ops, s'.logins[x.p])
  {
    EndAnswers(F.FlowStoreOf(c.flowKey), s.flowDb, x, s'.flowDb, x.p);
  }

  lemma CodeAnswerBacks(c: Config, s: World, x: CodeEvent, s': World)
    requires ExchangingOpen(c, s) && LoginsBacked(c, s) && Foreign(s, x) && s'.logins == AfterCodes(s, s'.codeDb, x.p)
    requires RowTransactions.Step(P.CodeStoreOf(), s.codeDb, x, s'.codeDb)
    requires x.p in s'.logins && s'.logins[x.p] != s.logins[x.p]
    ensures s'.logins[x.p].HasGrant? && CodeBacks(c, s'.codeDb.ops, s'.logins[x.p])
    ensures FlowBacks(c, s.flowDb.ops, s'.logins[x.p])
  {
    EndAnswers(P.CodeStoreOf(), s.codeDb, x, s'.codeDb, x.p);
  }

  /** Steps a login takes by itself leave it backed by the same answers. */
  lemma OwnStepBacks(c: Config, s: World, e: Event, s': World, p: Pid)
    requires LoginsBacked(c, s) && LoginStep(c, s, e, s') && !e.AtFlows? && !e.AtCodes? && p in s'.logins
    ensures FlowBacks(c, s.flowDb.ops, s'.logins[p]) && CodeBacks(c, s.codeDb.ops, s'.logins[p])
  {
    if p in s.logins {
      assert FlowBacks(c, s.flowDb.ops, s.logins[p]) && CodeBacks(c, s.codeDb.ops, s.logins[p]);
    }
  }

  lemma FlowsKeepBacking(c: Config, s: World, x: FlowEvent, s': World, p: Pid)
    requires LoginsBacked(c, s) && ConsumingOpen(c, s) && Grows(s, s') && p in s'.logins
    requires Foreign(s, x) && s'.logins == AfterFlows(s, s'.flowDb, x.p)
    requires RowTransactions.Step(F.FlowStoreOf(c.flowKey), s.flowDb, x, s'.flowDb)
    ensures FlowBacks(c, s'.flowDb.ops, s'.logins[p]) && CodeBacks(c, s'.codeDb.ops, s'.logins[p])
  {
    if s'.logins[p] == s.logins[p] {
      BackingStays(c, s, s', s.logins[p]);
    } else {
      FlowAnswerBacks(c, s, x, s');
    }
  }

  lemma CodesKeepBacking(c: Config, s: World, x: CodeEvent, s': World, p: Pid)
    requires LoginsBacked(c, s) && ExchangingOpen(c, s) && Grows(s, s') && p in s'.logins && s'.flowDb == s.flowDb
    requires Foreign(s, x) && s'.logins == AfterCodes(s, s'.codeDb, x.p)
    requires RowTransactions.Step(P.CodeStoreOf(), s.codeDb, x, s'.codeDb)
    ensures FlowBacks(c, s'.flowDb.ops, s'.logins[p]) && CodeBacks(c, s'.codeDb.ops, s'.logins[p])
  {
    if s'.logins[p] == s.logins[p] {
      BackingStays(c, s, s', s.logins[p]);
    } else {
      CodeAnswerBacks(c, s, x, s');
    }
  }

  lemma StepKeepsBacking(c: Config, s: World, e: Event, s': World)
    requires LoginsBacked(c, s) && ConsumingOpen(c, s) && ExchangingOpen(c, s) && Step(c, s, e, s')
    ensures LoginsBacked(c, s')
  {
    StepGrows(c, s, e, s');
    forall p | p in s'.logins
      ensures FlowBacks(c, s'.flowDb.ops, s'.logins[p]) && CodeBacks(c, s'.codeDb.ops, s'.logins[p])
    {
      match e
      case AtFlows(x) => FlowsKeepBacking(c, s, x, s', p);
      case AtCodes(x) => CodesKeepBacking(c, s, x, s', p);
      case _ =>
        OwnStepBacks(c, s, e, s', p);
        BackingStays(c, s, s', s'.logins[p]);
    }
  }

  lemma StepKeepsConsuming(c: Config, s: World, e: Event, s': World)
    requires ConsumingOpen(c, s) && FlowStep(c, s, e, s') && LoginStep(c, s, e, s')
    ensures ConsumingOpen(c, s')
  {
    forall p | p in s'.logins && s'.logins[p].Consuming? && p in s.logins && s.logins[p].Consuming?
      ensures p in s'.flowDb.txns && s'.flowDb.txns[p].k == s.flowDb.txns[p].k
      ensures s'.flowDb.txns[p].q == s.flowDb.txns[p].q
    {
      if FlowPart(c, s, e).Some? {
        OpenStays(F.FlowStoreOf(c.flowKey), s.flowDb, FlowPart(c, s, e).value, s'.flowDb, p);
      }
    }
  }

  lemma StepKeepsExchanging(c: Config, s: World, e: Event, s': World)
    requires ExchangingOpen(c, s) && CodeStep(c, s, e, s') && LoginStep(c, s, e, s')
    ensures ExchangingOpen(c, s')
  {
    forall p | p in s'.logins && s'.logins[p].Exchanging? && p in s.logins && s.logins[p].Exchanging?
      ensures p in s'.codeDb.txns && s'.codeDb.txns[p].k == s.codeDb.txns[p].k
      ensures s'.codeDb.txns[p].q == s.codeDb.txns[p].q
    {
      if CodePart(c, s, e).Some? {
        OpenStays(P.CodeStoreOf(), s.codeDb, CodePart(c, s, e).value, s'.codeDb, p);
      }
    }
  }

  /** A login that completes leaves a fitting entry. */
  lemma FinishedFits(c: Config, s: World, p: Pid)
    requires LoginsBacked(c, s) && p in s.logins && s.logins[p].Identified? && s.logins[p].flow.Consumed?
    requires BindingKey(c.name, s.logins[p].external) in s.directory
    ensures CompletedFits(c, s.flowDb.ops, s.codeDb.ops, s.directory, Finished(c, s, s.logins[p]))
  {
    assert FlowBacks(c, s.flowDb.ops, s.logins[p]) && CodeBacks(c, s.codeDb.ops, s.logins[p]);
  }

  lemma DoneGrows(c: Config, s: World, e: Event, s': World)
    requires LoginStep(c, s, e, s')
    ensures if e.Complete? then e.p in s.logins && s.logins[e.p].Identified? && s.logins[e.p].flow.Consumed?
      && BindingKey(c.name, s.logins[e.p].external) in s.directory
      && s'.done == s.done + [Finished(c, s, s.logins[e.p])]
      else s'.done == s.done
  {
  }

  lemma StepKeepsDone(c: Config, s: World, e: Event, s': World)
    requires DoneFits(c, s) && LoginsBacked(c, s) && Step(c, s, e, s')
    ensures DoneFits(c, s')
  {
    StepGrows(c, s, e, s');
    DoneGrows(c, s, e, s');
    forall i | 0 <= i < |s'.done| ensures CompletedFits(c, s'.flowDb.ops, s'.codeDb.ops, s'.directory, s'.done[i]) {
      if i == |s.done| {
        FinishedFits(c, s, e.p);
      }
      CompletedStays(c, s, s', s'.done[i]);
    }
  }

  // ---- What every step keeps: each login its own answers ----------------------------------

  function FlowAt(t: Login): Option<nat> { if t.Arrived? || t.Consuming? then None else Some(t.flowAt) }

  function CodeAt(t: Login): Option<nat> {
    if t.HasGrant? || t.HasToken? || t.Identified? then Some(t.codeAt) else None
  }

  /** No two logins stand on the same consume. */
  ghost predicate FlowsApart(logins: map<Pid, Login>, done: seq<Completed>) {
    && (forall p, q | p in logins && q in logins && p != q && FlowAt(logins[p]).Some? ::
          FlowAt(logins[p]) != FlowAt(logins[q]))
    && (forall p, i | p in logins && 0 <= i < |done| :: FlowAt(logins[p]) != Some(done[i].flowAt))
    && (forall i, j | 0 <= i < j < |done| :: done[i].flowAt != done[j].flowAt)
  }

  /** Nor on the same exchange. */
  ghost predicate CodesApart(logins: map<Pid, Login>, done: seq<Completed>) {
    && (forall p, q | p in logins && q in logins && p != q && CodeAt(logins[p]).Some? ::
          CodeAt(logins[p]) != CodeAt(logins[q]))
    && (forall p, i | p in logins && 0 <= i < |done| :: CodeAt(logins[p]) != Some(done[i].codeAt))
    && (forall i, j | 0 <= i < j < |done| :: done[i].codeAt != done[j].codeAt)
  }

  /** Every recorded position lies in its history. */
  ghost predicate InRange(s: World) {
    && (forall p | p in s.logins ::
          && (FlowAt(s.logins[p]).Some? ==> FlowAt(s.logins[p]).value < |s.flowDb.ops|)
          && (CodeAt(s.logins[p]).Some? ==> CodeAt(s.logins[p]).value < |s.codeDb.ops|))
    && (forall i | 0 <= i < |s.done| :: s.done[i].flowAt < |s.flowDb.ops| && s.done[i].codeAt < |s.codeDb.ops|)
  }

  lemma FitInRange(c: Config, s: World)
    requires LoginsBacked(c, s) && DoneFits(c, s)
    ensures InRange(s)
  {
    assert forall p | p in s.logins ::
      FlowBacks(c, s.flowDb.ops, s.logins[p]) && CodeBacks(c, s.codeDb.ops, s.logins[p]);
  }

  /** A login's position stays, or is the next one of the history for the login whose answer came. */
  lemma FlowPositionsMove(c: Config, s: World, e: Event, s': World, p: Pid)
    requires LoginStep(c, s, e, s') && p in s'.logins && FlowAt(s'.logins[p]).Some?
    ensures
      || (p in s.logins && FlowAt(s'.logins[p]) == FlowAt(s.logins[p]))
      || FlowAt(s'.logins[p]) == Some(|s.flowDb.ops|)
    ensures FlowAt(s'.logins[p]) == Some(|s.flowDb.ops|) && InRange(s) ==> e.AtFlows? && p == e.consume.p
  {
  }

  lemma CodePositionsMove(c: Config, s: World, e: Event, s': World, p: Pid)
    requires LoginStep(c, s, e, s') && p in s'.logins && CodeAt(s'.logins[p]).Some?
    ensures
      || (p in s.logins && CodeAt(s'.logins[p]) == CodeAt(s.logins[p]))
      || CodeAt(s'.logins[p]) == Some(|s.codeDb.ops|)
    ensures CodeAt(s'.logins[p]) == Some(|s.codeDb.ops|) && InRange(s) ==> e.AtCodes? && p == e.exchange.p
  {
  }

  /** Completing moves a position from the logins to the list. */
  lemma CompleteMoves(c: Config, s: World, e: Event, s': World)
    requires LoginStep(c, s, e, s')
    ensures e.Complete? ==>
      && e.p in s.logins && e.p !in s'.logins && |s'.done| == |s.done| + 1 && s'.done[..|s.done|] == s.done
      && FlowAt(s.logins[e.p]) == Some(s'.done[|s.done|].flowAt)
      && CodeAt(s.logins[e.p]) == Some(s'.done[|s.done|].codeAt)
    ensures !e.Complete? ==> s'.done == s.done
  {
  }

  lemma StepKeepsFlowsApart(c: Config, s: World, e: Event, s': World)
    requires FlowsApart(s.logins, s.done) && InRange(s) && LoginStep(c, s, e, s')
    ensures FlowsApart(s'.logins, s'.done)
  {
    CompleteMoves(c, s, e, s');
    forall p | p in s'.logins && FlowAt(s'.logins[p]).Some? { FlowPositionsMove(c, s, e, s', p); }
    assert forall i | 0 <= i < |s.done| :: s'.done[i] == s.done[i];
  }

  lemma StepKeepsCodesApart(c: Config, s: World, e: Event, s': World)
    requires CodesApart(s.logins, s.done) && InRange(s) && LoginStep(c, s, e, s')
    ensures CodesApart(s'.logins, s'.done)
  {
    CompleteMoves(c, s, e, s');
    forall p | p in s'.logins && CodeAt(s'.logins[p]).Some? { CodePositionsMove(c, s, e, s', p); }
    assert forall i | 0 <= i < |s.done| :: s'.done[i] == s.done[i];
  }

  // ---- Over whole runs --------------------------------------------------------------------

  ghost predicate Inv(c: Config, s: World) {
    && FlowsFit(c, s.flowDb) && CodesFit(c, s.codeDb)
    && LoginsBacked(c, s) && ConsumingOpen(c, s) && ExchangingOpen(c, s) && DoneFits(c, s)
    && FlowsApart(s.logins, s.done) && CodesApart(s.logins, s.done)
  }

  lemma StepKeepsInv(c: Config, s: World, e: Event, s': World)
    requires Inv(c, s) && Step(c, s, e, s')
    ensures Inv(c, s')
  {
    StepKeepsFlows(c, s, e, s');
    StepKeepsCodes(c, s, e, s');
    StepKeepsBacking(c, s, e, s');
    StepKeepsConsuming(c, s, e, s');
    StepKeepsExchanging(c, s, e, s');
    StepKeepsDone(c, s, e, s');
    FitInRange(c, s);
    StepKeepsFlowsApart(c, s, e, s');
    StepKeepsCodesApart(c, s, e, s');
  }

  lemma {:induction false} InvAlways(c: Config, states: seq<World>, events: seq<Event>, n: nat)
    requires IsRun(System(c), states, events) && n < |states|
    ensures Inv(c, states[n])
  {
    if n > 0 {
      InvAlways(c, states, events, n - 1);
      StepKeepsInv(c, states[n - 1], events[n - 1], states[n]);
    }
  }

  /** A flow this client's plugin created, and an authorization the provider accepted. */
  datatype Origin = Origin(flow: F.CreateRequest, draw: F.Draw, request: P.AuthorizeRequest, at: int)

  /**
    A completed login stands on one flow and one authorization made for each other: the state is the
    flow's, the code was authorized with the S256 of that flow's verifier and with its nonce, the
    login's external subject is the one authorized, its account is the directory's, and the browser
    returns where the flow said.
   */
  lemma LoginBindsFlowAndCode(c: Config, states: seq<World>, events: seq<Event>, n: nat, i: nat) returns (o: Origin)
    requires IsRun(System(c), states, events) && n < |states| && i < |states[n].done|
    ensures
      var s, d := states[n], states[n].done[i];
      && d.state == o.draw.state && o.flow.provider == c.name
      && AsCreated(s.flowDb.ops, F.StateDigest(d.state), F.RowOf(c.flowKey, o.flow, o.draw))
      && AsCreated(s.codeDb.ops, P.CodeDigest(d.code), P.RowOf(c.settings, o.request, o.at))
      && o.request.challenge == S256(o.draw.verifier) && o.request.nonce == Some(o.draw.nonce)
      && o.request.clientId == c.client.clientId && o.request.redirectUri == c.redirectUri
      && d.external == o.request.subject && d.returnTo == o.flow.returnTo && ValidReturn(d.returnTo)
      && BindingKey(c.name, d.external) in s.directory && d.subject == s.directory[BindingKey(c.name, d.external)]
  {
    InvAlways(c, states, events, n);
    o := DoneBinds(c, states[n], i);
  }

  lemma DoneBinds(c: Config, s: World, i: nat) returns (o: Origin)
    requires Inv(c, s) && i < |s.done|
    ensures
      var d := s.done[i];
      && d.state == o.draw.state && o.flow.provider == c.name
      && AsCreated(s.flowDb.ops, F.StateDigest(d.state), F.RowOf(c.flowKey, o.flow, o.draw))
      && AsCreated(s.codeDb.ops, P.CodeDigest(d.code), P.RowOf(c.settings, o.request, o.at))
      && o.request.challenge == S256(o.draw.verifier) && o.request.nonce == Some(o.draw.nonce)
      && o.request.clientId == c.client.clientId && o.request.redirectUri == c.redirectUri
      && d.external == o.request.subject && d.returnTo == o.flow.returnTo && ValidReturn(d.returnTo)
      && BindingKey(c.name, d.external) in s.directory && d.subject == s.directory[BindingKey(c.name, d.external)]
  {
    var d, flows, codes := s.done[i], s.flowDb.ops, s.codeDb.ops;
    assert CompletedFits(c, flows, codes, s.directory, d);
    var r, draw := F.CustodyKept(c.flowKey, flows, d.flowAt);
    var request, at := P.GrantAnswersAuthorize(c.settings, codes, d.codeAt);
    PrefixCreated(flows, d.flowAt, F.StateDigest(d.state), F.RowOf(c.flowKey, r, draw));
    PrefixCreated(codes, d.codeAt, P.CodeDigest(d.code), P.RowOf(c.settings, request, at));
    o := Origin(r, draw, request, at);
  }

  lemma PrefixCreated<K, R, Q, O>(ops: seq<Op<K, R, Q, O>>, n: nat, k: K, row: R)
    requires n <= |ops| && AsCreated(ops[..n], k, row)
    ensures AsCreated(ops, k, row)
  {
    var i :| 0 <= i < n && ops[..n][i] == Created(k, row);
    assert ops[i] == Created(k, row);
  }

  /** No state and no code ever yields a second login, whatever else runs beside. */
  lemma OneLoginPerGrant(c: Config, states: seq<World>, events: seq<Event>, n: nat, i: nat, j: nat)
    requires IsRun(System(c), states, events) && n < |states| && i < j < |states[n].done|
    ensures states[n].done[i].state != states[n].done[j].state && states[n].done[i].code != states[n].done[j].code
  {
    InvAlways(c, states, events, n);
    DoneApart(c, states[n], i, j);
  }

  lemma DoneApart(c: Config, s: World, i: nat, j: nat)
    requires Inv(c, s) && i < j < |s.done|
    ensures s.done[i].state != s.done[j].state && s.done[i].code != s.done[j].code
  {
    var a, b := s.done[i], s.done[j];
    var flows, codes := s.flowDb.ops, s.codeDb.ops;
    assert CompletedFits(c, flows, codes, s.directory, a) && CompletedFits(c, flows, codes, s.directory, b);
    var _, _ := F.CustodyKept(c.flowKey, flows, a.flowAt);
    var _, _ := P.GrantAnswersAuthorize(c.settings, codes, a.codeAt);
  }

  // ---- Honest logins complete -------------------------------------------------------------

  /** What an honest user agent, provider and client bring together at one moment. */
  ghost predicate Honest(
      c: Config, s: World, r: F.CreateRequest, d: F.Draw, request: P.AuthorizeRequest, code: string) {
    && F.ProperDraw(d) && !Mentions(s.flowDb.ops, F.StateDigest(d.state))
    && r.provider == c.name && ValidName(c.name) && ValidReturn(r.returnTo) && s.flowDb.now < r.expiresAt
    && P.Authorizable(c.settings, request, P.Active) && ValidId(request.subject)
    && request.challenge == S256(d.verifier) && request.nonce == Some(d.nonce) && request.redirectUri == c.redirectUri
    && !Mentions(s.codeDb.ops, P.CodeDigest(code)) && Utf8Length(code) <= 256 && 0 <= s.codeDb.now
  }

  /** What can follow a world. */
  ghost function Onward(c: Config, s: World): Machine<World, Event> { From(System(c), s) }

  function FlowRow(
      c: Config, r: F.CreateRequest, d: F.Draw): Op<F.StateDigest, F.Flow, F.ConsumeRequest, F.ConsumeAnswer> {
    Created(F.StateDigest(d.state), F.RowOf(c.flowKey, r, d))
  }

  function FlowWith(c: Config, db: FlowDb, r: F.CreateRequest, d: F.Draw): FlowDb {
    db.(rows := db.rows[F.StateDigest(d.state) := F.RowOf(c.flowKey, r, d)], ops := db.ops + [FlowRow(c, r, d)])
  }

  function CodeWith(c: Config, db: CodeDb, request: P.AuthorizeRequest, code: string): CodeDb {
    var row := P.RowOf(c.settings, request, db.now);
    db.(rows := db.rows[P.CodeDigest(code) := row], ops := db.ops + [Created(P.CodeDigest(code), row)])
  }

  /** The identity is bound before the login asks for it, by this very call if by none before. */
  function BoundTo(directory: Bindings, key: BindingKey, account: string): Bindings {
    if key in directory then directory else directory[key := account]
  }

  lemma DoArrive(
      c: Config, s: World, p: Pid, r: F.CreateRequest, d: F.Draw, request: P.AuthorizeRequest, code: string,
      account: string)
    returns (s': World)
    requires Honest(c, s, r, d, request, code) && p !in s.logins && p !in s.flowDb.txns && p !in s.codeDb.txns
    ensures Reachable(Onward(c, s), s')
    ensures s' == World(
      FlowWith(c, s.flowDb, r, d), CodeWith(c, s.codeDb, request, code),
      BoundTo(s.directory, BindingKey(c.name, request.subject), account), s.logins[p := Arrived(code, d.state)], s.done)
  {
    Start(Onward(c, s), s);
    var s1 := s.(flowDb := FlowWith(c, s.flowDb, r, d));
    Extend(Onward(c, s), s, CreateFlow(r, d), s1);
    var s2 := s1.(codeDb := CodeWith(c, s.codeDb, request, code));
    Extend(Onward(c, s), s1, Authorize(request, code), s2);
    var key := BindingKey(c.name, request.subject);
    var s3 := s2.(directory := BoundTo(s.directory, key, account));
    if key !in s.directory {
      Extend(Onward(c, s), s2, Bind(key, account), s3);
    }
    s' := s3.(logins := s.logins[p := Arrived(code, d.state)]);
    Extend(Onward(c, s), s3, Arrive(p, code, d.state), s');
  }

  /** One event of the flow store, by whom it may be. */
  lemma GoFlows(c: Config, s0: World, s: World, x: FlowEvent, db: FlowDb) returns (s': World)
    requires Reachable(Onward(c, s0), s) && Foreign(s, x)
    requires RowTransactions.Step(F.FlowStoreOf(c.flowKey), s.flowDb, x, db)
    ensures Reachable(Onward(c, s0), s') && s' == s.(flowDb := db, logins := AfterFlows(s, db, x.p))
  {
    s' := s.(flowDb := db, logins := AfterFlows(s, db, x.p));
    Extend(Onward(c, s0), s, AtFlows(x), s');
  }

  lemma GoCodes(c: Config, s0: World, s: World, x: CodeEvent, db: CodeDb) returns (s': World)
    requires Reachable(Onward(c, s0), s) && Foreign(s, x)
    requires RowTransactions.Step(P.CodeStoreOf(), s.codeDb, x, db)
    ensures Reachable(Onward(c, s0), s') && s' == s.(codeDb := db, logins := AfterCodes(s, db, x.p))
  {
    s' := s.(codeDb := db, logins := AfterCodes(s, db, x.p));
    Extend(Onward(c, s0), s, AtCodes(x), s');
  }

  lemma GoStartConsume(c: Config, s0: World, s: World, p: Pid, db: FlowDb) returns (s': World)
    requires Reachable(Onward(c, s0), s) && p in s.logins && s.logins[p].Arrived?
    requires RowTransactions.Step(
      F.FlowStoreOf(c.flowKey), s.flowDb, Begin(p, F.StateDigest(s.logins[p].state), FlowRequest(c, s.logins[p])), db)
    ensures Reachable(Onward(c, s0), s')
    ensures s' == s.(flowDb := db, logins := s.logins[p := Consuming(s.logins[p].code, s.logins[p].state)])
  {
    s' := s.(flowDb := db, logins := s.logins[p := Consuming(s.logins[p].code, s.logins[p].state)]);
    Extend(Onward(c, s0), s, StartConsume(p), s');
  }

  lemma GoStartExchange(c: Config, s0: World, s: World, p: Pid, db: CodeDb) returns (s': World)
    requires Reachable(Onward(c, s0), s) && p in s.logins && CanExchange(s.logins[p])
    requires P.WellFormed(c.settings, CodeRequest(c, s.logins[p]))
    requires RowTransactions.Step(
      P.CodeStoreOf(), s.codeDb, Begin(p, P.CodeDigest(s.logins[p].code), CodeRequest(c, s.logins[p])), db)
    ensures Reachable(Onward(c, s0), s')
    ensures
      var t := s.logins[p];
      s' == s.(codeDb := db, logins := s.logins[p := Exchanging(t.code, t.state, t.flow, t.flowAt)])
  {
    var t := s.logins[p];
    s' := s.(codeDb := db, logins := s.logins[p := Exchanging(t.code, t.state, t.flow, t.flowAt)]);
    Extend(Onward(c, s0), s, StartExchange(p), s');
  }

  lemma GoThroughFlows(
      c: Config, s0: World, s: World, p: Pid, begun: FlowDb, holding: FlowDb, written: FlowDb, done: FlowDb)
    returns (s': World)
    requires Reachable(Onward(c, s0), s) && p in s.logins && s.logins[p].Arrived?
    requires RowTransactions.Step(
      F.FlowStoreOf(c.flowKey), s.flowDb, Begin(p, F.StateDigest(s.logins[p].state), FlowRequest(c, s.logins[p])),
      begun)
    requires RowTransactions.Step(F.FlowStoreOf(c.flowKey), begun, Read(p), holding) && p in holding.txns
    requires RowTransactions.Step(F.FlowStoreOf(c.flowKey), holding, Decide(p), written) && p in written.txns
    requires RowTransactions.Step(F.FlowStoreOf(c.flowKey), written, Commit(p), done) && written.ops == s.flowDb.ops
    ensures Reachable(Onward(c, s0), s')
    ensures
      var consuming := s.logins[p := Consuming(s.logins[p].code, s.logins[p].state)];
      s' == s.(flowDb := done, logins := AfterFlows(s.(logins := consuming), done, p))
  {
    var s1 := GoStartConsume(c, s0, s, p, begun);
    var s2 := GoFlows(c, s0, s1, Read(p), holding);
    var s3 := GoFlows(c, s0, s2, Decide(p), written);
    s' := GoFlows(c, s0, s3, Commit(p), done);
  }

  lemma GoThroughCodes(
      c: Config, s0: World, s: World, p: Pid, begun: CodeDb, holding: CodeDb, written: CodeDb, done: CodeDb)
    returns (s': World)
    requires Reachable(Onward(c, s0), s) && p in s.logins && CanExchange(s.logins[p])
    requires P.WellFormed(c.settings, CodeRequest(c, s.logins[p]))
    requires RowTransactions.Step(
      P.CodeStoreOf(), s.codeDb, Begin(p, P.CodeDigest(s.logins[p].code), CodeRequest(c, s.logins[p])), begun)
    requires RowTransactions.Step(P.CodeStoreOf(), begun, Read(p), holding) && p in holding.txns
    requires RowTransactions.Step(P.CodeStoreOf(), holding, Decide(p), written) && p in written.txns
    requires RowTransactions.Step(P.CodeStoreOf(), written, Commit(p), done) && written.ops == s.codeDb.ops
    ensures Reachable(Onward(c, s0), s')
    ensures
      var t := s.logins[p];
      var exchanging := s.logins[p := Exchanging(t.code, t.state, t.flow, t.flowAt)];
      s' == s.(codeDb := done, logins := AfterCodes(s.(logins := exchanging), done, p))
  {
    var s1 := GoStartExchange(c, s0, s, p, begun);
    var s2 := GoCodes(c, s0, s1, Read(p), holding);
    var s3 := GoCodes(c, s0, s2, Decide(p), written);
    s' := GoCodes(c, s0, s3, Commit(p), done);
  }

  lemma FreshFlowRedeems(c: Config, r: F.CreateRequest, d: F.Draw, now: int)
    requires F.ProperDraw(d) && r.provider == c.name && ValidReturn(r.returnTo) && now < r.expiresAt
    ensures
      var decision := F.FlowStoreOf(c.flowKey).decide(F.ConsumeRequest(c.name, d.state), F.RowOf(c.flowKey, r, d), now);
      && decision.write.Some? && Usable(decision.answer)
      && decision.answer == F.Consumed(d.verifier, Some(d.nonce), r.returnTo, r.expiresAt)
  {
    RandomIsValid(d.verifier);
    RandomIsValid(d.nonce);
  }

  /** The flow store is free for this login and this state. */
  ghost predicate FlowReady(c: Config, s: World, p: Pid, r: F.CreateRequest, d: F.Draw) {
    && p !in s.flowDb.txns && (forall k | k in s.flowDb.owner :: s.flowDb.owner[k] != p)
    && F.StateDigest(d.state) in s.flowDb.rows && s.flowDb.rows[F.StateDigest(d.state)] == F.RowOf(c.flowKey, r, d)
    && F.StateDigest(d.state) !in s.flowDb.owner
  }

  lemma DoConsume(c: Config, s0: World, s: World, p: Pid, r: F.CreateRequest, d: F.Draw, code: string)
      returns (s': World)
    requires Reachable(Onward(c, s0), s) && FlowReady(c, s, p, r, d) && p in s.logins
    requires s.logins[p] == Arrived(code, d.state)
    requires F.ProperDraw(d) && r.provider == c.name && ValidReturn(r.returnTo) && s.flowDb.now < r.expiresAt
    ensures Reachable(Onward(c, s0), s')
    ensures s' == s.(flowDb := s'.flowDb, logins := s.logins[p := Redeemed(
      code, d.state, F.Consumed(d.verifier, Some(d.nonce), r.returnTo, r.expiresAt), |s.flowDb.ops|)])
  {
    FreshFlowRedeems(c, r, d, s.flowDb.now);
    var k, q := F.StateDigest(d.state), F.ConsumeRequest(c.name, d.state);
    var begun, holding, written, done := RunsAlone(F.FlowStoreOf(c.flowKey), s.flowDb, p, k, q);
    s' := GoThroughFlows(c, s0, s, p, begun, holding, written, done);
    assert done.ops[|s.flowDb.ops|] == Asked(k, q, s.flowDb.now,
        F.Consumed(d.verifier, Some(d.nonce), r.returnTo, r.expiresAt));
  }

  /** The code store is free for this login and this code. */
  ghost predicate CodeReady(c: Config, s: World, p: Pid, row: P.Code, code: string) {
    && p !in s.codeDb.txns && (forall k | k in s.codeDb.owner :: s.codeDb.owner[k] != p)
    && P.CodeDigest(code) in s.codeDb.rows && s.codeDb.rows[P.CodeDigest(code)] == row
    && P.CodeDigest(code) !in s.codeDb.owner
  }

  lemma DoExchange(c: Config, s0: World, s: World, p: Pid, request: P.AuthorizeRequest, code: string)
      returns (s': World)
    requires Reachable(Onward(c, s0), s) && ValidConfig(c) && c.settings.codeTtl > 0
    requires P.Authorizable(c.settings, request, P.Active)
    requires CodeReady(c, s, p, P.RowOf(c.settings, request, s.codeDb.now), code)
    requires p in s.logins && CanExchange(s.logins[p]) && s.logins[p].code == code && Utf8Length(code) <= 256
    requires Random32(s.logins[p].flow.verifier) && request.challenge == S256(s.logins[p].flow.verifier)
    requires request.redirectUri == c.redirectUri
    ensures Reachable(Onward(c, s0), s')
    ensures
      var t := s.logins[p];
      s' == s.(codeDb := s'.codeDb, logins := s.logins[p := HasGrant(
        code, t.state, t.flow, t.flowAt, P.Granted(request.subject, request.scope, request.nonce), |s.codeDb.ops|)])
    ensures s'.codeDb.now == s.codeDb.now
  {
    var t := s.logins[p];
    AsciiLength(t.flow.verifier);
    var begun, holding, written, done := RunsAlone(P.CodeStoreOf(), s.codeDb, p, P.CodeDigest(code), CodeRequest(c, t));
    s' := GoThroughCodes(c, s0, s, p, begun, holding, written, done);
    assert done.ops[|s.codeDb.ops|] ==
      Asked(P.CodeDigest(code), CodeRequest(c, t), s.codeDb.now,
          P.Granted(request.subject, request.scope, request.nonce));
  }

  lemma GoToken(c: Config, s0: World, s: World, p: Pid) returns (s': World)
    requires Reachable(Onward(c, s0), s) && p in s.logins && s.logins[p].HasGrant? && s.logins[p].grant.Granted?
    ensures Reachable(Onward(c, s0), s')
    ensures
      var t, now := s.logins[p], s.codeDb.now;
      var token := Mint(c.settings.provider, t.grant.subject, t.grant.nonce, now, now);
      s' == s.(logins := s.logins[p := HasToken(t.code, t.state, t.flow, t.flowAt, token, t.codeAt)])
  {
    var t, now := s.logins[p], s.codeDb.now;
    var token := Mint(c.settings.provider, t.grant.subject, t.grant.nonce, now, now);
    s' := s.(logins := s.logins[p := HasToken(t.code, t.state, t.flow, t.flowAt, token, t.codeAt)]);
    Extend(Onward(c, s0), s, TakeToken(p, now, now), s');
  }

  lemma GoIdentify(c: Config, s0: World, s: World, p: Pid, subject: string) returns (s': World)
    requires Reachable(Onward(c, s0), s) && ValidConfig(c) && c.settings.provider.keyId.Some? && 0 <= s.codeDb.now
    requires p in s.logins && s.logins[p].HasToken? && s.logins[p].flow.Consumed? && s.logins[p].flow.nonce.Some?
    requires ValidId(subject)
    requires s.logins[p].token == Mint(c.settings.provider, subject, s.logins[p].flow.nonce, s.codeDb.now, s.codeDb.now)
    ensures Reachable(Onward(c, s0), s')
    ensures
      var t := s.logins[p];
      s' == s.(logins := s.logins[p := Identified(t.code, t.state, t.flow, t.flowAt, t.codeAt, subject)])
  {
    var t, now := s.logins[p], s.codeDb.now;
    MintAcceptedIff(c.settings.provider, subject, t.flow.nonce, now, now, t.flow.nonce.value, now);
    s' := s.(logins := s.logins[p := Identified(t.code, t.state, t.flow, t.flowAt, t.codeAt, subject)]);
    Extend(Onward(c, s0), s, Identify(p), s');
  }

  lemma GoComplete(c: Config, s0: World, s: World, p: Pid) returns (s': World)
    requires Reachable(Onward(c, s0), s) && p in s.logins && s.logins[p].Identified? && s.logins[p].flow.Consumed?
    requires BindingKey(c.name, s.logins[p].external) in s.directory
    ensures Reachable(Onward(c, s0), s')
    ensures s' == s.(logins := s.logins - {p}, done := s.done + [Finished(c, s, s.logins[p])])
  {
    s' := s.(logins := s.logins - {p}, done := s.done + [Finished(c, s, s.logins[p])]);
    Extend(Onward(c, s0), s, Complete(p), s');
  }

  /** With the grant in hand the token is minted, accepted, and the login completes. */
  lemma DoComplete(c: Config, s0: World, s: World, p: Pid) returns (s': World)
    requires Reachable(Onward(c, s0), s) && ValidConfig(c) && c.settings.provider.keyId.Some? && 0 <= s.codeDb.now
    requires p in s.logins && s.logins[p].HasGrant? && s.logins[p].grant.Granted?
    requires s.logins[p].flow.Consumed? && s.logins[p].flow.nonce.Some?
    requires s.logins[p].grant.nonce == s.logins[p].flow.nonce
    requires ValidId(s.logins[p].grant.subject) && BindingKey(c.name, s.logins[p].grant.subject) in s.directory
    ensures Reachable(Onward(c, s0), s') && s'.logins == s.logins - {p}
    ensures
      var t := s.logins[p];
      s'.done == s.done + [Completed(t.code, t.state, t.flowAt, t.codeAt, t.grant.subject,
                                     s.directory[BindingKey(c.name, t.grant.subject)], t.flow.returnTo)]
  {
    var s1 := GoToken(c, s0, s, p);
    var s2 := GoIdentify(c, s0, s1, p, s.logins[p].grant.subject);
    s' := GoComplete(c, s0, s2, p);
    assert s2.logins - {p} == s.logins - {p};
  }

  /**
    From any reachable world an honest login can go through to the end, a first login of its identity
    included, provided a signing key id is configured.
   */
  lemma HonestLoginCompletes(
      c: Config, s: World, p: Pid, r: F.CreateRequest, d: F.Draw, request: P.AuthorizeRequest, code: string,
      account: string)
    returns (s': World)
    requires Reachable(System(c), s) && ValidConfig(c) && c.settings.provider.keyId.Some? && c.settings.codeTtl > 0
    requires Honest(c, s, r, d, request, code) && p !in s.logins && p !in s.flowDb.txns && p !in s.codeDb.txns
    ensures Reachable(Onward(c, s), s') && s'.logins == s.logins
    ensures
      var key := BindingKey(c.name, request.subject);
      var subject := if key in s.directory then s.directory[key] else account;
      s'.done == s.done + [
        Completed(code, d.state, |s.flowDb.ops| + 1, |s.codeDb.ops| + 1, request.subject, subject, r.returnTo)]
  {
    FreeWhenReached(c, s, p, d, code);
    s' := HonestOnward(c, s, p, r, d, request, code, account);
  }

  lemma FreeWhenReached(c: Config, s: World, p: Pid, d: F.Draw, code: string)
    requires Reachable(System(c), s) && p !in s.flowDb.txns && p !in s.codeDb.txns
    requires !Mentions(s.flowDb.ops, F.StateDigest(d.state)) && !Mentions(s.codeDb.ops, P.CodeDigest(code))
    ensures Free(s, p, d, code)
  {
    var states, events :| RunTo(System(c), states, events, s);
    InvAlways(c, states, events, |events|);
    StoresReady(c, s, p, d, code);
  }

  lemma HonestOnward(
      c: Config, s: World, p: Pid, r: F.CreateRequest, d: F.Draw, request: P.AuthorizeRequest, code: string,
      account: string)
    returns (s': World)
    requires Free(s, p, d, code) && ValidConfig(c) && c.settings.provider.keyId.Some? && c.settings.codeTtl > 0
    requires Honest(c, s, r, d, request, code) && p !in s.logins && p !in s.flowDb.txns && p !in s.codeDb.txns
    ensures Reachable(Onward(c, s), s') && s'.logins == s.logins
    ensures
      var key := BindingKey(c.name, request.subject);
      var subject := if key in s.directory then s.directory[key] else account;
      s'.done == s.done + [
        Completed(code, d.state, |s.flowDb.ops| + 1, |s.codeDb.ops| + 1, request.subject, subject, r.returnTo)]
  {
    var s2 := HonestRedeems(c, s, p, r, d, request, code, account);
    var s3 := DoExchange(c, s, s2, p, request, code);
    s' := DoComplete(c, s, s3, p);
    assert s3.logins - {p} == s.logins;
  }

  lemma HonestRedeems(
      c: Config, s: World, p: Pid, r: F.CreateRequest, d: F.Draw, request: P.AuthorizeRequest, code: string,
      account: string)
    returns (s': World)
    requires Free(s, p, d, code)
    requires Honest(c, s, r, d, request, code) && p !in s.logins && p !in s.flowDb.txns && p !in s.codeDb.txns
    ensures Reachable(Onward(c, s), s')
    ensures s' == World(
      s'.flowDb, CodeWith(c, s.codeDb, request, code),
      BoundTo(s.directory, BindingKey(c.name, request.subject), account),
      s.logins[p := Redeemed(
        code, d.state, F.Consumed(d.verifier, Some(d.nonce), r.returnTo, r.expiresAt), |s.flowDb.ops| + 1)], s.done)
  {
    var s1 := DoArrive(c, s, p, r, d, request, code, account);
    s' := DoConsume(c, s, s1, p, r, d, code);
  }

  /** This state, this code and this number are held by no one. */
  ghost predicate Free(s: World, p: Pid, d: F.Draw, code: string) {
    && F.StateDigest(d.state) !in s.flowDb.owner && P.CodeDigest(code) !in s.codeDb.owner
    && (forall k | k in s.flowDb.owner :: s.flowDb.owner[k] != p)
    && (forall k | k in s.codeDb.owner :: s.codeDb.owner[k] != p)
  }

  /** Nothing new is held, and a number not in use holds nothing. */
  lemma StoresReady(c: Config, s: World, p: Pid, d: F.Draw, code: string)
    requires Inv(c, s) && p !in s.flowDb.txns && p !in s.codeDb.txns
    requires !Mentions(s.flowDb.ops, F.StateDigest(d.state)) && !Mentions(s.codeDb.ops, P.CodeDigest(code))
    ensures Free(s, p, d, code)
  {
    UncreatedFree(F.FlowStoreOf(c.flowKey), s.flowDb, F.StateDigest(d.state));
    UncreatedFree(P.CodeStoreOf(), s.codeDb, P.CodeDigest(code));
  }
}
