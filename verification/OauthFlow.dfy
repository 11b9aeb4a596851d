/** OAuth flow states: creating one, consuming one, and the custody of what was stored in between. */
module OauthFlow {
  import opened Prelude
  import opened RowTransactions
  import opened Runs
  import opened OneTimeGrants
  import opened Text
  import opened Pkce

  type Key = nat

  /** HMAC of the state under the plugin key, taken as injective. */
  datatype StateDigest = StateDigest(state: string)

  /** AES-GCM under a key and nonce: only the same key and nonce open it. */
  datatype Cipher = Sealed(key: Key, nonce: seq<bv8>, plain: string) | Noise

  function Open(key: Key, nonce: seq<bv8>, c: Cipher): Option<string> {
    if c.Sealed? && c.key == key && c.nonce == nonce then Some(c.plain) else None
  }

  /** A sealed text opens under its own key and nonce, to what was sealed, and under no other. */
  lemma OpensIff(key: Key, nonce: seq<bv8>, sealed: Cipher, plain: string)
    ensures Open(key, nonce, sealed) == Some(plain) <==> sealed == Sealed(key, nonce, plain)
  {
  }

  datatype Flow = Flow(
    provider: string, cipherNonce: seq<bv8>, verifier: Cipher, returnTo: string, expiresAt: int,
    oidcNonce: Option<string>, consumed: bool)

  type Table = map<StateDigest, Flow>

  datatype CreateRequest = CreateRequest(provider: string, returnTo: string, expiresAt: int)

  /** The random values of one create. */
  datatype Draw = Draw(state: string, verifier: string, nonce: string, cipherNonce: seq<bv8>)

  predicate ProperDraw(d: Draw) {
    Random32(d.state) && Random32(d.verifier) && Random32(d.nonce) && |d.cipherNonce| == 12
  }

  datatype NewFlow = NewFlow(
    state: string, verifier: string, challenge: Challenge, nonce: Option<string>, expiresAt: int)

  datatype CreateError = InvalidProvider | InvalidReturnTo | InvalidExpiry

  function RowOf(key: Key, r: CreateRequest, d: Draw): Flow {
    var sealed := Sealed(key, d.cipherNonce, d.verifier);
    Flow(r.provider, d.cipherNonce, sealed, r.returnTo, r.expiresAt, Some(d.nonce), false)
  }

  datatype ConsumeRequest = ConsumeRequest(provider: string, state: string)

  datatype ConsumeAnswer =
    | Consumed(verifier: string, nonce: Option<string>, returnTo: string, expiresAt: int)
    | Undecodable
    | InvalidState | ProviderMismatch | AlreadyConsumed | Expired

  /** Reading a consumed row back, after the commit. */
  function Decode(key: Key, row: Flow): ConsumeAnswer {
    if |row.cipherNonce| != 12 then Undecodable
    else
      match Open(key, row.cipherNonce, row.verifier)
      case Some(verifier) => Consumed(verifier, row.oidcNonce, row.returnTo, row.expiresAt)
      case None => Undecodable
  }

  /** The checks on the locked row, in their order, against the clock read while holding it. */
  function Consume(key: Key, q: ConsumeRequest, row: Flow, now: int): Decision<Flow, ConsumeAnswer> {
    if row.provider != q.provider then Decision(None, ProviderMismatch)
    else if row.consumed then Decision(None, AlreadyConsumed)
    else if row.expiresAt <= now then Decision(None, Expired)
    else Decision(Some(row.(consumed := true)), Decode(key, row))
  }

  function FlowStoreOf(key: Key): Store<Flow, ConsumeRequest, ConsumeAnswer> {
    Store((q, row, now) => Consume(key, q, row, now), InvalidState)
  }

  predicate Redeems(a: ConsumeAnswer) { a.Consumed? || a.Undecodable? }

  function FlowLaw(): Law<Flow, ConsumeAnswer> { Law((row: Flow) => row.consumed, (a: ConsumeAnswer) => Redeems(a)) }

  lemma FlowsAreOneTime(key: Key)
    ensures IsOneTime(FlowStoreOf(key), FlowLaw())
  {
  }

  type History = seq<Op<StateDigest, Flow, ConsumeRequest, ConsumeAnswer>>

  /** Every row of the history was made by a successful create. */
  ghost predicate CreatedByCreate(key: Key, ops: History) {
    forall i | 0 <= i < |ops| && ops[i].Created? :: MadeByCreate(key, ops[i].k, ops[i].row)
  }

  ghost predicate MadeByCreate(key: Key, k: StateDigest, row: Flow) {
    exists r: CreateRequest, d: Draw | ProperDraw(d) && ValidName(r.provider) && ValidReturn(r.returnTo) ::
      k == StateDigest(d.state) && row == RowOf(key, r, d)
  }

  /**
    Custody: a consume that gets past the lock checks always decodes, is the only one for its state,
    came before expiry from the provider that created the flow, and returns exactly the verifier,
    nonce, return target and expiry drawn and stored by that create.
   */
  lemma CustodyKept(key: Key, ops: History, n: nat) returns (r: CreateRequest, d: Draw)
    requires Serial(FlowStoreOf(key), ops) && CreatedByCreate(key, ops)
    requires n < |ops| && ops[n].Asked? && Redeems(ops[n].answer)
    ensures ProperDraw(d) && ops[n].k == StateDigest(d.state)
    ensures AsCreated(ops[..n], ops[n].k, RowOf(key, r, d))
    ensures ops[n].answer == Consumed(d.verifier, Some(d.nonce), r.returnTo, r.expiresAt)
    ensures ops[n].q.provider == r.provider && ops[n].clock < r.expiresAt
    ensures forall m | 0 <= m < |ops| && ops[m].Asked? && ops[m].k == ops[n].k && Redeems(ops[m].answer) :: m == n
  {
    FlowsAreOneTime(key);
    var row := GrantFromCreated(FlowStoreOf(key), FlowLaw(), ops, n);
    var i :| 0 <= i < n && ops[i] == Created(ops[n].k, row);
    r, d :| ProperDraw(d) && ValidName(r.provider) && ValidReturn(r.returnTo) && ops[i].k == StateDigest(d.state)
            && ops[i].row == RowOf(key, r, d);
    forall m | 0 <= m < |ops| && ops[m].Asked? && ops[m].k == ops[n].k && Redeems(ops[m].answer) ensures m == n {
      GrantedOnce(FlowStoreOf(key), FlowLaw(), ops, n, m);
    }
  }

  /** A state can be consumed exactly while its flow exists, is unredeemed and unexpired, by its own provider. */
  lemma RedeemableIff(key: Key, ops: History, q: ConsumeRequest, now: int)
    requires Serial(FlowStoreOf(key), ops) && CreatedByCreate(key, ops)
    ensures
      var k, rows := StateDigest(q.state), After(FlowStoreOf(key), ops);
      AnswerOn(FlowStoreOf(key), rows, k, q, now).Consumed? <==>
        k in rows && GrantCount(FlowLaw(), ops, k) == 0 && rows[k].provider == q.provider && now < rows[k].expiresAt
  {
    FlowsAreOneTime(key);
    RowTellsGrants(FlowStoreOf(key), FlowLaw(), ops, StateDigest(q.state));
  }

  /** A rejected consume leaves every row as it was. */
  lemma RejectionChangesNothing(key: Key, ops: History, n: nat)
    requires Serial(FlowStoreOf(key), ops) && n < |ops| && ops[n].Asked? && !Redeems(ops[n].answer)
    ensures After(FlowStoreOf(key), ops[..n + 1]) == After(FlowStoreOf(key), ops[..n])
  {
    PrefixSerial(FlowStoreOf(key), ops, n + 1);
    assert ops[..n + 1][..n] == ops[..n];
  }

  /** Both for every interleaving of creates and consumes, through its serial history. */
  lemma InterleavedConsumptions(
      key: Key, states: seq<State<StateDigest, Flow, ConsumeRequest, ConsumeAnswer>>,
      events: seq<Event<StateDigest, Flow, ConsumeRequest>>,
      n: nat, a: nat, b: nat)
    requires IsRun(System(FlowStoreOf(key)), states, events) && n < |states| && CreatedByCreate(key, states[n].ops)
    requires a < |states[n].ops| && b < |states[n].ops| && states[n].ops[a].Asked? && states[n].ops[b].Asked?
    requires states[n].ops[a].k == states[n].ops[b].k && Redeems(states[n].ops[a].answer)
    requires Redeems(states[n].ops[b].answer)
    ensures a == b && states[n].ops[a].answer.Consumed?
  {
    RunsAreSerial(FlowStoreOf(key), states, events, n);
    var _, _ := CustodyKept(key, states[n].ops, a);
  }

  /** `oauth_flows` served one request at a time. */
  class FlowStore {
    var table: Table
    const key: Key

    constructor (key: Key)
      ensures table == map[] && this.key == key
    {
      table := map[];
      this.key := key;
    }

    method Create(r: CreateRequest, d: Draw, now: int) returns (answer: Result<NewFlow, CreateError>)
      requires ProperDraw(d) && StateDigest(d.state) !in table
      modifies this
      ensures answer.Ok? <==> ValidName(r.provider) && ValidReturn(r.returnTo) && now < r.expiresAt
      ensures answer.Ok? ==> answer.value == NewFlow(d.state, d.verifier, S256(d.verifier), Some(d.nonce), r.expiresAt)
      ensures answer == Err(InvalidProvider) <==> !ValidName(r.provider)
      ensures answer == Err(InvalidReturnTo) <==> ValidName(r.provider) && !ValidReturn(r.returnTo)
      ensures table == if answer.Ok? then old(table)[StateDigest(d.state) := RowOf(key, r, d)] else old(table)
    {
      if !ValidName(r.provider) {
        return Err(InvalidProvider);
      }
      if !ValidReturn(r.returnTo) {
        return Err(InvalidReturnTo);
      }
      if r.expiresAt <= now {
        return Err(InvalidExpiry);
      }
      var sealed := Sealed(key, d.cipherNonce, d.verifier);
      var row := Flow(r.provider, d.cipherNonce, sealed, r.returnTo, r.expiresAt, Some(d.nonce), false);
      table := table[StateDigest(d.state) := row];
      answer := Ok(NewFlow(d.state, d.verifier, S256(d.verifier), Some(d.nonce), r.expiresAt));
    }

    method ConsumeState(q: ConsumeRequest, now: int) returns (answer: ConsumeAnswer)
      modifies this
      ensures !ValidName(q.provider) || Utf8Length(q.state) > 256 || StateDigest(q.state) !in old(table) ==>
        answer == InvalidState && table == old(table)
      ensures ValidName(q.provider) && Utf8Length(q.state) <= 256 && StateDigest(q.state) in old(table) ==>
        var d := Consume(key, q, old(table)[StateDigest(q.state)], now);
        && answer == d.answer
        && table == if d.write.Some? then old(table)[StateDigest(q.state) := d.write.value] else old(table)
    {
      if !ValidName(q.provider) || Utf8Length(q.state) > 256 {
        return InvalidState;
      }
      var k := StateDigest(q.state);
      if k !in table {
        return InvalidState;
      }
      var row := table[k];
      if row.provider != q.provider {
        return ProviderMismatch;
      }
      if row.consumed {
        return AlreadyConsumed;
      }
      if row.expiresAt <= now {
        return Expired;
      }
      table := table[k := row.(consumed := true)];
      if |row.cipherNonce| != 12 {
        return Undecodable;
      }
      var verifier := Open(key, row.cipherNonce, row.verifier);
      if verifier.None? {
        return Undecodable;
      }
      answer := Consumed(verifier.value, row.oidcNonce, row.returnTo, row.expiresAt);
    }
  }
}
