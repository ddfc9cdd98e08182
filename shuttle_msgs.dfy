/**
 * The shuttle module's message server: governance-gated handlers that open
 * an interchain account on a connection, ship coins to that account over
 * ICS-20 (drawing any shortfall from the community pool first) and relay
 * arbitrary messages to it.  The bank, distribution, channel and ICA
 * controller keepers are the state below; the message router is a
 * predicate saying which messages it accepts, and an accepted MsgTransfer
 * moves the coin out of the module account.
 */
module ShuttleMsgs {
  import opened Wrappers
  import opened Coins
  import UtilsMath

  /** `ibctransfertypes.PortID`. */
  const TransferPort: string := "transfer"

  /** `timeoutTime`: five minutes, in nanoseconds and in seconds. */
  const TimeoutNanos: nat := 300_000_000_000
  const TimeoutSeconds: nat := 300

  /** `memo`: attached to every ICS-20 packet. */
  const Memo: string := ""

  const TwoTo64: nat := 0x1_0000_0000_0000_0000

  /** `uint64(ctx.BlockTime().Add(timeoutTime).UnixNano())`, with the cast's wrap-around. */
  function TimeoutTimestamp(blockTime: int): (r: nat)
    ensures r < TwoTo64
    ensures 0 <= blockTime + TimeoutNanos < TwoTo64 ==> r == blockTime + TimeoutNanos
  {
    (blockTime + TimeoutNanos) % TwoTo64
  }

  /** A message as the protobuf `Any` carries it; `cached` is `None` when its cached value is not a `proto.Message`. */
  datatype Any = Any(typeUrl: string, cached: Option<ProtoMsg>)

  datatype ProtoMsg = ProtoMsg(typeUrl: string, value: seq<bv8>)

  /** The messages the handlers hand to the router. */
  datatype Packet =
    | RegisterInterchainAccount(connectionId: string, owner: string, version: string)
    | Transfer(sourcePort: string, sourceChannel: string, token: Coin, sender: string,
               receiver: string, timeoutTimestamp: nat, memo: string)
    | SendTx(owner: string, connectionId: string, relativeTimeout: nat, data: seq<bv8>, txMemo: string)

  datatype ShuttleError =
    | InvalidSigner
    | PortUnavailable
    | AccountExists
    | ChannelNotFound
    | MultihopUnsupported
    | HopIndexPanic
    | AccountNotFound
    | InsufficientPool
    | RouterRejected
    | InvalidProposalMsg(typeUrl: string)
    | SerializeFailed

  /**
   * What the handlers read and write: the shuttle module account's balance,
   * the community pool, the interchain accounts by (connection, port), the
   * transfer channels' connection hops, and every message the router has
   * accepted so far.
   */
  datatype ShuttleState = ShuttleState(
    moduleBalance: Coins, communityPool: Coins,
    accounts: map<(string, string), string>, channels: map<string, seq<string>>,
    dispatched: seq<Packet>)

  predicate Sound(st: ShuttleState) {
    Valid(st.moduleBalance) && Valid(st.communityPool)
  }

  /**
   * The keeper's fixed inputs: the authority allowed to send the messages,
   * the module account's address, and the ICA controller port derived from
   * it (`None` when `GetOwnerAndPortID` fails).
   */
  datatype Env = Env(authority: string, owner: string, portId: Option<string>)

  datatype MsgRegisterAccount = MsgRegisterAccount(authority: string, connectionId: string)
  datatype MsgSendFunds = MsgSendFunds(authority: string, channelId: string, amount: seq<Coin>)
  datatype MsgSendMessages = MsgSendMessages(authority: string, connectionId: string, messages: seq<Any>)

  /** A single coin as a coin set. */
  function CoinSet(c: Coin): (r: Coins)
    ensures Valid(r)
    ensures forall d :: AmountOf(r, d) == if d == c.denom then c.amount else 0
  {
    if c.amount > 0 then map[c.denom := c.amount] else map[]
  }

  /**
   * `executeMsg`: the router runs the message or refuses it; an ICS-20
   * transfer escrows the coin from the module account and fails when the
   * account does not hold it.
   */
  function Execute(st: ShuttleState, p: Packet, accepts: Packet -> bool): (r: Option<ShuttleState>)
    requires Sound(st)
    ensures r.Some? ==> Sound(r.value) && r.value.dispatched == st.dispatched + [p]
  {
    if !accepts(p) then None
    else if p.Transfer? then
      var escrowed := Sub(st.moduleBalance, CoinSet(p.token));
      if escrowed.None? then None
      else Some(st.(moduleBalance := escrowed.value, dispatched := st.dispatched + [p]))
    else Some(st.(dispatched := st.dispatched + [p]))
  }

  /** `RegisterAccount`. */
  function RegisterAccountOutcome(st: ShuttleState, env: Env, req: MsgRegisterAccount, accepts: Packet -> bool): Result<ShuttleState, ShuttleError>
    requires Sound(st)
  {
    if req.authority != env.authority then Err(InvalidSigner)
    else if env.portId.None? then Err(PortUnavailable)
    else if (req.connectionId, env.portId.value) in st.accounts then Err(AccountExists)
    else
      match Execute(st, RegisterInterchainAccount(req.connectionId, env.owner, ""), accepts)
      case None => Err(RouterRejected)
      case Some(st') => Ok(st')
  }

  /** `DistributeFromFeePool`: the pool must cover the amount, which moves to the module account. */
  function DistributeFromFeePool(st: ShuttleState, amount: Coins): (r: Result<ShuttleState, ShuttleError>)
    requires Sound(st) && Valid(amount)
    ensures r.Ok? <==> IsAllGTE(st.communityPool, amount)
    ensures r.Err? ==> r.error == InsufficientPool
    ensures r.Ok? ==> Sound(r.value)
  {
    match Sub(st.communityPool, amount)
    case None => Err(InsufficientPool)
    case Some(pool) => Ok(st.(communityPool := pool, moduleBalance := Add(st.moduleBalance, amount)))
  }

  /** The MsgTransfer that ships `c` from the module account to the interchain account. */
  function TransferOf(channelId: string, owner: string, receiver: string, timeout: nat, c: Coin): Packet {
    Transfer(TransferPort, channelId, c, owner, receiver, timeout, Memo)
  }

  function TransfersOf(channelId: string, owner: string, receiver: string, timeout: nat, coins: seq<Coin>): (r: seq<Packet>)
    ensures |r| == |coins|
    ensures forall i :: 0 <= i < |coins| ==> r[i] == TransferOf(channelId, owner, receiver, timeout, coins[i])
  {
    seq(|coins|, i requires 0 <= i < |coins| => TransferOf(channelId, owner, receiver, timeout, coins[i]))
  }

  /** The per-coin dispatch loop: one transfer per coin, in order, stopping at the first refusal. */
  function Dispatch(st: ShuttleState, channelId: string, owner: string, receiver: string, timeout: nat,
                    coins: seq<Coin>, accepts: Packet -> bool): (r: Result<ShuttleState, ShuttleError>)
    requires Sound(st)
    ensures r.Ok? ==> Sound(r.value)
    ensures r.Err? ==> r.error == RouterRejected
    decreases |coins|
  {
    if coins == [] then Ok(st)
    else
      match Execute(st, TransferOf(channelId, owner, receiver, timeout, coins[0]), accepts)
      case None => Err(RouterRejected)
      case Some(st') => Dispatch(st', channelId, owner, receiver, timeout, coins[1..], accepts)
  }

  /** The part of `amount` the module account cannot cover. */
  function Shortfall(st: ShuttleState, amount: seq<Coin>): (r: Coins)
    requires Sound(st) && ValidSeq(amount)
    ensures Valid(r)
  {
    UtilsMath.SaturateSub(FromSeq(amount), st.moduleBalance)
  }

  /** The community-pool draw, made only when there is a shortfall. */
  function Fund(st: ShuttleState, amount: seq<Coin>): (r: Result<ShuttleState, ShuttleError>)
    requires Sound(st) && ValidSeq(amount)
    ensures r.Ok? ==> Sound(r.value)
  {
    DrawShortfall(st, Shortfall(st, amount))
  }

  function DrawShortfall(st: ShuttleState, shortfall: Coins): (r: Result<ShuttleState, ShuttleError>)
    requires Sound(st) && Valid(shortfall)
    ensures r.Ok? ==> Sound(r.value)
  {
    if IsEmpty(shortfall) then Ok(st) else DistributeFromFeePool(st, shortfall)
  }

  /**
   * The transfer channel's interchain account: the channel must exist, have
   * at most one connection hop (none at all makes the Go code index an
   * empty slice and panic) and an interchain account on that hop.
   */
  function Receiver(st: ShuttleState, portId: string, channelId: string): Result<string, ShuttleError> {
    if channelId !in st.channels then Err(ChannelNotFound)
    else
      var hops := st.channels[channelId];
      if |hops| > 1 then Err(MultihopUnsupported)
      else if |hops| == 0 then Err(HopIndexPanic)
      else if (hops[0], portId) !in st.accounts then Err(AccountNotFound)
      else Ok(st.accounts[(hops[0], portId)])
  }

  /** `SendFunds`. */
  function SendFundsOutcome(st: ShuttleState, env: Env, req: MsgSendFunds, blockTime: int, accepts: Packet -> bool): (r: Result<ShuttleState, ShuttleError>)
    requires Sound(st) && ValidSeq(req.amount)
    ensures r.Ok? ==> Sound(r.value)
  {
    if req.authority != env.authority then Err(InvalidSigner)
    else if env.portId.None? then Err(PortUnavailable)
    else
      match Receiver(st, env.portId.value, req.channelId)
      case Err(e) => Err(e)
      case Ok(address) =>
        match Fund(st, req.amount)
        case Err(e) => Err(e)
        case Ok(funded) => Dispatch(funded, req.channelId, env.owner, address, TimeoutTimestamp(blockTime), req.amount, accepts)
  }

  /** `convertToProtoMessages`: the cached values in order, or the first entry that has none. */
  function ProtoMessages(anys: seq<Any>): Result<seq<ProtoMsg>, ShuttleError>
  {
    if anys == [] then Ok([])
    else if anys[0].cached.None? then Err(InvalidProposalMsg(anys[0].typeUrl))
    else
      match ProtoMessages(anys[1..])
      case Err(e) => Err(e)
      case Ok(rest) => Ok([anys[0].cached.value] + rest)
  }

  /** `SendMessages`; `serialize` is `SerializeCosmosTx` with the keeper's codec. */
  function SendMessagesOutcome(st: ShuttleState, env: Env, req: MsgSendMessages, serialize: seq<ProtoMsg> -> Option<seq<bv8>>,
                        accepts: Packet -> bool): Result<ShuttleState, ShuttleError>
    requires Sound(st)
  {
    if req.authority != env.authority then Err(InvalidSigner)
    else
      match ProtoMessages(req.messages)
      case Err(e) => Err(e)
      case Ok(msgs) =>
        match serialize(msgs)
        case None => Err(SerializeFailed)
        case Some(data) =>
          match Execute(st, SendTx(env.owner, req.connectionId, TimeoutSeconds, data, Memo), accepts)
          case None => Err(RouterRejected)
          case Some(st') => Ok(st')
  }

  // ---------------------------------------------------------------------
  // Properties

  /** Each handler rejects a sender other than the authority before looking at anything else. */
  lemma AuthorityCheckedFirst(st: ShuttleState, env: Env, accepts: Packet -> bool, blockTime: int,
                              serialize: seq<ProtoMsg> -> Option<seq<bv8>>,
                              reg: MsgRegisterAccount, send: MsgSendFunds, relay: MsgSendMessages)
    requires Sound(st) && ValidSeq(send.amount)
    ensures reg.authority != env.authority ==> RegisterAccountOutcome(st, env, reg, accepts) == Err(InvalidSigner)
    ensures send.authority != env.authority ==> SendFundsOutcome(st, env, send, blockTime, accepts) == Err(InvalidSigner)
    ensures relay.authority != env.authority ==> SendMessagesOutcome(st, env, relay, serialize, accepts) == Err(InvalidSigner)
  {
  }

  /**
   * Registration succeeds exactly when the sender is the authority, the port
   * is known, no interchain account exists yet on the connection and the
   * router accepts the registration; it then only records that message.
   */
  lemma RegisterAccountCases(st: ShuttleState, env: Env, req: MsgRegisterAccount, accepts: Packet -> bool)
    requires Sound(st)
    ensures var r := RegisterAccountOutcome(st, env, req, accepts);
      && (req.authority == env.authority && env.portId.Some? && (req.connectionId, env.portId.value) in st.accounts ==> r == Err(AccountExists))
      && (r.Ok? <==> req.authority == env.authority && env.portId.Some? && (req.connectionId, env.portId.value) !in st.accounts
                     && accepts(RegisterInterchainAccount(req.connectionId, env.owner, "")))
      && (r.Ok? ==> r.value == st.(dispatched := st.dispatched + [RegisterInterchainAccount(req.connectionId, env.owner, "")]))
  {
  }

  /**
   * SendFunds checks, in this order: the channel exists, it has at most one
   * connection hop, it has one at all, and an interchain account exists on
   * that hop; the receiver is that account.
   */
  lemma SendFundsGuardOrder(st: ShuttleState, env: Env, req: MsgSendFunds, blockTime: int, accepts: Packet -> bool)
    requires Sound(st) && ValidSeq(req.amount)
    requires req.authority == env.authority && env.portId.Some?
    ensures var r, port := SendFundsOutcome(st, env, req, blockTime, accepts), env.portId.value;
      && (req.channelId !in st.channels ==> r == Err(ChannelNotFound))
      && (req.channelId in st.channels && |st.channels[req.channelId]| > 1 ==> r == Err(MultihopUnsupported))
      && (req.channelId in st.channels && |st.channels[req.channelId]| == 0 ==> r == Err(HopIndexPanic))
      && (req.channelId in st.channels && |st.channels[req.channelId]| == 1 ==>
            ((st.channels[req.channelId][0], port) !in st.accounts ==> r == Err(AccountNotFound)))
      && (Receiver(st, port, req.channelId).Ok? <==>
            req.channelId in st.channels && |st.channels[req.channelId]| == 1 && (st.channels[req.channelId][0], port) in st.accounts)
      && (Receiver(st, port, req.channelId).Ok? ==>
            Receiver(st, port, req.channelId).value == st.accounts[(st.channels[req.channelId][0], port)])
  {
  }

  /** Splitting the first coin off a valid coin slice. */
  lemma FromSeqFirst(coins: seq<Coin>, d: Denom)
    requires ValidSeq(coins) && coins != []
    ensures ValidSeq(coins[1..])
    ensures AmountOf(FromSeq(coins), d) == AmountOf(CoinSet(coins[0]), d) + AmountOf(FromSeq(coins[1..]), d)
  {
    var rest := coins[1..];
    assert ValidSeq(rest) by {
      forall i, j | 0 <= i < j < |rest| ensures rest[i].denom != rest[j].denom {
        assert rest[i] == coins[i + 1] && rest[j] == coins[j + 1];
      }
    }
    assert forall i :: 0 <= i < |rest| ==> rest[i] == coins[i + 1];
    if d == coins[0].denom {
      assert d !in FromSeq(rest);
    } else if exists i :: 1 <= i < |coins| && coins[i].denom == d {
      var i :| 1 <= i < |coins| && coins[i].denom == d;
      assert rest[i - 1] == coins[i];
    } else {
      assert d !in FromSeq(rest);
    }
  }

  /** The empty slice is the empty coin set. */
  lemma FromSeqEmpty(coins: seq<Coin>)
    requires ValidSeq(coins) && coins == []
    ensures FromSeq(coins) == map[]
  {
  }

  /**
   * A dispatch that succeeds has recorded one transfer per coin in order,
   * taken exactly the coins of the slice out of the module account and left
   * everything else as it was.
   */
  lemma {:induction false} DispatchEffect(st: ShuttleState, channelId: string, owner: string, receiver: string, timeout: nat,
                                          coins: seq<Coin>, accepts: Packet -> bool)
    requires Sound(st) && ValidSeq(coins)
    requires Dispatch(st, channelId, owner, receiver, timeout, coins, accepts).Ok?
    decreases |coins|
    ensures var r := Dispatch(st, channelId, owner, receiver, timeout, coins, accepts).value;
      && r.dispatched == st.dispatched + TransfersOf(channelId, owner, receiver, timeout, coins)
      && r.communityPool == st.communityPool && r.accounts == st.accounts && r.channels == st.channels
      && forall d :: AmountOf(r.moduleBalance, d) + AmountOf(FromSeq(coins), d) == AmountOf(st.moduleBalance, d)
  {
    if coins == [] {
      FromSeqEmpty(coins);
      assert st.dispatched + TransfersOf(channelId, owner, receiver, timeout, coins) == st.dispatched;
    } else {
      var p := TransferOf(channelId, owner, receiver, timeout, coins[0]);
      var st' := Execute(st, p, accepts).value;
      TransferStep(st, p, accepts);
      FromSeqFirst(coins, "");
      DispatchEffect(st', channelId, owner, receiver, timeout, coins[1..], accepts);
      var r := Dispatch(st', channelId, owner, receiver, timeout, coins[1..], accepts).value;
      TransfersCons(channelId, owner, receiver, timeout, coins);
      AmountsCompose(st.moduleBalance, st'.moduleBalance, r.moduleBalance, coins);
    }
  }

  /** An accepted transfer takes its coin out of the module account and changes nothing else but the record. */
  lemma TransferStep(st: ShuttleState, p: Packet, accepts: Packet -> bool)
    requires Sound(st) && p.Transfer? && Execute(st, p, accepts).Some?
    ensures var st' := Execute(st, p, accepts).value;
      && st'.communityPool == st.communityPool && st'.accounts == st.accounts && st'.channels == st.channels
      && forall d :: AmountOf(st'.moduleBalance, d) + AmountOf(CoinSet(p.token), d) == AmountOf(st.moduleBalance, d)
  {
  }

  lemma TransfersCons(channelId: string, owner: string, receiver: string, timeout: nat, coins: seq<Coin>)
    requires coins != []
    ensures TransfersOf(channelId, owner, receiver, timeout, coins) ==
      [TransferOf(channelId, owner, receiver, timeout, coins[0])] + TransfersOf(channelId, owner, receiver, timeout, coins[1..])
  {
    assert forall i :: 1 <= i < |coins| ==> coins[1..][i - 1] == coins[i];
  }

  /** Taking the first coin and then the rest takes the whole slice. */
  lemma AmountsCompose(before: Coins, middle: Coins, after: Coins, coins: seq<Coin>)
    requires ValidSeq(coins) && coins != [] && ValidSeq(coins[1..])
    requires forall d :: AmountOf(middle, d) + AmountOf(CoinSet(coins[0]), d) == AmountOf(before, d)
    requires forall d :: AmountOf(after, d) + AmountOf(FromSeq(coins[1..]), d) == AmountOf(middle, d)
    ensures forall d :: AmountOf(after, d) + AmountOf(FromSeq(coins), d) == AmountOf(before, d)
  {
    forall d ensures AmountOf(after, d) + AmountOf(FromSeq(coins), d) == AmountOf(before, d) {
      FromSeqFirst(coins, d);
    }
  }

  /**
   * When the module account holds every coin of the slice, the dispatch
   * succeeds exactly when the router accepts every transfer; the first
   * refusal aborts it.
   */
  lemma {:induction false} DispatchSucceeds(st: ShuttleState, channelId: string, owner: string, receiver: string, timeout: nat,
                                            coins: seq<Coin>, accepts: Packet -> bool)
    requires Sound(st) && ValidSeq(coins) && IsAllGTE(st.moduleBalance, FromSeq(coins))
    decreases |coins|
    ensures Dispatch(st, channelId, owner, receiver, timeout, coins, accepts).Ok? <==>
      forall i :: 0 <= i < |coins| ==> accepts(TransferOf(channelId, owner, receiver, timeout, coins[i]))
  {
    if coins != [] {
      var p := TransferOf(channelId, owner, receiver, timeout, coins[0]);
      EscrowFirst(st.moduleBalance, coins);
      AcceptsAllRest(channelId, owner, receiver, timeout, coins, accepts);
      if accepts(p) {
        var left := Sub(st.moduleBalance, CoinSet(coins[0])).value;
        var st' := st.(moduleBalance := left, dispatched := st.dispatched + [p]);
        assert Execute(st, p, accepts) == Some(st');
        assert Dispatch(st, channelId, owner, receiver, timeout, coins, accepts) ==
               Dispatch(st', channelId, owner, receiver, timeout, coins[1..], accepts);
        DispatchSucceeds(st', channelId, owner, receiver, timeout, coins[1..], accepts);
      } else {
        assert Execute(st, p, accepts).None?;
      }
    }
  }

  /** A balance covering a coin slice covers its first coin, and what is left after escrowing it covers the rest. */
  lemma EscrowFirst(balance: Coins, coins: seq<Coin>)
    requires Valid(balance) && ValidSeq(coins) && coins != [] && IsAllGTE(balance, FromSeq(coins))
    ensures IsAllGTE(balance, CoinSet(coins[0]))
    ensures ValidSeq(coins[1..]) && IsAllGTE(Sub(balance, CoinSet(coins[0])).value, FromSeq(coins[1..]))
  {
    FromSeqFirst(coins, coins[0].denom);
    assert IsAllGTE(balance, CoinSet(coins[0]));
    var left := Sub(balance, CoinSet(coins[0])).value;
    forall d ensures AmountOf(FromSeq(coins[1..]), d) <= AmountOf(left, d) {
      FromSeqFirst(coins, d);
    }
    AllGTEByAmounts(left, FromSeq(coins[1..]));
  }

  /** Every transfer is accepted iff the first one and all the rest are. */
  lemma AcceptsAllRest(channelId: string, owner: string, receiver: string, timeout: nat, coins: seq<Coin>, accepts: Packet -> bool)
    requires coins != []
    ensures (forall i :: 0 <= i < |coins| ==> accepts(TransferOf(channelId, owner, receiver, timeout, coins[i]))) <==>
      accepts(TransferOf(channelId, owner, receiver, timeout, coins[0])) &&
      (forall i :: 0 <= i < |coins[1..]| ==> accepts(TransferOf(channelId, owner, receiver, timeout, coins[1..][i])))
  {
    assert forall i :: 0 <= i < |coins[1..]| ==> coins[1..][i] == coins[i + 1];
    assert forall i :: 1 <= i < |coins| ==> coins[i] == coins[1..][i - 1];
  }

  /** After the pool draw the module account covers the whole amount. */
  lemma FundCovers(st: ShuttleState, amount: seq<Coin>)
    requires Sound(st) && ValidSeq(amount) && Fund(st, amount).Ok?
    ensures IsAllGTE(Fund(st, amount).value.moduleBalance, FromSeq(amount))
    ensures var f := Fund(st, amount).value;
      forall d :: AmountOf(f.moduleBalance, d) == AmountOf(st.moduleBalance, d) + AmountOf(Shortfall(st, amount), d)
  {
    var f := Fund(st, amount).value;
    var a := FromSeq(amount);
    DrawAdds(st, Shortfall(st, amount));
    forall d ensures AmountOf(a, d) <= AmountOf(f.moduleBalance, d) {
      UtilsMath.SaturateSubAmount(a, st.moduleBalance, d);
    }
    AllGTEByAmounts(f.moduleBalance, a);
  }

  /** A draw that succeeds adds the shortfall to the module account. */
  lemma DrawAdds(st: ShuttleState, shortfall: Coins)
    requires Sound(st) && Valid(shortfall) && DrawShortfall(st, shortfall).Ok?
    ensures forall d :: AmountOf(DrawShortfall(st, shortfall).value.moduleBalance, d) == AmountOf(st.moduleBalance, d) + AmountOf(shortfall, d)
  {
    if IsEmpty(shortfall) {
      assert forall d :: AmountOf(shortfall, d) == 0;
    }
  }

  lemma SubNothing(a: Coins)
    requires Valid(a)
    ensures Sub(a, map[]) == Some(a)
  {
    assert IsAllGTE(a, map[]);
    Extensional(Sub(a, map[]).value, a);
  }

  /** The draw fails exactly when the pool cannot cover the shortfall, and takes exactly the shortfall from it. */
  lemma DrawCases(st: ShuttleState, shortfall: Coins)
    requires Sound(st) && Valid(shortfall)
    ensures IsEmpty(shortfall) ==> DrawShortfall(st, shortfall) == Ok(st)
    ensures DrawShortfall(st, shortfall).Ok? <==> IsAllGTE(st.communityPool, shortfall)
    ensures DrawShortfall(st, shortfall).Err? ==> DrawShortfall(st, shortfall).error == InsufficientPool
    ensures DrawShortfall(st, shortfall).Ok? ==> DrawShortfall(st, shortfall).value.communityPool == Sub(st.communityPool, shortfall).value
  {
    if IsEmpty(shortfall) {
      SubNothing(st.communityPool);
    }
  }

  /**
   * Only the shortfall is drawn from the community pool and only when it is
   * non-empty: the draw fails exactly when the pool cannot cover it.
   */
  lemma FundCases(st: ShuttleState, amount: seq<Coin>)
    requires Sound(st) && ValidSeq(amount)
    ensures IsEmpty(Shortfall(st, amount)) ==> Fund(st, amount) == Ok(st)
    ensures Fund(st, amount).Ok? <==> IsAllGTE(st.communityPool, Shortfall(st, amount))
    ensures Fund(st, amount).Err? ==> Fund(st, amount).error == InsufficientPool
    ensures Fund(st, amount).Ok? ==> Fund(st, amount).value.communityPool == Sub(st.communityPool, Shortfall(st, amount)).value
  {
    DrawCases(st, Shortfall(st, amount));
  }

  /** Funding by the shortfall and then paying out the amount leaves the balance at SaturateSub(balance, amount). */
  lemma PayoutArithmetic(balance: Coins, amount: Coins, funded: Coins, left: Coins)
    requires Valid(balance) && Valid(amount) && Valid(funded) && Valid(left)
    requires forall d :: AmountOf(funded, d) == AmountOf(balance, d) + AmountOf(UtilsMath.SaturateSub(amount, balance), d)
    requires forall d :: AmountOf(left, d) + AmountOf(amount, d) == AmountOf(funded, d)
    ensures left == UtilsMath.SaturateSub(balance, amount)
  {
    forall d ensures AmountOf(left, d) == AmountOf(UtilsMath.SaturateSub(balance, amount), d) {
      UtilsMath.SaturateSubAmount(balance, amount, d);
      UtilsMath.SaturateSubAmount(amount, balance, d);
    }
    Extensional(left, UtilsMath.SaturateSub(balance, amount));
  }

  /** A subtraction that cannot go negative is a saturating one. */
  lemma SubIsSaturating(a: Coins, b: Coins)
    requires Valid(a) && Valid(b) && IsAllGTE(a, b)
    ensures Sub(a, b).value == UtilsMath.SaturateSub(a, b)
  {
    forall d ensures AmountOf(Sub(a, b).value, d) == AmountOf(UtilsMath.SaturateSub(a, b), d) {
      UtilsMath.SaturateSubAmount(a, b, d);
    }
    Extensional(Sub(a, b).value, UtilsMath.SaturateSub(a, b));
  }

  /**
   * A SendFunds that succeeds leaves the module account at
   * SaturateSub(balance, amount) and the community pool at
   * SaturateSub(pool, SaturateSub(amount, balance)), the balances the
   * envoy handler test expects, and has dispatched one transfer per coin,
   * in order, to the channel's interchain account.
   */
  lemma SendFundsBalances(st: ShuttleState, env: Env, req: MsgSendFunds, blockTime: int, accepts: Packet -> bool)
    requires Sound(st) && ValidSeq(req.amount)
    requires SendFundsOutcome(st, env, req, blockTime, accepts).Ok?
    ensures env.portId.Some? && Receiver(st, env.portId.value, req.channelId).Ok?
    ensures var r := SendFundsOutcome(st, env, req, blockTime, accepts).value;
      var address := Receiver(st, env.portId.value, req.channelId).value;
      && r.moduleBalance == UtilsMath.SaturateSub(st.moduleBalance, FromSeq(req.amount))
      && r.communityPool == UtilsMath.SaturateSub(st.communityPool, UtilsMath.SaturateSub(FromSeq(req.amount), st.moduleBalance))
      && r.dispatched == st.dispatched + TransfersOf(req.channelId, env.owner, address, TimeoutTimestamp(blockTime), req.amount)
      && r.accounts == st.accounts && r.channels == st.channels
  {
    var address := Receiver(st, env.portId.value, req.channelId).value;
    var f := Fund(st, req.amount).value;
    var timeout := TimeoutTimestamp(blockTime);
    var r := Dispatch(f, req.channelId, env.owner, address, timeout, req.amount, accepts).value;
    assert SendFundsOutcome(st, env, req, blockTime, accepts).value == r;
    FundCovers(st, req.amount);
    FundCases(st, req.amount);
    DispatchEffect(f, req.channelId, env.owner, address, timeout, req.amount, accepts);
    PayoutArithmetic(st.moduleBalance, FromSeq(req.amount), f.moduleBalance, r.moduleBalance);
    SubIsSaturating(st.communityPool, Shortfall(st, req.amount));
  }

  /**
   * Once the guards pass, SendFunds succeeds exactly when the community pool
   * covers the shortfall and the router accepts every transfer.
   */
  lemma SendFundsSucceeds(st: ShuttleState, env: Env, req: MsgSendFunds, blockTime: int, accepts: Packet -> bool)
    requires Sound(st) && ValidSeq(req.amount)
    requires req.authority == env.authority && env.portId.Some? && Receiver(st, env.portId.value, req.channelId).Ok?
    ensures var address := Receiver(st, env.portId.value, req.channelId).value;
      SendFundsOutcome(st, env, req, blockTime, accepts).Ok? <==>
        IsAllGTE(st.communityPool, Shortfall(st, req.amount)) &&
        forall i :: 0 <= i < |req.amount| ==>
          accepts(TransferOf(req.channelId, env.owner, address, TimeoutTimestamp(blockTime), req.amount[i]))
  {
    var address := Receiver(st, env.portId.value, req.channelId).value;
    FundCases(st, req.amount);
    if Fund(st, req.amount).Ok? {
      FundCovers(st, req.amount);
      DispatchSucceeds(Fund(st, req.amount).value, req.channelId, env.owner, address, TimeoutTimestamp(blockTime), req.amount, accepts);
    }
  }

  /**
   * `convertToProtoMessages` fails exactly when some entry has no proto
   * message, naming the first such entry; otherwise it keeps every message
   * in order.
   */
  lemma {:induction false} ProtoMessagesMeaning(anys: seq<Any>)
    ensures ProtoMessages(anys).Ok? <==> forall i :: 0 <= i < |anys| ==> anys[i].cached.Some?
    ensures ProtoMessages(anys).Ok? ==>
      |ProtoMessages(anys).value| == |anys| && forall i :: 0 <= i < |anys| ==> ProtoMessages(anys).value[i] == anys[i].cached.value
    ensures ProtoMessages(anys).Err? ==>
      exists i :: (0 <= i < |anys| && anys[i].cached.None? &&
                   (forall j :: 0 <= j < i ==> anys[j].cached.Some?) && ProtoMessages(anys).error == InvalidProposalMsg(anys[i].typeUrl))
  {
    if anys != [] && anys[0].cached.Some? {
      var rest := anys[1..];
      ProtoMessagesMeaning(rest);
      forall i | 0 <= i < |rest| ensures rest[i] == anys[i + 1] { }
      if ProtoMessages(rest).Err? {
        var i :| 0 <= i < |rest| && rest[i].cached.None? && (forall j :: 0 <= j < i ==> rest[j].cached.Some?) &&
          ProtoMessages(rest).error == InvalidProposalMsg(rest[i].typeUrl);
        assert anys[i + 1] == rest[i];
        assert forall j :: 0 <= j < i + 1 ==> anys[j].cached.Some? by {
          forall j | 0 < j < i + 1 ensures anys[j].cached.Some? { assert anys[j] == rest[j - 1]; }
        }
      } else {
        forall i | 0 < i < |anys| ensures anys[i] == rest[i - 1] { }
      }
    } else if anys != [] {
      assert anys[0].cached.None?;
    }
  }

  /** A successful SendMessages records exactly one SendTx carrying the serialised messages and a five-minute relative timeout. */
  lemma SendMessagesDispatch(st: ShuttleState, env: Env, req: MsgSendMessages, serialize: seq<ProtoMsg> -> Option<seq<bv8>>,
                             accepts: Packet -> bool)
    requires Sound(st)
    ensures var r := SendMessagesOutcome(st, env, req, serialize, accepts);
      && (req.authority == env.authority && ProtoMessages(req.messages).Err? ==> r == Err(ProtoMessages(req.messages).error))
      && (r.Ok? <==> req.authority == env.authority && ProtoMessages(req.messages).Ok? &&
                     serialize(ProtoMessages(req.messages).value).Some? &&
                     accepts(SendTx(env.owner, req.connectionId, TimeoutSeconds, serialize(ProtoMessages(req.messages).value).value, Memo)))
      && (r.Ok? ==> r.value == st.(dispatched := st.dispatched + [SendTx(env.owner, req.connectionId, 300,
                                                                         serialize(ProtoMessages(req.messages).value).value, "")]))
  {
  }

  // ---------------------------------------------------------------------
  // The handlers over mutable keeper state

  /** `convertToProtoMessages`, the appending loop. */
  method ConvertToProtoMessages(anys: seq<Any>) returns (r: Result<seq<ProtoMsg>, ShuttleError>)
    ensures r == ProtoMessages(anys)
  {
    var protoMsgs: seq<ProtoMsg> := [];
    var i := 0;
    while i < |anys|
      invariant 0 <= i <= |anys|
      invariant ProtoMessages(anys).Ok? ==> ProtoMessages(anys[i..]).Ok? && ProtoMessages(anys).value == protoMsgs + ProtoMessages(anys[i..]).value
      invariant ProtoMessages(anys).Err? ==> ProtoMessages(anys[i..]) == ProtoMessages(anys)
    {
      assert anys[i..][0] == anys[i] && anys[i..][1..] == anys[i + 1..];
      if anys[i].cached.None? {
        return Err(InvalidProposalMsg(anys[i].typeUrl));
      }
      protoMsgs := protoMsgs + [anys[i].cached.value];
      i := i + 1;
    }
    assert anys[i..] == [] && protoMsgs + [] == protoMsgs;
    return Ok(protoMsgs);
  }

  class ShuttleKeeper {
    const env: Env
    var moduleBalance: Coins
    var communityPool: Coins
    var accounts: map<(string, string), string>
    var channels: map<string, seq<string>>
    var dispatched: seq<Packet>

    function State(): ShuttleState
      reads this
    {
      ShuttleState(moduleBalance, communityPool, accounts, channels, dispatched)
    }

    constructor(env: Env, st: ShuttleState)
      ensures this.env == env && State() == st
    {
      this.env := env;
      moduleBalance, communityPool, accounts, channels, dispatched :=
        st.moduleBalance, st.communityPool, st.accounts, st.channels, st.dispatched;
    }

    /** `executeMsg`, with the router's effect on the module account. */
    method ExecuteMsg(p: Packet, accepts: Packet -> bool) returns (ok: bool)
      requires Sound(State())
      modifies this
      ensures ok == Execute(old(State()), p, accepts).Some?
      ensures ok ==> State() == Execute(old(State()), p, accepts).value
      ensures !ok ==> State() == old(State())
    {
      if !accepts(p) {
        return false;
      }
      if p.Transfer? {
        var escrowed := Sub(moduleBalance, CoinSet(p.token));
        if escrowed.None? {
          return false;
        }
        moduleBalance := escrowed.value;
      }
      dispatched := dispatched + [p];
      return true;
    }

    method RegisterAccount(req: MsgRegisterAccount, accepts: Packet -> bool) returns (r: Result<(), ShuttleError>)
      requires Sound(State())
      modifies this
      ensures var spec := RegisterAccountOutcome(old(State()), env, req, accepts);
        (r.Ok? <==> spec.Ok?) && (r.Err? ==> r.error == spec.error) && (r.Ok? ==> State() == spec.value)
    {
      if req.authority != env.authority {
        return Err(InvalidSigner);
      }
      if env.portId.None? {
        return Err(PortUnavailable);
      }
      if (req.connectionId, env.portId.value) in accounts {
        return Err(AccountExists);
      }
      var ok := ExecuteMsg(RegisterInterchainAccount(req.connectionId, env.owner, ""), accepts);
      if !ok {
        return Err(RouterRejected);
      }
      return Ok(());
    }

    method SendFunds(req: MsgSendFunds, blockTime: int, accepts: Packet -> bool) returns (r: Result<(), ShuttleError>)
      requires Sound(State()) && ValidSeq(req.amount)
      modifies this
      ensures var spec := SendFundsOutcome(old(State()), env, req, blockTime, accepts);
        (r.Ok? <==> spec.Ok?) && (r.Err? ==> r.error == spec.error) && (r.Ok? ==> State() == spec.value)
    {
      if req.authority != env.authority {
        return Err(InvalidSigner);
      }
      if env.portId.None? {
        return Err(PortUnavailable);
      }
      if req.channelId !in channels {
        return Err(ChannelNotFound);
      }
      var hops := channels[req.channelId];
      if |hops| > 1 {
        return Err(MultihopUnsupported);
      }
      if |hops| == 0 {
        return Err(HopIndexPanic);
      }
      var connectionId := hops[0];
      if (connectionId, env.portId.value) !in accounts {
        return Err(AccountNotFound);
      }
      var address := accounts[(connectionId, env.portId.value)];
      assert Receiver(State(), env.portId.value, req.channelId) == Ok(address);
      var funded := FundShortfall(req.amount);
      if funded.Err? {
        return funded;
      }
      var timeout := TimeoutTimestamp(blockTime);
      r := DispatchTransfers(req.channelId, address, timeout, req.amount, accepts);
    }

    /** The community-pool draw of SendFunds. */
    method FundShortfall(amount: seq<Coin>) returns (r: Result<(), ShuttleError>)
      requires Sound(State()) && ValidSeq(amount)
      modifies this
      ensures var spec := Fund(old(State()), amount);
        (r.Ok? <==> spec.Ok?) && (r.Err? ==> r.error == spec.error) && (r.Ok? ==> State() == spec.value)
    {
      var shortfall := UtilsMath.SaturateSub(FromSeq(amount), moduleBalance);
      r := Draw(shortfall);
    }

    method Draw(shortfall: Coins) returns (r: Result<(), ShuttleError>)
      requires Sound(State()) && Valid(shortfall)
      modifies this
      ensures var spec := DrawShortfall(old(State()), shortfall);
        (r.Ok? <==> spec.Ok?) && (r.Err? ==> r.error == spec.error) && (r.Ok? ==> State() == spec.value)
    {
      if !IsEmpty(shortfall) {
        var pool := Sub(communityPool, shortfall);
        if pool.None? {
          return Err(InsufficientPool);
        }
        communityPool := pool.value;
        moduleBalance := Add(moduleBalance, shortfall);
      }
      return Ok(());
    }

    /** The per-coin transfer loop of SendFunds. */
    method DispatchTransfers(channelId: string, receiver: string, timeout: nat, coins: seq<Coin>, accepts: Packet -> bool)
      returns (r: Result<(), ShuttleError>)
      requires Sound(State())
      modifies this
      ensures var spec := Dispatch(old(State()), channelId, env.owner, receiver, timeout, coins, accepts);
        (r.Ok? <==> spec.Ok?) && (r.Err? ==> r.error == spec.error) && (r.Ok? ==> State() == spec.value)
    {
      var i := 0;
      while i < |coins|
        invariant 0 <= i <= |coins|
        invariant Sound(State())
        invariant Dispatch(State(), channelId, env.owner, receiver, timeout, coins[i..], accepts) ==
                  Dispatch(old(State()), channelId, env.owner, receiver, timeout, coins, accepts)
      {
        assert coins[i..][1..] == coins[i + 1..];
        var ok := ExecuteMsg(TransferOf(channelId, env.owner, receiver, timeout, coins[i]), accepts);
        if !ok {
          return Err(RouterRejected);
        }
        i := i + 1;
      }
      assert coins[i..] == [];
      return Ok(());
    }

    method SendMessages(req: MsgSendMessages, serialize: seq<ProtoMsg> -> Option<seq<bv8>>, accepts: Packet -> bool)
      returns (r: Result<(), ShuttleError>)
      requires Sound(State())
      modifies this
      ensures var spec := SendMessagesOutcome(old(State()), env, req, serialize, accepts);
        (r.Ok? <==> spec.Ok?) && (r.Err? ==> r.error == spec.error) && (r.Ok? ==> State() == spec.value)
    {
      if req.authority != env.authority {
        return Err(InvalidSigner);
      }
      var protoMsgs := ConvertToProtoMessages(req.messages);
      if protoMsgs.Err? {
        return Err(protoMsgs.error);
      }
      var data := serialize(protoMsgs.value);
      if data.None? {
        return Err(SerializeFailed);
      }
      var ok := ExecuteMsg(SendTx(env.owner, req.connectionId, TimeoutSeconds, data.value, Memo), accepts);
      if !ok {
        return Err(RouterRejected);
      }
      return Ok(());
    }
  }
}
