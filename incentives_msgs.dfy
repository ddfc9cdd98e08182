/**
 * The stateless checks of the incentives messages and governance proposals
 * (x/incentives/types/tx.go and proposals.go) and the module's registered
 * errors (errors.go).
 *
 * Bech32 decoding of the authority and the SDK's `ValidateAbstract` over a
 * proposal's title and description are not part of this model: they are
 * parameters, `decode` giving the address bytes or `None` on a decoding
 * error, and `abstractOk` standing for `ValidateAbstract` returning nil.
 * Amounts are the raw `sdk.Coins` slices the messages carry, since these
 * checks look only at their length.
 */
module IncentivesMsgs {
  import opened Wrappers
  import opened Coins
  import opened Bytes
  import IncentivesKeys
  import UtilsStrconv

  /** The errors errors.go registers under the module's codespace. */
  datatype Error =
    | FailedRefundToCommunityPool
    | FailedWithdrawFromCommunityPool
    | InvalidProposalAmount
    | InvalidProposalAuthority
    | InvalidProposalIds
    | InvalidProposalStartEndTimes
    /** The error `ValidateAbstract` returns; its code is the gov module's. */
    | AbstractInvalid

  /** The registered code of a module error. */
  function Code(e: Error): (c: nat)
    requires e != AbstractInvalid
    ensures 2 <= c <= 7
  {
    match e
    case FailedRefundToCommunityPool => 2
    case FailedWithdrawFromCommunityPool => 3
    case InvalidProposalAmount => 4
    case InvalidProposalAuthority => 5
    case InvalidProposalIds => 6
    case InvalidProposalStartEndTimes => 7
  }

  /** No two errors share a code, as `errors.Register` demands. */
  lemma CodesDistinct(e1: Error, e2: Error)
    requires e1 != AbstractInvalid && e2 != AbstractInvalid
    ensures Code(e1) == Code(e2) <==> e1 == e2
  {
  }

  datatype MsgCreateSchedule = MsgCreateSchedule(authority: string, startTime: int, endTime: int, amount: seq<Coin>)

  datatype MsgTerminateSchedules = MsgTerminateSchedules(authority: string, ids: seq<nat>)

  /**
   * `MsgCreateSchedule.ValidateBasic`: the authority must decode, the start
   * must come strictly before the end, and the amount must not be empty;
   * `None` is a nil error.
   */
  function ValidateCreate(m: MsgCreateSchedule, decode: string -> Option<seq<byte>>): (r: Option<Error>)
  {
    if decode(m.authority).None? then Some(InvalidProposalAuthority)
    else if !(m.startTime < m.endTime) then Some(InvalidProposalStartEndTimes)
    else if |m.amount| == 0 then Some(InvalidProposalAmount)
    else None
  }

  /** `MsgTerminateSchedules.ValidateBasic`: the authority must decode and some id must be listed. */
  function ValidateTerminate(m: MsgTerminateSchedules, decode: string -> Option<seq<byte>>): (r: Option<Error>)
  {
    if decode(m.authority).None? then Some(InvalidProposalAuthority)
    else if |m.ids| == 0 then Some(InvalidProposalIds)
    else None
  }

  /** A create message passes exactly when all three conditions hold. */
  lemma ValidateCreateAccepts(m: MsgCreateSchedule, decode: string -> Option<seq<byte>>)
    ensures ValidateCreate(m, decode).None? <==>
      decode(m.authority).Some? && m.startTime < m.endTime && |m.amount| > 0
  {
  }

  /** The authority is checked before anything else: a bad one is reported whatever the rest holds. */
  lemma AuthorityFirst(m: MsgCreateSchedule, t: MsgTerminateSchedules, decode: string -> Option<seq<byte>>)
    requires decode(m.authority).None? && decode(t.authority).None?
    ensures ValidateCreate(m, decode) == Some(InvalidProposalAuthority)
    ensures ValidateTerminate(t, decode) == Some(InvalidProposalAuthority)
  {
  }

  /** The time check comes before the amount check: both wrong reports the times. */
  lemma TimesBeforeAmount(m: MsgCreateSchedule, decode: string -> Option<seq<byte>>)
    requires decode(m.authority).Some? && m.startTime >= m.endTime
    ensures ValidateCreate(m, decode) == Some(InvalidProposalStartEndTimes)
  {
  }

  /** A terminate message passes exactly when its authority decodes and it lists an id. */
  lemma ValidateTerminateAccepts(m: MsgTerminateSchedules, decode: string -> Option<seq<byte>>)
    ensures ValidateTerminate(m, decode).None? <==> decode(m.authority).Some? && |m.ids| > 0
  {
  }

  /**
   * Only emptiness is checked, not the coins themselves: a zero-amount
   * entry passes even though a valid `sdk.Coins` never holds one.
   */
  lemma ZeroCoinPasses(authority: string, decode: string -> Option<seq<byte>>)
    requires decode(authority).Some?
    ensures ValidateCreate(MsgCreateSchedule(authority, 0, 1, [Coin("umars", 0)]), decode).None?
  {
  }

  /**
   * `GetSigners`: the decoded authority alone.  The decoding error is
   * ignored, so an authority that does not decode gives the empty address;
   * once `ValidateBasic` has passed, the one signer is the address its
   * authority check accepted.
   */
  function CreateSigners(m: MsgCreateSchedule, decode: string -> Option<seq<byte>>): (r: seq<seq<byte>>)
    ensures |r| == 1
    ensures ValidateCreate(m, decode).None? ==> decode(m.authority) == Some(r[0])
    ensures decode(m.authority).None? ==> r[0] == []
  {
    [AddressOrEmpty(decode(m.authority))]
  }

  function TerminateSigners(m: MsgTerminateSchedules, decode: string -> Option<seq<byte>>): (r: seq<seq<byte>>)
    ensures |r| == 1
    ensures ValidateTerminate(m, decode).None? ==> decode(m.authority) == Some(r[0])
    ensures decode(m.authority).None? ==> r[0] == []
  {
    [AddressOrEmpty(decode(m.authority))]
  }

  /** The address `AccAddressFromBech32` returns next to its error: the empty one on failure. */
  function AddressOrEmpty(a: Option<seq<byte>>): seq<byte> {
    if a.Some? then a.value else []
  }

  /** The proposal types of proposals.go. */
  const ProposalCreateIncentivesSchedule: string := "IncentivesScheduleCreation"
  const ProposalTerminalIncentivesSchedule: string := "IncentivesScheduleTermination"

  datatype CreateProposal = CreateProposal(title: string, description: string, startTime: int, endTime: int, amount: seq<Coin>)

  datatype TerminateProposal = TerminateProposal(title: string, description: string, ids: seq<nat>)

  /** Both proposals are routed to the module by its router key. */
  function ProposalRoute(): string {
    IncentivesKeys.RouterKey
  }

  /** `CreateIncentivesScheduleProposal.ValidateBasic`. */
  function ValidateCreateProposal(p: CreateProposal, abstractOk: (string, string) -> bool): (r: Option<Error>)
  {
    if !abstractOk(p.title, p.description) then Some(AbstractInvalid)
    else if !(p.startTime < p.endTime) then Some(InvalidProposalStartEndTimes)
    else if |p.amount| == 0 then Some(InvalidProposalAmount)
    else None
  }

  /** `TerminateIncentivesScheduleProposal.ValidateBasic`. */
  function ValidateTerminateProposal(p: TerminateProposal, abstractOk: (string, string) -> bool): (r: Option<Error>)
  {
    if !abstractOk(p.title, p.description) then Some(AbstractInvalid)
    else if |p.ids| == 0 then Some(InvalidProposalIds)
    else None
  }

  /**
   * Once the authority of a message and the text of a proposal are
   * accepted, the message and the proposal with the same schedule fields
   * are held to the same checks and report the same error.
   */
  lemma ProposalAgreesWithMsg(p: CreateProposal, authority: string,
                              decode: string -> Option<seq<byte>>, abstractOk: (string, string) -> bool)
    requires decode(authority).Some? && abstractOk(p.title, p.description)
    ensures ValidateCreateProposal(p, abstractOk)
         == ValidateCreate(MsgCreateSchedule(authority, p.startTime, p.endTime, p.amount), decode)
  {
  }

  lemma TerminateProposalAgreesWithMsg(p: TerminateProposal, authority: string,
                                       decode: string -> Option<seq<byte>>, abstractOk: (string, string) -> bool)
    requires decode(authority).Some? && abstractOk(p.title, p.description)
    ensures ValidateTerminateProposal(p, abstractOk) == ValidateTerminate(MsgTerminateSchedules(authority, p.ids), decode)
  {
  }

  /** A proposal whose text `ValidateAbstract` refuses fails with that error before any other check. */
  lemma AbstractFirst(p: CreateProposal, q: TerminateProposal, abstractOk: (string, string) -> bool)
    requires !abstractOk(p.title, p.description) && !abstractOk(q.title, q.description)
    ensures ValidateCreateProposal(p, abstractOk) == Some(AbstractInvalid)
    ensures ValidateTerminateProposal(q, abstractOk) == Some(AbstractInvalid)
  {
  }

  /** `arrayToString`: the same Sprint, Replace and Trim as utils' `UintArrayToString`. */
  function ArrayToString(a: seq<nat>, delim: string): (r: string)
    ensures r == UtilsStrconv.Join(UtilsStrconv.Decimals(a), delim)
  {
    UtilsStrconv.UintArrayToStringIsJoin(a, delim);
    UtilsStrconv.UintArrayToString(a, delim)
  }

  /** The ids line of a termination proposal's text. */
  lemma ArrayToStringSpaced()
    ensures ArrayToString([1, 2, 3], ", ") == "1, 2, 3"
  {
    UtilsStrconv.UintArrayToStringThree(1, 2, 3, ", ");
    UtilsStrconv.OneTwoThree();
    assert "1" + ", " + "2" + ", " + "3" == "1, 2, 3";
  }

  lemma ArrayToStringEmpty(delim: string)
    ensures ArrayToString([], delim) == ""
  {
  }
}
