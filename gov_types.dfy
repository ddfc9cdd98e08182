/**
 * The governance values the custom x/gov module works with: weighted votes,
 * staking views of validators and delegations, tally parameters and
 * results, and proposals with their status.
 */
module GovTypes {
  import opened Wrappers
  import Dec

  datatype VoteOption = Yes | Abstain | No | NoWithVeto

  /** One option of a (possibly split) vote and the share of power it gets. */
  datatype WeightedVoteOption = WeightedVoteOption(option: VoteOption, weight: Dec.Dec)

  datatype Vote = Vote(voter: string, options: seq<WeightedVoteOption>)

  /** The parts of a bonded staking validator that the tally reads. */
  datatype Validator = Validator(operator: string, bondedTokens: nat, delegatorShares: Dec.Dec)

  /** A delegation of a voter: the validator delegated to and the shares held. */
  datatype Delegation = Delegation(validator: string, shares: Dec.Dec)

  /** `govtypes.ValidatorGovInfo`: a validator's stake, the shares of voting delegators, and its own vote. */
  datatype ValidatorGovInfo = ValidatorGovInfo(
    address: string, bondedTokens: nat, delegatorShares: Dec.Dec,
    deductions: Dec.Dec, vote: seq<WeightedVoteOption>)

  datatype TallyParams = TallyParams(quorum: Dec.Dec, threshold: Dec.Dec, vetoThreshold: Dec.Dec)

  /** A tally as stored and reported: whole tokens per option. */
  datatype TallyResult = TallyResult(yes: int, abstain: int, no: int, noWithVeto: int)

  /** `EmptyTallyResult`. */
  const EmptyTallyResult := TallyResult(0, 0, 0, 0)

  datatype ProposalStatus = Unspecified | DepositPeriod | VotingPeriod | Passed | Rejected | Failed

  datatype Proposal = Proposal(id: nat, status: ProposalStatus, finalTallyResult: Option<TallyResult>)

  /** The option totals of a tally, one `Dec` per option; a missing option reads as zero. */
  type Results = map<VoteOption, Dec.Dec>

  function Get(m: Results, o: VoteOption): Dec.Dec {
    if o in m then m[o] else 0
  }

  const AllOptions: set<VoteOption> := {Yes, Abstain, No, NoWithVeto}

  lemma InAllOptions(o: VoteOption)
    ensures o in AllOptions
  {
    match o
    case Yes =>
    case Abstain =>
    case No =>
    case NoWithVeto =>
  }

  /** The four options, each at zero, as the tally starts. */
  const ZeroResults: Results := map[Yes := 0, Abstain := 0, No := 0, NoWithVeto := 0]

  /** `NewTallyResultFromMap`: each option total truncated to whole tokens. */
  function TallyResultOf(m: Results): (r: TallyResult)
    ensures forall o :: Get(m, o) >= 0 ==> Count(r, o) >= 0 && Count(r, o) * Dec.Precision <= Get(m, o) < (Count(r, o) + 1) * Dec.Precision
  {
    TallyResult(Dec.TruncateInt(Get(m, Yes)), Dec.TruncateInt(Get(m, Abstain)),
                Dec.TruncateInt(Get(m, No)), Dec.TruncateInt(Get(m, NoWithVeto)))
  }

  /** The count a tally result reports for option `o`. */
  function Count(r: TallyResult, o: VoteOption): int {
    match o
    case Yes => r.yes
    case Abstain => r.abstain
    case No => r.no
    case NoWithVeto => r.noWithVeto
  }
}
