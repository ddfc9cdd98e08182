/**
 * The custom `Tally`: voting power is the voter's staked tokens plus the
 * tokens locked in the vesting contract; a delegator who votes takes its
 * shares out of its validator's vote; the decision runs the quorum,
 * all-abstain, veto and threshold checks in that order.  Every vote counted
 * is deleted from the store.
 */
module GovTally {
  import opened Wrappers
  import Arith
  import Dec
  import opened GovTypes
  import opened GovPower
  import GovVesting
  import GovStore

  /** What `Tally` returns besides the tally itself. */
  datatype Decision = Decision(passes: bool, burnDeposits: bool)

  datatype TallyOutcome = TallyOutcome(passes: bool, burnDeposits: bool, tally: TallyResult)

  /**
   * What the tally reads besides the votes: the bonded validators in power
   * order and the total bonded tokens (staking keeper), each voter's
   * delegations, the validator address of an account, the vesting
   * contract's voting-power query, and the tally parameters.
   */
  datatype TallyEnv = TallyEnv(
    bonded: seq<Validator>,
    totalBonded: nat,
    delegationsOf: string -> seq<Delegation>,
    valAddrOf: string -> string,
    vesting: GovVesting.Query,
    params: TallyParams)

  /** The running state of the vote loop: validators, option totals and tokens voted. */
  datatype Acc = Acc(vals: map<string, ValidatorGovInfo>, results: Results, total: Dec.Dec)

  /** `currValidators`: every bonded validator, with no deductions and no vote yet. */
  function CurrentValidators(bonded: seq<Validator>): map<string, ValidatorGovInfo>
    decreases |bonded|
  {
    if bonded == [] then map[]
    else
      var v := bonded[|bonded| - 1];
      CurrentValidators(bonded[..|bonded| - 1])[v.operator := ValidatorGovInfo(v.operator, v.bondedTokens, v.delegatorShares, 0, [])]
  }

  /** The map holds exactly the bonded operators, each as the staking keeper reports it, with nothing deducted and no vote. */
  lemma {:induction false} CurrentValidatorsFresh(bonded: seq<Validator>)
    ensures var m := CurrentValidators(bonded);
            m.Keys == (set i | 0 <= i < |bonded| :: bonded[i].operator) &&
            forall a :: a in m ==> (m[a].deductions == 0 && m[a].vote == [] && m[a].address == a &&
              (exists i :: 0 <= i < |bonded| && bonded[i].operator == a &&
                m[a].bondedTokens == bonded[i].bondedTokens && m[a].delegatorShares == bonded[i].delegatorShares))
    decreases |bonded|
  {
    if bonded != [] {
      var init, v := bonded[..|bonded| - 1], bonded[|bonded| - 1];
      CurrentValidatorsFresh(init);
      var m := CurrentValidators(bonded);
      forall a | a in m
        ensures exists i :: (0 <= i < |bonded| && bonded[i].operator == a &&
                m[a].bondedTokens == bonded[i].bondedTokens && m[a].delegatorShares == bonded[i].delegatorShares)
      {
        if a == v.operator {
          assert bonded[|bonded| - 1] == v;
        } else {
          var i :| 0 <= i < |init| && init[i].operator == a &&
                   m[a].bondedTokens == init[i].bondedTokens && m[a].delegatorShares == init[i].delegatorShares;
          assert bonded[i] == init[i];
        }
      }
      forall a | a in (set i | 0 <= i < |bonded| :: bonded[i].operator) ensures a in m {
        var i :| 0 <= i < |bonded| && bonded[i].operator == a;
        if i < |init| { assert init[i] == bonded[i]; }
      }
      forall a | a in m ensures a in (set i | 0 <= i < |bonded| :: bonded[i].operator) {
        if a == v.operator {
          assert bonded[|bonded| - 1].operator == a;
        } else {
          var i :| 0 <= i < |init| && init[i].operator == a;
          assert bonded[i] == init[i];
        }
      }
    }
  }

  /** `IterateBondedValidatorsByPower` filling `currValidators`. */
  method BuildValidators(bonded: seq<Validator>) returns (currValidators: map<string, ValidatorGovInfo>)
    ensures currValidators == CurrentValidators(bonded)
  {
    currValidators := map[];
    var i := 0;
    while i < |bonded|
      invariant 0 <= i <= |bonded|
      invariant currValidators == CurrentValidators(bonded[..i])
    {
      var validator := bonded[i];
      assert bonded[..i + 1][..i] == bonded[..i];
      currValidators := currValidators[validator.operator :=
        ValidatorGovInfo(validator.operator, validator.bondedTokens, validator.delegatorShares, 0, [])];
      i := i + 1;
    }
    assert bonded[..|bonded|] == bonded;
  }

  /** The validator view once `voter`'s own validator (if bonded) has recorded its vote. */
  function WithOwnVote(vals: map<string, ValidatorGovInfo>, v: Vote, env: TallyEnv): map<string, ValidatorGovInfo> {
    var valAddr := env.valAddrOf(v.voter);
    if valAddr in vals then vals[valAddr := vals[valAddr].(vote := v.options)] else vals
  }

  /** The voter's tokens in vesting, as a `Dec`. */
  function VestingPower(vesting: map<string, nat>, voter: string): Dec.Dec {
    if voter in vesting then Dec.FromInt(vesting[voter]) else 0
  }

  /** One iteration of the vote loop; `None` is a panic in a delegation's `Quo`. */
  function CountVote(acc: Acc, v: Vote, env: TallyEnv, vesting: map<string, nat>): Option<Acc> {
    var deducted := Deduct(WithOwnVote(acc.vals, v, env), 0, env.delegationsOf(v.voter));
    if deducted.None? then None
    else
      var power := deducted.value.1 + VestingPower(vesting, v.voter);
      Some(Acc(deducted.value.0, AddPower(acc.results, power, v.options), acc.total + power))
  }

  /** The vote loop over the proposal's votes in store order. */
  function CountVotes(acc: Acc, votes: seq<Vote>, env: TallyEnv, vesting: map<string, nat>): Option<Acc>
    decreases |votes|
  {
    if votes == [] then Some(acc)
    else
      var next := CountVote(acc, votes[0], env, vesting);
      if next.None? then None else CountVotes(next.value, votes[1..], env, vesting)
  }

  /**
   * One counted vote: the voter's power is its delegations' worth plus its
   * vesting tokens, and goes to its options and the tokens voted; each
   * bonded validator keeps its stake, loses exactly the voter's shares in
   * it, and records the vote if it is the voter's own validator.  The
   * iteration panics exactly when a delegation is to a bonded validator
   * without delegator shares.
   */
  lemma CountVoteEffect(acc: Acc, v: Vote, env: TallyEnv, vesting: map<string, nat>)
    ensures CountVote(acc, v, env, vesting).Some? <==> Deductible(acc.vals, env.delegationsOf(v.voter))
    ensures CountVote(acc, v, env, vesting).Some? ==>
      var next := CountVote(acc, v, env, vesting).value;
      var dels := env.delegationsOf(v.voter);
      var power := DelegatedPower(acc.vals, dels) + VestingPower(vesting, v.voter);
      next.vals.Keys == acc.vals.Keys &&
      (forall a :: a in acc.vals ==> next.vals[a] == acc.vals[a].(
          deductions := acc.vals[a].deductions + SharesTo(dels, a),
          vote := if a == env.valAddrOf(v.voter) then v.options else acc.vals[a].vote)) &&
      next.results == AddPower(acc.results, power, v.options) &&
      next.total == acc.total + power
  {
    var vals := WithOwnVote(acc.vals, v, env);
    var dels := env.delegationsOf(v.voter);
    assert SameStake(vals, acc.vals);
    DelegatedPowerStake(vals, acc.vals, dels);
    DeductPanics(vals, 0, dels);
    if Deduct(vals, 0, dels).Some? {
      DeductResult(vals, 0, dels);
    }
  }

  /** The tokens a list of votes takes out of validator `a`. */
  function DeductedShares(votes: seq<Vote>, env: TallyEnv, a: string): Dec.Dec
    decreases |votes|
  {
    if votes == [] then 0 else SharesTo(env.delegationsOf(votes[0].voter), a) + DeductedShares(votes[1..], env, a)
  }

  /** The vote validator `a` ends with: that of the last vote cast from its own account, if any. */
  function FinalVote(votes: seq<Vote>, env: TallyEnv, a: string, current: seq<WeightedVoteOption>): seq<WeightedVoteOption>
    decreases |votes|
  {
    if votes == [] then current
    else FinalVote(votes[1..], env, a, if env.valAddrOf(votes[0].voter) == a then votes[0].options else current)
  }

  /**
   * After the whole vote loop every bonded validator has the same stake,
   * has lost the shares of all the delegators who voted, and holds the vote
   * of its own account if it voted.
   */
  lemma {:induction false} CountVotesValidators(acc: Acc, votes: seq<Vote>, env: TallyEnv, vesting: map<string, nat>)
    requires CountVotes(acc, votes, env, vesting).Some?
    ensures var final := CountVotes(acc, votes, env, vesting).value;
            final.vals.Keys == acc.vals.Keys &&
            forall a :: a in acc.vals ==> final.vals[a] == acc.vals[a].(
              deductions := acc.vals[a].deductions + DeductedShares(votes, env, a),
              vote := FinalVote(votes, env, a, acc.vals[a].vote))
    decreases |votes|
  {
    if votes != [] {
      CountVoteEffect(acc, votes[0], env, vesting);
      var next := CountVote(acc, votes[0], env, vesting).value;
      CountVotesValidators(next, votes[1..], env, vesting);
    }
  }

  /**
   * The decision cascade.  `None` is the panic of the veto check's `Quo`
   * when no tokens voted although some abstained, which only weights of
   * mixed sign can produce.
   */
  function Decide(totalBonded: nat, totalVesting: nat, voted: Dec.Dec, results: Results, p: TallyParams): (r: Option<Decision>)
    ensures totalBonded == 0 ==> r == Some(Decision(false, false))
    ensures r.Some? && r.value.passes ==> r.value == Decision(true, false)
    ensures r.None? ==> voted == 0 && Get(results, Abstain) != 0
  {
    if totalBonded == 0 then Some(Decision(false, false))
    else if Dec.Quo(voted, Dec.FromInt(totalBonded + totalVesting)) < p.quorum then Some(Decision(false, true))
    else if voted - Get(results, Abstain) == 0 then Some(Decision(false, false))
    else if voted == 0 then None
    else if Dec.Quo(Get(results, NoWithVeto), voted) > p.vetoThreshold then Some(Decision(false, true))
    else if Dec.Quo(Get(results, No), voted - Get(results, Abstain)) >= p.threshold then Some(Decision(false, false))
    else Some(Decision(true, false))
  }

  /** The quorum is tokens voted over bonded plus vesting tokens; below it the deposits are burned. */
  lemma BelowQuorumBurns(totalBonded: nat, totalVesting: nat, voted: Dec.Dec, results: Results, p: TallyParams)
    requires totalBonded > 0
    requires Dec.Quo(voted, Dec.FromInt(totalBonded + totalVesting)) < p.quorum
    ensures Decide(totalBonded, totalVesting, voted, results, p) == Some(Decision(false, true))
  {
  }

  /** With quorum met, a vote where everything abstains fails without burning, whatever the veto share. */
  lemma AllAbstainFails(totalBonded: nat, totalVesting: nat, voted: Dec.Dec, results: Results, p: TallyParams)
    requires totalBonded > 0 && Dec.Quo(voted, Dec.FromInt(totalBonded + totalVesting)) >= p.quorum
    requires voted == Get(results, Abstain)
    ensures Decide(totalBonded, totalVesting, voted, results, p) == Some(Decision(false, false))
  {
  }

  /** Past the quorum and abstain checks, a veto share above the threshold burns, whatever the yes and no totals. */
  lemma VetoBurns(totalBonded: nat, totalVesting: nat, voted: Dec.Dec, results: Results, p: TallyParams)
    requires totalBonded > 0 && Dec.Quo(voted, Dec.FromInt(totalBonded + totalVesting)) >= p.quorum
    requires voted != Get(results, Abstain) && voted != 0
    requires Dec.Quo(Get(results, NoWithVeto), voted) > p.vetoThreshold
    ensures Decide(totalBonded, totalVesting, voted, results, p) == Some(Decision(false, true))
  {
  }

  /**
   * A proposal passes exactly when there is stake, the quorum is met, not
   * everything abstains, the veto share is at most the veto threshold and
   * the no share of the non-abstaining tokens is below the threshold.
   */
  lemma PassesExactly(totalBonded: nat, totalVesting: nat, voted: Dec.Dec, results: Results, p: TallyParams)
    ensures Decide(totalBonded, totalVesting, voted, results, p) == Some(Decision(true, false)) <==>
      totalBonded > 0 && Dec.Quo(voted, Dec.FromInt(totalBonded + totalVesting)) >= p.quorum &&
      voted != Get(results, Abstain) && voted != 0 &&
      Dec.Quo(Get(results, NoWithVeto), voted) <= p.vetoThreshold &&
      Dec.Quo(Get(results, No), voted - Get(results, Abstain)) < p.threshold
  {
  }

  /** When tokens voted are zero only if abstain is zero (as with weights in [0, 1]), the cascade never panics. */
  lemma DecideTotal(totalBonded: nat, totalVesting: nat, voted: Dec.Dec, results: Results, p: TallyParams)
    requires voted == 0 ==> Get(results, Abstain) == 0
    ensures Decide(totalBonded, totalVesting, voted, results, p).Some?
  {
  }

  /** Shares of 100 million tokens that all voted: everything (quorum met), 49% and 51%. */
  lemma HundredMillionShares()
    ensures Dec.Quo(Dec.FromInt(100_000_000), Dec.FromInt(100_000_000)) == Dec.Precision
    ensures Dec.Quo(Dec.FromInt(49_000_000), Dec.FromInt(100_000_000)) == 490_000_000_000_000_000
    ensures Dec.Quo(Dec.FromInt(51_000_000), Dec.FromInt(100_000_000)) == 510_000_000_000_000_000
    ensures Dec.Quo(0, Dec.FromInt(100_000_000)) == 0
  {
  }

  /**
   * 26 million bonded and 74 million vesting tokens all vote, 51 million yes
   * and 49 million no: with any quorum up to one, any non-negative veto
   * threshold and a threshold above 49%, the proposal passes; the same
   * totals the other way round fail without burning for a threshold up to
   * 51%.
   */
  lemma YesAndNoMajority(p: TallyParams)
    requires p.quorum <= Dec.Precision && p.vetoThreshold >= 0
    ensures var yes := map[Yes := Dec.FromInt(51_000_000), Abstain := 0, No := Dec.FromInt(49_000_000), NoWithVeto := 0];
      p.threshold > 490_000_000_000_000_000 ==>
      Decide(26_000_000, 74_000_000, Dec.FromInt(100_000_000), yes, p) == Some(Decision(true, false))
    ensures var no := map[Yes := Dec.FromInt(49_000_000), Abstain := 0, No := Dec.FromInt(51_000_000), NoWithVeto := 0];
      p.threshold <= 510_000_000_000_000_000 ==>
      Decide(26_000_000, 74_000_000, Dec.FromInt(100_000_000), no, p) == Some(Decision(false, false))
  {
    HundredMillionShares();
  }

  /**
   * The whole tally as a function of the votes in store order: `None` is a
   * panic (a failed vesting query, or a `Quo` by zero shares or zero tokens
   * voted).
   */
  ghost function TallyOf(votes: seq<Vote>, env: TallyEnv, users: set<string>): Option<TallyOutcome>
    requires GovVesting.Bounded(env.vesting, users)
  {
    var vesting := GovVesting.Collect(env.vesting, users, None, map[], 0);
    if vesting.err.Some? then None
    else
      var counted := CountVotes(Acc(CurrentValidators(env.bonded), ZeroResults, 0), votes, env, vesting.tokens);
      if counted.None? then None
      else Conclude(counted.value, env.totalBonded, vesting.total, env.params)
  }

  /** After the vote loop: the validators' own votes, then the decision. */
  ghost function Conclude(acc: Acc, totalBonded: nat, totalVesting: nat, params: TallyParams): Option<TallyOutcome> {
    if !VotersStaked(acc.vals) then None
    else
      Outcome(totalBonded, totalVesting, acc.total + SumParts(acc.vals, acc.vals.Keys, None), WithValidators(acc.results, acc.vals), params)
  }

  /** Validators that have not voted add nothing to any sum. */
  lemma {:induction false} SumPartsSilent(vals: map<string, ValidatorGovInfo>, keys: set<string>, o: Option<VoteOption>)
    requires keys <= vals.Keys && forall a :: a in keys ==> vals[a].vote == []
    ensures SumParts(vals, keys, o) == 0
    decreases |keys|
  {
    if keys != {} {
      var a :| a in keys;
      SumPartsRemove(vals, keys, a, o);
      Arith.StrictSubsetSmaller(keys - {a}, keys);
      SumPartsSilent(vals, keys - {a}, o);
    }
  }

  /** After a vote loop that recorded no vote, nothing is counted and the proposal does not pass. */
  lemma ConcludeSilent(vals: map<string, ValidatorGovInfo>, totalBonded: nat, totalVesting: nat, params: TallyParams)
    requires forall a :: a in vals ==> vals[a].vote == []
    ensures Conclude(Acc(vals, ZeroResults, 0), totalBonded, totalVesting, params).Some?
    ensures var o := Conclude(Acc(vals, ZeroResults, 0), totalBonded, totalVesting, params).value;
            o.tally == EmptyTallyResult && !o.passes
  {
    SumPartsSilent(vals, vals.Keys, None);
    forall o | o in AllOptions ensures SumParts(vals, vals.Keys, Some(o)) == 0 {
      SumPartsSilent(vals, vals.Keys, Some(o));
    }
    assert WithValidators(ZeroResults, vals) == ZeroResults;
    DecideTotal(totalBonded, totalVesting, 0, ZeroResults, params);
    assert Dec.TruncateInt(0) == 0;
  }

  /** With no votes in store the tally reports zero for every option and the proposal does not pass. */
  lemma NoVotesTally(env: TallyEnv, users: set<string>)
    requires GovVesting.Bounded(env.vesting, users)
    requires GovVesting.Collect(env.vesting, users, None, map[], 0).err.None?
    ensures TallyOf([], env, users).Some?
    ensures TallyOf([], env, users).value.tally == EmptyTallyResult && !TallyOf([], env, users).value.passes
  {
    var vesting := GovVesting.Collect(env.vesting, users, None, map[], 0);
    var vals := CurrentValidators(env.bonded);
    CurrentValidatorsFresh(env.bonded);
    assert CountVotes(Acc(vals, ZeroResults, 0), [], env, vesting.tokens) == Some(Acc(vals, ZeroResults, 0));
    ConcludeSilent(vals, env.totalBonded, vesting.total, env.params);
  }

  /** The decision with the truncated tally (`NewTallyResultFromMap`); `None` when the decision panics. */
  function Outcome(totalBonded: nat, totalVesting: nat, voted: Dec.Dec, results: Results, params: TallyParams): (r: Option<TallyOutcome>)
    ensures r.Some? <==> Decide(totalBonded, totalVesting, voted, results, params).Some?
    ensures r.Some? ==> r.value.tally == TallyResultOf(results)
  {
    var d := Decide(totalBonded, totalVesting, voted, results, params);
    if d.None? then None else Some(TallyOutcome(d.value.passes, d.value.burnDeposits, TallyResultOf(results)))
  }

  lemma DistinctSuffix(votes: seq<Vote>, i: nat)
    requires i <= |votes| && GovStore.DistinctVoters(votes)
    ensures GovStore.DistinctVoters(votes[i..])
  {
    forall j, l | 0 <= j < l < |votes[i..]| ensures votes[i..][j].voter != votes[i..][l].voter {
      assert votes[i..][j] == votes[i + j] && votes[i..][l] == votes[i + l];
    }
  }

  /** The vote loop after its first vote: stopped by a panic, or going on from the new state. */
  lemma CountVotesUnfold(acc: Acc, votes: seq<Vote>, env: TallyEnv, vesting: map<string, nat>, next: Option<Acc>)
    requires votes != [] && next == CountVote(acc, votes[0], env, vesting)
    ensures next.None? ==> CountVotes(acc, votes, env, vesting).None?
    ensures next.Some? ==> CountVotes(acc, votes, env, vesting) == CountVotes(next.value, votes[1..], env, vesting)
  {
  }

  /**
   * The body of the vote loop: records a validator's own vote, deducts the
   * voter's delegations, adds the vesting tokens and increments the tally.
   */
  method CountOne(vals: map<string, ValidatorGovInfo>, results: Results, totalVoted: Dec.Dec,
                  vote: Vote, env: TallyEnv, tokensInVesting: map<string, nat>) returns (r: Option<Acc>)
    requires results.Keys == AllOptions
    ensures r == CountVote(Acc(vals, results, totalVoted), vote, env, tokensInVesting)
    ensures r.Some? ==> r.value.results.Keys == AllOptions
  {
    var current := vals;
    var valAddrStr := env.valAddrOf(vote.voter);
    if valAddrStr in current {
      current := current[valAddrStr := current[valAddrStr].(vote := vote.options)];
    }
    assert current == WithOwnVote(vals, vote, env);
    var deducted := DeductDelegations(current, env.delegationsOf(vote.voter));
    if deducted.None? {
      return None;
    }
    var votingPower := deducted.value.1 + VestingPower(tokensInVesting, vote.voter);
    var results', totalVoted' := IncrementTallyResult(votingPower, vote.options, results, totalVoted);
    return Some(Acc(deducted.value.0, results', totalVoted'));
  }

  /**
   * `Tally`: collects the vesting tokens, counts and deletes every vote of
   * the proposal, adds the validators' own votes and decides.  On success
   * the proposal has no votes left; no other proposal's votes change.
   */
  method Tally(k: GovStore.Keeper, proposalId: nat, env: TallyEnv, ghost users: set<string>) returns (r: Option<TallyOutcome>)
    requires k.Sound() && GovVesting.Bounded(env.vesting, users)
    modifies k`votes
    ensures k.Sound()
    ensures r == TallyOf(old(k.VotesOf(proposalId)), env, users)
    ensures k.votes.Keys == old(k.votes.Keys) && (r.Some? ==> k.VotesOf(proposalId) == [])
    ensures forall id :: id != proposalId ==> k.VotesOf(id) == old(k.VotesOf(id))
  {
    var currValidators := BuildValidators(env.bonded);
    var vesting := GovVesting.MustGetTokensInVesting(env.vesting, users);
    if vesting.None? {
      return None;
    }
    var tokensInVesting, totalTokensInVesting := vesting.value.0, vesting.value.1;
    var results := ZeroResults;
    var totalTokensVoted: Dec.Dec := 0;
    var votes := k.VotesOf(proposalId);
    ghost var start := Acc(currValidators, results, totalTokensVoted);
    var vals := currValidators;
    var i := 0;
    while i < |votes|
      invariant 0 <= i <= |votes|
      invariant k.Sound() && k.votes.Keys == old(k.votes.Keys)
      invariant results.Keys == AllOptions
      invariant CountVotes(start, votes, env, tokensInVesting) == CountVotes(Acc(vals, results, totalTokensVoted), votes[i..], env, tokensInVesting)
      invariant k.VotesOf(proposalId) == votes[i..]
      invariant forall id :: id != proposalId ==> k.VotesOf(id) == old(k.VotesOf(id))
    {
      var vote := votes[i];
      assert votes[i..][0] == vote && votes[i..][1..] == votes[i + 1..];
      var next := CountOne(vals, results, totalTokensVoted, vote, env, tokensInVesting);
      CountVotesUnfold(Acc(vals, results, totalTokensVoted), votes[i..], env, tokensInVesting, next);
      if next.None? {
        return None;
      }
      vals, results, totalTokensVoted := next.value.vals, next.value.results, next.value.total;
      assert GovStore.DistinctVoters(votes[i..]) by {
        DistinctSuffix(votes, i);
      }
      GovStore.RemoveFirstVoter(votes[i..]);
      k.DeleteVote(proposalId, vote.voter);
      i := i + 1;
    }
    assert votes[|votes|..] == [];
    assert CountVotes(start, votes, env, tokensInVesting) == Some(Acc(vals, results, totalTokensVoted));
    r := Finish(vals, results, totalTokensVoted, env.totalBonded, totalTokensInVesting, env.params);
  }

  /** The validators loop and the decision cascade at the end of `Tally`. */
  method Finish(vals: map<string, ValidatorGovInfo>, results: Results, totalTokensVoted: Dec.Dec,
                totalBonded: nat, totalTokensInVesting: nat, params: TallyParams) returns (r: Option<TallyOutcome>)
    requires results.Keys == AllOptions
    ensures r == Conclude(Acc(vals, results, totalTokensVoted), totalBonded, totalTokensInVesting, params)
  {
    var ok, results', totalTokensVoted' := TallyValidators(vals, results, totalTokensVoted);
    if !ok {
      return None;
    }
    r := Outcome(totalBonded, totalTokensInVesting, totalTokensVoted', results', params);
  }
}
