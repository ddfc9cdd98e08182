/**
 * The custom distribution module's `AllocateTokens`: before the stock
 * allocation runs, every collected fee that is not in the reward denom goes
 * straight from the fee collector to the community pool.  The stock
 * allocator then finds only reward-denom coins in the fee collector; it is
 * not part of this model.
 */
module DistributionAllocation {
  import opened Wrappers
  import opened Coins

  /** `types.RewardDenom`. */
  const RewardDenom: Denom := "umars"

  /** `NewCoin(RewardDenom, fees.AmountOf(RewardDenom))` as a coin set. */
  function RewardPart(fees: Coins): (r: Coins)
    requires Valid(fees)
    ensures Valid(r)
  {
    if AmountOf(fees, RewardDenom) > 0 then map[RewardDenom := AmountOf(fees, RewardDenom)] else map[]
  }

  /** `feesCollected.Sub(feesCollectedReward)`, which cannot panic. */
  function NonRewardPart(fees: Coins): (r: Coins)
    requires Valid(fees)
    ensures Valid(r)
  {
    assert IsAllGTE(fees, RewardPart(fees));
    Sub(fees, RewardPart(fees)).value
  }

  /**
   * The two parts add up to the collected fees; the reward part holds only
   * the reward denom, its whole amount, and the other part none of it but
   * every other denom untouched.
   */
  lemma SplitFees(fees: Coins)
    requires Valid(fees)
    ensures Add(RewardPart(fees), NonRewardPart(fees)) == fees
    ensures RewardPart(fees).Keys <= {RewardDenom} && AmountOf(RewardPart(fees), RewardDenom) == AmountOf(fees, RewardDenom)
    ensures AmountOf(NonRewardPart(fees), RewardDenom) == 0
    ensures forall d :: d != RewardDenom ==> AmountOf(NonRewardPart(fees), d) == AmountOf(fees, d)
  {
    var reward, rest := RewardPart(fees), NonRewardPart(fees);
    assert forall d :: AmountOf(rest, d) + AmountOf(reward, d) == AmountOf(fees, d);
    Extensional(Add(reward, rest), fees);
  }

  /** The fee collector and pool balances the allocation moves coins between. */
  datatype Balances = Balances(feeCollector: Coins, communityPool: Coins)

  predicate Sound(b: Balances) {
    Valid(b.feeCollector) && Valid(b.communityPool)
  }

  /**
   * `FundCommunityPool(nonReward, feeCollector)` followed by the hand-over
   * to the stock allocator; `fundOk` says whether the bank send succeeds,
   * and its failure is a panic (`None`).
   */
  function AfterAllocation(b: Balances, fundOk: bool): (r: Option<Balances>)
    requires Sound(b)
    ensures r.Some? ==> Sound(r.value)
  {
    var reward := RewardPart(b.feeCollector);
    var nonReward := NonRewardPart(b.feeCollector);
    if !fundOk then None
    else Some(Balances(reward, Add(b.communityPool, nonReward)))
  }

  /**
   * When the send succeeds the community pool grows by exactly the
   * non-reward fees and the fee collector keeps only the reward-denom
   * amount, for the stock allocator; nothing is created or lost.  A failed
   * send panics.
   */
  lemma AllocateTokensMoves(b: Balances, fundOk: bool)
    requires Sound(b)
    ensures AfterAllocation(b, fundOk).None? <==> !fundOk
    ensures fundOk ==>
      var r := AfterAllocation(b, fundOk).value;
      && r.feeCollector.Keys <= {RewardDenom}
      && AmountOf(r.feeCollector, RewardDenom) == AmountOf(b.feeCollector, RewardDenom)
      && AmountOf(r.communityPool, RewardDenom) == AmountOf(b.communityPool, RewardDenom)
      && (forall d :: d != RewardDenom ==> AmountOf(r.communityPool, d) == AmountOf(b.communityPool, d) + AmountOf(b.feeCollector, d))
      && Add(r.feeCollector, r.communityPool) == Add(b.feeCollector, b.communityPool)
  {
    SplitFees(b.feeCollector);
    if fundOk {
      var r := AfterAllocation(b, fundOk).value;
      var reward, rest := RewardPart(b.feeCollector), NonRewardPart(b.feeCollector);
      AddAssociates(reward, rest, b.communityPool);
      AddCommutes(rest, b.communityPool);
      assert Add(r.feeCollector, r.communityPool) == Add(reward, Add(rest, b.communityPool));
    }
  }

  /** Fees of 20000 ibc/1234ABCD and some umars: all 20000 ibc/1234ABCD reach the pool, the umars stay behind. */
  lemma AllocateTokensExample(umars: nat, pool: Coins)
    requires Valid(pool) && umars > 0
    ensures var r := AfterAllocation(Balances(map["ibc/1234ABCD" := 20000, RewardDenom := umars], pool), true).value;
      && AmountOf(r.communityPool, "ibc/1234ABCD") == AmountOf(pool, "ibc/1234ABCD") + 20000
      && AmountOf(r.communityPool, RewardDenom) == AmountOf(pool, RewardDenom)
      && r.feeCollector == map[RewardDenom := umars]
  {
    var fees := map["ibc/1234ABCD" := 20000, RewardDenom := umars];
    assert AmountOf(fees, RewardDenom) == umars;
    AllocateTokensMoves(Balances(fees, pool), true);
  }

  /** The two accounts as the keeper updates them. */
  class DistributionKeeper {
    var feeCollector: Coins
    var communityPool: Coins

    function State(): Balances
      reads this
    {
      Balances(feeCollector, communityPool)
    }

    constructor(b: Balances)
      ensures State() == b
    {
      feeCollector, communityPool := b.feeCollector, b.communityPool;
    }

    /** `AllocateTokens` up to the stock allocator; `panicked` reports the panic of a failed send. */
    method AllocateTokens(fundOk: bool) returns (panicked: bool)
      requires Sound(State())
      modifies this
      ensures panicked == AfterAllocation(old(State()), fundOk).None?
      ensures !panicked ==> State() == AfterAllocation(old(State()), fundOk).value
    {
      var reward := RewardPart(feeCollector);
      var nonReward := NonRewardPart(feeCollector);
      if !fundOk {
        return true;
      }
      feeCollector := reward;
      communityPool := Add(communityPool, nonReward);
      return false;
    }
  }
}
