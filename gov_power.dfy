/**
 * How voting power enters the custom tally: `incrementTallyResult`, which
 * spreads one voter's power over the options of a weighted vote, the
 * deduction of a voting delegator's shares from the validators they
 * delegate to, and the power a validator still votes with afterwards.
 */
module GovPower {
  import opened Wrappers
  import Arith
  import Dec
  import opened GovTypes

  /** The options a weighted vote names. */
  function Chosen(options: seq<WeightedVoteOption>): set<VoteOption> {
    set i | 0 <= i < |options| :: options[i].option
  }

  /** The reference sum: power x weight over the entries of a vote that name `o`. */
  function Contribution(power: Dec.Dec, options: seq<WeightedVoteOption>, o: VoteOption): Dec.Dec
    decreases |options|
  {
    if options == [] then 0
    else
      var last := options[|options| - 1];
      Contribution(power, options[..|options| - 1], o) + (if last.option == o then Dec.Mul(power, last.weight) else 0)
  }

  /** The sum of a vote's weights. */
  function WeightSum(options: seq<WeightedVoteOption>): Dec.Dec
    decreases |options|
  {
    if options == [] then 0 else WeightSum(options[..|options| - 1]) + options[|options| - 1].weight
  }

  /** The results after one voter's power has been spread over its options (the tally's map holds all four options). */
  function AddPower(results: Results, power: Dec.Dec, options: seq<WeightedVoteOption>): Results {
    map o | o in AllOptions :: Get(results, o) + Contribution(power, options, o)
  }

  /** The four option totals added up. */
  function OptionTotal(r: Results): Dec.Dec {
    Get(r, Yes) + Get(r, Abstain) + Get(r, No) + Get(r, NoWithVeto)
  }

  lemma ChosenSnoc(options: seq<WeightedVoteOption>, x: WeightedVoteOption)
    ensures Chosen(options + [x]) == Chosen(options) + {x.option}
  {
    var s := options + [x];
    forall o | o in Chosen(s) ensures o in Chosen(options) + {x.option} {
      var i :| 0 <= i < |s| && s[i].option == o;
      if i < |options| { assert options[i] == s[i]; }
    }
    forall o | o in Chosen(options) ensures o in Chosen(s) {
      var i :| 0 <= i < |options| && options[i].option == o;
      assert s[i] == options[i];
    }
    assert s[|options|] == x;
  }

  /** One more entry adds its weighted power to its own option, and to nothing else. */
  lemma AddPowerSnoc(results: Results, power: Dec.Dec, options: seq<WeightedVoteOption>, x: WeightedVoteOption)
    ensures var before := AddPower(results, power, options);
            AddPower(results, power, options + [x]) == before[x.option := Get(before, x.option) + Dec.Mul(power, x.weight)]
  {
    var before := AddPower(results, power, options);
    var after := AddPower(results, power, options + [x]);
    var updated := before[x.option := Get(before, x.option) + Dec.Mul(power, x.weight)];
    InAllOptions(x.option);
    forall o | o in after ensures after[o] == updated[o] {
      SnocAt(results, power, options, x, o);
    }
  }

  lemma SnocAt(results: Results, power: Dec.Dec, options: seq<WeightedVoteOption>, x: WeightedVoteOption, o: VoteOption)
    ensures Get(AddPower(results, power, options + [x]), o)
         == Get(AddPower(results, power, options), o) + (if o == x.option then Dec.Mul(power, x.weight) else 0)
  {
    var s := options + [x];
    assert s[..|s| - 1] == options && s[|s| - 1] == x;
    AddPowerGet(results, power, options, o);
    AddPowerGet(results, power, s, o);
  }

  /**
   * `incrementTallyResult`: each entry of the vote adds power x weight to
   * its option, and the power is added once to the number of tokens voted.
   */
  method IncrementTallyResult(power: Dec.Dec, options: seq<WeightedVoteOption>, results: Results, totalVoted: Dec.Dec)
    returns (results': Results, totalVoted': Dec.Dec)
    requires results.Keys == AllOptions
    ensures results' == AddPower(results, power, options)
    ensures totalVoted' == totalVoted + power
  {
    results' := results;
    var i := 0;
    AddPowerNothing(results, power);
    assert options[..0] == [];
    while i < |options|
      invariant 0 <= i <= |options|
      invariant results' == AddPower(results, power, options[..i])
    {
      var option := options[i];
      var subPower := Dec.Mul(power, option.weight);
      IncrementStep(results, power, options, i, results');
      results' := results'[option.option := Get(results', option.option) + subPower];
      i := i + 1;
    }
    assert options[..|options|] == options;
    totalVoted' := totalVoted + power;
  }

  lemma AddPowerNothing(results: Results, power: Dec.Dec)
    requires results.Keys == AllOptions
    ensures AddPower(results, power, []) == results
  {
  }

  lemma IncrementStep(results: Results, power: Dec.Dec, options: seq<WeightedVoteOption>, i: nat, current: Results)
    requires i < |options| && current == AddPower(results, power, options[..i])
    ensures current[options[i].option := Get(current, options[i].option) + Dec.Mul(power, options[i].weight)]
              == AddPower(results, power, options[..i + 1])
  {
    AddPowerSnoc(results, power, options[..i], options[i]);
    assert options[..i + 1] == options[..i] + [options[i]];
  }

  /** Each option's total rises by exactly that option's share of the power. */
  lemma AddPowerGet(results: Results, power: Dec.Dec, options: seq<WeightedVoteOption>, o: VoteOption)
    ensures Get(AddPower(results, power, options), o) == Get(results, o) + Contribution(power, options, o)
  {
    InAllOptions(o);
  }

  /** An option the vote does not name gets nothing. */
  lemma {:induction false} ContributionUnchosen(power: Dec.Dec, options: seq<WeightedVoteOption>, o: VoteOption)
    requires o !in Chosen(options)
    ensures Contribution(power, options, o) == 0
    decreases |options|
  {
    if options != [] {
      var init := options[..|options| - 1];
      assert options == init + [options[|options| - 1]];
      ChosenSnoc(init, options[|options| - 1]);
      ContributionUnchosen(power, init, o);
    }
  }

  /** A plain (single option, weight 1) vote puts the whole power on its option. */
  lemma PlainVote(power: Dec.Dec, option: VoteOption, o: VoteOption)
    ensures Contribution(power, [WeightedVoteOption(option, Dec.FromInt(1))], o) == if o == option then power else 0
  {
    var s := [WeightedVoteOption(option, Dec.FromInt(1))];
    assert s[..0] == [];
    Dec.MulByInt(power, 1);
  }

  /** With a whole-token power k, the four options together receive k x the sum of the weights. */
  lemma {:induction false} WholePowerSplits(k: int, options: seq<WeightedVoteOption>)
    ensures Contribution(Dec.FromInt(k), options, Yes) + Contribution(Dec.FromInt(k), options, Abstain)
          + Contribution(Dec.FromInt(k), options, No) + Contribution(Dec.FromInt(k), options, NoWithVeto)
            == k * WeightSum(options)
    decreases |options|
  {
    if options != [] {
      var p := Dec.FromInt(k);
      var init, last := options[..|options| - 1], options[|options| - 1];
      WholePowerSplits(k, init);
      var m := Dec.Mul(p, last.weight);
      Dec.MulByInt(last.weight, k);
      assert m == last.weight * k;
      assert Contribution(p, options, Yes) == Contribution(p, init, Yes) + (if last.option == Yes then m else 0);
      assert Contribution(p, options, Abstain) == Contribution(p, init, Abstain) + (if last.option == Abstain then m else 0);
      assert Contribution(p, options, No) == Contribution(p, init, No) + (if last.option == No then m else 0);
      assert Contribution(p, options, NoWithVeto) == Contribution(p, init, NoWithVeto) + (if last.option == NoWithVeto then m else 0);
      var w := WeightSum(init);
      assert WeightSum(options) == w + last.weight;
      Arith.Distribute(k, w, last.weight);
    }
  }

  /**
   * When the weights sum to 1 and the power is a whole number of tokens,
   * `incrementTallyResult` raises the four option totals together by exactly
   * the amount it adds to the tokens voted.
   */
  lemma BalancedIncrement(results: Results, k: int, options: seq<WeightedVoteOption>)
    requires WeightSum(options) == Dec.FromInt(1)
    ensures OptionTotal(AddPower(results, Dec.FromInt(k), options)) == OptionTotal(results) + Dec.FromInt(k)
  {
    var p := Dec.FromInt(k);
    AddPowerGet(results, p, options, Yes);
    AddPowerGet(results, p, options, Abstain);
    AddPowerGet(results, p, options, No);
    AddPowerGet(results, p, options, NoWithVeto);
    WholePowerSplits(k, options);
  }

  /** The shares a list of delegations holds in validator `a`. */
  function SharesTo(dels: seq<Delegation>, a: string): Dec.Dec
    decreases |dels|
  {
    if dels == [] then 0 else (if dels[0].validator == a then dels[0].shares else 0) + SharesTo(dels[1..], a)
  }

  /** What one delegation to a bonded validator is worth: shares x tokens / delegator shares. */
  function DelegationPower(val: ValidatorGovInfo, shares: Dec.Dec): Dec.Dec
    requires val.delegatorShares != 0
  {
    Dec.Quo(Dec.MulInt(shares, val.bondedTokens), val.delegatorShares)
  }

  /** The power of a voter's delegations to bonded validators. */
  function DelegatedPower(vals: map<string, ValidatorGovInfo>, dels: seq<Delegation>): Dec.Dec
    decreases |dels|
  {
    if dels == [] then 0
    else
      var d := dels[0];
      (if d.validator in vals && vals[d.validator].delegatorShares != 0
       then DelegationPower(vals[d.validator], d.shares) else 0)
      + DelegatedPower(vals, dels[1..])
  }

  /** No delegation is to a bonded validator without delegator shares (whose `Quo` would panic). */
  predicate Deductible(vals: map<string, ValidatorGovInfo>, dels: seq<Delegation>) {
    forall i :: 0 <= i < |dels| && dels[i].validator in vals ==> vals[dels[i].validator].delegatorShares != 0
  }

  /**
   * The `IterateDelegations` callback over a voter's delegations, as a fold:
   * each delegation to a bonded validator adds its shares to that
   * validator's deductions and its worth to the voter's power; `None` is the
   * panic of a `Quo` by zero delegator shares.
   */
  function Deduct(vals: map<string, ValidatorGovInfo>, power: Dec.Dec, dels: seq<Delegation>)
    : Option<(map<string, ValidatorGovInfo>, Dec.Dec)>
    decreases |dels|
  {
    if dels == [] then Some((vals, power))
    else
      var d := dels[0];
      if d.validator !in vals then Deduct(vals, power, dels[1..])
      else
        var val := vals[d.validator];
        if val.delegatorShares == 0 then None
        else Deduct(vals[d.validator := val.(deductions := val.deductions + d.shares)],
                    power + DelegationPower(val, d.shares), dels[1..])
  }

  /** Two validator maps that agree on everything but deductions and votes. */
  predicate SameStake(v1: map<string, ValidatorGovInfo>, v2: map<string, ValidatorGovInfo>) {
    v1.Keys == v2.Keys &&
    forall a :: a in v1 ==> v1[a].bondedTokens == v2[a].bondedTokens && v1[a].delegatorShares == v2[a].delegatorShares
  }

  lemma {:induction false} DelegatedPowerStake(v1: map<string, ValidatorGovInfo>, v2: map<string, ValidatorGovInfo>, dels: seq<Delegation>)
    requires SameStake(v1, v2)
    ensures DelegatedPower(v1, dels) == DelegatedPower(v2, dels)
    ensures Deductible(v1, dels) <==> Deductible(v2, dels)
    decreases |dels|
  {
    if dels != [] {
      DelegatedPowerStake(v1, v2, dels[1..]);
      assert Deductible(v1, dels) <==> Deductible(v1, dels[1..]) && (dels[0].validator in v1 ==> v1[dels[0].validator].delegatorShares != 0) by {
        DeductibleCons(v1, dels);
      }
      DeductibleCons(v2, dels);
    }
  }

  lemma DeductibleCons(vals: map<string, ValidatorGovInfo>, dels: seq<Delegation>)
    requires dels != []
    ensures Deductible(vals, dels) <==> Deductible(vals, dels[1..]) && (dels[0].validator in vals ==> vals[dels[0].validator].delegatorShares != 0)
  {
    if Deductible(vals, dels[1..]) && (dels[0].validator in vals ==> vals[dels[0].validator].delegatorShares != 0) {
      forall i | 0 <= i < |dels| && dels[i].validator in vals ensures vals[dels[i].validator].delegatorShares != 0 {
        if i > 0 { assert dels[i] == dels[1..][i - 1]; }
      }
    }
    if Deductible(vals, dels) {
      forall i | 0 <= i < |dels[1..]| && dels[1..][i].validator in vals ensures vals[dels[1..][i].validator].delegatorShares != 0 {
        assert dels[1..][i] == dels[i + 1];
      }
    }
  }

  /** `Deduct` panics exactly when some delegation is to a bonded validator without delegator shares. */
  lemma {:induction false} DeductPanics(vals: map<string, ValidatorGovInfo>, power: Dec.Dec, dels: seq<Delegation>)
    ensures Deduct(vals, power, dels).Some? <==> Deductible(vals, dels)
    decreases |dels|
  {
    if dels != [] {
      var d := dels[0];
      DeductibleCons(vals, dels);
      if d.validator !in vals {
        DeductPanics(vals, power, dels[1..]);
      } else if vals[d.validator].delegatorShares != 0 {
        var val := vals[d.validator];
        var vals' := vals[d.validator := val.(deductions := val.deductions + d.shares)];
        DeductPanics(vals', power + DelegationPower(val, d.shares), dels[1..]);
        DelegatedPowerStake(vals', vals, dels[1..]);
      }
    }
  }

  /**
   * What a completed `Deduct` leaves: the same validators, each with its
   * deductions raised by exactly the voter's shares in it and nothing else
   * changed, and the voter's power raised by the worth of the delegations.
   */
  lemma {:induction false} DeductResult(vals: map<string, ValidatorGovInfo>, power: Dec.Dec, dels: seq<Delegation>)
    requires Deduct(vals, power, dels).Some?
    ensures var (vals', power') := Deduct(vals, power, dels).value;
            vals'.Keys == vals.Keys &&
            (forall a :: a in vals ==> vals'[a] == vals[a].(deductions := vals[a].deductions + SharesTo(dels, a))) &&
            power' == power + DelegatedPower(vals, dels)
    decreases |dels|
  {
    if dels == [] {
      forall a | a in vals ensures vals[a] == vals[a].(deductions := vals[a].deductions + SharesTo(dels, a)) {
      }
    } else {
      var d := dels[0];
      if d.validator !in vals {
        DeductResult(vals, power, dels[1..]);
      } else {
        var val := vals[d.validator];
        var vals1 := vals[d.validator := val.(deductions := val.deductions + d.shares)];
        DeductResult(vals1, power + DelegationPower(val, d.shares), dels[1..]);
        DelegatedPowerStake(vals1, vals, dels[1..]);
      }
    }
  }

  /** `IterateDelegations` with its callback, as a loop over the voter's delegations. */
  method DeductDelegations(vals: map<string, ValidatorGovInfo>, dels: seq<Delegation>)
    returns (r: Option<(map<string, ValidatorGovInfo>, Dec.Dec)>)
    ensures r == Deduct(vals, 0, dels)
  {
    var current := vals;
    var votingPower: Dec.Dec := 0;
    var i := 0;
    while i < |dels|
      invariant 0 <= i <= |dels|
      invariant Deduct(vals, 0, dels) == Deduct(current, votingPower, dels[i..])
    {
      assert dels[i..][1..] == dels[i + 1..];
      var delegation := dels[i];
      if delegation.validator in current {
        var val := current[delegation.validator];
        if val.delegatorShares == 0 {
          return None;
        }
        current := current[delegation.validator := val.(deductions := val.deductions + delegation.shares)];
        votingPower := votingPower + DelegationPower(val, delegation.shares);
      }
      i := i + 1;
    }
    r := Some((current, votingPower));
  }

  /**
   * The power a validator votes with once the votes are counted: its
   * delegator shares less those of delegators who voted themselves, valued
   * at tokens / shares.
   */
  function ValidatorPower(v: ValidatorGovInfo): Dec.Dec
    requires v.delegatorShares != 0
  {
    DelegationPower(v, v.delegatorShares - v.deductions)
  }

  /** A validator's part of option `Some(o)`, or of the tokens voted for `None`; one that did not vote adds nothing. */
  function Part(v: ValidatorGovInfo, o: Option<VoteOption>): Dec.Dec {
    if |v.vote| == 0 || v.delegatorShares == 0 then 0
    else if o.None? then ValidatorPower(v)
    else Contribution(ValidatorPower(v), v.vote, o.value)
  }

  /** Every validator that voted has delegator shares (otherwise the second loop panics). */
  predicate VotersStaked(vals: map<string, ValidatorGovInfo>) {
    forall a :: a in vals && |vals[a].vote| > 0 ==> vals[a].delegatorShares != 0
  }

  /** The parts of the validators in `keys`, in no particular order. */
  ghost function SumParts(vals: map<string, ValidatorGovInfo>, keys: set<string>, o: Option<VoteOption>): Dec.Dec
    requires keys <= vals.Keys
    decreases |keys|
  {
    if keys == {} then 0
    else
      var a :| a in keys;
      assert |keys - {a}| < |keys| by { assert keys - {a} < keys; Arith.StrictSubsetSmaller(keys - {a}, keys); }
      Part(vals[a], o) + SumParts(vals, keys - {a}, o)
  }

  /** The sum may take out any validator first: the order of the map walk does not matter. */
  lemma {:induction false} SumPartsRemove(vals: map<string, ValidatorGovInfo>, keys: set<string>, y: string, o: Option<VoteOption>)
    requires keys <= vals.Keys && y in keys
    ensures SumParts(vals, keys, o) == Part(vals[y], o) + SumParts(vals, keys - {y}, o)
    decreases |keys|
  {
    var u :| u in keys && SumParts(vals, keys, o) == Part(vals[u], o) + SumParts(vals, keys - {u}, o);
    if u != y {
      assert keys - {u} < keys && keys - {y} < keys;
      Arith.StrictSubsetSmaller(keys - {u}, keys);
      SumPartsRemove(vals, keys - {u}, y, o);
      SumPartsRemove(vals, keys - {y}, u, o);
      assert keys - {u} - {y} == keys - {y} - {u};
    }
  }

  /** The results once every validator's own vote is added. */
  ghost function WithValidators(results: Results, vals: map<string, ValidatorGovInfo>): Results {
    map o | o in AllOptions :: Get(results, o) + SumParts(vals, vals.Keys, Some(o))
  }

  /**
   * The loop over `currValidators` (in Go's unspecified map order): each
   * validator that voted adds its remaining power through
   * `incrementTallyResult`; `ok` is false when a voting validator has no
   * delegator shares, where the SDK's `Quo` panics.
   */
  method TallyValidators(vals: map<string, ValidatorGovInfo>, results: Results, totalVoted: Dec.Dec)
    returns (ok: bool, results': Results, totalVoted': Dec.Dec)
    requires results.Keys == AllOptions
    ensures ok <==> VotersStaked(vals)
    ensures ok ==> results' == WithValidators(results, vals)
    ensures ok ==> totalVoted' == totalVoted + SumParts(vals, vals.Keys, None)
  {
    var remaining := vals.Keys;
    results', totalVoted' := results, totalVoted;
    while remaining != {}
      invariant remaining <= vals.Keys
      invariant results'.Keys == AllOptions
      invariant forall o :: Get(results', o) + SumParts(vals, remaining, Some(o)) == Get(results, o) + SumParts(vals, vals.Keys, Some(o))
      invariant totalVoted' + SumParts(vals, remaining, None) == totalVoted + SumParts(vals, vals.Keys, None)
      invariant forall a :: a in vals.Keys - remaining && |vals[a].vote| > 0 ==> vals[a].delegatorShares != 0
      decreases |remaining|
    {
      var a :| a in remaining;
      var val := vals[a];
      if |val.vote| > 0 && val.delegatorShares == 0 {
        return false, results', totalVoted';
      }
      var before, totalBefore := results', totalVoted';
      if |val.vote| > 0 {
        var votingPower := ValidatorPower(val);
        results', totalVoted' := IncrementTallyResult(votingPower, val.vote, results', totalVoted');
      }
      PartsStep(vals, remaining, a, before, results', totalBefore, totalVoted');
      Arith.StrictSubsetSmaller(remaining - {a}, remaining);
      remaining := remaining - {a};
    }
    ok := true;
    WithValidatorsFrom(results, results', vals);
  }

  lemma WithValidatorsFrom(results: Results, results': Results, vals: map<string, ValidatorGovInfo>)
    requires results'.Keys == AllOptions
    requires forall o :: Get(results', o) + SumParts(vals, {}, Some(o)) == Get(results, o) + SumParts(vals, vals.Keys, Some(o))
    ensures results' == WithValidators(results, vals)
  {
    var w := WithValidators(results, vals);
    forall o | o in results' ensures results'[o] == w[o] {
      assert Get(results', o) + SumParts(vals, {}, Some(o)) == Get(results, o) + SumParts(vals, vals.Keys, Some(o));
    }
  }

  /** One validator of the walk: its part moves from the rest of the sum into the running results. */
  lemma PartsStep(vals: map<string, ValidatorGovInfo>, remaining: set<string>, a: string,
                  before: Results, after: Results, totalBefore: Dec.Dec, totalAfter: Dec.Dec)
    requires remaining <= vals.Keys && a in remaining
    requires before.Keys == AllOptions
    requires |vals[a].vote| > 0 ==> vals[a].delegatorShares != 0
    requires after == if |vals[a].vote| > 0 then AddPower(before, ValidatorPower(vals[a]), vals[a].vote) else before
    requires totalAfter == totalBefore + Part(vals[a], None)
    ensures after.Keys == AllOptions
    ensures forall o :: Get(after, o) + SumParts(vals, remaining - {a}, Some(o)) == Get(before, o) + SumParts(vals, remaining, Some(o))
    ensures totalAfter + SumParts(vals, remaining - {a}, None) == totalBefore + SumParts(vals, remaining, None)
  {
    SumPartsRemove(vals, remaining, a, None);
    forall o ensures Get(after, o) + SumParts(vals, remaining - {a}, Some(o)) == Get(before, o) + SumParts(vals, remaining, Some(o)) {
      SumPartsRemove(vals, remaining, a, Some(o));
      if |vals[a].vote| > 0 {
        AddPowerGet(before, ValidatorPower(vals[a]), vals[a].vote, o);
      }
    }
  }
}
