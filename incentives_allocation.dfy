/**
 * The pro-rata split that ends `ReleaseBlockReward` (reward.go and
 * release.go): the block's total, as DecCoins, is handed to the bonded
 * validators in vote order, each one receiving
 * `remaining.MulDec(power).QuoDec(remainingPower)`, after which both the
 * remaining coins and the remaining power shrink by what was handed out.
 * Validator powers are the CometBFT voting powers, which are never negative.
 */
module IncentivesAllocation {
  import opened Wrappers
  import opened Coins
  import Dec
  import Arith
  import DecCoins

  /** The sum of the powers, as the first loop of the split computes it. */
  function PowerSum(powers: seq<nat>): nat {
    if powers == [] then 0 else powers[0] + PowerSum(powers[1..])
  }

  lemma {:induction false} PowerSumAppend(powers: seq<nat>, p: nat)
    ensures PowerSum(powers + [p]) == PowerSum(powers) + p
    decreases |powers|
  {
    if powers == [] {
      assert [p][1..] == [];
    } else {
      assert (powers + [p])[1..] == powers[1..] + [p];
      PowerSumAppend(powers[1..], p);
    }
  }

  /** `reward := remaining.MulDec(power).QuoDec(totalPower)` for one validator. */
  function Share(rem: DecCoins.DecCoins, power: nat, totalPower: nat): (r: DecCoins.DecCoins)
    requires totalPower > 0
    ensures Valid(r)
  {
    DecCoins.QuoDec(DecCoins.MulDec(rem, Dec.FromInt(power)), Dec.FromInt(totalPower))
  }

  /** Per denom, a share is the power's fraction of the remainder, rounded half to even. */
  lemma ShareAmount(rem: DecCoins.DecCoins, power: nat, totalPower: nat, d: Denom)
    requires totalPower > 0
    ensures AmountOf(Share(rem, power, totalPower), d)
         == Dec.ChopRound((AmountOf(rem, d) * power * Dec.Precision) / totalPower)
  {
    var a := AmountOf(rem, d);
    DecCoins.MulDecAmount(rem, Dec.FromInt(power), d);
    Dec.MulByInt(a, power);
    DecCoins.QuoDecAmount(DecCoins.MulDec(rem, Dec.FromInt(power)), Dec.FromInt(totalPower), d);
    Arith.MulNonNegative(a, power);
    Dec.QuoByInt(a * power, totalPower);
  }

  /** A fraction p/t <= 1 of a whole amount a, rounded, is at most a. */
  lemma RoundedFractionAtMost(a: nat, p: nat, t: nat)
    requires 0 < t && p <= t
    ensures Dec.ChopRound((a * p * Dec.Precision) / t) <= a
  {
    var x := a * Dec.Precision;
    assert a * p * Dec.Precision == x * p;
    Arith.FractionAtMostWhole(x, p, t);
    Dec.ChopMonotone((x * p) / t, x);
    Dec.ChopExact(a);
  }

  /** Per denom, a share never exceeds the remainder it is taken from. */
  lemma ShareAmountAtMost(rem: DecCoins.DecCoins, power: nat, totalPower: nat, d: Denom)
    requires 0 < totalPower && power <= totalPower
    ensures AmountOf(Share(rem, power, totalPower), d) <= AmountOf(rem, d)
  {
    ShareAmount(rem, power, totalPower, d);
    RoundedFractionAtMost(AmountOf(rem, d), power, totalPower);
  }

  /** A share never exceeds the remainder it is taken from. */
  lemma ShareAtMostRemainder(rem: DecCoins.DecCoins, power: nat, totalPower: nat)
    requires Valid(rem) && 0 < totalPower && power <= totalPower
    ensures IsAllGTE(rem, Share(rem, power, totalPower))
  {
    var r := Share(rem, power, totalPower);
    forall d | d in r ensures r[d] <= AmountOf(rem, d) {
      ShareAmountAtMost(rem, power, totalPower, d);
    }
  }

  /** Per denom, the whole remaining power takes the whole remainder. */
  lemma ShareOfAllAmount(rem: DecCoins.DecCoins, totalPower: nat, d: Denom)
    requires 0 < totalPower
    ensures AmountOf(Share(rem, totalPower, totalPower), d) == AmountOf(rem, d)
  {
    ShareAmount(rem, totalPower, totalPower, d);
    RoundedWhole(AmountOf(rem, d), totalPower);
  }

  /** The whole fraction t/t of an amount, rounded, is the amount. */
  lemma RoundedWhole(a: nat, t: nat)
    requires 0 < t
    ensures Dec.ChopRound((a * t * Dec.Precision) / t) == a
  {
    var x := a * Dec.Precision;
    assert a * t * Dec.Precision == x * t;
    Arith.DivOfMultiple(x, t);
    Dec.ChopExact(a);
  }

  /** The validator holding all the remaining power takes all the remaining coins. */
  lemma ShareOfAll(rem: DecCoins.DecCoins, totalPower: nat)
    requires Valid(rem) && 0 < totalPower
    ensures Share(rem, totalPower, totalPower) == rem
  {
    var r := Share(rem, totalPower, totalPower);
    forall d ensures AmountOf(r, d) == AmountOf(rem, d) {
      ShareOfAllAmount(rem, totalPower, d);
    }
    Extensional(r, rem);
  }

  /**
   * The split of `rem` among validators with `powers`, in order: `None` is
   * a panic, either of `QuoDec` by a zero remaining power or of a
   * `DecCoins.Sub` that would go negative.
   */
  function Allocate(rem: DecCoins.DecCoins, powers: seq<nat>): (r: Option<seq<DecCoins.DecCoins>>)
    requires Valid(rem)
    ensures r.Some? ==> |r.value| == |powers| && AllValid(r.value)
    decreases |powers|
  {
    if powers == [] then Some([])
    else if PowerSum(powers) == 0 then None
    else
      var reward := Share(rem, powers[0], PowerSum(powers));
      var left := Sub(rem, reward);
      if left.None? then None
      else
        var rest := Allocate(left.value, powers[1..]);
        if rest.None? then None else Some([reward] + rest.value)
  }

  /** The split panics exactly when the last validator has no power. */
  lemma {:induction false} AllocateSucceeds(rem: DecCoins.DecCoins, powers: seq<nat>)
    requires Valid(rem)
    ensures Allocate(rem, powers).Some? <==> powers == [] || powers[|powers| - 1] > 0
    decreases |powers|
  {
    if powers != [] {
      var total := PowerSum(powers);
      if total > 0 {
        PowerSumBounds(powers, 0);
        ShareAtMostRemainder(rem, powers[0], total);
        var left := Sub(rem, Share(rem, powers[0], total)).value;
        if |powers| == 1 {
          assert powers[1..] == [];
        } else {
          assert powers[1..][|powers[1..]| - 1] == powers[|powers| - 1];
          AllocateSucceeds(left, powers[1..]);
        }
      } else {
        PowerSumBounds(powers, |powers| - 1);
      }
    }
  }

  /** Every power is at most the sum. */
  lemma {:induction false} PowerSumBounds(powers: seq<nat>, i: nat)
    requires i < |powers|
    ensures powers[i] <= PowerSum(powers)
    decreases |powers|
  {
    if i > 0 {
      assert powers[1..][i - 1] == powers[i];
      PowerSumBounds(powers[1..], i - 1);
    }
  }

  /**
   * Nothing is lost or created: when there is at least one validator, the
   * shares add up exactly to what was split.
   */
  lemma {:induction false} AllocateSumsToTotal(rem: DecCoins.DecCoins, powers: seq<nat>)
    requires Valid(rem) && powers != [] && Allocate(rem, powers).Some?
    ensures Sum(Allocate(rem, powers).value) == rem
    decreases |powers|
  {
    var total := PowerSum(powers);
    var reward := Share(rem, powers[0], total);
    var left := Sub(rem, reward).value;
    if |powers| == 1 {
      assert powers[1..] == [];
      assert total == powers[0];
      ShareOfAll(rem, total);
      SumSingle(reward);
    } else {
      assert Allocate(left, powers[1..]).Some?;
      var rest := Allocate(left, powers[1..]).value;
      AllocateSumsToTotal(left, powers[1..]);
      assert Allocate(rem, powers).value == [reward] + rest;
      SumAppend([reward], rest);
      SumSingle(reward);
      AddSub(rem, reward);
      AddCommutes(left, reward);
    }
  }

  /** A split that has not panicked starts with the first share and goes on with the split of what is left. */
  lemma AllocateCons(rem: DecCoins.DecCoins, powers: seq<nat>)
    requires Valid(rem) && Allocate(rem, powers).Some? && powers != []
    ensures PowerSum(powers) > 0
    ensures var reward := Share(rem, powers[0], PowerSum(powers));
      IsAllGTE(rem, reward) && Sub(rem, reward).Some?
      && Allocate(Sub(rem, reward).value, powers[1..]).Some?
      && Allocate(rem, powers).value == [reward] + Allocate(Sub(rem, reward).value, powers[1..]).value
  {
    PowerSumBounds(powers, 0);
    ShareAtMostRemainder(rem, powers[0], PowerSum(powers));
  }

  /** Every share is within the remainder it was taken from, so within the total. */
  lemma {:induction false} AllocateWithinTotal(rem: DecCoins.DecCoins, powers: seq<nat>, i: nat)
    requires Valid(rem) && Allocate(rem, powers).Some? && i < |powers|
    ensures IsAllGTE(rem, Allocate(rem, powers).value[i])
    decreases |powers|
  {
    AllocateCons(rem, powers);
    var reward := Share(rem, powers[0], PowerSum(powers));
    var left := Sub(rem, reward).value;
    var rest := Allocate(left, powers[1..]).value;
    assert Allocate(rem, powers).value == [reward] + rest;
    if i > 0 {
      AllocateWithinTotal(left, powers[1..], i - 1);
      WithinDifference(rem, reward, rest[i - 1]);
    }
  }

  /** The first loop of the split: the total power of the bonded set. */
  method TotalPower(powers: seq<nat>) returns (total: nat)
    ensures total == PowerSum(powers)
  {
    total := 0;
    var i := 0;
    while i < |powers|
      invariant 0 <= i <= |powers|
      invariant total == PowerSum(powers[..i])
    {
      assert powers[..i + 1] == powers[..i] + [powers[i]];
      PowerSumAppend(powers[..i], powers[i]);
      total := total + powers[i];
      i := i + 1;
    }
    assert powers[..i] == powers;
  }

  /** Prefixes `done` to the shares of a split that has not panicked. */
  function Prefixed(done: seq<DecCoins.DecCoins>, rest: Option<seq<DecCoins.DecCoins>>): Option<seq<DecCoins.DecCoins>> {
    if rest.None? then None else Some(done + rest.value)
  }

  lemma PrefixedTwice(a: seq<DecCoins.DecCoins>, b: seq<DecCoins.DecCoins>, rest: Option<seq<DecCoins.DecCoins>>)
    ensures Prefixed(a, Prefixed(b, rest)) == Prefixed(a + b, rest)
  {
    if rest.Some? {
      assert a + (b + rest.value) == (a + b) + rest.value;
    }
  }

  /**
   * The second loop of the split: the remainder and the remaining power go
   * down validator by validator, and the shares come out in vote order.
   */
  method AllocateRewards(total: Coins, powers: seq<nat>) returns (r: Option<seq<DecCoins.DecCoins>>)
    requires Valid(total)
    ensures r == Allocate(DecCoins.FromCoins(total), powers)
  {
    var totalPower := TotalPower(powers);
    var rem := DecCoins.FromCoins(total);
    var shares: seq<DecCoins.DecCoins> := [];
    var i := 0;
    assert powers[0..] == powers;
    assert Prefixed([], Allocate(rem, powers)) == Allocate(rem, powers) by {
      if Allocate(rem, powers).Some? {
        assert [] + Allocate(rem, powers).value == Allocate(rem, powers).value;
      }
    }
    while i < |powers|
      invariant 0 <= i <= |powers|
      invariant Valid(rem)
      invariant totalPower == PowerSum(powers[i..])
      invariant Allocate(DecCoins.FromCoins(total), powers) == Prefixed(shares, Allocate(rem, powers[i..]))
    {
      assert powers[i..][1..] == powers[i + 1..];
      assert powers[i..][0] == powers[i];
      if totalPower == 0 {
        return None;
      }
      var reward := Share(rem, powers[i], totalPower);
      var left := Sub(rem, reward);
      if left.None? {
        return None;
      }
      totalPower := totalPower - powers[i];
      rem := left.value;
      PrefixedTwice(shares, [reward], Allocate(rem, powers[i + 1..]));
      shares := shares + [reward];
      i := i + 1;
    }
    assert powers[i..] == [];
    r := Some(shares);
    assert shares + [] == shares;
  }
}
