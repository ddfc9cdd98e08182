/** utils/math.go: `SaturateSub`, coin subtraction that stops at zero. */
module UtilsMath {
  import opened Coins

  /** `coinsA.Sub(coinsA.Min(coinsB)...)`: the minimum never exceeds a, so the Sub cannot panic. */
  function SaturateSub(a: Coins, b: Coins): (r: Coins)
    requires Valid(a) && Valid(b)
    ensures Valid(r)
  {
    assert IsAllGTE(a, Min(a, b));
    Sub(a, Min(a, b)).value
  }

  /** Per denom the result is max(a - b, 0). */
  lemma SaturateSubAmount(a: Coins, b: Coins, d: Denom)
    requires Valid(a) && Valid(b)
    ensures AmountOf(SaturateSub(a, b), d) == if AmountOf(a, d) >= AmountOf(b, d) then AmountOf(a, d) - AmountOf(b, d) else 0
  {
    assert AmountOf(SaturateSub(a, b), d) + AmountOf(Min(a, b), d) == AmountOf(a, d);
  }

  /** The result never exceeds a and holds no denom that a lacks. */
  lemma SaturateSubWithin(a: Coins, b: Coins)
    requires Valid(a) && Valid(b)
    ensures IsAllGTE(a, SaturateSub(a, b))
    ensures SaturateSub(a, b).Keys <= a.Keys
  {
    var r := SaturateSub(a, b);
    forall d | d in r ensures d in a && r[d] <= AmountOf(a, d) {
      SaturateSubAmount(a, b, d);
    }
  }

  /** Adding back the part that was taken away gives a again. */
  lemma SaturateSubAddMin(a: Coins, b: Coins)
    requires Valid(a) && Valid(b)
    ensures Add(SaturateSub(a, b), Min(a, b)) == a
  {
    AddSub(a, Min(a, b));
  }

  lemma SaturateSubSelf(a: Coins)
    requires Valid(a)
    ensures SaturateSub(a, a) == map[]
  {
    forall d ensures AmountOf(SaturateSub(a, a), d) == AmountOf(map[], d) {
      SaturateSubAmount(a, a, d);
    }
    Extensional(SaturateSub(a, a), map[]);
  }

  lemma SaturateSubNothing(a: Coins)
    requires Valid(a)
    ensures SaturateSub(a, map[]) == a
  {
    forall d ensures AmountOf(SaturateSub(a, map[]), d) == AmountOf(a, d) {
      SaturateSubAmount(a, map[], d);
    }
    Extensional(SaturateSub(a, map[]), a);
  }

  /** The example in the doc comment: {2A, 3B, 4C} - {1A, 5B, 3D} = {1A, 4C}. */
  lemma SaturateSubExample()
    ensures SaturateSub(map["A" := 2, "B" := 3, "C" := 4], map["A" := 1, "B" := 5, "D" := 3]) == map["A" := 1, "C" := 4]
  {
    var a, b := map["A" := 2, "B" := 3, "C" := 4], map["A" := 1, "B" := 5, "D" := 3];
    var e := map["A" := 1, "C" := 4];
    forall d ensures AmountOf(SaturateSub(a, b), d) == AmountOf(e, d) {
      SaturateSubAmount(a, b, d);
      if d != "A" && d != "B" && d != "C" {
        assert AmountOf(a, d) == 0 && AmountOf(e, d) == 0;
      }
    }
    Extensional(SaturateSub(a, b), e);
  }
}
