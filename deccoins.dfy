/**
 * The Cosmos SDK `sdk.DecCoins`: coin amounts held as `Dec`.  A DecCoins
 * value is a `Coins.Coins` map whose amounts are scaled by 10^18, so the
 * coin-set arithmetic of the `Coins` module (Add, checked Sub, IsAllGTE)
 * applies to it unchanged.  Every operation drops the zero amounts it
 * produces, as the SDK does.  The per-denom meaning of each operation is
 * stated by a lemma beside it, so that a proof pays for the Dec arithmetic
 * only where it asks for it.
 */
module DecCoins {
  import opened Coins
  import Dec

  type DecCoins = map<Denom, nat>

  /** `sdk.NewDecCoinsFromCoins`. */
  function FromCoins(c: Coins): (r: DecCoins)
    requires Valid(c)
    ensures Valid(r)
    ensures r.Keys == c.Keys
  {
    map d | d in c :: Dec.FromInt(c[d])
  }

  lemma FromCoinsAmount(c: Coins, d: Denom)
    requires Valid(c)
    ensures AmountOf(FromCoins(c), d) == Dec.FromInt(AmountOf(c, d))
  {
  }

  /** `DecCoins.MulDec` by a non-negative factor. */
  function MulDec(c: DecCoins, x: Dec.Dec): (r: DecCoins)
    requires x >= 0
    ensures Valid(r)
    ensures r.Keys <= c.Keys
  {
    map d | d in c && Dec.Mul(c[d], x) != 0 :: Dec.Mul(c[d], x)
  }

  lemma MulDecAmount(c: DecCoins, x: Dec.Dec, d: Denom)
    requires x >= 0
    ensures AmountOf(MulDec(c, x), d) == Dec.Mul(AmountOf(c, d), x)
  {
  }

  /** `DecCoins.QuoDec` by a positive divisor (a zero divisor panics). */
  function QuoDec(c: DecCoins, x: Dec.Dec): (r: DecCoins)
    requires x > 0
    ensures Valid(r)
    ensures r.Keys <= c.Keys
  {
    assert forall a: nat {:trigger Dec.Quo(a, x)} :: Dec.Quo(a, x) >= 0 by {
      forall a: nat ensures Dec.Quo(a, x) >= 0 {
        Dec.QuoNonNegative(a, x);
      }
    }
    map d | d in c && Dec.Quo(c[d], x) != 0 :: Dec.Quo(c[d], x)
  }

  lemma QuoDecAmount(c: DecCoins, x: Dec.Dec, d: Denom)
    requires x > 0
    ensures AmountOf(QuoDec(c, x), d) == Dec.Quo(AmountOf(c, d), x)
  {
    Dec.QuoNonNegative(0, x);
  }

  /** The whole-coin part returned by `DecCoins.TruncateDecimal`. */
  function TruncateDecimal(c: DecCoins): (r: Coins)
    ensures Valid(r)
    ensures r.Keys <= c.Keys
  {
    map d | d in c && Dec.TruncateInt(c[d]) != 0 :: Dec.TruncateInt(c[d])
  }

  lemma TruncateDecimalAmount(c: DecCoins, d: Denom)
    ensures AmountOf(TruncateDecimal(c), d) == Dec.TruncateInt(AmountOf(c, d))
  {
  }

  /** One denom of `c.MulDec(x).QuoDec(y).TruncateDecimal()`. */
  lemma ScaleAndTruncate(c: DecCoins, x: Dec.Dec, y: Dec.Dec, d: Denom)
    requires x >= 0 && y > 0
    ensures AmountOf(TruncateDecimal(QuoDec(MulDec(c, x), y)), d)
         == Dec.TruncateInt(Dec.Quo(Dec.Mul(AmountOf(c, d), x), y))
  {
    MulDecAmount(c, x, d);
    QuoDecAmount(MulDec(c, x), y, d);
    TruncateDecimalAmount(QuoDec(MulDec(c, x), y), d);
  }
}
