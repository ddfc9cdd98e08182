/**
 * The Cosmos SDK `sdk.Dec` fixed-point decimal: an integer read as a
 * multiple of 10^-18.  The SDK bounds its bit length and panics past the
 * bound; here the integer is unbounded.  Products and quotients are rounded
 * back to 18 decimals with the SDK's `chopPrecisionAndRound` (round half to
 * even, applied to the magnitude), and `TruncateInt` drops the fraction
 * toward zero, as Go's `big.Int.Quo` does.
 */
module Dec {
  import Arith

  /** 10^18, the scale of every `Dec`. */
  const Precision: int := 1_000_000_000_000_000_000

  /** A `Dec` is its scaled integer: `FromInt(1) == Precision`. */
  type Dec = int

  function Abs(x: int): nat {
    if x < 0 then -x else x
  }

  function Pow10(n: nat): (r: nat)
    ensures r > 0
  {
    if n == 0 then 1 else 10 * Pow10(n - 1)
  }

  /** `sdk.NewDecFromInt`. */
  function FromInt(i: int): Dec {
    i * Precision
  }

  /** `sdk.NewDecWithPrec(i, prec)`: the value i * 10^-prec. */
  function WithPrec(i: int, prec: nat): Dec
    requires prec <= 18
  {
    i * Pow10(18 - prec)
  }

  /** Go's `big.Int.Quo`: the quotient truncated toward zero. */
  function TruncDiv(a: int, b: int): (q: int)
    requires b != 0
    ensures Abs(a - q * b) < Abs(b)
    ensures a >= 0 ==> 0 <= a - q * b
    ensures a <= 0 ==> a - q * b <= 0
  {
    var q := if a >= 0 then (if b > 0 then a / b else -(a / -b))
             else (if b > 0 then -((-a) / b) else (-a) / (-b));
    TruncDivBounds(a, b, q);
    q
  }

  /** The bounds of `TruncDiv`, one sign case at a time. */
  lemma TruncDivBounds(a: int, b: int, q: int)
    requires b != 0
    requires q == if a >= 0 then (if b > 0 then a / b else -(a / -b))
                  else (if b > 0 then -((-a) / b) else (-a) / (-b))
    ensures Abs(a - q * b) < Abs(b)
    ensures a >= 0 ==> 0 <= a - q * b
    ensures a <= 0 ==> a - q * b <= 0
  {
    if a >= 0 && b > 0 {
      Arith.DivPosPos(a, b);
      BoundsFrom(a, b, q);
    } else if a >= 0 {
      Arith.DivPosNeg(a, b);
      BoundsFrom(a, b, q);
    } else if b > 0 {
      Arith.DivNegPos(a, b);
      BoundsFrom(a, b, q);
    } else {
      Arith.DivNegNeg(a, b);
      BoundsFrom(a, b, q);
    }
  }

  /** The bounds of `TruncDiv` from the remainder's sign and size. */
  lemma BoundsFrom(a: int, b: int, q: int)
    requires b != 0
    requires a >= 0 ==> 0 <= a - q * b < Abs(b)
    requires a < 0 ==> 0 < Abs(b) + (a - q * b) && a - q * b <= 0
    ensures Abs(a - q * b) < Abs(b)
    ensures a >= 0 ==> 0 <= a - q * b
    ensures a <= 0 ==> a - q * b <= 0
  {
  }

  /** Rounding of a non-negative scaled product back to 18 decimals. */
  function ChopNonNeg(x: nat): (r: nat)
    ensures 2 * Abs(x - r * Precision) <= Precision
    ensures 2 * Abs(x - r * Precision) == Precision ==> r % 2 == 0
  {
    var q, rem := x / Precision, x % Precision;
    if rem < Precision / 2 then q
    else if rem > Precision / 2 then q + 1
    else if q % 2 == 0 then q
    else q + 1
  }

  /**
   * `chopPrecisionAndRound`: x * 10^-18 rounded to the nearest integer, a
   * tie going to the even neighbour; negative inputs are rounded by their
   * magnitude.
   */
  function ChopRound(x: int): (r: int)
    ensures x >= 0 ==> r >= 0
    ensures 2 * Abs(x - r * Precision) <= Precision
    ensures 2 * Abs(x - r * Precision) == Precision ==> r % 2 == 0
  {
    if x < 0 then -(ChopNonNeg(-x) as int) else ChopNonNeg(x)
  }

  /** `Dec.Mul`. */
  function Mul(a: Dec, b: Dec): Dec {
    ChopRound(a * b)
  }

  /** `Dec.Quo`; division by zero panics in the SDK and is excluded here. */
  function Quo(a: Dec, b: Dec): Dec
    requires b != 0
  {
    ChopRound(TruncDiv(a * Precision * Precision, b))
  }

  /** `Dec.MulInt`: exact. */
  function MulInt(a: Dec, i: int): Dec {
    a * i
  }

  /** `Dec.TruncateInt`. */
  function TruncateInt(a: Dec): (r: int)
    ensures a >= 0 ==> r >= 0 && r * Precision <= a < (r + 1) * Precision
  {
    TruncDiv(a, Precision)
  }

  /** An exact multiple of 10^-18 is left as it is. */
  lemma ChopExact(k: int)
    ensures ChopRound(k * Precision) == k
  {
    var r := ChopRound(k * Precision);
    assert k * Precision - r * Precision == (k - r) * Precision;
    Arith.SmallMultiple(k - r, Precision);
  }

  lemma ChopNonNegMonotone(x: nat, y: nat)
    requires x <= y
    ensures ChopNonNeg(x) <= ChopNonNeg(y)
  {
    var qx, qy := x / Precision, y / Precision;
    Arith.DivMonotone(x, y, Precision);
    if qx < qy {
      assert ChopNonNeg(x) <= qx + 1 <= qy <= ChopNonNeg(y);
    } else {
      assert x % Precision <= y % Precision;
    }
  }

  /** Rounding never reverses the order of two values. */
  lemma ChopMonotone(x: int, y: int)
    requires x <= y
    ensures ChopRound(x) <= ChopRound(y)
  {
    if 0 <= x {
      ChopNonNegMonotone(x, y);
    } else if y < 0 {
      ChopNonNegMonotone(-y, -x);
    }
  }

  lemma TruncDivMonotone(a: int, b: int, c: int)
    requires 0 <= a <= b && c > 0
    ensures TruncDiv(a, c) <= TruncDiv(b, c)
  {
    Arith.DivMonotone(a, b, c);
  }

  lemma QuoNonNegative(a: int, b: int)
    requires a >= 0 && b > 0
    ensures Quo(a, b) >= 0
    ensures a == 0 ==> Quo(a, b) == 0
  {
    Arith.MulNonNegative(a, Precision * Precision);
    assert a * Precision * Precision == a * (Precision * Precision);
    if a == 0 {
      Arith.DivUnique(0, b, 0, 0);
    }
  }

  /** Multiplying by a whole number is exact. */
  lemma MulByInt(a: Dec, i: int)
    ensures Mul(a, FromInt(i)) == a * i
    ensures Mul(FromInt(i), a) == a * i
  {
    assert a * FromInt(i) == (a * i) * Precision;
    assert FromInt(i) * a == (a * i) * Precision;
    ChopExact(a * i);
  }

  /** Dividing a non-negative Dec by a positive whole number. */
  lemma QuoByInt(a: nat, k: nat)
    requires k > 0
    ensures Quo(a, FromInt(k)) == ChopRound((a * Precision) / k)
  {
    assert a * Precision * Precision == (a * Precision) * Precision;
    Arith.DivCancel(a * Precision, k, Precision);
  }

  /** TruncateInt of a whole number. */
  /** A Dec between m and m + 1 truncates to m. */
  lemma TruncateBetween(x: int, m: nat)
    requires m * Precision <= x < (m + 1) * Precision
    ensures TruncateInt(x) == m
  {
    Arith.DivUnique(x, Precision, m, x - m * Precision);
  }

  lemma TruncateFromInt(i: int)
    ensures TruncateInt(FromInt(i)) == i
  {
  }
}
