/**
 * Facts about multiplication and floor division by a non-constant divisor,
 * and the size of a strict subset, which the map walks decrease by.
 */
module Arith {

  lemma StrictSubsetSmaller<T>(a: set<T>, b: set<T>)
    requires a < b
    ensures |a| < |b|
  {
    assert b - a != {};
    assert a - b == {} && a * b == a && a + b == b;
    assert |b - a| + |a| == |b|;
  }

  lemma MulNonNegative(a: int, b: int)
    requires a >= 0 && b >= 0
    ensures a * b >= 0
  {
  }

  lemma Distribute(k: int, a: int, b: int)
    ensures k * (a + b) == k * a + b * k
  {
  }

  lemma MulMonotone(a: int, b: int, c: int)
    requires a <= b && c >= 0
    ensures a * c <= b * c
  {
    MulNonNegative(b - a, c);
    assert (b - a) * c == b * c - a * c;
  }

  /** A product strictly between -d and d has a zero factor. */
  lemma {:induction false} SmallMultiple(t: int, d: int)
    requires d > 0 && -d < t * d < d
    ensures t == 0
  {
    if t >= 1 {
      MulMonotone(1, t, d);
      assert false;
    } else if t <= -1 {
      MulMonotone(t, -1, d);
      assert false;
    }
  }

  /** Floor division is determined by its defining equation. */
  lemma DivUnique(n: int, d: int, q: int, r: int)
    requires d > 0 && n == q * d + r && 0 <= r < d
    ensures n / d == q && n % d == r
  {
    var q', r' := n / d, n % d;
    assert (q - q') * d == r' - r;
    SmallMultiple(q - q', d);
  }

  /** The four sign cases of a quotient truncated toward zero. */
  lemma DivPosPos(a: int, b: int)
    requires a >= 0 && b > 0
    ensures 0 <= a - (a / b) * b < b
  {
  }

  lemma DivPosNeg(a: int, b: int)
    requires a >= 0 && b < 0
    ensures 0 <= a - (-(a / -b)) * b < -b
  {
    assert (-(a / -b)) * b == (a / -b) * -b;
  }

  lemma DivNegPos(a: int, b: int)
    requires a < 0 && b > 0
    ensures -b < a - (-((-a) / b)) * b <= 0
  {
    assert (-((-a) / b)) * b == -(((-a) / b) * b);
  }

  lemma DivNegNeg(a: int, b: int)
    requires a < 0 && b < 0
    ensures b < a - ((-a) / (-b)) * b <= 0
  {
    assert ((-a) / (-b)) * b == -(((-a) / (-b)) * -b);
  }

  lemma DivMonotone(a: int, b: int, d: int)
    requires a <= b && d > 0
    ensures a / d <= b / d
  {
    var qa, qb := a / d, b / d;
    assert qa * d <= a && b < (qb + 1) * d;
    if qa > qb {
      MulMonotone(qb + 1, qa, d);
      assert false;
    }
  }

  /** Scaling numerator and denominator by the same positive factor keeps the floor. */
  lemma DivCancel(x: int, k: int, m: int)
    requires k > 0 && m > 0
    ensures (x * m) / (k * m) == x / k
  {
    var q, r := x / k, x % k;
    assert x * m == q * (k * m) + r * m;
    MulMonotone(0, r, m);
    MulMonotone(r, k - 1, m);
    DivUnique(x * m, k * m, q, r * m);
  }

  /** Dividing by a larger divisor gives a smaller floor. */
  lemma DivByLarger(x: int, d: int, e: int)
    requires x >= 0 && 0 < d <= e
    ensures x / e <= x / d
  {
    var qd, qe := x / d, x / e;
    MulMonotone(d, e, qe);
    assert qe * d <= qe * e <= x;
    if qe > qd {
      MulMonotone(qd + 1, qe, d);
      assert false;
    }
  }

  /** (x * p) / t <= x when p <= t. */
  lemma FractionAtMostWhole(x: int, p: int, t: int)
    requires x >= 0 && 0 <= p <= t && t > 0
    ensures (x * p) / t <= x
  {
    MulMonotone(p, t, x);
    assert x * p <= x * t;
    DivMonotone(x * p, x * t, t);
    DivUnique(x * t, t, x, 0);
  }

  /** (x * t) / t == x. */
  lemma DivOfMultiple(x: int, t: int)
    requires t > 0
    ensures (x * t) / t == x
  {
    DivUnique(x * t, t, x, 0);
  }

  /** A strict inequality between multiples of a positive number carries over to the factors. */
  lemma MulCancelLess(x: int, y: int, t: int)
    requires t > 0 && x * t < y * t
    ensures x < y
  {
    if x >= y {
      MulMonotone(y, x, t);
      assert false;
    }
  }

  /** floor(N / T) * K <= floor(N * K / T). */
  lemma FloorScaledLower(N: int, T: int, K: int)
    requires N >= 0 && T > 0 && K > 0
    ensures (N / T) * K <= (N * K) / T
  {
    var m := N / T;
    assert m * T <= N;
    MulMonotone(m * T, N, K);
    assert m * T * K == (m * K) * T;
    DivMonotone((m * K) * T, N * K, T);
    DivOfMultiple(m * K, T);
  }

  /**
   * With T < 2P, floor(N * P^2 / T) stays more than P/2 below the next
   * multiple of P^2: 2 * floor(N * P^2 / T) + P < 2 * (floor(N / T) + 1) * P^2.
   */
  lemma FloorScaledUpper(N: int, T: int, P: int)
    requires N >= 0 && 0 < T < 2 * P
    ensures 2 * ((N * (P * P)) / T) + P < 2 * (N / T + 1) * (P * P)
  {
    var PP := P * P;
    var m := N / T;
    var q := (N * PP) / T;
    assert q * T <= N * PP;
    assert N <= m * T + T - 1;
    MulMonotone(N, m * T + T - 1, PP);
    assert (m * T + T - 1) * PP == (m + 1) * PP * T - PP;
    MulMonotone(T, 2 * P - 1, P);
    assert P * T < 2 * PP;
    assert (2 * q + P) * T == 2 * (q * T) + P * T;
    assert 2 * (q * T) + P * T < 2 * ((m + 1) * PP * T);
    assert (2 * q + P) * T < (2 * (m + 1) * PP) * T;
    MulCancelLess(2 * q + P, 2 * (m + 1) * PP, T);
  }
}
