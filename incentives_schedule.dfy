/**
 * An incentives schedule (x/incentives/types/store.go): a coin amount that is
 * released linearly to the validators between a start and an end time.
 * Times are integer nanoseconds (`time.Time` read as Unix nanoseconds).
 */
module IncentivesSchedule {
  import opened Wrappers
  import opened Coins
  import Dec
  import DecCoins
  import Arith

  datatype Schedule = Schedule(
    id: nat,
    startTime: int,
    endTime: int,
    totalAmount: Coins,
    releasedAmount: Coins)

  predicate WellFormed(s: Schedule) {
    Valid(s.totalAmount) && Valid(s.releasedAmount)
  }

  /** `durationToSecondsDec`: nanoseconds read as a Dec of seconds with 9 decimals. */
  function DurationToSecondsDec(ns: int): Dec.Dec {
    Dec.WithPrec(ns, 9)
  }

  /**
   * The cumulative amount the schedule has unlocked at time t, as the SDK
   * computes it: everything after the end time, otherwise the total scaled
   * by elapsed/total time in Dec arithmetic and truncated to whole coins.
   * The linear branch divides by the schedule's duration, so a schedule
   * whose start equals its end has no linear amount.
   */
  function Unlocked(s: Schedule, t: int): (r: Coins)
    requires WellFormed(s) && s.startTime <= t
    requires t > s.endTime || s.startTime < s.endTime
    ensures Valid(r)
  {
    UnlockedOf(s.totalAmount, s.startTime, s.endTime, t)
  }

  /** The computation of `Unlocked` on the fields it reads. */
  function UnlockedOf(total: Coins, start: int, end: int, t: int): (r: Coins)
    requires Valid(total) && start <= t
    requires t > end || start < end
    ensures Valid(r)
  {
    if t > end then total
    else
      var timeTotal := DurationToSecondsDec(end - start);
      var timeElapsed := DurationToSecondsDec(t - start);
      assert Dec.Pow10(9) == Nano;
      DecCoins.TruncateDecimal(DecCoins.QuoDec(DecCoins.MulDec(DecCoins.FromCoins(total), timeElapsed), timeTotal))
  }

  /**
   * `Schedule.GetBlockReward`: nothing before the start time, the unlocked
   * amount minus what was already released otherwise.  `None` is a panic:
   * `Coins.Sub` going negative, or `QuoDec` by a zero duration.
   */
  function GetBlockReward(s: Schedule, t: int): (r: Option<Coins>)
    requires WellFormed(s)
    ensures r.Some? ==> Valid(r.value)
    ensures t < s.startTime ==> r == Some(map[])
    ensures s.startTime <= t ==>
      (r.Some? <==> (t > s.endTime || s.startTime < s.endTime) && IsAllGTE(Unlocked(s, t), s.releasedAmount))
    ensures s.startTime <= t && r.Some? ==> Add(r.value, s.releasedAmount) == Unlocked(s, t)
  {
    if s.startTime > t then Some(map[])
    else if t <= s.endTime && s.startTime == s.endTime then None
    else
      var r := Sub(Unlocked(s, t), s.releasedAmount);
      if r.Some? then AddSub(Unlocked(s, t), s.releasedAmount); r else r
  }

  /** The reference release rule: floor(total * elapsed / duration) per denom. */
  function LinearRelease(s: Schedule, t: int): (r: Coins)
    requires s.startTime <= t <= s.endTime && s.startTime < s.endTime
    ensures Valid(r)
  {
    map d | d in s.totalAmount && (s.totalAmount[d] * (t - s.startTime)) / (s.endTime - s.startTime) > 0
      :: (s.totalAmount[d] * (t - s.startTime)) / (s.endTime - s.startTime)
  }

  const Nano: int := 1_000_000_000

  /** The Dec steps of the linear branch for one denom, up to the final rounding. */
  lemma LinearSteps(a: nat, e: nat, T: nat)
    requires T > 0
    ensures Dec.Quo(Dec.Mul(Dec.FromInt(a), DurationToSecondsDec(e)), DurationToSecondsDec(T))
         == Dec.ChopRound((a * e * (Dec.Precision * Dec.Precision)) / T)
  {
    assert Dec.Pow10(9) == Nano;
    var N := a * e;
    Arith.MulNonNegative(a, e);
    assert Dec.FromInt(a) * DurationToSecondsDec(e) == (N * Nano) * Dec.Precision;
    Dec.ChopExact(N * Nano);
    assert Dec.Mul(Dec.FromInt(a), DurationToSecondsDec(e)) == N * Nano;
    var PP := Dec.Precision * Dec.Precision;
    assert N * Nano * Dec.Precision * Dec.Precision == (N * PP) * Nano;
    Arith.MulNonNegative(N, PP);
    Arith.DivCancel(N * PP, T, Nano);
  }

  /** The scaled quotient of the linear branch is at most the scaled total. */
  lemma ScaledAtMostTotal(a: nat, e: nat, T: nat)
    requires 0 < T && e <= T
    ensures 0 <= (a * e * (Dec.Precision * Dec.Precision)) / T <= a * (Dec.Precision * Dec.Precision)
  {
    var PP := Dec.Precision * Dec.Precision;
    assert a * e * PP == (a * PP) * e;
    Arith.MulNonNegative(a * PP, e);
    Arith.FractionAtMostWhole(a * PP, e, T);
  }

  /** Rounding and truncating a scaled amount no larger than a * 10^36 gives at most a. */
  lemma RoundedAtMost(q: int, a: nat)
    requires 0 <= q <= a * (Dec.Precision * Dec.Precision)
    ensures 0 <= Dec.TruncateInt(Dec.ChopRound(q)) <= a
  {
    assert a * (Dec.Precision * Dec.Precision) == (a * Dec.Precision) * Dec.Precision;
    Dec.ChopMonotone(q, a * (Dec.Precision * Dec.Precision));
    Dec.ChopExact(a * Dec.Precision);
    Dec.TruncDivMonotone(Dec.ChopRound(q), a * Dec.Precision, Dec.Precision);
  }

  /** A linear amount never exceeds the total it is taken from. */
  lemma LinearAtMostTotal(a: nat, e: nat, T: nat)
    requires 0 < T && e <= T
    ensures 0 <= Share(a, e, T) <= a
  {
    ScaledAtMostTotal(a, e, T);
    RoundedAtMost((a * e * (Dec.Precision * Dec.Precision)) / T, a);
  }

  /** At the end time the linear amount is exactly the total. */
  lemma LinearAtEnd(a: nat, T: nat)
    requires 0 < T
    ensures Share(a, T, T) == a
  {
    var PP := Dec.Precision * Dec.Precision;
    assert a * T * PP == (a * PP) * T;
    Arith.DivOfMultiple(a * PP, T);
    assert a * PP == (a * Dec.Precision) * Dec.Precision;
    Dec.ChopExact(a * Dec.Precision);
  }

  /** Rounding a scaled amount of at least m * 10^36 gives at least m * 10^18. */
  lemma RoundedAtLeast(q: int, m: int)
    requires m * (Dec.Precision * Dec.Precision) <= q
    ensures m * Dec.Precision <= Dec.ChopRound(q)
  {
    assert m * (Dec.Precision * Dec.Precision) == (m * Dec.Precision) * Dec.Precision;
    Dec.ChopMonotone(m * (Dec.Precision * Dec.Precision), q);
    Dec.ChopExact(m * Dec.Precision);
  }

  /** Rounding a scaled amount that stays half a unit below (m + 1) * 10^36 stays below (m + 1) * 10^18. */
  lemma RoundedBelow(q: int, m: int)
    requires 2 * q + Dec.Precision < 2 * (m + 1) * (Dec.Precision * Dec.Precision)
    ensures Dec.ChopRound(q) < (m + 1) * Dec.Precision
  {
    var r := Dec.ChopRound(q);
    assert 2 * (r * Dec.Precision - q) <= Dec.Precision;
    assert r * Dec.Precision < ((m + 1) * Dec.Precision) * Dec.Precision;
    Arith.MulCancelLess(r, (m + 1) * Dec.Precision, Dec.Precision);
  }

  /**
   * For a duration shorter than 2 * 10^18 ns (about 63 years) the Dec
   * rounding never pushes the result past the next whole coin: the SDK
   * computes exactly floor(a * e / T).
   */
  lemma LinearIsFloor(a: nat, e: nat, T: nat)
    requires 0 < T < 2 * Dec.Precision
    ensures Share(a, e, T) == (a * e) / T
  {
    var P := Dec.Precision;
    var N := a * e;
    Arith.MulNonNegative(a, e);
    var m := N / T;
    var q := (N * (P * P)) / T;
    Arith.FloorScaledLower(N, T, P * P);
    RoundedAtLeast(q, m);
    Arith.FloorScaledUpper(N, T, P);
    RoundedBelow(q, m);
    Arith.DivMonotone(0, N, T);
    Dec.TruncateBetween(Dec.ChopRound(q), m);
  }

  /** Within the schedule's window the SDK's result is the floor of the linear share. */
  lemma {:induction false} UnlockedIsLinear(s: Schedule, t: int)
    requires WellFormed(s) && s.startTime <= t <= s.endTime && s.startTime < s.endTime
    requires s.endTime - s.startTime < 2 * Dec.Precision
    ensures Unlocked(s, t) == LinearRelease(s, t)
  {
    var u, l := Unlocked(s, t), LinearRelease(s, t);
    forall d ensures AmountOf(u, d) == AmountOf(l, d) {
      UnlockedIsLinearAt(s, t, d);
    }
    Extensional(u, l);
  }

  lemma UnlockedIsLinearAt(s: Schedule, t: int, d: Denom)
    requires WellFormed(s) && s.startTime <= t <= s.endTime && s.startTime < s.endTime
    requires s.endTime - s.startTime < 2 * Dec.Precision
    ensures AmountOf(Unlocked(s, t), d) == AmountOf(LinearRelease(s, t), d)
  {
    UnlockedAmount(s, t, d);
    ShareIsFloorAt(s, t, d);
    LinearReleaseAmount(s, t, d);
  }

  lemma LinearReleaseAmount(s: Schedule, t: int, d: Denom)
    requires s.startTime <= t <= s.endTime && s.startTime < s.endTime
    ensures AmountOf(LinearRelease(s, t), d)
         == (AmountOf(s.totalAmount, d) * (t - s.startTime)) / (s.endTime - s.startTime)
  {
    var e, T := t - s.startTime, s.endTime - s.startTime;
    var l := LinearRelease(s, t);
    if d in s.totalAmount {
      var q := (s.totalAmount[d] * e) / T;
      assert d in l <==> q > 0;
      Arith.MulNonNegative(s.totalAmount[d], e);
      Arith.DivMonotone(0, s.totalAmount[d] * e, T);
    } else {
      assert AmountOf(s.totalAmount, d) * e == 0;
      Arith.DivUnique(0, T, 0, 0);
    }
  }

  /** The per-denom amount the linear branch unlocks, as Dec arithmetic computes it. */
  function Share(a: nat, e: nat, T: nat): int
    requires T > 0
  {
    Dec.TruncateInt(Dec.ChopRound((a * e * (Dec.Precision * Dec.Precision)) / T))
  }

  lemma UnlockedAmount(s: Schedule, t: int, d: Denom)
    requires WellFormed(s) && s.startTime <= t <= s.endTime && s.startTime < s.endTime
    ensures AmountOf(Unlocked(s, t), d) == Share(AmountOf(s.totalAmount, d), t - s.startTime, s.endTime - s.startTime)
  {
    UnlockedSteps(s, t, d);
    LinearStepsAt(s, t, d);
  }

  lemma UnlockedSteps(s: Schedule, t: int, d: Denom)
    requires WellFormed(s) && s.startTime <= t <= s.endTime && s.startTime < s.endTime
    ensures AmountOf(Unlocked(s, t), d)
         == Dec.TruncateInt(Dec.Quo(Dec.Mul(Dec.FromInt(AmountOf(s.totalAmount, d)), DurationToSecondsDec(t - s.startTime)),
                                    DurationToSecondsDec(s.endTime - s.startTime)))
  {
    UnlockedOfSteps(s.totalAmount, s.startTime, s.endTime, t, d);
  }

  lemma UnlockedOfSteps(total: Coins, start: int, end: int, t: int, d: Denom)
    requires Valid(total) && start <= t <= end && start < end
    ensures AmountOf(UnlockedOf(total, start, end, t), d)
         == Dec.TruncateInt(Dec.Quo(Dec.Mul(Dec.FromInt(AmountOf(total, d)), DurationToSecondsDec(t - start)),
                                    DurationToSecondsDec(end - start)))
  {
    assert Dec.Pow10(9) == Nano;
    DecCoins.FromCoinsAmount(total, d);
    DecCoins.ScaleAndTruncate(DecCoins.FromCoins(total), DurationToSecondsDec(t - start), DurationToSecondsDec(end - start), d);
  }

  lemma LinearStepsAt(s: Schedule, t: int, d: Denom)
    requires s.startTime <= t <= s.endTime && s.startTime < s.endTime
    ensures Dec.TruncateInt(Dec.Quo(Dec.Mul(Dec.FromInt(AmountOf(s.totalAmount, d)), DurationToSecondsDec(t - s.startTime)),
                                    DurationToSecondsDec(s.endTime - s.startTime)))
         == Share(AmountOf(s.totalAmount, d), t - s.startTime, s.endTime - s.startTime)
  {
    LinearSteps(AmountOf(s.totalAmount, d), t - s.startTime, s.endTime - s.startTime);
  }

  lemma ShareMonotone(a: nat, e1: nat, e2: nat, T: nat)
    requires 0 < T && e1 <= e2
    ensures Share(a, e1, T) <= Share(a, e2, T)
  {
    var PP := Dec.Precision * Dec.Precision;
    Arith.MulMonotone(e1, e2, a);
    assert a * e1 <= a * e2;
    Arith.MulMonotone(a * e1, a * e2, PP);
    Arith.MulNonNegative(a * e1, PP);
    Arith.DivMonotone(a * e1 * PP, a * e2 * PP, T);
    Arith.MulNonNegative(a * e1 * PP, 1);
    Arith.DivMonotone(0, a * e1 * PP, T);
    Dec.ChopMonotone((a * e1 * PP) / T, (a * e2 * PP) / T);
    Dec.ChopMonotone(0, (a * e1 * PP) / T);
    Dec.TruncDivMonotone(Dec.ChopRound((a * e1 * PP) / T), Dec.ChopRound((a * e2 * PP) / T), Dec.Precision);
  }

  /** Nothing unlocks beyond the total amount. */
  lemma {:induction false} UnlockedAtMostTotal(s: Schedule, t: int)
    requires WellFormed(s) && s.startTime <= t
    requires t > s.endTime || s.startTime < s.endTime
    ensures IsAllGTE(s.totalAmount, Unlocked(s, t))
  {
    if t <= s.endTime {
      var u := Unlocked(s, t);
      forall d | d in u ensures u[d] <= AmountOf(s.totalAmount, d) {
        UnlockedAmount(s, t, d);
        ShareAtMostTotalAt(s, t, d);
      }
    }
  }

  /** A block reward never exceeds the schedule's unreleased amount. */
  lemma RewardAtMostUnreleased(s: Schedule, t: int)
    requires WellFormed(s) && IsAllGTE(s.totalAmount, s.releasedAmount)
    requires GetBlockReward(s, t).Some?
    ensures IsAllGTE(Sub(s.totalAmount, s.releasedAmount).value, GetBlockReward(s, t).value)
  {
    if s.startTime <= t {
      UnlockedAtMostTotal(s, t);
    }
  }

  /** At the end time the linear branch already yields the full remainder. */
  lemma {:induction false} RewardContinuousAtEnd(s: Schedule)
    requires WellFormed(s) && s.startTime < s.endTime
    ensures GetBlockReward(s, s.endTime) == GetBlockReward(s, s.endTime + 1)
    ensures GetBlockReward(s, s.endTime) == Sub(s.totalAmount, s.releasedAmount)
  {
    var u := Unlocked(s, s.endTime);
    forall d ensures AmountOf(u, d) == AmountOf(s.totalAmount, d) {
      UnlockedAmount(s, s.endTime, d);
      ShareAtEndAt(s, d);
    }
    Extensional(u, s.totalAmount);
  }

  /** Later times never unlock less. */
  lemma {:induction false} UnlockedMonotone(s: Schedule, t1: int, t2: int)
    requires WellFormed(s) && s.startTime <= t1 <= t2 && s.startTime < s.endTime
    ensures IsAllGTE(Unlocked(s, t2), Unlocked(s, t1))
  {
    var u1, u2 := Unlocked(s, t1), Unlocked(s, t2);
    forall d | d in u1 ensures u1[d] <= AmountOf(u2, d) {
      UnlockedMonotoneAt(s, t1, t2, d);
    }
  }

  lemma UnlockedMonotoneAt(s: Schedule, t1: int, t2: int, d: Denom)
    requires WellFormed(s) && s.startTime <= t1 <= t2 && s.startTime < s.endTime
    ensures AmountOf(Unlocked(s, t1), d) <= AmountOf(Unlocked(s, t2), d)
  {
    var a := AmountOf(s.totalAmount, d);
    if t2 <= s.endTime {
      UnlockedMonotoneLinear(s, t1, t2, d);
    } else {
      UnlockedAtMostTotal(s, t1);
      var u1 := Unlocked(s, t1);
      assert AmountOf(u1, d) <= a;
      assert Unlocked(s, t2) == s.totalAmount;
    }
  }

  lemma UnlockedMonotoneLinear(s: Schedule, t1: int, t2: int, d: Denom)
    requires WellFormed(s) && s.startTime <= t1 <= t2 <= s.endTime && s.startTime < s.endTime
    ensures AmountOf(Unlocked(s, t1), d) <= AmountOf(Unlocked(s, t2), d)
  {
    UnlockedAmount(s, t1, d);
    UnlockedAmount(s, t2, d);
    ShareMonotoneAt(s, t1, t2, d);
  }

  /*
   * The Share lemmas restated on a schedule's own times, so that callers
   * reasoning about `Unlocked` need not check the integer lemmas' bounds.
   */

  lemma ShareMonotoneAt(s: Schedule, t1: int, t2: int, d: Denom)
    requires s.startTime <= t1 <= t2 <= s.endTime && s.startTime < s.endTime
    ensures Share(AmountOf(s.totalAmount, d), t1 - s.startTime, s.endTime - s.startTime)
         <= Share(AmountOf(s.totalAmount, d), t2 - s.startTime, s.endTime - s.startTime)
  {
    ShareMonotone(AmountOf(s.totalAmount, d), t1 - s.startTime, t2 - s.startTime, s.endTime - s.startTime);
  }

  lemma ShareAtMostTotalAt(s: Schedule, t: int, d: Denom)
    requires s.startTime <= t <= s.endTime && s.startTime < s.endTime
    ensures 0 <= Share(AmountOf(s.totalAmount, d), t - s.startTime, s.endTime - s.startTime) <= AmountOf(s.totalAmount, d)
  {
    LinearAtMostTotal(AmountOf(s.totalAmount, d), t - s.startTime, s.endTime - s.startTime);
  }

  lemma ShareAtEndAt(s: Schedule, d: Denom)
    requires s.startTime < s.endTime
    ensures Share(AmountOf(s.totalAmount, d), s.endTime - s.startTime, s.endTime - s.startTime) == AmountOf(s.totalAmount, d)
  {
    LinearAtEnd(AmountOf(s.totalAmount, d), s.endTime - s.startTime);
  }

  lemma ShareIsFloorAt(s: Schedule, t: int, d: Denom)
    requires s.startTime <= t <= s.endTime && s.startTime < s.endTime
    requires s.endTime - s.startTime < 2 * Dec.Precision
    ensures Share(AmountOf(s.totalAmount, d), t - s.startTime, s.endTime - s.startTime)
         == (AmountOf(s.totalAmount, d) * (t - s.startTime)) / (s.endTime - s.startTime)
  {
    LinearIsFloor(AmountOf(s.totalAmount, d), t - s.startTime, s.endTime - s.startTime);
  }

  /**
   * Releasing a block reward and later asking again, at the same or a later
   * time, never panics: what was released is exactly what had unlocked, and
   * the unlocked amount only grows.
   */
  lemma {:induction false} ReleaseThenLater(s: Schedule, t1: int, t2: int)
    requires WellFormed(s) && s.startTime < s.endTime && s.startTime <= t1 <= t2
    requires GetBlockReward(s, t1).Some?
    ensures GetBlockReward(s.(releasedAmount := Add(s.releasedAmount, GetBlockReward(s, t1).value)), t2).Some?
  {
    var r := GetBlockReward(s, t1).value;
    UnlockedIgnoresReleased(s, Add(s.releasedAmount, r), t2);
    UnlockedMonotone(s, t1, t2);
    AddCommutes(r, s.releasedAmount);
  }

  /** The unlocked amount does not depend on what was released. */
  lemma UnlockedIgnoresReleased(s: Schedule, x: Coins, t: int)
    requires WellFormed(s) && Valid(x) && s.startTime <= t
    requires t > s.endTime || s.startTime < s.endTime
    ensures Unlocked(s.(releasedAmount := x), t) == Unlocked(s, t)
  {
  }

  /** A reward is what lies between the released amount and the unlocked amount. */
  lemma RewardFromUnlocked(s: Schedule, t: int, u: Coins)
    requires WellFormed(s) && s.startTime <= t && GetBlockReward(s, t).Some?
    requires (t > s.endTime || s.startTime < s.endTime) && Unlocked(s, t) == u
    ensures GetBlockReward(s, t) == Sub(u, s.releasedAmount)
  {
    SubAdd(GetBlockReward(s, t).value, s.releasedAmount);
  }

  /**
   * The schedule of the reward tests: 12345umars and 69420uastro between
   * 10000s and 20000s.
   */
  function TestSchedule(released: Coins): Schedule {
    Schedule(1, 10000 * Nano, 20000 * Nano, map["umars" := 12345, "uastro" := 69420], released)
  }

  lemma {:induction false} TestScheduleLinearFirst(released: Coins)
    ensures LinearRelease(TestSchedule(released), 13333 * Nano) == map["umars" := 4114, "uastro" := 23137]
  {
    var s, t := TestSchedule(released), 13333 * Nano;
    var want := map["umars" := 4114, "uastro" := 23137];
    forall d ensures AmountOf(LinearRelease(s, t), d) == AmountOf(want, d) {
      LinearReleaseAmount(s, t, d);
      if d == "umars" {
        FloorExample(12345, 3333, 10000, 4114);
      } else if d == "uastro" {
        FloorExample(69420, 3333, 10000, 23137);
      }
    }
    Extensional(LinearRelease(s, t), want);
  }

  lemma {:induction false} TestScheduleUnlockedFirst(released: Coins)
    requires Valid(released)
    ensures Unlocked(TestSchedule(released), 13333 * Nano) == map["umars" := 4114, "uastro" := 23137]
  {
    UnlockedIsLinear(TestSchedule(released), 13333 * Nano);
    TestScheduleLinearFirst(released);
  }

  lemma {:induction false} TestScheduleLinearSecond(released: Coins)
    ensures LinearRelease(TestSchedule(released), 18964 * Nano) == map["umars" := 11066, "uastro" := 62228]
  {
    var s, t := TestSchedule(released), 18964 * Nano;
    var want := map["umars" := 11066, "uastro" := 62228];
    forall d ensures AmountOf(LinearRelease(s, t), d) == AmountOf(want, d) {
      LinearReleaseAmount(s, t, d);
      if d == "umars" {
        FloorExample(12345, 8964, 10000, 11066);
      } else if d == "uastro" {
        FloorExample(69420, 8964, 10000, 62228);
      }
    }
    Extensional(LinearRelease(s, t), want);
  }

  lemma {:induction false} TestScheduleUnlockedSecond(released: Coins)
    requires Valid(released)
    ensures Unlocked(TestSchedule(released), 18964 * Nano) == map["umars" := 11066, "uastro" := 62228]
  {
    UnlockedIsLinear(TestSchedule(released), 18964 * Nano);
    TestScheduleLinearSecond(released);
  }

  /** At 13333s the test schedule releases 4114umars and 23137uastro. */
  lemma {:induction false} FirstReleaseExample()
    ensures GetBlockReward(TestSchedule(map[]), 13333 * Nano) == Some(map["umars" := 4114, "uastro" := 23137])
  {
    var want := map["umars" := 4114, "uastro" := 23137];
    TestScheduleUnlockedFirst(map[]);
    AddEmpty(want);
    SubAdd(want, map[]);
    RewardFromUnlocked(TestSchedule(map[]), 13333 * Nano, want);
  }

  /** At 18964s, after the first release, it releases 6952umars and 39091uastro more. */
  lemma {:induction false} SecondReleaseExample()
    ensures GetBlockReward(TestSchedule(map["umars" := 4114, "uastro" := 23137]), 18964 * Nano)
         == Some(map["umars" := 6952, "uastro" := 39091])
  {
    var released := map["umars" := 4114, "uastro" := 23137];
    var unlocked := map["umars" := 11066, "uastro" := 62228];
    TestScheduleUnlockedSecond(released);
    SecondReleaseSub();
    RewardFromUnlocked(TestSchedule(released), 18964 * Nano, unlocked);
  }

  lemma SecondReleaseSub()
    ensures Sub(map["umars" := 11066, "uastro" := 62228], map["umars" := 4114, "uastro" := 23137])
         == Some(map["umars" := 6952, "uastro" := 39091])
  {
    var released := map["umars" := 4114, "uastro" := 23137];
    var want := map["umars" := 6952, "uastro" := 39091];
    Extensional(Add(want, released), map["umars" := 11066, "uastro" := 62228]);
    SubAdd(want, released);
  }

  lemma LaterScheduleUnlocked()
    ensures Unlocked(Schedule(2, 15000 * Nano, 30000 * Nano, map["umars" := 10000], map[]), 18964 * Nano)
         == map["umars" := 2642]
  {
    FloorExample(10000, 3964, 15000, 2642);
    SingleDenomUnlocked(Schedule(2, 15000 * Nano, 30000 * Nano, map["umars" := 10000], map[]), 18964 * Nano, "umars", 2642);
  }

  /** A schedule of a single denom unlocks the floor of its linear share of that denom. */
  lemma {:induction false} SingleDenomUnlocked(s: Schedule, t: int, d: Denom, q: nat)
    requires WellFormed(s) && s.startTime <= t <= s.endTime && s.startTime < s.endTime
    requires s.endTime - s.startTime < 2 * Dec.Precision
    requires s.totalAmount.Keys == {d} && q > 0
    requires (s.totalAmount[d] * (t - s.startTime)) / (s.endTime - s.startTime) == q
    ensures Unlocked(s, t) == map[d := q]
  {
    var want := map[d := q];
    UnlockedIsLinear(s, t);
    forall d' ensures AmountOf(LinearRelease(s, t), d') == AmountOf(want, d') {
      LinearReleaseAmount(s, t, d');
    }
    Extensional(LinearRelease(s, t), want);
  }

  /** The second test schedule, 10000umars between 15000s and 30000s, releases 2642umars at 18964s. */
  lemma {:induction false} LaterScheduleExample()
    ensures GetBlockReward(Schedule(2, 15000 * Nano, 30000 * Nano, map["umars" := 10000], map[]), 18964 * Nano)
         == Some(map["umars" := 2642])
  {
    var want := map["umars" := 2642];
    LaterScheduleUnlocked();
    AddEmpty(want);
    SubAdd(want, map[]);
    RewardFromUnlocked(Schedule(2, 15000 * Nano, 30000 * Nano, map["umars" := 10000], map[]), 18964 * Nano, want);
  }

  /** One second before the start nothing is released. */
  lemma BeforeStartExample()
    ensures GetBlockReward(TestSchedule(map[]), 9999 * Nano) == Some(map[])
  {
  }

  /** floor(a * e / T) for times given in whole seconds. */
  lemma FloorExample(a: nat, e: nat, T: nat, q: nat)
    requires 0 < T && q * T <= a * e < (q + 1) * T
    ensures (a * (e * Nano)) / (T * Nano) == q
  {
    assert a * (e * Nano) == (a * e) * Nano;
    Arith.DivCancel(a * e, T, Nano);
    Arith.DivUnique(a * e, T, q, a * e - q * T);
  }
}
