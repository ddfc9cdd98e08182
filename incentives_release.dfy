/**
 * The schedule pass of `ReleaseBlockReward` (x/incentives/keeper/reward.go
 * and its older variant release.go) as a pure fold over the store in
 * iteration order: each schedule's block reward is added to the total, an
 * ended schedule is deleted and any other has its released amount raised by
 * its reward.  The fold takes the rewards as a list computed up front by
 * `GetBlockReward` from the schedules as they were before the pass (each
 * schedule is visited once, so that is what the callback sees); `None` is a
 * panic of `GetBlockReward`.
 */
module IncentivesRelease {
  import opened Wrappers
  import opened Coins
  import opened IncentivesSchedule
  import opened IncentivesStore

  /** The store, the ids reported so far and the running total. */
  datatype Released = Released(store: Store, ids: seq<nat>, total: Coins)

  /** A schedule after releasing r more. */
  function Advance(s: Schedule, r: Coins): (s': Schedule)
    requires WellFormed(s) && Valid(r)
    ensures WellFormed(s') && s'.id == s.id && s'.totalAmount == s.totalAmount
  {
    s.(releasedAmount := Add(s.releasedAmount, r))
  }

  /**
   * A reward fits a stored schedule when releasing it keeps the released
   * amount within the total, and, once the schedule has ended, when it is
   * the whole remainder.
   */
  predicate Fits(s: Schedule, r: Coins, now: int)
    requires WellFormed(s) && IsAllGTE(s.totalAmount, s.releasedAmount)
  {
    Valid(r) && IsAllGTE(s.totalAmount, Add(s.releasedAmount, r)) && (now > s.endTime ==> r == Remaining(s))
  }

  /** Every block reward `GetBlockReward` returns fits its schedule. */
  lemma RewardFits(s: Schedule, now: int)
    requires WellFormed(s) && IsAllGTE(s.totalAmount, s.releasedAmount) && s.startTime <= s.endTime
    requires GetBlockReward(s, now).Some?
    ensures Fits(s, GetBlockReward(s, now).value, now)
  {
    var r := GetBlockReward(s, now).value;
    if s.startTime <= now {
      UnlockedAtMostTotal(s, now);
      AddCommutes(r, s.releasedAmount);
      if now > s.endTime {
        assert Unlocked(s, now) == s.totalAmount;
        SubAdd(Remaining(s), s.releasedAmount);
        SubAdd(r, s.releasedAmount);
      }
    } else {
      AddEmpty(s.releasedAmount);
    }
  }

  /** The rewards of the schedules of `order`, as `GetBlockReward` computes them. */
  function BlockRewards(st: Store, order: seq<nat>, now: int): (r: seq<Option<Coins>>)
    requires Consistent(st) && forall k :: k in order ==> k in st
    ensures |r| == |order|
    ensures forall i :: 0 <= i < |order| ==> r[i] == GetBlockReward(st[order[i]], now)
  {
    seq(|order|, i requires 0 <= i < |order| => GetBlockReward(st[order[i]], now))
  }

  /** Every reward that does not panic fits its schedule. */
  predicate AllFit(st: Store, order: seq<nat>, rewards: seq<Option<Coins>>, now: int)
    requires Consistent(st) && forall k :: k in order ==> k in st
    requires |rewards| == |order|
  {
    forall i :: 0 <= i < |order| && rewards[i].Some? ==> Fits(st[order[i]], rewards[i].value, now)
  }

  lemma BlockRewardsFit(st: Store, order: seq<nat>, now: int)
    requires Consistent(st) && forall k :: k in order ==> k in st
    requires forall k :: k in st ==> st[k].startTime <= st[k].endTime
    ensures AllFit(st, order, BlockRewards(st, order, now), now)
  {
    var rw := BlockRewards(st, order, now);
    forall i | 0 <= i < |order| && rw[i].Some? ensures Fits(st[order[i]], rw[i].value, now) {
      RewardFits(st[order[i]], now);
    }
  }

  /** One callback of reward.go's `IterateSchedules` loop, given the schedule's reward. */
  function Step(acc: Released, k: nat, reward: Option<Coins>, now: int): (r: Option<Released>)
    requires Consistent(acc.store) && k in acc.store && Valid(acc.total)
    requires reward.Some? ==> Fits(acc.store[k], reward.value, now)
    ensures r.Some? <==> reward.Some?
    ensures r.Some? ==> Consistent(r.value.store) && Valid(r.value.total)
    ensures r.Some? ==> r.value.store.Keys <= acc.store.Keys
    ensures r.Some? ==> forall j :: j in acc.store && j != k ==> j in r.value.store && r.value.store[j] == acc.store[j]
  {
    if reward.None? then None
    else
      var s := acc.store[k];
      var r := reward.value;
      var ids := if r != map[] then acc.ids + [s.id] else acc.ids;
      var total := if r != map[] then Add(acc.total, r) else acc.total;
      if now > s.endTime then
        DeleteConsistent(acc.store, k);
        Some(Released(acc.store - {k}, ids, total))
      else
        UpdateConsistent(acc.store, k, Advance(s, r));
        Some(Released(acc.store[k := Advance(s, r)], ids, total))
  }

  lemma DeleteConsistent(st: Store, k: nat)
    requires Consistent(st)
    ensures Consistent(st - {k})
  {
  }

  lemma UpdateConsistent(st: Store, k: nat, s: Schedule)
    requires Consistent(st) && s.id == k && WellFormed(s) && IsAllGTE(s.totalAmount, s.releasedAmount)
    ensures Consistent(st[k := s])
  {
  }

  /** The whole pass over the ids of `order`, first to last. */
  function ReleaseAll(st: Store, order: seq<nat>, rewards: seq<Option<Coins>>, now: int): (r: Option<Released>)
    requires Consistent(st) && Distinct(order) && forall k :: k in order ==> k in st
    requires |rewards| == |order| && AllFit(st, order, rewards, now)
    ensures r.Some? ==> Consistent(r.value.store) && Valid(r.value.total)
    ensures r.Some? ==> r.value.store.Keys <= st.Keys
    ensures r.Some? ==> forall j :: j in st && j !in order ==> j in r.value.store && r.value.store[j] == st[j]
    decreases |order|
  {
    if order == [] then Some(Released(st, [], map[]))
    else
      var n := |order| - 1;
      AllFitPrefix(st, order, rewards, now);
      var prev := ReleaseAll(st, order[..n], rewards[..n], now);
      if prev.None? then None
      else
        assert order[n] !in order[..n];
        Step(prev.value, order[n], rewards[n], now)
  }

  /** Dropping the last id keeps every precondition of the pass. */
  lemma AllFitPrefix(st: Store, order: seq<nat>, rewards: seq<Option<Coins>>, now: int)
    requires Consistent(st) && Distinct(order) && forall k :: k in order ==> k in st
    requires |rewards| == |order| && AllFit(st, order, rewards, now) && order != []
    ensures Distinct(order[..|order| - 1]) && forall k :: k in order[..|order| - 1] ==> k in st
    ensures AllFit(st, order[..|order| - 1], rewards[..|order| - 1], now)
  {
  }

  /**
   * The pass over a non-empty order is the pass over all but its last id,
   * followed by one `Step` on the last id, which the shorter pass left as
   * it was.
   */
  lemma ReleaseAllLast(st: Store, order: seq<nat>, rewards: seq<Option<Coins>>, now: int)
    requires Consistent(st) && Distinct(order) && forall k :: k in order ==> k in st
    requires |rewards| == |order| && AllFit(st, order, rewards, now) && order != []
    ensures Distinct(order[..|order| - 1]) && forall k :: k in order[..|order| - 1] ==> k in st
    ensures AllFit(st, order[..|order| - 1], rewards[..|order| - 1], now)
    ensures rewards[|order| - 1].Some? ==> Fits(st[order[|order| - 1]], rewards[|order| - 1].value, now)
    ensures var n := |order| - 1; var prev := ReleaseAll(st, order[..n], rewards[..n], now);
      (ReleaseAll(st, order, rewards, now).Some? ==> prev.Some?) &&
      (prev.Some? ==> (order[n] in prev.value.store && prev.value.store[order[n]] == st[order[n]] &&
                       ReleaseAll(st, order, rewards, now) == Step(prev.value, order[n], rewards[n], now)))
  {
    AllFitPrefix(st, order, rewards, now);
    assert order[|order| - 1] !in order[..|order| - 1];
  }

  /** The same for the pass of release.go. */
  lemma LegacyReleaseAllLast(st: Store, order: seq<nat>, rewards: seq<Option<Coins>>, now: int)
    requires Consistent(st) && Distinct(order) && forall k :: k in order ==> k in st
    requires |rewards| == |order| && AllFit(st, order, rewards, now) && order != []
    ensures Distinct(order[..|order| - 1]) && forall k :: k in order[..|order| - 1] ==> k in st
    ensures AllFit(st, order[..|order| - 1], rewards[..|order| - 1], now)
    ensures rewards[|order| - 1].Some? ==> Fits(st[order[|order| - 1]], rewards[|order| - 1].value, now)
    ensures var n := |order| - 1; var prev := LegacyReleaseAll(st, order[..n], rewards[..n], now);
      (LegacyReleaseAll(st, order, rewards, now).Some? ==> prev.Some?) &&
      (prev.Some? ==> (order[n] in prev.value.0 && prev.value.0[order[n]] == st[order[n]] &&
                       LegacyReleaseAll(st, order, rewards, now) == LegacyStep(prev.value, order[n], rewards[n], now)))
  {
    AllFitPrefix(st, order, rewards, now);
    assert order[|order| - 1] !in order[..|order| - 1];
  }

  /** The pass panics exactly when some schedule's reward panics. */
  lemma {:induction false} ReleaseAllSucceeds(st: Store, order: seq<nat>, rewards: seq<Option<Coins>>, now: int)
    requires Consistent(st) && Distinct(order) && forall k :: k in order ==> k in st
    requires |rewards| == |order| && AllFit(st, order, rewards, now)
    ensures ReleaseAll(st, order, rewards, now).Some? <==> AllSome(rewards)
    decreases |order|
  {
    if order != [] {
      var n := |order| - 1;
      AllFitPrefix(st, order, rewards, now);
      ReleaseAllSucceeds(st, order[..n], rewards[..n], now);
      assert order[n] !in order[..n];
      var prev := ReleaseAll(st, order[..n], rewards[..n], now);
      if prev.Some? {
        assert prev.value.store[order[n]] == st[order[n]];
      }
      AllSomeSplit(rewards);
    }
  }

  /** No reward panicked. */
  predicate AllSome(rewards: seq<Option<Coins>>) {
    forall i :: 0 <= i < |rewards| ==> rewards[i].Some?
  }

  lemma AllSomeSplit(rewards: seq<Option<Coins>>)
    requires rewards != []
    ensures AllSome(rewards) <==> AllSome(rewards[..|rewards| - 1]) && rewards[|rewards| - 1].Some?
  {
    var n := |rewards| - 1;
    if AllSome(rewards[..n]) && rewards[n].Some? {
      forall i | 0 <= i < |rewards| ensures rewards[i].Some? {
        if i < n { assert rewards[..n][i] == rewards[i]; }
      }
    }
  }

  /** The reward of a schedule that did not panic; a panic counts as none. */
  function Value(r: Option<Coins>): Coins {
    if r.Some? then r.value else map[]
  }

  /** The ids of `order` whose reward is non-empty, in order. */
  function RewardedIds(order: seq<nat>, rewards: seq<Option<Coins>>): (r: seq<nat>)
    requires |rewards| == |order|
    decreases |order|
  {
    if order == [] then []
    else
      var n := |order| - 1;
      RewardedIds(order[..n], rewards[..n]) + (if Value(rewards[n]) != map[] then [order[n]] else [])
  }

  /** The rewards as coin sets. */
  function Values(rewards: seq<Option<Coins>>): (r: seq<Coins>)
    requires forall i :: 0 <= i < |rewards| && rewards[i].Some? ==> Valid(rewards[i].value)
    ensures |r| == |rewards| && AllValid(r)
    ensures forall i :: 0 <= i < |rewards| ==> r[i] == Value(rewards[i])
  {
    seq(|rewards|, i requires 0 <= i < |rewards| => Value(rewards[i]))
  }

  /** The reported ids are exactly the schedules with a non-empty reward, in store order. */
  lemma {:induction false} ReleaseAllIds(st: Store, order: seq<nat>, rewards: seq<Option<Coins>>, now: int)
    requires Consistent(st) && Distinct(order) && forall k :: k in order ==> k in st
    requires |rewards| == |order| && AllFit(st, order, rewards, now)
    requires ReleaseAll(st, order, rewards, now).Some?
    ensures ReleaseAll(st, order, rewards, now).value.ids == RewardedIds(order, rewards)
    decreases |order|
  {
    if order != [] {
      ReleaseAllLast(st, order, rewards, now);
      ReleaseAllIds(st, order[..|order| - 1], rewards[..|order| - 1], now);
    }
  }

  /** Every reward that fits is a valid coin set. */
  lemma AllFitValid(st: Store, order: seq<nat>, rewards: seq<Option<Coins>>, now: int)
    requires Consistent(st) && (forall k :: k in order ==> k in st) && |rewards| == |order|
    requires AllFit(st, order, rewards, now)
    ensures forall i :: 0 <= i < |rewards| && rewards[i].Some? ==> Valid(rewards[i].value)
  {
    forall i | 0 <= i < |rewards| && rewards[i].Some? ensures Valid(rewards[i].value) {
      assert Fits(st[order[i]], rewards[i].value, now);
    }
  }

  /** The sum of the rewards is the sum of all but the last, plus the last. */
  lemma ValuesLast(rewards: seq<Option<Coins>>)
    requires rewards != [] && forall i :: 0 <= i < |rewards| && rewards[i].Some? ==> Valid(rewards[i].value)
    ensures Sum(Values(rewards)) == Add(Sum(Values(rewards[..|rewards| - 1])), Value(rewards[|rewards| - 1]))
  {
    var vs := Values(rewards);
    assert vs[..|rewards| - 1] == Values(rewards[..|rewards| - 1]);
  }

  /** The released total is the sum of all rewards. */
  lemma {:induction false} ReleaseAllTotal(st: Store, order: seq<nat>, rewards: seq<Option<Coins>>, now: int)
    requires Consistent(st) && Distinct(order) && forall k :: k in order ==> k in st
    requires |rewards| == |order| && AllFit(st, order, rewards, now)
    requires forall i :: 0 <= i < |rewards| && rewards[i].Some? ==> Valid(rewards[i].value)
    requires ReleaseAll(st, order, rewards, now).Some?
    ensures ReleaseAll(st, order, rewards, now).value.total == Sum(Values(rewards))
    decreases |order|
  {
    if order != [] {
      var n := |order| - 1;
      ReleaseAllLast(st, order, rewards, now);
      ReleaseAllTotal(st, order[..n], rewards[..n], now);
      ValuesLast(rewards);
      if Value(rewards[n]) == map[] {
        AddEmpty(ReleaseAll(st, order[..n], rewards[..n], now).value.total);
      }
    }
  }

  /**
   * The reported ids are exactly the schedules with a non-empty reward, in
   * store order, and the total is the sum of all rewards.
   */
  lemma ReleaseAllReports(st: Store, order: seq<nat>, rewards: seq<Option<Coins>>, now: int)
    requires Consistent(st) && Distinct(order) && forall k :: k in order ==> k in st
    requires |rewards| == |order| && AllFit(st, order, rewards, now)
    requires ReleaseAll(st, order, rewards, now).Some?
    ensures forall i :: 0 <= i < |rewards| && rewards[i].Some? ==> Valid(rewards[i].value)
    ensures ReleaseAll(st, order, rewards, now).value.ids == RewardedIds(order, rewards)
    ensures ReleaseAll(st, order, rewards, now).value.total == Sum(Values(rewards))
  {
    ReleaseAllIds(st, order, rewards, now);
    AllFitValid(st, order, rewards, now);
    ReleaseAllTotal(st, order, rewards, now);
  }

  /** The pass moves coins out of the schedules and into the total, exactly. */
  lemma {:induction false} ReleaseAllConserves(st: Store, order: seq<nat>, rewards: seq<Option<Coins>>, now: int)
    requires Consistent(st) && Distinct(order) && forall k :: k in order ==> k in st
    requires |rewards| == |order| && AllFit(st, order, rewards, now)
    requires ReleaseAll(st, order, rewards, now).Some?
    ensures Add(Unreleased(ReleaseAll(st, order, rewards, now).value.store), ReleaseAll(st, order, rewards, now).value.total)
         == Unreleased(st)
    decreases |order|
  {
    if order == [] {
      AddEmpty(Unreleased(st));
    } else {
      var n := |order| - 1;
      ReleaseAllLast(st, order, rewards, now);
      ReleaseAllConserves(st, order[..n], rewards[..n], now);
      var prev := ReleaseAll(st, order[..n], rewards[..n], now).value;
      StepConserves(prev, order[n], rewards[n], now);
    }
  }

  lemma StepConserves(acc: Released, k: nat, reward: Option<Coins>, now: int)
    requires Consistent(acc.store) && k in acc.store && Valid(acc.total)
    requires reward.Some? && Fits(acc.store[k], reward.value, now)
    ensures Add(Unreleased(Step(acc, k, reward, now).value.store), Step(acc, k, reward, now).value.total)
         == Add(Unreleased(acc.store), acc.total)
  {
    var s, r := acc.store[k], reward.value;
    var next := Step(acc, k, reward, now).value;
    assert next.total == Add(acc.total, r) by {
      if r == map[] { AddEmpty(acc.total); }
    }
    if now > s.endTime {
      assert next.store == acc.store - {k};
      EndedConserves(acc.store, k, acc.total, r);
    } else {
      assert next.store == acc.store[k := Advance(s, r)];
      RunningConserves(acc.store, k, acc.total, r);
    }
  }

  /** Deleting an ended schedule moves its whole remainder into the total. */
  lemma EndedConserves(st: Store, k: nat, total: Coins, r: Coins)
    requires Consistent(st) && k in st && Valid(total) && r == Remaining(st[k])
    ensures Consistent(st - {k})
    ensures Add(Unreleased(st - {k}), Add(total, r)) == Add(Unreleased(st), total)
  {
    UnreleasedDelete(st, k);
    AddRotate(Unreleased(st - {k}), total, r);
  }

  /** Advancing a running schedule by r moves r from its remainder into the total. */
  lemma RunningConserves(st: Store, k: nat, total: Coins, r: Coins)
    requires Consistent(st) && k in st && Valid(total) && Valid(r)
    requires IsAllGTE(st[k].totalAmount, Add(st[k].releasedAmount, r))
    ensures Consistent(st[k := Advance(st[k], r)])
    ensures Add(Unreleased(st[k := Advance(st[k], r)]), Add(total, r)) == Add(Unreleased(st), total)
  {
    var s := st[k];
    var s' := Advance(s, r);
    UnreleasedDelete(st, k);
    UnreleasedUpdate(st, k, s');
    RemainingAdvance(s, r);
    Rearrange4(Remaining(s'), Unreleased(st - {k}), total, r);
  }

  lemma Rearrange4(a: Coins, b: Coins, t: Coins, r: Coins)
    requires Valid(a) && Valid(b) && Valid(t) && Valid(r)
    ensures Add(Add(a, b), Add(t, r)) == Add(Add(Add(a, r), b), t)
  {
    Extensional(Add(Add(a, b), Add(t, r)), Add(Add(Add(a, r), b), t));
  }

  /** Releasing r lowers the remainder by exactly r. */
  lemma RemainingAdvance(s: Schedule, r: Coins)
    requires WellFormed(s) && IsAllGTE(s.totalAmount, s.releasedAmount) && Valid(r)
    requires IsAllGTE(s.totalAmount, Advance(s, r).releasedAmount)
    ensures Add(Remaining(Advance(s, r)), r) == Remaining(s)
  {
    Extensional(Add(Remaining(Advance(s, r)), r), Remaining(s));
  }

  /**
   * Each listed schedule ends the pass deleted if it had ended, and
   * otherwise with its released amount raised by exactly its reward.
   */
  lemma {:induction false} ReleaseAllEffect(st: Store, order: seq<nat>, rewards: seq<Option<Coins>>, now: int, i: nat)
    requires Consistent(st) && Distinct(order) && forall k :: k in order ==> k in st
    requires |rewards| == |order| && AllFit(st, order, rewards, now)
    requires ReleaseAll(st, order, rewards, now).Some? && i < |order|
    ensures rewards[i].Some?
    ensures now > st[order[i]].endTime ==> order[i] !in ReleaseAll(st, order, rewards, now).value.store
    ensures now <= st[order[i]].endTime ==>
      order[i] in ReleaseAll(st, order, rewards, now).value.store &&
      ReleaseAll(st, order, rewards, now).value.store[order[i]] == Advance(st[order[i]], rewards[i].value)
    decreases |order|
  {
    var n := |order| - 1;
    ReleaseAllLast(st, order, rewards, now);
    var prev := ReleaseAll(st, order[..n], rewards[..n], now).value;
    var next := ReleaseAll(st, order, rewards, now).value;
    assert rewards[n].Some? ==> Fits(prev.store[order[n]], rewards[n].value, now);
    assert ReleaseAll(st, order, rewards, now) == Step(prev, order[n], rewards[n], now);
    if i < n {
      assert order[..n][i] == order[i] && rewards[..n][i] == rewards[i];
      ReleaseAllEffect(st, order[..n], rewards[..n], now, i);
      assert order[i] != order[n];
    } else {
      assert i == n && rewards[n].Some?;
      StepEffect(prev, order[n], rewards[n], now);
    }
  }

  /** One `Step` deletes its schedule once it has ended, and otherwise advances it by the reward. */
  lemma StepEffect(acc: Released, k: nat, reward: Option<Coins>, now: int)
    requires Consistent(acc.store) && k in acc.store && Valid(acc.total)
    requires reward.Some? && Fits(acc.store[k], reward.value, now)
    ensures now > acc.store[k].endTime ==> k !in Step(acc, k, reward, now).value.store
    ensures now <= acc.store[k].endTime ==>
      k in Step(acc, k, reward, now).value.store &&
      Step(acc, k, reward, now).value.store[k] == Advance(acc.store[k], reward.value)
  {
  }

  /** When no schedule's reward panics, neither does the pass. */
  lemma NoPanicWhenRewardsDefined(st: Store, order: seq<nat>, now: int)
    requires Consistent(st) && Distinct(order) && forall k :: k in st ==> st[k].startTime <= st[k].endTime
    requires forall k :: k in order ==> k in st && GetBlockReward(st[k], now).Some?
    ensures AllFit(st, order, BlockRewards(st, order, now), now)
    ensures ReleaseAll(st, order, BlockRewards(st, order, now), now).Some?
  {
    BlockRewardsFit(st, order, now);
    ReleaseAllSucceeds(st, order, BlockRewards(st, order, now), now);
  }

  /** One callback of release.go's loop: every reward is added, empty or not, and no ids are kept. */
  function LegacyStep(acc: (Store, Coins), k: nat, reward: Option<Coins>, now: int): (r: Option<(Store, Coins)>)
    requires Consistent(acc.0) && k in acc.0 && Valid(acc.1)
    requires reward.Some? ==> Fits(acc.0[k], reward.value, now)
    ensures r.Some? ==> Consistent(r.value.0) && Valid(r.value.1)
    ensures r.Some? ==> r.value.0.Keys <= acc.0.Keys
    ensures r.Some? ==> forall j :: j in acc.0 && j != k ==> j in r.value.0 && r.value.0[j] == acc.0[j]
  {
    if reward.None? then None
    else
      var s := acc.0[k];
      var total := Add(acc.1, reward.value);
      if now > s.endTime then
        DeleteConsistent(acc.0, k);
        Some((acc.0 - {k}, total))
      else
        UpdateConsistent(acc.0, k, Advance(s, reward.value));
        Some((acc.0[k := Advance(s, reward.value)], total))
  }

  /** release.go's pass. */
  function LegacyReleaseAll(st: Store, order: seq<nat>, rewards: seq<Option<Coins>>, now: int): (r: Option<(Store, Coins)>)
    requires Consistent(st) && Distinct(order) && forall k :: k in order ==> k in st
    requires |rewards| == |order| && AllFit(st, order, rewards, now)
    ensures r.Some? ==> Consistent(r.value.0) && Valid(r.value.1)
    ensures r.Some? ==> forall j :: j in st && j !in order ==> j in r.value.0 && r.value.0[j] == st[j]
    decreases |order|
  {
    if order == [] then Some((st, map[]))
    else
      var n := |order| - 1;
      AllFitPrefix(st, order, rewards, now);
      var prev := LegacyReleaseAll(st, order[..n], rewards[..n], now);
      if prev.None? then None
      else
        assert order[n] !in order[..n];
        LegacyStep(prev.value, order[n], rewards[n], now)
  }

  /**
   * The older pass leaves the store and the total exactly as the newer one
   * does: adding an empty reward changes nothing.
   */
  lemma {:induction false} LegacyAgrees(st: Store, order: seq<nat>, rewards: seq<Option<Coins>>, now: int)
    requires Consistent(st) && Distinct(order) && forall k :: k in order ==> k in st
    requires |rewards| == |order| && AllFit(st, order, rewards, now)
    ensures LegacyReleaseAll(st, order, rewards, now).Some? <==> ReleaseAll(st, order, rewards, now).Some?
    ensures ReleaseAll(st, order, rewards, now).Some? ==>
      LegacyReleaseAll(st, order, rewards, now).value
        == (ReleaseAll(st, order, rewards, now).value.store, ReleaseAll(st, order, rewards, now).value.total)
    decreases |order|
  {
    if order != [] {
      var n := |order| - 1;
      ReleaseAllLast(st, order, rewards, now);
      LegacyReleaseAllLast(st, order, rewards, now);
      LegacyAgrees(st, order[..n], rewards[..n], now);
      var prev := ReleaseAll(st, order[..n], rewards[..n], now);
      if prev.Some? && rewards[n].Some? && rewards[n].value == map[] {
        AddEmpty(prev.value.total);
      }
    }
  }
}
