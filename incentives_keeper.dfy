/**
 * The incentives keeper (x/incentives/keeper): the schedule store and its
 * id counter, the creation and termination of schedules against the
 * community pool, the per-block release, the balance invariant and the
 * genesis import and export.
 *
 * The key-value store is the `schedules` map and the `nextScheduleId`
 * option (`None` until genesis sets it).  The bank and distribution keepers
 * are reduced to the balances this module moves: the incentives module
 * account, the distribution module account, the community pool held by the
 * distribution module, and a log of the rewards handed to validators.  A
 * Go panic is a `Panic` failure or a `None` result.
 */
module IncentivesKeeper {
  import opened Wrappers
  import opened Coins
  import DecCoins
  import opened IncentivesSchedule
  import opened IncentivesStore
  import opened IncentivesRelease
  import opened IncentivesAllocation
  import opened IncentivesGenesis
  import opened IncentivesOps

  datatype Failure =
    | Panic
    | KeyNotFound(id: nat)
    | FailedWithdrawFromCommunityPool
    | FailedRefundToCommunityPool

  /** A bonded validator's entry of the last commit: its consensus address and voting power. */
  datatype VoteInfo = VoteInfo(address: string, power: nat)

  function Powers(votes: seq<VoteInfo>): (r: seq<nat>)
    ensures |r| == |votes| && forall i :: 0 <= i < |votes| ==> r[i] == votes[i].power
  {
    seq(|votes|, i requires 0 <= i < |votes| => votes[i].power)
  }

  /** The validator reward log entries of one allocation: each validator with its share, in vote order. */
  function Paired(votes: seq<VoteInfo>, shares: seq<DecCoins.DecCoins>): (r: seq<(string, DecCoins.DecCoins)>)
    requires |shares| == |votes|
    ensures |r| == |votes| && forall i :: 0 <= i < |votes| ==> r[i] == (votes[i].address, shares[i])
  {
    seq(|votes|, i requires 0 <= i < |votes| => (votes[i].address, shares[i]))
  }

  /** The position of the first schedule at which the callback asks to stop, or the length. */
  function FirstStop(ss: seq<Schedule>, stop: Schedule -> bool): (n: nat)
    ensures n <= |ss|
    ensures forall j :: 0 <= j < n ==> !stop(ss[j])
    ensures n < |ss| ==> stop(ss[n])
    decreases |ss|
  {
    if ss == [] then 0
    else if stop(ss[0]) then 0
    else
      var n := FirstStop(ss[1..], stop);
      assert forall j :: 1 <= j < n + 1 ==> ss[j] == ss[1..][j - 1];
      n + 1
  }

  /** The invariant's loop: the remainders of the schedules added up in order. */
  method SumRemaining(all: seq<Schedule>) returns (total: Coins)
    requires forall j :: 0 <= j < |all| ==> WellFormed(all[j]) && IsAllGTE(all[j].totalAmount, all[j].releasedAmount)
    ensures total == Sum(Remainders(all))
  {
    total := map[];
    var i := 0;
    while i < |all|
      invariant 0 <= i <= |all|
      invariant total == Sum(Remainders(all[..i]))
    {
      SumRemaindersStep(all, i);
      total := Add(total, Remaining(all[i]));
      i := i + 1;
    }
    assert all[..i] == all;
  }

  /** The schedules of a consistent store, in iteration order, all owe a non-negative amount. */
  lemma InOrderSound(st: Store)
    requires Consistent(st)
    ensures forall j :: 0 <= j < |InOrder(st)| ==>
      WellFormed(InOrder(st)[j]) && IsAllGTE(InOrder(st)[j].totalAmount, InOrder(st)[j].releasedAmount)
  {
    var all, order := InOrder(st), SortedIds(st.Keys);
    forall j | 0 <= j < |all|
      ensures WellFormed(all[j]) && IsAllGTE(all[j].totalAmount, all[j].releasedAmount)
    {
      assert order[j] in st && all[j] == st[order[j]];
    }
  }

  /** The schedules handed to the callback: up to and including the first stop. */
  function Visited(ss: seq<Schedule>, stop: Schedule -> bool): (r: seq<Schedule>)
    ensures r <= ss
    ensures |r| == if FirstStop(ss, stop) < |ss| then FirstStop(ss, stop) + 1 else |ss|
  {
    var n := FirstStop(ss, stop);
    if n < |ss| then ss[..n + 1] else ss
  }

  /** The iteration loop: visits the schedules in order until the callback asks to stop. */
  method VisitUntilStop(all: seq<Schedule>, stop: Schedule -> bool) returns (visited: seq<Schedule>)
    ensures visited == Visited(all, stop)
  {
    ghost var n := FirstStop(all, stop);
    visited := [];
    var i := 0;
    while i < |all|
      invariant 0 <= i <= |all| && i <= n
      invariant visited == all[..i]
    {
      var s := all[i];
      visited := visited + [s];
      assert all[..i + 1] == all[..i] + [s];
      if stop(s) {
        assert !(i < n);
        return;
      }
      assert i != n;
      i := i + 1;
    }
    assert all[..i] == all;
  }

  /** A pass of the release fold keeps every schedule's id and times. */
  lemma ReleaseKeepsTimes(st: Store, order: seq<nat>, now: int, k: nat)
    requires Consistent(st) && Distinct(order) && forall j :: j in order ==> j in st
    requires AllFit(st, order, BlockRewards(st, order, now), now)
    requires ReleaseAll(st, order, BlockRewards(st, order, now), now).Some?
    requires k in ReleaseAll(st, order, BlockRewards(st, order, now), now).value.store
    ensures var s := ReleaseAll(st, order, BlockRewards(st, order, now), now).value.store[k];
      k in st && s.startTime == st[k].startTime && s.endTime == st[k].endTime
  {
    var rewards := BlockRewards(st, order, now);
    if exists i :: 0 <= i < |order| && order[i] == k {
      var i :| 0 <= i < |order| && order[i] == k;
      ReleaseAllEffect(st, order, rewards, now, i);
    }
  }

  /** A schedule that has released nothing has its whole total left. */
  lemma RemainingFresh(s: Schedule)
    requires WellFormed(s) && s.releasedAmount == map[]
    ensures IsAllGTE(s.totalAmount, s.releasedAmount) && Remaining(s) == s.totalAmount
  {
    AddEmpty(Remaining(s));
  }

  /** Storing a fresh schedule under the counter keeps the store's part of the invariant. */
  lemma CreateKeepsInvariant(st: Store, balance: Coins, s: Schedule)
    requires Consistent(st) && IdsBelow(st, s.id) && TimesOrdered(st) && balance == Unreleased(st)
    requires WellFormed(s) && s.releasedAmount == map[] && s.startTime < s.endTime
    ensures Consistent(st[s.id := s]) && IdsBelow(st[s.id := s], s.id + 1) && TimesOrdered(st[s.id := s])
    ensures Add(balance, s.totalAmount) == Unreleased(st[s.id := s])
  {
    RemainingFresh(s);
    IncrementKeepsIdsBelow(st, s.id, s);
    UnreleasedInsert(st, s);
    AddCommutes(s.totalAmount, balance);
  }

  /**
   * A termination that finds every id refunds no more than the module
   * holds, and what the module keeps is what the remaining schedules have
   * yet to release.
   */
  lemma TerminateKeepsInvariant(st: Store, ids: seq<nat>, balance: Coins, next: nat)
    requires Consistent(st) && IdsBelow(st, next) && TimesOrdered(st) && balance == Unreleased(st)
    requires TerminateFrom(st, ids, map[]).1.Ok?
    ensures IsAllGTE(balance, TerminateFrom(st, ids, map[]).1.value)
    ensures Sub(balance, TerminateFrom(st, ids, map[]).1.value).value == Unreleased(TerminateFrom(st, ids, map[]).0)
    ensures IdsBelow(TerminateFrom(st, ids, map[]).0, next) && TimesOrdered(TerminateFrom(st, ids, map[]).0)
  {
    var t := TerminateFrom(st, ids, map[]);
    TerminateConserves(st, ids, map[]);
    AddEmpty(Unreleased(st));
    SubAdd(Unreleased(t.0), t.1.value);
    TerminateRemoves(st, ids, map[]);
  }

  /** One more schedule in the invariant's sum. */
  lemma SumRemaindersStep(ss: seq<Schedule>, i: nat)
    requires i < |ss| && forall j :: 0 <= j < |ss| ==> WellFormed(ss[j]) && IsAllGTE(ss[j].totalAmount, ss[j].releasedAmount)
    ensures Sum(Remainders(ss[..i + 1])) == Add(Sum(Remainders(ss[..i])), Remaining(ss[i]))
  {
    assert Remainders(ss[..i + 1])[..i] == Remainders(ss[..i]);
  }

  /** Stored schedules do not end before they start. */
  predicate NotReversed(st: Store) {
    forall k :: k in st ==> st[k].startTime <= st[k].endTime
  }

  /** The schedule pass of reward.go over the whole store in iteration order; `None` is a panic. */
  function ReleasePass(st: Store, now: int): Option<Released>
    requires Consistent(st) && NotReversed(st)
  {
    var order := SortedIds(st.Keys);
    BlockRewardsFit(st, order, now);
    ReleaseAll(st, order, BlockRewards(st, order, now), now)
  }

  /** The schedule pass of release.go over the whole store; `None` is a panic. */
  function LegacyPass(st: Store, now: int): Option<(Store, Coins)>
    requires Consistent(st) && NotReversed(st)
  {
    var order := SortedIds(st.Keys);
    BlockRewardsFit(st, order, now);
    LegacyReleaseAll(st, order, BlockRewards(st, order, now), now)
  }

  /** What both passes demand of the order and of the rewards. */
  predicate PassReady(st: Store, order: seq<nat>, rewards: seq<Option<Coins>>, now: int) {
    Consistent(st) && Distinct(order) && (forall k :: k in order ==> k in st) &&
    |rewards| == |order| && AllFit(st, order, rewards, now)
  }

  /** The preconditions of the pass hold for every prefix of the order. */
  lemma PassPrefix(st: Store, order: seq<nat>, rewards: seq<Option<Coins>>, now: int, i: nat)
    requires PassReady(st, order, rewards, now) && i <= |order|
    ensures PassReady(st, order[..i], rewards[..i], now)
  {
  }

  /** The pass of reward.go over the first i ids of the order. */
  function PrefixPass(st: Store, order: seq<nat>, rewards: seq<Option<Coins>>, now: int, i: nat): (r: Option<Released>)
    requires PassReady(st, order, rewards, now) && i <= |order|
    ensures r.Some? ==> Consistent(r.value.store) && Valid(r.value.total)
  {
    PassPrefix(st, order, rewards, now, i);
    ReleaseAll(st, order[..i], rewards[..i], now)
  }

  /** The pass of release.go over the first i ids of the order. */
  function LegacyPrefixPass(st: Store, order: seq<nat>, rewards: seq<Option<Coins>>, now: int, i: nat): (r: Option<(Store, Coins)>)
    requires PassReady(st, order, rewards, now) && i <= |order|
    ensures r.Some? ==> Consistent(r.value.0) && Valid(r.value.1)
  {
    PassPrefix(st, order, rewards, now, i);
    LegacyReleaseAll(st, order[..i], rewards[..i], now)
  }

  /**
   * The next id of the order is still in the store, with its schedule as it
   * was before the pass, and the pass over one more id is one more `Step`.
   */
  lemma PrefixPassNext(st: Store, order: seq<nat>, rewards: seq<Option<Coins>>, now: int, i: nat)
    requires PassReady(st, order, rewards, now) && i < |order|
    requires PrefixPass(st, order, rewards, now, i).Some?
    ensures order[i] in PrefixPass(st, order, rewards, now, i).value.store
    ensures PrefixPass(st, order, rewards, now, i).value.store[order[i]] == st[order[i]]
    ensures PrefixPass(st, order, rewards, now, i + 1) == Step(PrefixPass(st, order, rewards, now, i).value, order[i], rewards[i], now)
  {
    PassPrefix(st, order, rewards, now, i);
    PassPrefix(st, order, rewards, now, i + 1);
    var o, rw := order[..i + 1], rewards[..i + 1];
    assert o[..i] == order[..i] && rw[..i] == rewards[..i];
    assert o[i] !in o[..i];
  }

  /** The same for the pass of release.go. */
  lemma LegacyPrefixPassNext(st: Store, order: seq<nat>, rewards: seq<Option<Coins>>, now: int, i: nat)
    requires PassReady(st, order, rewards, now) && i < |order|
    requires LegacyPrefixPass(st, order, rewards, now, i).Some?
    ensures order[i] in LegacyPrefixPass(st, order, rewards, now, i).value.0
    ensures LegacyPrefixPass(st, order, rewards, now, i).value.0[order[i]] == st[order[i]]
    ensures LegacyPrefixPass(st, order, rewards, now, i + 1) == LegacyStep(LegacyPrefixPass(st, order, rewards, now, i).value, order[i], rewards[i], now)
  {
    PassPrefix(st, order, rewards, now, i);
    PassPrefix(st, order, rewards, now, i + 1);
    var o, rw := order[..i + 1], rewards[..i + 1];
    assert o[..i] == order[..i] && rw[..i] == rewards[..i];
    assert o[i] !in o[..i];
  }

  /** The iteration order of the store with each schedule's reward, ready for a pass. */
  lemma StoreReady(st: Store, now: int)
    requires Consistent(st) && NotReversed(st)
    ensures PassReady(st, SortedIds(st.Keys), BlockRewards(st, SortedIds(st.Keys), now), now)
  {
    BlockRewardsFit(st, SortedIds(st.Keys), now);
  }

  /** The pass of reward.go over the first i ids in iteration order. */
  function PassUpTo(st: Store, now: int, i: nat): (r: Option<Released>)
    requires Consistent(st) && NotReversed(st) && i <= |st.Keys|
    ensures r.Some? ==> Consistent(r.value.store) && Valid(r.value.total)
  {
    StoreReady(st, now);
    PrefixPass(st, SortedIds(st.Keys), BlockRewards(st, SortedIds(st.Keys), now), now, i)
  }

  /** The pass of release.go over the first i ids in iteration order. */
  function LegacyPassUpTo(st: Store, now: int, i: nat): (r: Option<(Store, Coins)>)
    requires Consistent(st) && NotReversed(st) && i <= |st.Keys|
    ensures r.Some? ==> Consistent(r.value.0) && Valid(r.value.1)
  {
    StoreReady(st, now);
    LegacyPrefixPass(st, SortedIds(st.Keys), BlockRewards(st, SortedIds(st.Keys), now), now, i)
  }

  /** The pass over none of the order does nothing; the pass over all of it is the pass. */
  lemma PrefixPassEnds(st: Store, order: seq<nat>, rewards: seq<Option<Coins>>, now: int)
    requires PassReady(st, order, rewards, now)
    ensures PrefixPass(st, order, rewards, now, 0) == Some(Released(st, [], map[]))
    ensures PrefixPass(st, order, rewards, now, |order|) == ReleaseAll(st, order, rewards, now)
  {
    assert order[..0] == [] && rewards[..0] == [];
    assert order[..|order|] == order && rewards[..|order|] == rewards;
  }

  /** The same for the pass of release.go. */
  lemma LegacyPrefixPassEnds(st: Store, order: seq<nat>, rewards: seq<Option<Coins>>, now: int)
    requires PassReady(st, order, rewards, now)
    ensures LegacyPrefixPass(st, order, rewards, now, 0) == Some((st, map[]))
    ensures LegacyPrefixPass(st, order, rewards, now, |order|) == LegacyReleaseAll(st, order, rewards, now)
  {
    assert order[..0] == [] && rewards[..0] == [];
    assert order[..|order|] == order && rewards[..|order|] == rewards;
  }

  /**
   * The pass over no ids leaves the store as it was, the pass over all of
   * them is the whole pass, and a panicking reward anywhere makes the whole
   * pass panic.
   */
  lemma PassUpToEnds(st: Store, now: int)
    requires Consistent(st) && NotReversed(st)
    ensures PassUpTo(st, now, 0) == Some(Released(st, [], map[]))
    ensures PassUpTo(st, now, |st.Keys|) == ReleasePass(st, now)
    ensures (exists i :: 0 <= i < |st.Keys| && GetBlockReward(st[SortedIds(st.Keys)[i]], now).None?) ==> ReleasePass(st, now).None?
  {
    StoreReady(st, now);
    PrefixPassEnds(st, SortedIds(st.Keys), BlockRewards(st, SortedIds(st.Keys), now), now);
    ReleaseAllSucceeds(st, SortedIds(st.Keys), BlockRewards(st, SortedIds(st.Keys), now), now);
  }

  /** The same three facts for the pass of release.go. */
  lemma LegacyPassUpToEnds(st: Store, now: int)
    requires Consistent(st) && NotReversed(st)
    ensures LegacyPassUpTo(st, now, 0) == Some((st, map[]))
    ensures LegacyPassUpTo(st, now, |st.Keys|) == LegacyPass(st, now)
    ensures (exists i :: 0 <= i < |st.Keys| && GetBlockReward(st[SortedIds(st.Keys)[i]], now).None?) ==> LegacyPass(st, now).None?
  {
    StoreReady(st, now);
    LegacyPrefixPassEnds(st, SortedIds(st.Keys), BlockRewards(st, SortedIds(st.Keys), now), now);
    ReleaseAllSucceeds(st, SortedIds(st.Keys), BlockRewards(st, SortedIds(st.Keys), now), now);
    LegacyAgrees(st, SortedIds(st.Keys), BlockRewards(st, SortedIds(st.Keys), now), now);
  }

  /**
   * The pass over one more id in iteration order is one more `Step`, on the
   * schedule as it was before the pass, with a reward that fits it.
   */
  lemma PassUpToSnoc(st: Store, now: int, i: nat)
    requires Consistent(st) && NotReversed(st) && i < |st.Keys|
    requires PassUpTo(st, now, i).Some?
    ensures var k := SortedIds(st.Keys)[i];
      k in st && k in PassUpTo(st, now, i).value.store && PassUpTo(st, now, i).value.store[k] == st[k] &&
      (GetBlockReward(st[k], now).Some? ==> Fits(st[k], GetBlockReward(st[k], now).value, now)) &&
      PassUpTo(st, now, i + 1) == Step(PassUpTo(st, now, i).value, k, GetBlockReward(st[k], now), now)
  {
    StoreReady(st, now);
    PrefixPassNext(st, SortedIds(st.Keys), BlockRewards(st, SortedIds(st.Keys), now), now, i);
  }

  /** The same for the pass of release.go. */
  lemma LegacyPassUpToSnoc(st: Store, now: int, i: nat)
    requires Consistent(st) && NotReversed(st) && i < |st.Keys|
    requires LegacyPassUpTo(st, now, i).Some?
    ensures var k := SortedIds(st.Keys)[i];
      k in st && k in LegacyPassUpTo(st, now, i).value.0 && LegacyPassUpTo(st, now, i).value.0[k] == st[k] &&
      (GetBlockReward(st[k], now).Some? ==> Fits(st[k], GetBlockReward(st[k], now).value, now)) &&
      LegacyPassUpTo(st, now, i + 1) == LegacyStep(LegacyPassUpTo(st, now, i).value, k, GetBlockReward(st[k], now), now)
  {
    StoreReady(st, now);
    LegacyPrefixPassNext(st, SortedIds(st.Keys), BlockRewards(st, SortedIds(st.Keys), now), now, i);
  }

  /**
   * The pass keeps the invariant's share of the store: the ids stay below
   * the counter, the times stay ordered, and the module balance less the
   * released total is what the schedules have left.
   */
  lemma ReleaseKeepsInvariant(st: Store, now: int, balance: Coins, next: Option<nat>)
    requires Balanced(st, next, balance)
    requires ReleasePass(st, now).Some?
    ensures IsAllGTE(balance, ReleasePass(st, now).value.total)
    ensures ReleasePass(st, now).value.total == map[] ==> Balanced(ReleasePass(st, now).value.store, next, balance)
    ensures Balanced(ReleasePass(st, now).value.store, next, Sub(balance, ReleasePass(st, now).value.total).value)
  {
    var order := SortedIds(st.Keys);
    var rewards := BlockRewards(st, order, now);
    BlockRewardsFit(st, order, now);
    var p := ReleaseAll(st, order, rewards, now).value;
    ReleaseAllConserves(st, order, rewards, now);
    SubAdd(Unreleased(p.store), p.total);
    AddEmpty(Unreleased(p.store));
    forall k | k in p.store ensures p.store[k].startTime < p.store[k].endTime {
      ReleaseKeepsTimes(st, order, now, k);
    }
  }

  /**
   * The store's share of the keeper invariant: the schedules are
   * consistent, the counter is set and above every id, every schedule
   * starts before it ends, and `balance` is exactly what the schedules have
   * yet to release.
   */
  predicate Balanced(st: Store, next: Option<nat>, balance: Coins) {
    Consistent(st) && next.Some? && IdsBelow(st, next.value) && TimesOrdered(st) && balance == Unreleased(st)
  }

  class Keeper {
    var nextScheduleId: Option<nat>
    var schedules: Store
    /** The incentives module account's balance. */
    var moduleBalance: Coins
    /** The distribution module account's balance, which backs the community pool. */
    var distributionBalance: Coins
    /** The community pool of the distribution fee pool. */
    var communityPool: DecCoins.DecCoins
    /** The rewards handed to validators through `AllocateTokensToValidator`, in order. */
    var validatorRewards: seq<(string, DecCoins.DecCoins)>

    /** The shape every stored value has: valid coin sets, each schedule stored under its id. */
    predicate Sound()
      reads this
    {
      Valid(moduleBalance) && Valid(distributionBalance) && Valid(communityPool) &&
      forall k :: k in schedules ==> schedules[k].id == k && WellFormed(schedules[k])
    }

    /** Everything but the schedule store. */
    function Others(): (Option<nat>, Coins, Coins, DecCoins.DecCoins, seq<(string, DecCoins.DecCoins)>)
      reads this
    {
      (nextScheduleId, moduleBalance, distributionBalance, communityPool, validatorRewards)
    }

    /**
     * What the module keeps true after genesis: the store is balanced
     * against the module account, which holds exactly what the schedules
     * have yet to release (the `total-unreleased-incentives` route).
     */
    predicate Invariant()
      reads this
    {
      Sound() && Balanced(schedules, nextScheduleId, moduleBalance)
    }

    constructor ()
      ensures Sound()
      ensures nextScheduleId == None && schedules == map[]
      ensures moduleBalance == map[] && distributionBalance == map[] && communityPool == map[] && validatorRewards == []
    {
      nextScheduleId := None;
      schedules := map[];
      moduleBalance := map[];
      distributionBalance := map[];
      communityPool := map[];
      validatorRewards := [];
    }

    /** `GetNextScheduleId`: `None` is the panic of a counter genesis never set. */
    method GetNextScheduleId() returns (r: Option<nat>)
      ensures r == nextScheduleId
    {
      r := nextScheduleId;
    }

    method SetNextScheduleId(id: nat)
      modifies this
      ensures nextScheduleId == Some(id)
      ensures schedules == old(schedules) && moduleBalance == old(moduleBalance)
      ensures distributionBalance == old(distributionBalance) && communityPool == old(communityPool)
      ensures validatorRewards == old(validatorRewards)
    {
      nextScheduleId := Some(id);
    }

    /** `IncrementNextScheduleId` as written: returns the raised counter. */
    method IncrementNextScheduleIdAsWritten() returns (r: Option<nat>)
      modifies this
      ensures old(nextScheduleId).None? ==> r.None? && nextScheduleId.None?
      ensures old(nextScheduleId).Some? ==>
        r == Some(IncrementAsWritten(old(nextScheduleId).value).0) &&
        nextScheduleId == Some(IncrementAsWritten(old(nextScheduleId).value).1)
      ensures schedules == old(schedules) && moduleBalance == old(moduleBalance)
      ensures distributionBalance == old(distributionBalance) && communityPool == old(communityPool)
      ensures validatorRewards == old(validatorRewards)
    {
      r := GetNextScheduleId();
      if r.Some? {
        var id := r.value + 1;
        SetNextScheduleId(id);
        r := Some(id);
      }
    }

    /** The counter as the module needs it: hands out the stored id and moves past it. */
    method IncrementNextScheduleId() returns (r: Option<nat>)
      modifies this
      ensures old(nextScheduleId).None? ==> r.None? && nextScheduleId.None?
      ensures old(nextScheduleId).Some? ==>
        r == Some(Increment(old(nextScheduleId).value).0) &&
        nextScheduleId == Some(Increment(old(nextScheduleId).value).1)
      ensures schedules == old(schedules) && moduleBalance == old(moduleBalance)
      ensures distributionBalance == old(distributionBalance) && communityPool == old(communityPool)
      ensures validatorRewards == old(validatorRewards)
    {
      r := GetNextScheduleId();
      if r.Some? {
        SetNextScheduleId(r.value + 1);
      }
    }

    /** `GetSchedule`: the stored schedule, or `None` for "not found". */
    method GetSchedule(id: nat) returns (r: Option<Schedule>)
      ensures r.Some? <==> id in schedules
      ensures r.Some? ==> r.value == schedules[id]
    {
      if id in schedules {
        r := Some(schedules[id]);
      } else {
        r := None;
      }
    }

    method SetSchedule(s: Schedule)
      modifies this
      ensures schedules == old(schedules)[s.id := s]
      ensures nextScheduleId == old(nextScheduleId) && moduleBalance == old(moduleBalance)
      ensures distributionBalance == old(distributionBalance) && communityPool == old(communityPool)
      ensures validatorRewards == old(validatorRewards)
    {
      schedules := schedules[s.id := s];
    }

    method DeleteSchedule(id: nat)
      modifies this
      ensures schedules == old(schedules) - {id}
      ensures nextScheduleId == old(nextScheduleId) && moduleBalance == old(moduleBalance)
      ensures distributionBalance == old(distributionBalance) && communityPool == old(communityPool)
      ensures validatorRewards == old(validatorRewards)
    {
      schedules := schedules - {id};
    }

    /**
     * `IterateSchedules` with a read-only callback: the schedules it hands
     * to the callback, in ascending id order, up to and including the first
     * one for which the callback returns true.
     */
    method IterateSchedules(stop: Schedule -> bool) returns (visited: seq<Schedule>)
      ensures visited == Visited(InOrder(schedules), stop)
    {
      visited := VisitUntilStop(InOrder(schedules), stop);
    }

    /**
     * `DistributeFromFeePool` of the distribution keeper: draws `amount`
     * from the community pool and sends it from the distribution module to
     * the incentives module; it fails, changing nothing, when either the pool
     * or the distribution module's balance falls short.
     */
    method DistributeFromFeePool(amount: Coins) returns (ok: bool)
      requires Sound() && Valid(amount)
      modifies this
      ensures Sound()
      ensures ok <==> IsAllGTE(old(communityPool), DecCoins.FromCoins(amount)) && IsAllGTE(old(distributionBalance), amount)
      ensures ok ==> (communityPool == Sub(old(communityPool), DecCoins.FromCoins(amount)).value &&
        distributionBalance == Sub(old(distributionBalance), amount).value &&
        moduleBalance == Add(old(moduleBalance), amount))
      ensures !ok ==> (communityPool == old(communityPool) && distributionBalance == old(distributionBalance) &&
        moduleBalance == old(moduleBalance))
      ensures schedules == old(schedules) && nextScheduleId == old(nextScheduleId)
      ensures validatorRewards == old(validatorRewards)
    {
      var pool := Sub(communityPool, DecCoins.FromCoins(amount));
      var left := Sub(distributionBalance, amount);
      if pool.None? || left.None? {
        return false;
      }
      communityPool := pool.value;
      distributionBalance := left.value;
      moduleBalance := Add(moduleBalance, amount);
      ok := true;
    }

    /**
     * `FundCommunityPool` from the incentives module: sends `amount` to the
     * distribution module and adds it to the community pool; it fails,
     * changing nothing, when the module account falls short.
     */
    method FundCommunityPool(amount: Coins) returns (ok: bool)
      requires Sound() && Valid(amount)
      modifies this
      ensures Sound()
      ensures ok <==> IsAllGTE(old(moduleBalance), amount)
      ensures ok ==> (moduleBalance == Sub(old(moduleBalance), amount).value &&
        distributionBalance == Add(old(distributionBalance), amount) &&
        communityPool == Add(old(communityPool), DecCoins.FromCoins(amount)))
      ensures !ok ==> (moduleBalance == old(moduleBalance) && distributionBalance == old(distributionBalance) &&
        communityPool == old(communityPool))
      ensures schedules == old(schedules) && nextScheduleId == old(nextScheduleId)
      ensures validatorRewards == old(validatorRewards)
    {
      var left := Sub(moduleBalance, amount);
      if left.None? {
        return false;
      }
      moduleBalance := left.value;
      distributionBalance := Add(distributionBalance, amount);
      communityPool := Add(communityPool, DecCoins.FromCoins(amount));
      ok := true;
    }

    /**
     * `SendCoinsFromModuleToModule` from the incentives module to the
     * distribution module; it fails, changing nothing, on a shortfall.
     */
    method SendToDistribution(amount: Coins) returns (ok: bool)
      requires Sound() && Valid(amount)
      modifies this
      ensures Sound()
      ensures ok <==> IsAllGTE(old(moduleBalance), amount)
      ensures ok ==> (moduleBalance == Sub(old(moduleBalance), amount).value &&
        distributionBalance == Add(old(distributionBalance), amount))
      ensures !ok ==> moduleBalance == old(moduleBalance) && distributionBalance == old(distributionBalance)
      ensures schedules == old(schedules) && nextScheduleId == old(nextScheduleId)
      ensures communityPool == old(communityPool) && validatorRewards == old(validatorRewards)
    {
      var left := Sub(moduleBalance, amount);
      if left.None? {
        return false;
      }
      moduleBalance := left.value;
      distributionBalance := Add(distributionBalance, amount);
      ok := true;
    }

    /**
     * `CreateSchedule`: takes the next id, stores a schedule that has
     * released nothing, then draws `amount` from the community pool.  When
     * the draw fails the id and the stored schedule stay behind.  A created
     * schedule that starts before it ends keeps the module invariant.
     */
    method CreateSchedule(startTime: int, endTime: int, amount: Coins) returns (r: Result<Schedule, Failure>)
      requires Sound() && Valid(amount)
      modifies this
      ensures Sound()
      ensures old(nextScheduleId).None? ==> (r == Err(Panic) && schedules == old(schedules) &&
        nextScheduleId == old(nextScheduleId) && moduleBalance == old(moduleBalance) &&
        distributionBalance == old(distributionBalance) && communityPool == old(communityPool))
      ensures old(nextScheduleId).Some? ==>
        var id := old(nextScheduleId).value;
        var s := Schedule(id, startTime, endTime, amount, map[]);
        nextScheduleId == Some(id + 1) && schedules == old(schedules)[id := s] &&
        (IsAllGTE(old(communityPool), DecCoins.FromCoins(amount)) && IsAllGTE(old(distributionBalance), amount) ==>
          r == Ok(s) && moduleBalance == Add(old(moduleBalance), amount) &&
          communityPool == Sub(old(communityPool), DecCoins.FromCoins(amount)).value &&
          distributionBalance == Sub(old(distributionBalance), amount).value) &&
        (!(IsAllGTE(old(communityPool), DecCoins.FromCoins(amount)) && IsAllGTE(old(distributionBalance), amount)) ==>
          r == Err(FailedWithdrawFromCommunityPool) && moduleBalance == old(moduleBalance) &&
          communityPool == old(communityPool) && distributionBalance == old(distributionBalance))
      ensures validatorRewards == old(validatorRewards)
      ensures old(Invariant()) && startTime < endTime && r.Ok? ==> Invariant()
    {
      ghost var st0, mb0 := schedules, moduleBalance;
      var next := IncrementNextScheduleId();
      if next.None? {
        return Err(Panic);
      }
      var s := Schedule(next.value, startTime, endTime, amount, map[]);
      SetSchedule(s);
      var ok := DistributeFromFeePool(amount);
      if !ok {
        return Err(FailedWithdrawFromCommunityPool);
      }
      r := Ok(s);
      if old(Invariant()) && startTime < endTime {
        CreateKeepsInvariant(st0, mb0, s);
      }
    }

    /**
     * `TerminateSchedules`: deletes the listed schedules one by one, adding
     * up what each had left, then refunds the sum to the community pool.  A
     * missing id (a repeated one included) ends the call with the deletions
     * so far kept and nothing refunded.
     */
    method TerminateSchedules(ids: seq<nat>) returns (r: Result<Coins, Failure>)
      requires Sound() && Consistent(schedules)
      modifies this
      ensures Sound()
      ensures var t := TerminateFrom(old(schedules), ids, map[]);
        schedules == t.0 &&
        (t.1.Err? ==> (r == Err(KeyNotFound(t.1.error)) && moduleBalance == old(moduleBalance) &&
          distributionBalance == old(distributionBalance) && communityPool == old(communityPool))) &&
        (t.1.Ok? && IsAllGTE(old(moduleBalance), t.1.value) ==> (r == Ok(t.1.value) &&
          moduleBalance == Sub(old(moduleBalance), t.1.value).value &&
          distributionBalance == Add(old(distributionBalance), t.1.value) &&
          communityPool == Add(old(communityPool), DecCoins.FromCoins(t.1.value)))) &&
        (t.1.Ok? && !IsAllGTE(old(moduleBalance), t.1.value) ==> (r == Err(FailedRefundToCommunityPool) &&
          moduleBalance == old(moduleBalance) && distributionBalance == old(distributionBalance) &&
          communityPool == old(communityPool)))
      ensures nextScheduleId == old(nextScheduleId) && validatorRewards == old(validatorRewards)
      ensures old(Invariant()) && TerminateFrom(old(schedules), ids, map[]).1.Ok? ==> r.Ok? && Invariant()
    {
      ghost var st0, mb0 := schedules, moduleBalance;
      var amount: Coins := map[];
      var i := 0;
      while i < |ids|
        invariant 0 <= i <= |ids|
        invariant Sound() && Consistent(schedules) && Valid(amount)
        invariant TerminateFrom(st0, ids, map[]) == TerminateFrom(schedules, ids[i..], amount)
        invariant nextScheduleId == old(nextScheduleId) && validatorRewards == old(validatorRewards)
        invariant moduleBalance == mb0 && distributionBalance == old(distributionBalance)
        invariant communityPool == old(communityPool)
      {
        assert ids[i..][0] == ids[i] && ids[i..][1..] == ids[i + 1..];
        var found := GetSchedule(ids[i]);
        if found.None? {
          return Err(KeyNotFound(ids[i]));
        }
        amount := Add(amount, Remaining(found.value));
        DeleteSchedule(ids[i]);
        i := i + 1;
      }
      assert ids[i..] == [];
      if old(Invariant()) {
        TerminateKeepsInvariant(st0, ids, mb0, nextScheduleId.value);
      }
      var ok := FundCommunityPool(amount);
      if !ok {
        return Err(FailedRefundToCommunityPool);
      }
      r := Ok(amount);
    }

    /**
     * The `total-unreleased-incentives` route: sums what every schedule has
     * left, in iteration order, and reports the invariant broken exactly when
     * that sum differs from the module account's balance.
     */
    method TotalUnreleasedIncentives() returns (expected: Coins, broken: bool)
      requires Sound() && Consistent(schedules)
      ensures expected == Unreleased(schedules)
      ensures broken <==> moduleBalance != Unreleased(schedules)
    {
      InOrderSound(schedules);
      expected := SumRemaining(InOrder(schedules));
      UnreleasedIterationOrder(schedules);
      broken := expected != moduleBalance;
    }

    /**
     * The allocation half of `ReleaseBlockReward`: the total, as DecCoins,
     * is split pro rata to voting power among the bonded validators in vote
     * order and each share is handed to its validator; `false` is a panic
     * of the split.
     */
    method AllocateToValidators(total: Coins, votes: seq<VoteInfo>) returns (ok: bool)
      requires Valid(total)
      modifies this
      ensures ok <==> Allocate(DecCoins.FromCoins(total), Powers(votes)).Some?
      ensures ok ==> validatorRewards == old(validatorRewards) + Paired(votes, Allocate(DecCoins.FromCoins(total), Powers(votes)).value)
      ensures !ok ==> validatorRewards == old(validatorRewards)
      ensures schedules == old(schedules) && nextScheduleId == old(nextScheduleId) && moduleBalance == old(moduleBalance)
      ensures distributionBalance == old(distributionBalance) && communityPool == old(communityPool)
    {
      var shares := AllocateRewards(total, Powers(votes));
      if shares.None? {
        return false;
      }
      validatorRewards := validatorRewards + Paired(votes, shares.value);
      ok := true;
    }

    /**
     * One callback of the pass in reward.go: a non-empty reward is counted
     * and its schedule's id reported; then the schedule is deleted if it has
     * ended and otherwise saved with the reward added to what it released.
     */
    method ReleaseOne(s: Schedule, blockReward: Coins, now: int, ids: seq<nat>, total: Coins)
      returns (ids': seq<nat>, total': Coins)
      requires Sound() && Consistent(schedules) && Valid(total)
      requires s.id in schedules && schedules[s.id] == s && Fits(s, blockReward, now)
      modifies this
      ensures Step(Released(old(schedules), ids, total), s.id, Some(blockReward), now) == Some(Released(schedules, ids', total'))
      ensures Sound()
      ensures nextScheduleId == old(nextScheduleId) && moduleBalance == old(moduleBalance)
      ensures distributionBalance == old(distributionBalance) && communityPool == old(communityPool)
      ensures validatorRewards == old(validatorRewards)
    {
      ids', total' := ids, total;
      if blockReward != map[] {
        ids' := ids + [s.id];
        total' := Add(total, blockReward);
      }
      ghost var step := Step(Released(schedules, ids, total), s.id, Some(blockReward), now);
      if now > s.endTime {
        DeleteSchedule(s.id);
      } else {
        SetSchedule(Advance(s, blockReward));
      }
      assert step == Some(Released(schedules, ids', total'));
    }

    /** One callback of the pass in release.go: every reward is counted, empty or not. */
    method ReleaseOneLegacy(s: Schedule, blockReward: Coins, now: int, total: Coins) returns (total': Coins)
      requires Sound() && Consistent(schedules) && Valid(total)
      requires s.id in schedules && schedules[s.id] == s && Fits(s, blockReward, now)
      modifies this
      ensures LegacyStep((old(schedules), total), s.id, Some(blockReward), now) == Some((schedules, total'))
      ensures Sound()
      ensures nextScheduleId == old(nextScheduleId) && moduleBalance == old(moduleBalance)
      ensures distributionBalance == old(distributionBalance) && communityPool == old(communityPool)
      ensures validatorRewards == old(validatorRewards)
    {
      total' := Add(total, blockReward);
      ghost var step := LegacyStep((schedules, total), s.id, Some(blockReward), now);
      if now > s.endTime {
        DeleteSchedule(s.id);
      } else {
        SetSchedule(Advance(s, blockReward));
      }
      assert step == Some((schedules, total'));
    }

    /**
     * The schedule pass of `ReleaseBlockReward` (reward.go): in iteration
     * order, each schedule's block reward is counted (its id reported when
     * the reward is not empty), then an ended schedule is deleted and any
     * other has its released amount raised by the reward; `false` is a
     * panic of `GetBlockReward`.
     */
    method ReleaseSchedules(now: int) returns (ok: bool, ids: seq<nat>, total: Coins)
      requires Sound() && Consistent(schedules) && NotReversed(schedules)
      modifies this
      ensures ok <==> ReleasePass(old(schedules), now).Some?
      ensures ok ==> (schedules == ReleasePass(old(schedules), now).value.store &&
        ids == ReleasePass(old(schedules), now).value.ids && total == ReleasePass(old(schedules), now).value.total)
      ensures ok ==> Sound() && Valid(total)
      ensures nextScheduleId == old(nextScheduleId) && moduleBalance == old(moduleBalance)
      ensures distributionBalance == old(distributionBalance) && communityPool == old(communityPool)
      ensures validatorRewards == old(validatorRewards)
    {
      ghost var st0 := schedules;
      var order := SortedIds(schedules.Keys);
      ids, total := [], map[];
      var i := 0;
      PassUpToEnds(st0, now);
      while i < |order|
        invariant 0 <= i <= |order|
        invariant PassUpTo(st0, now, i) == Some(Released(schedules, ids, total))
        invariant Sound() && Others() == old(Others())
      {
        PassUpToSnoc(st0, now, i);
        var s := schedules[order[i]];
        var reward := GetBlockReward(s, now);
        if reward.None? {
          return false, ids, total;
        }
        ids, total := ReleaseOne(s, reward.value, now, ids, total);
        i := i + 1;
      }
      ok := true;
    }

    /**
     * `ReleaseBlockReward` (reward.go): the schedule pass, then, unless the
     * total is empty, the send of the total to the distribution module (a
     * failed send panics) and its split among the validators.  The result is
     * the ids that released something and the total; `None` is a panic.
     */
    method ReleaseBlockReward(now: int, votes: seq<VoteInfo>) returns (r: Option<(seq<nat>, Coins)>)
      requires Sound() && Consistent(schedules) && NotReversed(schedules)
      modifies this
      ensures var p := ReleasePass(old(schedules), now);
        (p.None? ==> r.None?) &&
        (p.Some? ==> schedules == p.value.store) &&
        (p.Some? && p.value.total == map[] ==> (r == Some((p.value.ids, p.value.total)) &&
          moduleBalance == old(moduleBalance) && distributionBalance == old(distributionBalance) &&
          validatorRewards == old(validatorRewards))) &&
        (p.Some? && p.value.total != map[] && !IsAllGTE(old(moduleBalance), p.value.total) ==> r.None?) &&
        (p.Some? && p.value.total != map[] && IsAllGTE(old(moduleBalance), p.value.total) ==> (
          moduleBalance == Sub(old(moduleBalance), p.value.total).value &&
          distributionBalance == Add(old(distributionBalance), p.value.total) &&
          (Allocate(DecCoins.FromCoins(p.value.total), Powers(votes)).None? ==> r.None?) &&
          (Allocate(DecCoins.FromCoins(p.value.total), Powers(votes)).Some? ==> (r == Some((p.value.ids, p.value.total)) &&
            validatorRewards == old(validatorRewards) + Paired(votes, Allocate(DecCoins.FromCoins(p.value.total), Powers(votes)).value)))))
      ensures r.Some? ==> Sound()
      ensures nextScheduleId == old(nextScheduleId) && communityPool == old(communityPool)
      ensures old(Invariant()) && ReleasePass(old(schedules), now).Some? ==>
        IsAllGTE(old(moduleBalance), ReleasePass(old(schedules), now).value.total)
      ensures old(Invariant()) && r.Some? ==> Invariant()
    {
      ghost var st0, mb0, inv := schedules, moduleBalance, Invariant();
      var ok, ids, total := ReleaseSchedules(now);
      if !ok {
        return None;
      }
      if inv {
        ReleaseKeepsInvariant(st0, now, mb0, nextScheduleId);
      }
      if total == map[] {
        return Some((ids, total));
      }
      var sent := SendToDistribution(total);
      if !sent {
        return None;
      }
      var split := AllocateToValidators(total, votes);
      if !split {
        return None;
      }
      r := Some((ids, total));
    }

    /** The schedule pass of the older `ReleaseBlockReward` (release.go): every reward is added, empty or not. */
    method ReleaseSchedulesLegacy(now: int) returns (ok: bool, total: Coins)
      requires Sound() && Consistent(schedules) && NotReversed(schedules)
      modifies this
      ensures ok <==> LegacyPass(old(schedules), now).Some?
      ensures ok ==> schedules == LegacyPass(old(schedules), now).value.0 && total == LegacyPass(old(schedules), now).value.1
      ensures ok ==> Sound() && Valid(total)
      ensures nextScheduleId == old(nextScheduleId) && moduleBalance == old(moduleBalance)
      ensures distributionBalance == old(distributionBalance) && communityPool == old(communityPool)
      ensures validatorRewards == old(validatorRewards)
    {
      ghost var st0 := schedules;
      var order := SortedIds(schedules.Keys);
      total := map[];
      var i := 0;
      LegacyPassUpToEnds(st0, now);
      while i < |order|
        invariant 0 <= i <= |order|
        invariant LegacyPassUpTo(st0, now, i) == Some((schedules, total))
        invariant Sound() && Others() == old(Others())
      {
        LegacyPassUpToSnoc(st0, now, i);
        var s := schedules[order[i]];
        var reward := GetBlockReward(s, now);
        if reward.None? {
          return false, total;
        }
        total := ReleaseOneLegacy(s, reward.value, now, total);
        i := i + 1;
      }
      ok := true;
    }

    /**
     * The older `ReleaseBlockReward` (release.go): nothing is returned and a
     * failed send is ignored, so the split goes ahead whether or not the
     * coins moved; `false` is a panic.
     */
    method ReleaseBlockRewardLegacy(now: int, votes: seq<VoteInfo>) returns (ok: bool)
      requires Sound() && Consistent(schedules) && NotReversed(schedules)
      modifies this
      ensures var p := LegacyPass(old(schedules), now);
        (p.None? ==> !ok) &&
        (p.Some? ==> schedules == p.value.0) &&
        (p.Some? && p.value.1 == map[] ==> (ok &&
          moduleBalance == old(moduleBalance) && distributionBalance == old(distributionBalance) &&
          validatorRewards == old(validatorRewards))) &&
        (p.Some? && p.value.1 != map[] ==> (
          (IsAllGTE(old(moduleBalance), p.value.1) ==> (moduleBalance == Sub(old(moduleBalance), p.value.1).value &&
            distributionBalance == Add(old(distributionBalance), p.value.1))) &&
          (!IsAllGTE(old(moduleBalance), p.value.1) ==> (moduleBalance == old(moduleBalance) &&
            distributionBalance == old(distributionBalance))) &&
          (ok <==> Allocate(DecCoins.FromCoins(p.value.1), Powers(votes)).Some?) &&
          (ok ==> validatorRewards == old(validatorRewards) + Paired(votes, Allocate(DecCoins.FromCoins(p.value.1), Powers(votes)).value))))
      ensures ok ==> Sound()
      ensures nextScheduleId == old(nextScheduleId) && communityPool == old(communityPool)
    {
      var passed, total := ReleaseSchedulesLegacy(now);
      if !passed {
        return false;
      }
      if total == map[] {
        return true;
      }
      var _ := SendToDistribution(total);
      ok := AllocateToValidators(total, votes);
    }

    /** `InitGenesis`: writes every schedule, first to last, then the counter. */
    method InitGenesis(gs: GenesisState)
      requires Sound() && forall i :: 0 <= i < |gs.schedules| ==> WellFormed(gs.schedules[i])
      modifies this
      ensures Sound()
      ensures schedules == StoreAll(old(schedules), gs.schedules)
      ensures nextScheduleId == Some(gs.nextScheduleId)
      ensures moduleBalance == old(moduleBalance) && distributionBalance == old(distributionBalance)
      ensures communityPool == old(communityPool) && validatorRewards == old(validatorRewards)
    {
      ghost var st0 := schedules;
      var i := 0;
      while i < |gs.schedules|
        invariant 0 <= i <= |gs.schedules|
        invariant Sound()
        invariant StoreAll(st0, gs.schedules) == StoreAll(schedules, gs.schedules[i..])
        invariant moduleBalance == old(moduleBalance) && distributionBalance == old(distributionBalance)
        invariant communityPool == old(communityPool) && validatorRewards == old(validatorRewards)
      {
        assert gs.schedules[i..][0] == gs.schedules[i] && gs.schedules[i..][1..] == gs.schedules[i + 1..];
        SetSchedule(gs.schedules[i]);
        i := i + 1;
      }
      assert gs.schedules[i..] == [];
      SetNextScheduleId(gs.nextScheduleId);
    }

    /** `ExportGenesis`: the counter and the schedules in iteration order; `None` is the counter's panic. */
    method ExportGenesis() returns (r: Option<GenesisState>)
      ensures nextScheduleId.None? ==> r.None?
      ensures nextScheduleId.Some? ==> r == Some(GenesisState(nextScheduleId.value, InOrder(schedules)))
    {
      var next := GetNextScheduleId();
      if next.None? {
        return None;
      }
      var all := IterateSchedules(s => false);
      assert FirstStop(InOrder(schedules), s => false) == |InOrder(schedules)|;
      r := Some(GenesisState(next.value, all));
    }
  }
}
