/**
 * The incentives genesis state (x/incentives/types/genesis.go): the next
 * schedule id and the list of schedules, the default state, and the
 * validation loop that reports the first schedule breaking a rule.
 */
module IncentivesGenesis {
  import opened Wrappers
  import opened Coins
  import opened IncentivesSchedule
  import UtilsStrconv

  datatype GenesisState = GenesisState(nextScheduleId: nat, schedules: seq<Schedule>)

  /** The five ways a schedule can be rejected, in the order they are checked. */
  datatype GenesisError =
    | IdNotBelowNext(id: nat, next: nat)
    | DuplicateId(id: nat)
    | EndNotAfterStart(id: nat)
    | ZeroTotal(id: nat)
    | ReleasedExceedsTotal(id: nat)

  /** The text of each error, as `fmt.Errorf` formats it. */
  function ErrorMessage(e: GenesisError): string {
    match e
    case IdNotBelowNext(id, next) =>
      "incentives schedule id " + UtilsStrconv.NatToString(id) + NotSmallerText + UtilsStrconv.NatToString(next)
    case DuplicateId(id) => "incentives schedule has duplicate id " + UtilsStrconv.NatToString(id)
    case EndNotAfterStart(id) => "incentives schedule " + UtilsStrconv.NatToString(id) + EndTimeText
    case ZeroTotal(id) => "incentives schedule " + UtilsStrconv.NatToString(id) + ZeroTotalText
    case ReleasedExceedsTotal(id) => "incentives schedule " + UtilsStrconv.NatToString(id) + ExceedsText
  }

  /** The fixed tails of the messages, after the schedule id. */
  const NotSmallerText := " is not smaller than next schedule id "
  const EndTimeText := " end time is not after start time"
  const ZeroTotalText := " has zero total amount"
  const ExceedsText := " total amount is not all greater or equal than released amount"

  /** `DefaultGenesisState`. */
  function DefaultGenesisState(): GenesisState {
    GenesisState(1, [])
  }

  /** The checks of one loop iteration, given the ids seen before it. */
  function CheckSchedule(s: Schedule, next: nat, seen: set<nat>): Option<GenesisError> {
    if s.id >= next then Some(IdNotBelowNext(s.id, next))
    else if s.id in seen then Some(DuplicateId(s.id))
    else if !(s.endTime > s.startTime) then Some(EndNotAfterStart(s.id))
    else if s.totalAmount == map[] then Some(ZeroTotal(s.id))
    else if !IsAllGTE(s.totalAmount, s.releasedAmount) then Some(ReleasedExceedsTotal(s.id))
    else None
  }

  /** The error of the first schedule that fails its checks, given the ids already seen. */
  function FirstError(ss: seq<Schedule>, next: nat, seen: set<nat>): Option<GenesisError>
    decreases |ss|
  {
    if ss == [] then None
    else if CheckSchedule(ss[0], next, seen).Some? then CheckSchedule(ss[0], next, seen)
    else FirstError(ss[1..], next, seen + {ss[0].id})
  }

  /** `GenesisState.Validate`: the loop over the schedules with its `seenIds` set. */
  method Validate(gs: GenesisState) returns (err: Option<GenesisError>)
    ensures err == FirstError(gs.schedules, gs.nextScheduleId, {})
  {
    var seenIds: set<nat> := {};
    var i := 0;
    while i < |gs.schedules|
      invariant 0 <= i <= |gs.schedules|
      invariant FirstError(gs.schedules, gs.nextScheduleId, {}) == FirstError(gs.schedules[i..], gs.nextScheduleId, seenIds)
    {
      var schedule := gs.schedules[i];
      assert gs.schedules[i..][0] == schedule && gs.schedules[i..][1..] == gs.schedules[i + 1..];
      if schedule.id >= gs.nextScheduleId {
        return Some(IdNotBelowNext(schedule.id, gs.nextScheduleId));
      }
      if schedule.id in seenIds {
        return Some(DuplicateId(schedule.id));
      }
      if !(schedule.endTime > schedule.startTime) {
        return Some(EndNotAfterStart(schedule.id));
      }
      if schedule.totalAmount == map[] {
        return Some(ZeroTotal(schedule.id));
      }
      if !IsAllGTE(schedule.totalAmount, schedule.releasedAmount) {
        return Some(ReleasedExceedsTotal(schedule.id));
      }
      seenIds := seenIds + {schedule.id};
      i := i + 1;
    }
    assert gs.schedules[i..] == [];
    return None;
  }

  /** The rules a single schedule must meet. */
  predicate ScheduleOk(s: Schedule, next: nat) {
    s.id < next && s.endTime > s.startTime && s.totalAmount != map[] && IsAllGTE(s.totalAmount, s.releasedAmount)
  }

  predicate DistinctIds(ss: seq<Schedule>) {
    forall i, j :: 0 <= i < j < |ss| ==> ss[i].id != ss[j].id
  }

  /** A valid genesis state, stated rule by rule rather than as a loop. */
  predicate ValidGenesis(gs: GenesisState) {
    (forall i :: 0 <= i < |gs.schedules| ==> ScheduleOk(gs.schedules[i], gs.nextScheduleId)) &&
    DistinctIds(gs.schedules)
  }

  lemma {:induction false} FirstErrorNoneIff(ss: seq<Schedule>, next: nat, seen: set<nat>)
    ensures FirstError(ss, next, seen).None? <==>
      (forall i :: 0 <= i < |ss| ==> ScheduleOk(ss[i], next) && ss[i].id !in seen) && DistinctIds(ss)
    decreases |ss|
  {
    if ss != [] {
      FirstErrorNoneIff(ss[1..], next, seen + {ss[0].id});
      var ok := (forall i :: 0 <= i < |ss| ==> ScheduleOk(ss[i], next) && ss[i].id !in seen) && DistinctIds(ss);
      if ok {
        forall i | 0 <= i < |ss[1..]| ensures ScheduleOk(ss[1..][i], next) && ss[1..][i].id !in seen + {ss[0].id} {
          assert ss[1..][i] == ss[i + 1];
        }
        assert DistinctIds(ss[1..]) by {
          forall i, j | 0 <= i < j < |ss[1..]| ensures ss[1..][i].id != ss[1..][j].id {
            assert ss[1..][i] == ss[i + 1] && ss[1..][j] == ss[j + 1];
          }
        }
        assert ScheduleOk(ss[0], next) && ss[0].id !in seen;
      }
      if FirstError(ss, next, seen).None? {
        assert CheckSchedule(ss[0], next, seen).None?;
        forall i | 0 <= i < |ss| ensures ScheduleOk(ss[i], next) && ss[i].id !in seen {
          if i > 0 {
            assert ss[1..][i - 1] == ss[i];
          }
        }
        forall i, j | 0 <= i < j < |ss| ensures ss[i].id != ss[j].id {
          assert ss[1..][j - 1] == ss[j];
          if i > 0 {
            assert ss[1..][i - 1] == ss[i];
          }
        }
      }
    }
  }

  /** Validation succeeds exactly when every rule holds. */
  lemma ValidateIffValid(gs: GenesisState)
    ensures FirstError(gs.schedules, gs.nextScheduleId, {}).None? <==> ValidGenesis(gs)
  {
    FirstErrorNoneIff(gs.schedules, gs.nextScheduleId, {});
  }

  /** The error names a schedule of the list: the first one, in list order, that breaks a rule. */
  lemma {:induction false} FirstErrorIsFirst(ss: seq<Schedule>, next: nat, seen: set<nat>)
    requires FirstError(ss, next, seen).Some?
    ensures exists i :: (0 <= i < |ss| && FirstError(ss, next, seen) == CheckSchedule(ss[i], next, seen + IdsOf(ss[..i])) &&
      forall j :: 0 <= j < i ==> CheckSchedule(ss[j], next, seen + IdsOf(ss[..j])).None?)
    decreases |ss|
  {
    if CheckSchedule(ss[0], next, seen).Some? {
      assert ss[..0] == [] && IdsOf([]) == {};
      assert seen + IdsOf(ss[..0]) == seen;
    } else {
      FirstErrorIsFirst(ss[1..], next, seen + {ss[0].id});
      var i :| 0 <= i < |ss[1..]| &&
        FirstError(ss[1..], next, seen + {ss[0].id}) == CheckSchedule(ss[1..][i], next, seen + {ss[0].id} + IdsOf(ss[1..][..i]))
        && forall j :: 0 <= j < i ==> CheckSchedule(ss[1..][j], next, seen + {ss[0].id} + IdsOf(ss[1..][..j])).None?;
      forall j | 0 <= j <= i ensures seen + IdsOf(ss[..j + 1]) == seen + {ss[0].id} + IdsOf(ss[1..][..j]) {
        IdsOfCons(ss, j);
      }
      assert ss[..0] == [] && IdsOf([]) == {};
      forall j | 0 <= j < i + 1 ensures CheckSchedule(ss[j], next, seen + IdsOf(ss[..j])).None? {
        if j > 0 {
          assert ss[1..][j - 1] == ss[j];
        }
      }
      assert ss[1..][i] == ss[i + 1];
    }
  }

  /** The ids of a list of schedules. */
  function IdsOf(ss: seq<Schedule>): set<nat> {
    set i | 0 <= i < |ss| :: ss[i].id
  }

  lemma IdsOfCons(ss: seq<Schedule>, j: nat)
    requires j < |ss|
    ensures IdsOf(ss[..j + 1]) == {ss[0].id} + IdsOf(ss[1..][..j])
  {
    var a, b := ss[..j + 1], ss[1..][..j];
    forall k | k in IdsOf(a) ensures k in {ss[0].id} + IdsOf(b) {
      var i :| 0 <= i < |a| && a[i].id == k;
      if i > 0 {
        assert b[i - 1] == a[i];
      }
    }
    forall k | k in {ss[0].id} + IdsOf(b) ensures k in IdsOf(a) {
      if k == ss[0].id {
        assert a[0].id == k;
      } else {
        var i :| 0 <= i < |b| && b[i].id == k;
        assert a[i + 1] == b[i];
      }
    }
  }

  lemma DefaultGenesisValid()
    ensures FirstError(DefaultGenesisState().schedules, DefaultGenesisState().nextScheduleId, {}).None?
    ensures ValidGenesis(DefaultGenesisState())
  {
  }

  /** The state the genesis tests start from: next id 4, schedules 2 and 3. */
  function MockGenesisSchedules(): seq<Schedule> {
    [ Schedule(2, 10000 * Nano, 20000 * Nano, map["umars" := 10000], map["umars" := 7500]),
      Schedule(3, 15000 * Nano, 25000 * Nano, map["umars" := 20000, "uastro" := 30000], map["umars" := 5000, "uastro" := 7500]) ]
  }

  lemma MockFirstScheduleOk()
    ensures CheckSchedule(MockGenesisSchedules()[0], 4, {}).None?
  {
    var s := MockGenesisSchedules()[0];
    assert s == Schedule(2, 10000 * Nano, 20000 * Nano, map["umars" := 10000], map["umars" := 7500]);
    assert "umars" in s.totalAmount;
    assert IsAllGTE(s.totalAmount, s.releasedAmount) by {
      forall d | d in s.releasedAmount ensures s.releasedAmount[d] <= AmountOf(s.totalAmount, d) {
        assert d == "umars";
      }
    }
  }

  lemma MockGenesisValid()
    ensures FirstError(MockGenesisSchedules(), 4, {}).None?
  {
    var ss := MockGenesisSchedules();
    assert ss[1..][1..] == [];
    MockFirstScheduleOk();
    assert ss[0] == MockGenesisSchedules()[0];
    assert CheckSchedule(ss[1], 4, {2}).None?;
  }

  /** Schedule 3 renumbered 5: the id check fires first. */
  lemma NextIdTooSmallExample()
    ensures FirstError(MockGenesisSchedules()[1 := MockGenesisSchedules()[1].(id := 5)], 4, {}) == Some(IdNotBelowNext(5, 4))
  {
    var ss := MockGenesisSchedules()[1 := MockGenesisSchedules()[1].(id := 5)];
    MockFirstScheduleOk();
    assert ss[0] == MockGenesisSchedules()[0];
    assert ss[1..][0] == ss[1];
  }

  /** Schedule 3 renumbered 2: a duplicate. */
  lemma DuplicateIdExample()
    ensures FirstError(MockGenesisSchedules()[1 := MockGenesisSchedules()[1].(id := 2)], 4, {}) == Some(DuplicateId(2))
  {
    var ss := MockGenesisSchedules()[1 := MockGenesisSchedules()[1].(id := 2)];
    MockFirstScheduleOk();
    assert ss[0] == MockGenesisSchedules()[0];
    assert ss[1..][0] == ss[1];
  }

  /** Schedule 3 ending when it starts. */
  lemma EndTimeEarlierThanStartExample()
    ensures FirstError(MockGenesisSchedules()[1 := MockGenesisSchedules()[1].(endTime := 15000 * Nano)], 4, {}) == Some(EndNotAfterStart(3))
  {
    var ss := MockGenesisSchedules()[1 := MockGenesisSchedules()[1].(endTime := 15000 * Nano)];
    MockFirstScheduleOk();
    assert ss[0] == MockGenesisSchedules()[0];
    assert ss[1..][0] == ss[1];
  }

  /** Schedule 3 with nothing to release. */
  lemma ZeroTotalAmountExample()
    ensures FirstError(MockGenesisSchedules()[1 := MockGenesisSchedules()[1].(totalAmount := map[], releasedAmount := map[])], 4, {})
         == Some(ZeroTotal(3))
  {
    var ss := MockGenesisSchedules()[1 := MockGenesisSchedules()[1].(totalAmount := map[], releasedAmount := map[])];
    MockFirstScheduleOk();
    assert ss[0] == MockGenesisSchedules()[0];
    assert ss[1..][0] == ss[1];
  }

  /** Schedule 3 having released more umars than it holds. */
  lemma ReleasedAmountGreaterThanTotalExample()
    ensures FirstError(MockGenesisSchedules()[1 := MockGenesisSchedules()[1].(releasedAmount := map["umars" := 69420, "uastro" := 7500])], 4, {})
         == Some(ReleasedExceedsTotal(3))
  {
    var ss := MockGenesisSchedules()[1 := MockGenesisSchedules()[1].(releasedAmount := map["umars" := 69420, "uastro" := 7500])];
    MockFirstScheduleOk();
    assert ss[0] == MockGenesisSchedules()[0];
    assert ss[1..][0] == ss[1];
    assert !IsAllGTE(ss[1].totalAmount, ss[1].releasedAmount) by {
      assert "umars" in ss[1].releasedAmount;
    }
  }

  /** The error texts the genesis tests expect, with each fixed tail named. */
  lemma NextIdTooSmallMessage()
    ensures ErrorMessage(IdNotBelowNext(5, 4)) == "incentives schedule id 5" + NotSmallerText + "4"
  {
    SmallDecimal(5);
    SmallDecimal(4);
    assert "incentives schedule id " + "5" == "incentives schedule id 5";
  }

  lemma DuplicateIdMessage()
    ensures ErrorMessage(DuplicateId(2)) == "incentives schedule has duplicate id 2"
  {
    SmallDecimal(2);
    assert "incentives schedule has duplicate id " + "2" == "incentives schedule has duplicate id 2";
  }

  lemma EndTimeMessage()
    ensures ErrorMessage(EndNotAfterStart(3)) == "incentives schedule 3" + EndTimeText
  {
    SmallDecimal(3);
    assert "incentives schedule " + "3" == "incentives schedule 3";
  }

  lemma ZeroTotalMessage()
    ensures ErrorMessage(ZeroTotal(3)) == "incentives schedule 3" + ZeroTotalText
  {
    SmallDecimal(3);
    assert "incentives schedule " + "3" == "incentives schedule 3";
  }

  lemma SmallDecimal(n: nat)
    requires n < 10
    ensures UtilsStrconv.NatToString(n) == [('0' as int + n) as char]
  {
  }
}
