/**
 * The store-level meaning of the incentives keeper's operations
 * (x/incentives/keeper/keeper.go, schedule.go, genesis.go): the next-id
 * counter, the termination loop and the genesis import, each as a function
 * of the store it starts from.  The keeper class proves its methods
 * against these.
 */
module IncentivesOps {
  import opened Wrappers
  import opened Coins
  import opened IncentivesSchedule
  import opened IncentivesStore
  import opened IncentivesGenesis

  /**
   * `IncrementNextScheduleId` as written: the counter is raised by one and
   * the raised value is returned, so the id handed out equals the new
   * counter.  Result: (returned id, stored counter).
   */
  function IncrementAsWritten(next: nat): (r: (nat, nat))
    ensures r.1 == next + 1
    ensures r.0 >= r.1 && r.0 != next
  {
    (next + 1, next + 1)
  }

  /**
   * The counter as the rest of the module uses it: the id handed out is the
   * old counter, and the stored counter moves one past it.
   */
  function Increment(next: nat): (r: (nat, nat))
    ensures r.0 < r.1 && r.1 == next + 1
  {
    (next, next + 1)
  }

  /** Every stored id is below the counter, as genesis validation demands. */
  predicate IdsBelow(st: Store, next: nat) {
    forall k :: k in st ==> k < next
  }

  /**
   * With the counter as written, `CreateSchedule` after `SetNextScheduleID(2)`
   * stores the schedule under id 3 (the test expects 2) with the counter at
   * 3, and the exported genesis state then fails its own validation.
   */
  lemma IncrementAsWrittenBreaksGenesis(start: int, end: int, amount: Coins)
    requires end > start && amount != map[]
    ensures IncrementAsWritten(2).0 == 3 != 2
    ensures FirstError([Schedule(IncrementAsWritten(2).0, start, end, amount, map[])], IncrementAsWritten(2).1, {})
         == Some(IdNotBelowNext(3, 3))
  {
  }

  /**
   * With the corrected counter the new id is fresh and every id, the new
   * one included, stays below the counter.
   */
  lemma IncrementKeepsIdsBelow(st: Store, next: nat, s: Schedule)
    requires IdsBelow(st, next) && s.id == Increment(next).0
    ensures s.id !in st
    ensures IdsBelow(st[s.id := s], Increment(next).1)
  {
  }

  /**
   * With the counter as written the id handed out is never below the new
   * counter, so storing its schedule breaks the `id < next` invariant that
   * `IncrementKeepsIdsBelow` shows the corrected counter keeps.
   */
  lemma IncrementAsWrittenBreaksIdsBelow(st: Store, next: nat, s: Schedule)
    requires s.id == IncrementAsWritten(next).0
    ensures !IdsBelow(st[s.id := s], IncrementAsWritten(next).1)
  {
    assert s.id in st[s.id := s];
  }

  /** The ids of a list, as a set. */
  function Elems(ids: seq<nat>): set<nat> {
    set i | 0 <= i < |ids| :: ids[i]
  }

  /**
   * The loop of `TerminateSchedules` from the store `st` with `amount` refunded
   * so far: the store it leaves behind (earlier deletions stay even when a
   * later id fails) and either the amount or the error.
   */
  function TerminateFrom(st: Store, ids: seq<nat>, amount: Coins): (r: (Store, Result<Coins, nat>))
    requires Consistent(st) && Valid(amount)
    ensures Consistent(r.0) && r.0.Keys <= st.Keys
    ensures r.1.Ok? ==> Valid(r.1.value)
    decreases |ids|
  {
    if ids == [] then (st, Ok(amount))
    else if ids[0] !in st then (st, Err(ids[0]))
    else TerminateFrom(st - {ids[0]}, ids[1..], Add(amount, Remaining(st[ids[0]])))
  }

  /** Termination succeeds exactly when the ids are distinct and all stored. */
  lemma {:induction false} TerminateSucceeds(st: Store, ids: seq<nat>, amount: Coins)
    requires Consistent(st) && Valid(amount)
    ensures TerminateFrom(st, ids, amount).1.Ok? <==> Distinct(ids) && forall i :: 0 <= i < |ids| ==> ids[i] in st
    decreases |ids|
  {
    if ids != [] {
      var k := ids[0];
      if k in st {
        TerminateSucceeds(st - {k}, ids[1..], Add(amount, Remaining(st[k])));
        var tail := ids[1..];
        if Distinct(ids) && forall i :: 0 <= i < |ids| ==> ids[i] in st {
          forall i | 0 <= i < |tail| ensures tail[i] in st - {k} {
            assert tail[i] == ids[i + 1];
          }
          assert Distinct(tail) by {
            forall i, j | 0 <= i < j < |tail| ensures tail[i] != tail[j] {
              assert tail[i] == ids[i + 1] && tail[j] == ids[j + 1];
            }
          }
        }
        if Distinct(tail) && forall i :: 0 <= i < |tail| ==> tail[i] in st - {k} {
          forall i, j | 0 <= i < j < |ids| ensures ids[i] != ids[j] {
            assert ids[j] == tail[j - 1];
            if i > 0 {
              assert ids[i] == tail[i - 1];
            }
          }
          forall i | 0 <= i < |ids| ensures ids[i] in st {
            if i > 0 {
              assert ids[i] == tail[i - 1];
            }
          }
        }
      }
    }
  }

  /** The ids of a non-empty list are its head and the ids of its tail. */
  lemma ElemsCons(ids: seq<nat>)
    requires ids != []
    ensures Elems(ids) == {ids[0]} + Elems(ids[1..])
  {
    forall x | x in Elems(ids) ensures x in {ids[0]} + Elems(ids[1..]) {
      var i :| 0 <= i < |ids| && ids[i] == x;
      if i > 0 {
        assert ids[1..][i - 1] == x;
      }
    }
    forall x | x in Elems(ids[1..]) ensures x in Elems(ids) {
      var i :| 0 <= i < |ids[1..]| && ids[1..][i] == x;
      assert ids[i + 1] == x;
    }
  }

  /** A successful termination removes exactly the listed schedules. */
  lemma {:induction false} TerminateRemoves(st: Store, ids: seq<nat>, amount: Coins)
    requires Consistent(st) && Valid(amount)
    requires TerminateFrom(st, ids, amount).1.Ok?
    ensures TerminateFrom(st, ids, amount).0 == st - Elems(ids)
    decreases |ids|
  {
    if ids == [] {
      assert Elems(ids) == {};
      assert st - {} == st;
    } else {
      var k := ids[0];
      TerminateRemoves(st - {k}, ids[1..], Add(amount, Remaining(st[k])));
      ElemsCons(ids);
      assert (st - {k}) - Elems(ids[1..]) == st - Elems(ids);
    }
  }

  /**
   * A successful termination returns what the removed schedules had left to
   * release: with the module's own sum, the refund plus what stays
   * unreleased is what was unreleased.
   */
  lemma {:induction false} TerminateConserves(st: Store, ids: seq<nat>, amount: Coins)
    requires Consistent(st) && Valid(amount)
    requires TerminateFrom(st, ids, amount).1.Ok?
    ensures Add(Unreleased(TerminateFrom(st, ids, amount).0), TerminateFrom(st, ids, amount).1.value)
         == Add(Unreleased(st), amount)
    decreases |ids|
  {
    if ids != [] {
      var k := ids[0];
      var rem := Remaining(st[k]);
      TerminateConserves(st - {k}, ids[1..], Add(amount, rem));
      UnreleasedDelete(st, k);
      AddRotate(Unreleased(st - {k}), amount, rem);
    }
  }

  /** The loop of `InitGenesis`: every schedule written under its id, first to last. */
  function StoreAll(st: Store, ss: seq<Schedule>): (r: Store)
    ensures r.Keys == st.Keys + IdsOf(ss)
    decreases |ss|
  {
    if ss == [] then st
    else
      var r := StoreAll(st[ss[0].id := ss[0]], ss[1..]);
      assert IdsOf(ss) == {ss[0].id} + IdsOf(ss[1..]) by {
        IdsOfCons(ss, |ss| - 1);
        assert ss[..|ss|] == ss && ss[1..][..|ss| - 1] == ss[1..];
      }
      r
  }

  /** A later schedule with the same id overwrites an earlier one; every schedule sits under its id. */
  lemma {:induction false} StoreAllLastWins(st: Store, ss: seq<Schedule>, i: nat)
    requires i < |ss| && forall j :: i < j < |ss| ==> ss[j].id != ss[i].id
    ensures StoreAll(st, ss)[ss[i].id] == ss[i]
    decreases |ss|
  {
    if i > 0 {
      forall j | i - 1 < j < |ss[1..]| ensures ss[1..][j].id != ss[1..][i - 1].id {
        assert ss[1..][j] == ss[j + 1];
      }
      StoreAllLastWins(st[ss[0].id := ss[0]], ss[1..], i - 1);
    } else {
      StoreAllUntouched(st[ss[0].id := ss[0]], ss[1..], ss[0].id);
    }
  }

  /** An id no schedule of the list carries keeps its entry. */
  lemma {:induction false} StoreAllUntouched(st: Store, ss: seq<Schedule>, k: nat)
    requires k in st && forall j :: 0 <= j < |ss| ==> ss[j].id != k
    ensures StoreAll(st, ss)[k] == st[k]
    decreases |ss|
  {
    if ss != [] {
      forall j | 0 <= j < |ss[1..]| ensures ss[1..][j].id != k {
        assert ss[1..][j] == ss[j + 1];
      }
      StoreAllUntouched(st[ss[0].id := ss[0]], ss[1..], k);
    }
  }

  /** Every entry of the result is either untouched or a schedule of the list under its own id. */
  lemma {:induction false} StoreAllFrom(st: Store, ss: seq<Schedule>, k: nat)
    requires k in StoreAll(st, ss)
    ensures (k in st && StoreAll(st, ss)[k] == st[k]) || exists i :: 0 <= i < |ss| && ss[i].id == k && StoreAll(st, ss)[k] == ss[i]
    decreases |ss|
  {
    if ss != [] {
      var st' := st[ss[0].id := ss[0]];
      StoreAllFrom(st', ss[1..], k);
      if exists i :: 0 <= i < |ss[1..]| && ss[1..][i].id == k && StoreAll(st', ss[1..])[k] == ss[1..][i] {
        var i :| 0 <= i < |ss[1..]| && ss[1..][i].id == k && StoreAll(st', ss[1..])[k] == ss[1..][i];
        assert ss[i + 1] == ss[1..][i];
      } else if k == ss[0].id {
        assert StoreAll(st, ss)[k] == ss[0];
      }
    }
  }

  /** After the import every schedule sits under its own id. */
  lemma ImportKeys(ss: seq<Schedule>, k: nat)
    requires k in StoreAll(map[], ss)
    ensures StoreAll(map[], ss)[k].id == k
    ensures StoreAll(map[], ss)[k] in ss
  {
    StoreAllFrom(map[], ss, k);
  }

  /** The export of an imported list is in strictly ascending id order. */
  lemma ImportExportSorted(ss: seq<Schedule>)
    ensures var out := InOrder(StoreAll(map[], ss));
      forall i, j :: 0 <= i < j < |out| ==> out[i].id < out[j].id
  {
    var st := StoreAll(map[], ss);
    var out := InOrder(st);
    var order := SortedIds(st.Keys);
    forall i, j | 0 <= i < j < |out| ensures out[i].id < out[j].id {
      ImportKeys(ss, order[i]);
      ImportKeys(ss, order[j]);
    }
  }

  /**
   * Importing a genesis list with distinct ids into an empty store and
   * exporting it again gives back the same schedules, as many as there were.
   */
  lemma ImportExportSame(ss: seq<Schedule>)
    requires DistinctIds(ss)
    ensures var out := InOrder(StoreAll(map[], ss));
      |out| == |ss| && forall s :: s in out <==> s in ss
  {
    ImportExportCount(ss);
    ImportExportOnlyImported(ss);
    ImportExportAllImported(ss);
  }

  lemma ImportExportCount(ss: seq<Schedule>)
    requires DistinctIds(ss)
    ensures |InOrder(StoreAll(map[], ss))| == |ss|
  {
    IdsOfDistinct(ss);
    var empty: Store := map[];
    assert empty.Keys + IdsOf(ss) == IdsOf(ss);
  }

  lemma ImportExportOnlyImported(ss: seq<Schedule>)
    ensures forall s :: s in InOrder(StoreAll(map[], ss)) ==> s in ss
  {
    var out := InOrder(StoreAll(map[], ss));
    forall s | s in out ensures s in ss {
      var i :| 0 <= i < |out| && out[i] == s;
      ExportedIsImported(ss, i);
    }
  }

  lemma ImportExportAllImported(ss: seq<Schedule>)
    requires DistinctIds(ss)
    ensures forall s :: s in ss ==> s in InOrder(StoreAll(map[], ss))
  {
    forall s | s in ss ensures s in InOrder(StoreAll(map[], ss)) {
      var i :| 0 <= i < |ss| && ss[i] == s;
      ImportedIsExported(ss, i);
    }
  }

  /** Every exported schedule is one of the imported ones. */
  lemma ExportedIsImported(ss: seq<Schedule>, i: nat)
    requires i < |InOrder(StoreAll(map[], ss))|
    ensures InOrder(StoreAll(map[], ss))[i] in ss
  {
    var st := StoreAll(map[], ss);
    ImportKeys(ss, SortedIds(st.Keys)[i]);
  }

  /** Every imported schedule of a list with distinct ids is exported. */
  lemma ImportedIsExported(ss: seq<Schedule>, i: nat)
    requires DistinctIds(ss) && i < |ss|
    ensures ss[i] in InOrder(StoreAll(map[], ss))
  {
    var st := StoreAll(map[], ss);
    var order := SortedIds(st.Keys);
    StoreAllLastWins(map[], ss, i);
    assert ss[i].id in IdsOf(ss);
    assert ss[i].id in order;
    var j :| 0 <= j < |order| && order[j] == ss[i].id;
    assert InOrder(st)[j] == ss[i];
  }

  /** A list with distinct ids has as many ids as schedules. */
  lemma {:induction false} IdsOfDistinct(ss: seq<Schedule>)
    requires DistinctIds(ss)
    ensures |IdsOf(ss)| == |ss|
    decreases |ss|
  {
    if ss != [] {
      var n := |ss| - 1;
      assert DistinctIds(ss[..n]);
      IdsOfDistinct(ss[..n]);
      assert IdsOf(ss) == IdsOf(ss[..n]) + {ss[n].id} by {
        forall k | k in IdsOf(ss) ensures k in IdsOf(ss[..n]) + {ss[n].id} {
          var i :| 0 <= i < |ss| && ss[i].id == k;
          if i < n {
            assert ss[..n][i] == ss[i];
          }
        }
        forall k | k in IdsOf(ss[..n]) ensures k in IdsOf(ss) {
          var i :| 0 <= i < n && ss[..n][i].id == k;
          assert ss[i] == ss[..n][i];
        }
      }
      forall i | 0 <= i < n ensures ss[..n][i].id != ss[n].id {
        assert ss[..n][i] == ss[i];
      }
      assert ss[n].id !in IdsOf(ss[..n]);
    }
  }

  /** Stored schedules start strictly before they end. */
  predicate TimesOrdered(st: Store) {
    forall k :: k in st ==> st[k].startTime < st[k].endTime
  }

  /**
   * Importing a valid genesis state into an empty store gives a consistent
   * store whose ids are all below the imported counter and whose schedules
   * all start before they end.
   */
  lemma ImportValidGenesis(gs: GenesisState)
    requires ValidGenesis(gs) && forall i :: 0 <= i < |gs.schedules| ==> WellFormed(gs.schedules[i])
    ensures Consistent(StoreAll(map[], gs.schedules))
    ensures IdsBelow(StoreAll(map[], gs.schedules), gs.nextScheduleId)
    ensures TimesOrdered(StoreAll(map[], gs.schedules))
  {
    var st := StoreAll(map[], gs.schedules);
    forall k | k in st ensures st[k].id == k && ScheduleOk(st[k], gs.nextScheduleId) && WellFormed(st[k]) {
      ImportKeys(gs.schedules, k);
    }
  }
}
