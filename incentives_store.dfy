/**
 * The schedule store of the incentives keeper seen as a map from id to
 * schedule, and the two readings of it the keeper needs: the order in which
 * `IterateSchedules` visits it (ascending key bytes, hence ascending ids),
 * and the sum of the unreleased amounts that the module's invariant
 * compares with the module account balance.
 */
module IncentivesStore {
  import opened Wrappers
  import opened Coins
  import opened IncentivesSchedule

  type Store = map<nat, Schedule>

  /** Every stored schedule sits under its own id and still owes a non-negative amount. */
  predicate Consistent(st: Store) {
    forall id :: id in st ==> st[id].id == id && WellFormed(st[id]) && IsAllGTE(st[id].totalAmount, st[id].releasedAmount)
  }

  /** What a schedule has yet to release: `TotalAmount.Sub(ReleasedAmount)`. */
  function Remaining(s: Schedule): (r: Coins)
    requires WellFormed(s) && IsAllGTE(s.totalAmount, s.releasedAmount)
    ensures Valid(r) && Add(r, s.releasedAmount) == s.totalAmount
  {
    AddSub(s.totalAmount, s.releasedAmount);
    Sub(s.totalAmount, s.releasedAmount).value
  }

  /** The smallest id of a non-empty set. */
  function SetMin(ks: set<nat>): (m: nat)
    requires ks != {}
    ensures m in ks && forall k :: k in ks ==> m <= k
  {
    MinExists(ks);
    var m :| m in ks && forall k :: k in ks ==> m <= k;
    m
  }

  lemma {:induction false} MinExists(ks: set<nat>)
    requires ks != {}
    ensures exists m :: m in ks && forall k :: k in ks ==> m <= k
    decreases |ks|
  {
    var k :| k in ks;
    var rest := ks - {k};
    if rest == {} {
      forall j | j in ks ensures k <= j {
        assert j !in rest;
      }
    } else {
      MinExists(rest);
      var m :| m in rest && forall j :: j in rest ==> m <= j;
      var least := MinOfInsert(ks, k, m);
    }
  }

  /** Putting k back beside the minimum m of the other ids gives the smaller of the two. */
  lemma MinOfInsert(ks: set<nat>, k: nat, m: nat) returns (least: nat)
    requires k in ks && m in ks - {k} && forall j :: j in ks - {k} ==> m <= j
    ensures least in ks && forall j :: j in ks ==> least <= j
  {
    least := if k < m then k else m;
    forall j | j in ks ensures least <= j {
      if j != k {
        assert j in ks - {k};
      }
    }
  }

  predicate Ascending(xs: seq<nat>) {
    forall i, j :: 0 <= i < j < |xs| ==> xs[i] < xs[j]
  }

  /** The ids of a set in ascending order: the order of the store's prefix iterator. */
  function SortedIds(ks: set<nat>): (r: seq<nat>)
    ensures Ascending(r)
    ensures forall k :: k in r <==> k in ks
    ensures |r| == |ks|
    decreases |ks|
  {
    if ks == {} then []
    else
      var m := SetMin(ks);
      var rest := SortedIds(ks - {m});
      [m] + rest
  }

  /** The schedules of the store in iteration order. */
  function InOrder(st: Store): (r: seq<Schedule>)
    ensures |r| == |st.Keys|
    ensures forall i :: 0 <= i < |r| ==> r[i] == st[SortedIds(st.Keys)[i]]
  {
    var ids := SortedIds(st.Keys);
    assert forall i :: 0 <= i < |ids| ==> ids[i] in ids;
    Lookup(st, ids)
  }

  /** The schedules stored under the ids, in the order of the ids. */
  function Lookup(st: Store, ids: seq<nat>): (r: seq<Schedule>)
    requires forall i :: 0 <= i < |ids| ==> ids[i] in st
    ensures |r| == |ids|
    ensures forall i :: 0 <= i < |ids| ==> r[i] == st[ids[i]]
  {
    seq(|ids|, i requires 0 <= i < |ids| => st[ids[i]])
  }

  /** The coin sets of the ids in ks, added up smallest id first. */
  function SumOver(m: map<nat, Coins>, ks: set<nat>): (r: Coins)
    requires ks <= m.Keys && forall k :: k in ks ==> Valid(m[k])
    ensures Valid(r)
    decreases |ks|
  {
    if ks == {} then map[]
    else
      var k := SetMin(ks);
      Add(m[k], SumOver(m, ks - {k}))
  }

  /** Any one id's coins can be taken out of the sum first. */
  lemma {:induction false} SumOverRemove(m: map<nat, Coins>, ks: set<nat>, k: nat)
    requires ks <= m.Keys && forall j :: j in ks ==> Valid(m[j])
    requires k in ks
    ensures SumOver(m, ks) == Add(m[k], SumOver(m, ks - {k}))
    decreases |ks|
  {
    var j := SetMin(ks);
    if j != k {
      var rest := ks - {j};
      SumOverRemove(m, rest, k);
      assert rest - {k} == (ks - {k}) - {j};
      assert SetMin(ks - {k}) == j;
      var a, b, c := m[j], m[k], SumOver(m, rest - {k});
      AddAssociates(a, b, c);
      AddCommutes(a, b);
      AddAssociates(b, a, c);
    }
  }

  /** The sum over a set only reads the entries of that set. */
  lemma {:induction false} SumOverFrame(m: map<nat, Coins>, m': map<nat, Coins>, ks: set<nat>)
    requires ks <= m.Keys && ks <= m'.Keys && forall k :: k in ks ==> Valid(m[k]) && m'[k] == m[k]
    ensures SumOver(m, ks) == SumOver(m', ks)
    decreases |ks|
  {
    if ks != {} {
      SumOverFrame(m, m', ks - {SetMin(ks)});
    }
  }

  /** What every stored schedule has yet to release, by id. */
  function RemainingById(st: Store): (r: map<nat, Coins>)
    requires Consistent(st)
    ensures r.Keys == st.Keys && forall k :: k in r ==> Valid(r[k]) && r[k] == Remaining(st[k])
  {
    map k | k in st :: Remaining(st[k])
  }

  /** The sum of `TotalAmount - ReleasedAmount` over the whole store. */
  function Unreleased(st: Store): (r: Coins)
    requires Consistent(st)
    ensures Valid(r)
  {
    SumOver(RemainingById(st), st.Keys)
  }

  /** Deleting a schedule takes exactly its remainder out of the sum. */
  lemma UnreleasedDelete(st: Store, k: nat)
    requires Consistent(st) && k in st
    ensures Consistent(st - {k})
    ensures Unreleased(st) == Add(Remaining(st[k]), Unreleased(st - {k}))
  {
    var m, m' := RemainingById(st), RemainingById(st - {k});
    SumOverRemove(m, st.Keys, k);
    assert (st - {k}).Keys == st.Keys - {k};
    SumOverFrame(m, m', st.Keys - {k});
  }

  /** Replacing a schedule swaps its remainder in the sum. */
  lemma UnreleasedUpdate(st: Store, k: nat, s: Schedule)
    requires Consistent(st) && k in st
    requires s.id == k && WellFormed(s) && IsAllGTE(s.totalAmount, s.releasedAmount)
    ensures Consistent(st[k := s])
    ensures Unreleased(st[k := s]) == Add(Remaining(s), Unreleased(st - {k}))
  {
    var st' := st[k := s];
    var m, m' := RemainingById(st'), RemainingById(st - {k});
    SumOverRemove(m, st'.Keys, k);
    assert st'.Keys - {k} == (st - {k}).Keys;
    SumOverFrame(m, m', st'.Keys - {k});
  }

  /** Adding a schedule under a fresh id adds its remainder to the sum. */
  lemma UnreleasedInsert(st: Store, s: Schedule)
    requires Consistent(st) && s.id !in st
    requires WellFormed(s) && IsAllGTE(s.totalAmount, s.releasedAmount)
    ensures Consistent(st[s.id := s])
    ensures Unreleased(st[s.id := s]) == Add(Remaining(s), Unreleased(st))
  {
    var st' := st[s.id := s];
    assert Consistent(st');
    var m, m' := RemainingById(st'), RemainingById(st);
    assert st'.Keys - {s.id} == st.Keys;
    SumOverRemove(m, st'.Keys, s.id);
    assert m[s.id] == Remaining(s);
    assert forall k :: k in st.Keys ==> m'[k] == m[k];
    SumOverFrame(m, m', st.Keys);
  }

  /** The remainders of a list of schedules, as the invariant adds them up. */
  function Remainders(ss: seq<Schedule>): (r: seq<Coins>)
    requires forall i :: 0 <= i < |ss| ==> WellFormed(ss[i]) && IsAllGTE(ss[i].totalAmount, ss[i].releasedAmount)
    ensures |r| == |ss| && AllValid(r)
    ensures forall i :: 0 <= i < |ss| ==> r[i] == Remaining(ss[i])
  {
    seq(|ss|, i requires 0 <= i < |ss| => Remaining(ss[i]))
  }

  predicate Distinct(xs: seq<nat>) {
    forall i, j :: 0 <= i < j < |xs| ==> xs[i] != xs[j]
  }

  /**
   * Adding up coin sets in any order that lists every id once gives the
   * sum over the ids.
   */
  lemma {:induction false} SumOverAnyOrder(m: map<nat, Coins>, order: seq<nat>, cs: seq<Coins>, ks: set<nat>)
    requires Distinct(order)
    requires forall k :: k in ks <==> k in order
    requires ks <= m.Keys && forall k :: k in ks ==> Valid(m[k])
    requires |cs| == |order| && forall i :: 0 <= i < |order| ==> cs[i] == m[order[i]]
    ensures AllValid(cs) && Sum(cs) == SumOver(m, ks)
    decreases |order|
  {
    if order != [] {
      var n := |order| - 1;
      var last := order[n];
      var init, cs', ks' := order[..n], cs[..n], ks - {last};
      DropLast(order, ks);
      SumOverAnyOrder(m, init, cs', ks');
      SumOverRemove(m, ks, last);
      AddCommutes(Sum(cs'), m[last]);
    }
  }

  /** Without its last id, a list of distinct ids enumerates the rest of the set. */
  lemma DropLast(order: seq<nat>, ks: set<nat>)
    requires Distinct(order) && order != []
    requires forall k :: k in ks <==> k in order
    ensures Distinct(order[..|order| - 1])
    ensures forall k :: k in order[..|order| - 1] <==> k in ks && k != order[|order| - 1]
  {
    var n := |order| - 1;
    forall k ensures k in order[..n] <==> k in ks && k != order[n] {
      if k in order && k != order[n] {
        var i :| 0 <= i < |order| && order[i] == k;
        assert i < n;
      }
    }
  }

  /**
   * The invariant's fold over the schedules in iteration order equals the
   * store's unreleased sum, and so does a fold in any other order.
   */
  lemma UnreleasedInOrder(st: Store, order: seq<nat>, ss: seq<Schedule>)
    requires Consistent(st) && Distinct(order)
    requires forall k :: k in st <==> k in order
    requires |ss| == |order| && forall i :: 0 <= i < |order| ==> ss[i] == st[order[i]]
    ensures Sum(Remainders(ss)) == Unreleased(st)
  {
    SumOverAnyOrder(RemainingById(st), order, Remainders(ss), st.Keys);
  }

  lemma UnreleasedIterationOrder(st: Store)
    requires Consistent(st)
    ensures Sum(Remainders(InOrder(st))) == Unreleased(st)
  {
    var ids := SortedIds(st.Keys);
    assert Distinct(ids) by {
      forall i, j | 0 <= i < j < |ids| ensures ids[i] != ids[j] {
        assert ids[i] < ids[j];
      }
    }
    UnreleasedInOrder(st, ids, InOrder(st));
  }
}
