/**
 * Voting power locked in the vesting contract (x/gov/keeper/vesting.go).
 *
 * The contract's `voting_powers` query is a parameter: given the
 * `start_after` cursor (`None` for the first request, whose empty cursor is
 * omitted from the JSON query) it returns one page of (user, power) items, or
 * `None` when the wasm query or the JSON decoding fails.  The contract holds
 * finitely many positions, so every page draws its users from a finite set;
 * that set is what bounds the pagination loop.
 */
module GovVesting {
  import opened Wrappers
  import Arith

  datatype VotingPowerResponse = VotingPowerResponse(user: string, votingPower: nat)

  type Page = seq<VotingPowerResponse>

  type Query = Option<string> -> Option<Page>

  /** Both are `ErrFailedToQueryVesting` (code 17) with different wrapped texts. */
  datatype VestingError = QueryFailed | DuplicateAddress(user: string)

  /** What `GetTokensInVesting` returns: the map, the total and the error. */
  datatype VestingResult = VestingResult(tokens: map<string, nat>, total: nat, err: Option<VestingError>)

  /** Every page the query can return names only users of `users`. */
  ghost predicate Bounded(query: Query, users: set<string>) {
    forall after :: query(after).Some? ==>
      forall i :: 0 <= i < |query(after).value| ==> query(after).value[i].user in users
  }

  /** The sum of a map's values, independent of any iteration order. */
  ghost function MapSum(m: map<string, nat>): nat
    decreases |m|
  {
    if m == map[] then 0
    else
      var u :| u in m;
      assert |m - {u}| < |m| by { assert m.Keys - {u} < m.Keys; }
      m[u] + MapSum(m - {u})
  }

  lemma {:induction false} MapSumRemove(m: map<string, nat>, y: string)
    requires y in m
    ensures MapSum(m) == m[y] + MapSum(m - {y})
    decreases |m|
  {
    var u :| u in m && MapSum(m) == m[u] + MapSum(m - {u});
    if u != y {
      assert |m - {u}| < |m| by { assert (m - {u}).Keys < m.Keys; }
      MapSumRemove(m - {u}, y);
      assert |m - {y}| < |m| by { assert (m - {y}).Keys < m.Keys; }
      MapSumRemove(m - {y}, u);
      assert m - {u} - {y} == m - {y} - {u};
    }
  }

  /** Adding a fresh user raises the sum by exactly its power. */
  lemma MapSumInsert(m: map<string, nat>, u: string, p: nat)
    requires u !in m
    ensures MapSum(m[u := p]) == MapSum(m) + p
  {
    MapSumRemove(m[u := p], u);
    assert m[u := p] - {u} == m;
  }

  function PageSum(page: Page): nat {
    if page == [] then 0 else page[0].votingPower + PageSum(page[1..])
  }

  /** The users of a page are pairwise distinct and none is in `seen`. */
  predicate Fresh(page: Page, seen: set<string>) {
    (forall i :: 0 <= i < |page| ==> page[i].user !in seen) &&
    (forall i, j :: 0 <= i < j < |page| ==> page[i].user != page[j].user)
  }

  /**
   * `incrementVotingPowers` as a value: each item is added in turn, and the
   * first user already in the map is an error.
   */
  function AddPage(tokens: map<string, nat>, total: nat, page: Page): Result<(map<string, nat>, nat), VestingError>
    decreases |page|
  {
    if page == [] then Ok((tokens, total))
    else if page[0].user in tokens then Err(DuplicateAddress(page[0].user))
    else AddPage(tokens[page[0].user := page[0].votingPower], total + page[0].votingPower, page[1..])
  }

  /** A page is accepted exactly when its users are fresh. */
  lemma {:induction false} AddPageOk(tokens: map<string, nat>, total: nat, page: Page)
    ensures AddPage(tokens, total, page).Ok? <==> Fresh(page, tokens.Keys)
    decreases |page|
  {
    if page != [] && page[0].user !in tokens {
      var tokens' := tokens[page[0].user := page[0].votingPower];
      AddPageOk(tokens', total + page[0].votingPower, page[1..]);
      if Fresh(page[1..], tokens'.Keys) {
        forall i, j | 0 <= i < j < |page| ensures page[i].user != page[j].user {
          if i > 0 {
            assert page[i].user == page[1..][i - 1].user;
            assert page[j].user == page[1..][j - 1].user;
          } else {
            assert page[j].user == page[1..][j - 1].user;
          }
        }
      }
      if Fresh(page, tokens.Keys) {
        forall i | 0 <= i < |page[1..]| ensures page[1..][i].user !in tokens'.Keys {
          assert page[1..][i] == page[i + 1];
        }
      }
    } else if page != [] {
      assert !Fresh(page, tokens.Keys) by { assert page[0].user in tokens.Keys; }
    }
  }

  /** The users a page names. */
  function Users(page: Page): set<string> {
    set i | 0 <= i < |page| :: page[i].user
  }

  lemma UsersCons(page: Page)
    requires page != []
    ensures Users(page) == {page[0].user} + Users(page[1..])
  {
    forall i | 0 <= i < |page| ensures page[i].user in {page[0].user} + Users(page[1..]) {
      if i > 0 { assert page[1..][i - 1] == page[i]; }
    }
    forall i | 0 <= i < |page[1..]| ensures page[1..][i].user in Users(page) {
      assert page[1..][i] == page[i + 1];
    }
  }

  /**
   * An accepted page keeps every earlier entry, maps each of its users to
   * its power and adds nobody else.
   */
  lemma {:induction false} AddPageKeys(tokens: map<string, nat>, total: nat, page: Page)
    requires AddPage(tokens, total, page).Ok?
    ensures var tokens' := AddPage(tokens, total, page).value.0;
      tokens'.Keys == tokens.Keys + Users(page) &&
      (forall u :: u in tokens ==> tokens'[u] == tokens[u]) &&
      (forall i :: 0 <= i < |page| ==> tokens'[page[i].user] == page[i].votingPower)
    decreases |page|
  {
    if page != [] {
      var x := page[0];
      AddPageKeys(tokens[x.user := x.votingPower], total + x.votingPower, page[1..]);
      UsersCons(page);
      var tokens' := AddPage(tokens, total, page).value.0;
      forall i | 0 <= i < |page| ensures tokens'[page[i].user] == page[i].votingPower {
        if i > 0 { assert page[1..][i - 1] == page[i]; }
      }
    }
  }

  /**
   * An accepted page raises the total by the page sum, and the sum of the
   * map's values by the same amount.
   */
  lemma {:induction false} AddPageTotal(tokens: map<string, nat>, total: nat, page: Page)
    requires AddPage(tokens, total, page).Ok?
    ensures var (tokens', total') := AddPage(tokens, total, page).value;
      total' == total + PageSum(page) && MapSum(tokens') == MapSum(tokens) + PageSum(page)
    decreases |page|
  {
    if page != [] {
      var x := page[0];
      AddPageTotal(tokens[x.user := x.votingPower], total + x.votingPower, page[1..]);
      MapSumInsert(tokens, x.user, x.votingPower);
    }
  }

  /** `incrementVotingPowers`: the loop over one page, proved against `AddPage`. */
  method IncrementVotingPowers(page: Page, tokens: map<string, nat>, total: nat)
    returns (r: Result<(map<string, nat>, nat), VestingError>)
    ensures r == AddPage(tokens, total, page)
  {
    var m: map<string, nat>, t: nat := tokens, total;
    var i := 0;
    while i < |page|
      invariant 0 <= i <= |page|
      invariant AddPage(tokens, total, page) == AddPage(m, t, page[i..])
    {
      assert page[i..][0] == page[i] && page[i..][1..] == page[i + 1..];
      var item := page[i];
      if item.user in m {
        return Err(DuplicateAddress(item.user));
      }
      m := m[item.user := item.votingPower];
      t := t + item.votingPower;
      i := i + 1;
    }
    return Ok((m, t));
  }

  /** A successful non-empty page adds at least one new user. */
  lemma AddPageGrows(tokens: map<string, nat>, total: nat, page: Page, users: set<string>)
    requires page != [] && AddPage(tokens, total, page).Ok?
    requires forall i :: 0 <= i < |page| ==> page[i].user in users
    requires tokens.Keys <= users
    ensures AddPage(tokens, total, page).value.0.Keys <= users
    ensures |users - AddPage(tokens, total, page).value.0.Keys| < |users - tokens.Keys|
  {
    AddPageKeys(tokens, total, page);
    var keys := AddPage(tokens, total, page).value.0.Keys;
    assert Users(page) <= users;
    assert page[0].user in Users(page);
    assert page[0].user !in tokens.Keys;
    assert page[0].user in users - tokens.Keys && page[0].user !in users - keys;
    Arith.StrictSubsetSmaller(users - keys, users - tokens.Keys);
  }

  /**
   * The pagination of `GetTokensInVesting` from cursor `after`: query, add
   * the page, stop after the first empty page, otherwise continue after the
   * page's last user.  Any failure gives an empty map and a zero total.
   */
  function Collect(query: Query, users: set<string>, after: Option<string>, tokens: map<string, nat>, total: nat): (r: VestingResult)
    requires Bounded(query, users) && tokens.Keys <= users
    ensures r.err.Some? ==> r.tokens == map[] && r.total == 0
    decreases |users - tokens.Keys|
  {
    var response := query(after);
    if response.None? then VestingResult(map[], 0, Some(QueryFailed))
    else
      var page := response.value;
      var added := AddPage(tokens, total, page);
      if added.Err? then VestingResult(map[], 0, Some(added.error))
      else if page == [] then VestingResult(added.value.0, added.value.1, None)
      else
        AddPageGrows(tokens, total, page, users);
        Collect(query, users, Some(page[|page| - 1].user), added.value.0, added.value.1)
  }

  /** What is left to collect once `page` has been added. */
  function Continue(query: Query, users: set<string>, page: Page, tokens: map<string, nat>, total: nat): VestingResult
    requires Bounded(query, users) && tokens.Keys <= users
  {
    if page == [] then VestingResult(tokens, total, None)
    else Collect(query, users, Some(page[|page| - 1].user), tokens, total)
  }

  /** A request that fails, or whose page repeats a user, ends the collection with that error. */
  lemma CollectStops(query: Query, users: set<string>, after: Option<string>, tokens: map<string, nat>, total: nat)
    requires Bounded(query, users) && tokens.Keys <= users
    ensures query(after).None? ==> Collect(query, users, after, tokens, total) == VestingResult(map[], 0, Some(QueryFailed))
    ensures query(after).Some? && AddPage(tokens, total, query(after).value).Err? ==>
      Collect(query, users, after, tokens, total) == VestingResult(map[], 0, Some(AddPage(tokens, total, query(after).value).error))
  {
  }

  /**
   * An accepted page of the contract's users adds its users, stays among
   * the contract's users, and, when not empty, leaves fewer still to add.
   */
  lemma AddPageBounded(tokens: map<string, nat>, total: nat, page: Page, users: set<string>)
    requires AddPage(tokens, total, page).Ok? && tokens.Keys <= users
    requires forall i :: 0 <= i < |page| ==> page[i].user in users
    ensures var tokens' := AddPage(tokens, total, page).value.0;
      tokens'.Keys <= users &&
      (forall i :: 0 <= i < |page| ==> page[i].user in tokens') &&
      (page != [] ==> |users - tokens'.Keys| < |users - tokens.Keys|)
  {
    AddPageKeys(tokens, total, page);
    if page != [] {
      AddPageGrows(tokens, total, page, users);
    }
  }

  /** A request whose page is accepted goes on with that page added. */
  lemma CollectGoesOn(query: Query, users: set<string>, after: Option<string>, tokens: map<string, nat>, total: nat, page: Page)
    requires Bounded(query, users) && tokens.Keys <= users
    requires query(after) == Some(page) && AddPage(tokens, total, page).Ok?
    requires AddPage(tokens, total, page).value.0.Keys <= users
    ensures Collect(query, users, after, tokens, total)
      == Continue(query, users, page, AddPage(tokens, total, page).value.0, AddPage(tokens, total, page).value.1)
  {
  }

  /** `GetTokensInVesting`: the query loop, proved against `Collect`. */
  method GetTokensInVesting(query: Query, ghost users: set<string>) returns (r: VestingResult)
    requires Bounded(query, users)
    ensures r == Collect(query, users, None, map[], 0)
  {
    var tokens: map<string, nat> := map[];
    var total: nat := 0;
    CollectStops(query, users, None, tokens, total);
    var response := query(None);
    if response.None? {
      return VestingResult(map[], 0, Some(QueryFailed));
    }
    var added := IncrementVotingPowers(response.value, tokens, total);
    if added.Err? {
      return VestingResult(map[], 0, Some(added.error));
    }
    AddPageBounded(tokens, total, response.value, users);
    CollectGoesOn(query, users, None, tokens, total, response.value);
    var page := response.value;
    tokens, total := added.value.0, added.value.1;
    while |page| != 0
      invariant tokens.Keys <= users
      invariant forall i :: 0 <= i < |page| ==> page[i].user in tokens
      invariant Collect(query, users, None, map[], 0) == Continue(query, users, page, tokens, total)
      decreases |users - tokens.Keys|, |page|
    {
      var startAfter := page[|page| - 1].user;
      CollectStops(query, users, Some(startAfter), tokens, total);
      response := query(Some(startAfter));
      if response.None? {
        return VestingResult(map[], 0, Some(QueryFailed));
      }
      added := IncrementVotingPowers(response.value, tokens, total);
      if added.Err? {
        return VestingResult(map[], 0, Some(added.error));
      }
      AddPageBounded(tokens, total, response.value, users);
      CollectGoesOn(query, users, Some(startAfter), tokens, total, response.value);
      page := response.value;
      tokens, total := added.value.0, added.value.1;
    }
    return VestingResult(tokens, total, None);
  }

  /** `MustGetTokensInVesting`: the same collection, where `None` is the panic. */
  method MustGetTokensInVesting(query: Query, ghost users: set<string>) returns (r: Option<(map<string, nat>, nat)>)
    requires Bounded(query, users)
    ensures var c := Collect(query, users, None, map[], 0);
      (r.None? <==> c.err.Some?) && (r.Some? ==> r.value == (c.tokens, c.total))
  {
    var res := GetTokensInVesting(query, users);
    if res.err.Some? {
      return None;
    }
    return Some((res.tokens, res.total));
  }

  /** A successful collection keeps the total equal to the sum of the powers. */
  lemma {:induction false} CollectSum(query: Query, users: set<string>, after: Option<string>, tokens: map<string, nat>, total: nat)
    requires Bounded(query, users) && tokens.Keys <= users
    requires total == MapSum(tokens)
    ensures var c := Collect(query, users, after, tokens, total);
      c.err.None? ==> c.total == MapSum(c.tokens)
    decreases |users - tokens.Keys|
  {
    var c := Collect(query, users, after, tokens, total);
    var response := query(after);
    if response.Some? && AddPage(tokens, total, response.value).Ok? {
      var page := response.value;
      AddPageBounded(tokens, total, page, users);
      CollectGoesOn(query, users, after, tokens, total, page);
      AddPageTotal(tokens, total, page);
      var (tokens', total') := AddPage(tokens, total, page).value;
      if page != [] {
        CollectSum(query, users, Some(page[|page| - 1].user), tokens', total');
      }
    }
  }

  /** After `GetTokensInVesting` succeeds, the total is the sum of the map's values. */
  lemma CollectTotal(query: Query, users: set<string>)
    requires Bounded(query, users)
    ensures var c := Collect(query, users, None, map[], 0);
      c.err.None? ==> c.total == MapSum(c.tokens)
  {
    assert MapSum(map[]) == 0;
    CollectSum(query, users, None, map[], 0);
  }

  /** A page repeating a user already collected fails the whole collection. */
  lemma {:induction false} RepeatedUserFails(query: Query, users: set<string>, after: Option<string>, tokens: map<string, nat>, total: nat, i: nat)
    requires Bounded(query, users) && tokens.Keys <= users
    requires query(after).Some? && i < |query(after).value| && query(after).value[i].user in tokens
    ensures Collect(query, users, after, tokens, total).err.Some?
  {
    AddPageOk(tokens, total, query(after).value);
  }

  /** Two pages and then an empty one: the powers of both, summed. */
  lemma TwoPagesExample(query: Query)
    requires Bounded(query, {"alice", "bob", "carol"})
    requires query(None) == Some([VotingPowerResponse("alice", 3), VotingPowerResponse("bob", 4)])
    requires query(Some("bob")) == Some([VotingPowerResponse("carol", 5)])
    requires query(Some("carol")) == Some([])
    ensures Collect(query, {"alice", "bob", "carol"}, None, map[], 0)
      == VestingResult(map["alice" := 3, "bob" := 4, "carol" := 5], 12, None)
  {
    var users := {"alice", "bob", "carol"};
    var m1 := map["alice" := 3, "bob" := 4];
    assert AddPage(map[], 0, query(None).value) == Ok((m1, 7));
    assert Collect(query, users, None, map[], 0) == Collect(query, users, Some("bob"), m1, 7);
    assert AddPage(m1, 7, query(Some("bob")).value) == Ok((m1["carol" := 5], 12));
  }
}
