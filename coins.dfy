/**
 * The Cosmos SDK `sdk.Coins` type: a set of (denom, amount) pairs with
 * positive amounts and one entry per denom.  It is modelled as a map from
 * denom to amount with every zero entry dropped, so that two coin sets that
 * hold the same amounts are equal values.
 */
module Coins {
  import opened Wrappers

  type Denom = string
  type Coins = map<Denom, nat>

  /** One element of a Go `sdk.Coins` slice. */
  datatype Coin = Coin(denom: Denom, amount: nat)

  /** A valid coin set never stores a zero amount. */
  predicate Valid(c: Coins) {
    forall d :: d in c ==> c[d] > 0
  }

  predicate AllValid(cs: seq<Coins>) {
    forall i :: 0 <= i < |cs| ==> Valid(cs[i])
  }

  /** `Coins.AmountOf`: zero for a denom that is not present. */
  function AmountOf(c: Coins, d: Denom): nat {
    if d in c then c[d] else 0
  }

  /** `Coins.Empty` / `Coins.IsZero` of a valid coin set. */
  predicate IsEmpty(c: Coins) {
    c == map[]
  }

  /** `a.IsAllGTE(b)`: every denom of b is present in a at least as often. */
  predicate IsAllGTE(a: Coins, b: Coins) {
    forall d :: d in b ==> b[d] <= AmountOf(a, d)
  }

  /** Two valid coin sets are equal as soon as they agree on every amount. */
  lemma Extensional(a: Coins, b: Coins)
    requires Valid(a) && Valid(b)
    requires forall d :: AmountOf(a, d) == AmountOf(b, d)
    ensures a == b
  {
    assert forall d :: d in a <==> AmountOf(a, d) > 0;
    assert forall d :: d in b <==> AmountOf(b, d) > 0;
    assert a.Keys == b.Keys;
  }

  lemma AllGTEByAmounts(a: Coins, b: Coins)
    requires Valid(b)
    ensures IsAllGTE(a, b) <==> forall d :: AmountOf(b, d) <= AmountOf(a, d)
  {
  }

  /** `Coins.Add`. */
  function Add(a: Coins, b: Coins): (r: Coins)
    requires Valid(a) && Valid(b)
    ensures Valid(r)
    ensures forall d :: AmountOf(r, d) == AmountOf(a, d) + AmountOf(b, d)
    ensures r.Keys == a.Keys + b.Keys
  {
    map d | d in a.Keys + b.Keys :: AmountOf(a, d) + AmountOf(b, d)
  }

  /**
   * `Coins.Sub`, which panics in the SDK when some amount would become
   * negative; the panic is `None` here.
   */
  function Sub(a: Coins, b: Coins): (r: Option<Coins>)
    requires Valid(a) && Valid(b)
    ensures r.Some? <==> IsAllGTE(a, b)
    ensures r.Some? ==> Valid(r.value)
    ensures r.Some? ==> forall d :: AmountOf(r.value, d) + AmountOf(b, d) == AmountOf(a, d)
  {
    if IsAllGTE(a, b) then
      Some(map d | d in a && a[d] > AmountOf(b, d) :: a[d] - AmountOf(b, d))
    else
      None
  }

  /** `Coins.Min`: the denom-wise minimum; denoms missing on either side drop out. */
  function Min(a: Coins, b: Coins): (r: Coins)
    requires Valid(a) && Valid(b)
    ensures Valid(r)
    ensures forall d :: AmountOf(r, d) == if AmountOf(a, d) <= AmountOf(b, d) then AmountOf(a, d) else AmountOf(b, d)
  {
    map d | d in a && d in b :: if a[d] <= b[d] then a[d] else b[d]
  }

  lemma AddCommutes(a: Coins, b: Coins)
    requires Valid(a) && Valid(b)
    ensures Add(a, b) == Add(b, a)
  {
    Extensional(Add(a, b), Add(b, a));
  }

  lemma AddAssociates(a: Coins, b: Coins, c: Coins)
    requires Valid(a) && Valid(b) && Valid(c)
    ensures Add(Add(a, b), c) == Add(a, Add(b, c))
  {
    Extensional(Add(Add(a, b), c), Add(a, Add(b, c)));
  }

  /** Moving the last summand of a nested sum to the front. */
  lemma AddRotate(a: Coins, b: Coins, c: Coins)
    requires Valid(a) && Valid(b) && Valid(c)
    ensures Add(a, Add(b, c)) == Add(Add(c, a), b)
  {
    Extensional(Add(a, Add(b, c)), Add(Add(c, a), b));
  }

  lemma AddEmpty(a: Coins)
    requires Valid(a)
    ensures Add(a, map[]) == a && Add(map[], a) == a
  {
    Extensional(Add(a, map[]), a);
    Extensional(Add(map[], a), a);
  }

  /** Subtracting what was just added gives the original set back. */
  lemma SubAdd(a: Coins, b: Coins)
    requires Valid(a) && Valid(b)
    ensures Sub(Add(a, b), b) == Some(a)
  {
    var s := Add(a, b);
    assert IsAllGTE(s, b);
    Extensional(Sub(s, b).value, a);
  }

  /** Whatever fits within a difference fits within the original set. */
  lemma WithinDifference(a: Coins, b: Coins, x: Coins)
    requires Valid(a) && Valid(b) && Valid(x) && IsAllGTE(a, b)
    requires IsAllGTE(Sub(a, b).value, x)
    ensures IsAllGTE(a, x)
  {
    var left := Sub(a, b).value;
    forall d | d in x ensures x[d] <= AmountOf(a, d) {
      assert AmountOf(left, d) + AmountOf(b, d) == AmountOf(a, d);
    }
  }

  /** Adding back what was subtracted restores the original set. */
  lemma AddSub(a: Coins, b: Coins)
    requires Valid(a) && Valid(b) && IsAllGTE(a, b)
    ensures Add(Sub(a, b).value, b) == a
  {
    Extensional(Add(Sub(a, b).value, b), a);
  }

  /** The left fold `total = total.Add(c)` over a list of coin sets. */
  function Sum(cs: seq<Coins>): (r: Coins)
    requires AllValid(cs)
    ensures Valid(r)
  {
    if cs == [] then map[] else Add(Sum(cs[..|cs| - 1]), cs[|cs| - 1])
  }

  lemma {:induction false} SumAppend(cs: seq<Coins>, ds: seq<Coins>)
    requires AllValid(cs) && AllValid(ds)
    ensures AllValid(cs + ds)
    ensures Sum(cs + ds) == Add(Sum(cs), Sum(ds))
    decreases |ds|
  {
    if ds == [] {
      assert cs + ds == cs;
      AddEmpty(Sum(cs));
    } else {
      var ds' := ds[..|ds| - 1];
      var last := ds[|ds| - 1];
      assert (cs + ds)[..|cs + ds| - 1] == cs + ds';
      assert (cs + ds)[|cs + ds| - 1] == last;
      SumAppend(cs, ds');
      AddAssociates(Sum(cs), Sum(ds'), last);
    }
  }

  lemma SumSingle(c: Coins)
    requires Valid(c)
    ensures Sum([c]) == c
  {
    assert [c][..0] == [];
    AddEmpty(c);
  }

  /** Taking one element out of a sum and adding it back in front. */
  lemma SumRemove(ds: seq<Coins>, j: nat)
    requires AllValid(ds) && j < |ds|
    ensures AllValid(ds[..j] + ds[j + 1..])
    ensures Sum(ds) == Add(ds[j], Sum(ds[..j] + ds[j + 1..]))
  {
    var pre, x, post := ds[..j], ds[j], ds[j + 1..];
    assert AllValid(pre) && AllValid(post) && AllValid([x]) && AllValid(pre + [x]);
    assert ds == (pre + [x]) + post;
    SumAppend(pre + [x], post);
    SumAppend(pre, [x]);
    SumSingle(x);
    SumAppend(pre, post);
    AddShuffle(Sum(pre), x, Sum(post));
  }

  /** Moving the middle term of a sum to the front. */
  lemma AddShuffle(a: Coins, x: Coins, b: Coins)
    requires Valid(a) && Valid(x) && Valid(b)
    ensures Add(Add(a, x), b) == Add(x, Add(a, b))
  {
    Extensional(Add(Add(a, x), b), Add(x, Add(a, b)));
  }

  /** The sum of coin sets does not depend on their order. */
  lemma {:induction false} SumPermutation(cs: seq<Coins>, ds: seq<Coins>)
    requires AllValid(cs) && AllValid(ds)
    requires multiset(cs) == multiset(ds)
    ensures Sum(cs) == Sum(ds)
    decreases |cs|
  {
    if cs == [] {
      assert |ds| == |multiset(ds)| == 0;
    } else {
      var x := cs[0];
      assert x in multiset(ds);
      var j :| 0 <= j < |ds| && ds[j] == x;
      var rest := ds[..j] + ds[j + 1..];
      assert ds == ds[..j] + [x] + ds[j + 1..];
      assert multiset(rest) == multiset(ds) - multiset{x};
      assert cs == [x] + cs[1..];
      assert multiset(cs[1..]) == multiset(cs) - multiset{x};
      assert AllValid(cs[1..]);
      SumRemove(ds, j);
      SumPermutation(cs[1..], rest);
      SumRemove(cs, 0);
      assert cs[..0] + cs[1..] == cs[1..];
    }
  }

  /** A valid Go `sdk.Coins` slice: positive amounts, one coin per denom. */
  predicate ValidSeq(cs: seq<Coin>) {
    (forall i :: 0 <= i < |cs| ==> cs[i].amount > 0) &&
    (forall i, j :: 0 <= i < j < |cs| ==> cs[i].denom != cs[j].denom)
  }

  /** The coin set a slice denotes. */
  function FromSeq(cs: seq<Coin>): (r: Coins)
    requires ValidSeq(cs)
    ensures Valid(r)
    ensures forall i :: 0 <= i < |cs| ==> cs[i].denom in r && r[cs[i].denom] == cs[i].amount
    ensures forall d :: d in r ==> exists i :: 0 <= i < |cs| && cs[i].denom == d
  {
    map i | 0 <= i < |cs| :: cs[i].denom := cs[i].amount
  }
}
