/** Sequences that hold the same elements in another order. */
module Shuffle {

  function Without<T>(xs: seq<T>, k: nat): seq<T>
    requires k < |xs|
  {
    xs[..k] + xs[k + 1..]
  }

  lemma WithoutInner<T>(xs: seq<T>, k: nat)
    requires k < |xs| - 1
    ensures Without(xs, k) == Without(xs[..|xs| - 1], k) + [xs[|xs| - 1]]
  {
  }

  lemma WithoutCounts<T>(xs: seq<T>, k: nat)
    requires k < |xs|
    ensures multiset(xs) == multiset(Without(xs, k)) + multiset{xs[k]}
  {
    assert xs == xs[..k] + [xs[k]] + xs[k + 1..];
  }

  lemma SameRest<T>(xs: seq<T>, k: nat, shuffled: seq<T>)
    requires k < |xs| && shuffled != [] && xs[k] == shuffled[|shuffled| - 1]
    requires multiset(xs) == multiset(shuffled)
    ensures multiset(Without(xs, k)) == multiset(shuffled[..|shuffled| - 1])
  {
    var n := |shuffled| - 1;
    WithoutCounts(xs, k);
    WithoutCounts(shuffled, n);
    assert Without(shuffled, n) == shuffled[..n];
    assert multiset(Without(xs, k)) == multiset(xs) - multiset{xs[k]};
    assert multiset(shuffled[..n]) == multiset(shuffled) - multiset{xs[k]};
  }

  /** Where the last element of a shuffled sequence sits in the original. */
  lemma HeldSomewhere<T>(xs: seq<T>, shuffled: seq<T>) returns (k: nat)
    requires shuffled != [] && multiset(xs) == multiset(shuffled)
    ensures k < |xs| && xs[k] == shuffled[|shuffled| - 1]
  {
    assert shuffled[|shuffled| - 1] in multiset(shuffled);
    k :| 0 <= k < |xs| && xs[k] == shuffled[|shuffled| - 1];
  }

  function Map<T, U>(f: T -> U, xs: seq<T>): (ys: seq<U>)
    ensures |ys| == |xs| && forall i :: 0 <= i < |xs| ==> ys[i] == f(xs[i])
  {
    seq(|xs|, i requires 0 <= i < |xs| => f(xs[i]))
  }

  lemma {:induction false} MapKeepsElements<T, U>(f: T -> U, xs: seq<T>, shuffled: seq<T>)
    requires multiset(xs) == multiset(shuffled)
    ensures multiset(Map(f, xs)) == multiset(Map(f, shuffled))
    decreases |shuffled|
  {
    if shuffled == [] {
      assert xs == [];
    } else {
      var n := |shuffled| - 1;
      var k := HeldSomewhere(xs, shuffled);
      SameRest(xs, k, shuffled);
      MapKeepsElements(f, Without(xs, k), shuffled[..n]);
      WithoutCounts(Map(f, xs), k);
      WithoutCounts(Map(f, shuffled), n);
      assert Without(Map(f, xs), k) == Map(f, Without(xs, k));
      assert Without(Map(f, shuffled), n) == Map(f, shuffled[..n]);
    }
  }
}
