/** Search hits and the orders the index sorts and heaps them by. */
module Hits {
  import opened Sorting

  /** A distance kernel. Every result about the index holds for every such function. */
  type Metric<!V> = (V, V) -> real

  datatype Hit = Hit(dist: real, id: nat)

  /** The comparison of `HNSWSearchResult`: distance only, so ties are unordered. */
  predicate ByDist(a: Hit, b: Hit) { a.dist <= b.dist }

  /** The comparison of `std::pair<float, uint32_t>`: distance, then node id. */
  predicate ByDistThenId(a: Hit, b: Hit) { a.dist < b.dist || (a.dist == b.dist && a.id <= b.id) }

  /** The order of the max-heap of results: furthest first. */
  predicate Furthest(a: Hit, b: Hit) { b.dist <= a.dist }

  lemma LinkOrder()
    ensures TotalPreorder(ByDistThenId)
  {
  }

  /** No two entries name the same node. */
  ghost predicate DistinctIds(s: seq<Hit>) {
    forall i, j :: 0 <= i < j < |s| ==> s[i].id != s[j].id
  }

  function Ids(s: seq<Hit>): (r: seq<nat>)
    ensures |r| == |s| && forall i :: 0 <= i < |s| ==> r[i] == s[i].id
  {
    seq(|s|, i requires 0 <= i < |s| => s[i].id)
  }

  /** Listing a heap without repeated entries lists every entry once. */
  lemma ListedOnce(s: seq<Hit>, m: multiset<Hit>)
    requires multiset(s) == m && forall h :: m[h] <= 1
    ensures |s| == |m|
    ensures forall h :: h in s <==> h in m
    ensures forall i, j :: 0 <= i < j < |s| ==> s[i] != s[j]
  {
    assert |multiset(s)| == |s|;
    assert forall h :: h in s <==> h in multiset(s);
    forall i, j | 0 <= i < j < |s|
      ensures s[i] != s[j]
    {
      assert s == s[..j] + [s[j]] + s[j + 1..];
      assert multiset(s)[s[j]] == multiset(s[..j])[s[j]] + 1 + multiset(s[j + 1..])[s[j]];
      assert s[j] !in multiset(s[..j]);
      assert s[i] == s[..j][i];
    }
  }
}
