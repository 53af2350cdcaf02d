/** Merging the partial results of the shards. */
module Merging {
  import opened Sorting
  import opened Hits
  import opened Graphs
  import opened HnswSpec

  /** `out` lists `k` closest hits of `all` in distance order, or all of them when there are fewer. */
  ghost predicate Smallest(all: multiset<Hit>, k: nat, out: seq<Hit>) {
    && SortedBy(ByDist, out) && multiset(out) <= all
    && |out| == (if |all| < k then |all| else k)
    && forall x, y :: x in out && y in all - multiset(out) ==> x.dist <= y.dist
  }

  /** All hits of all parts, with repetitions: node ids of different shards may coincide. */
  ghost function Union(parts: seq<multiset<Hit>>): multiset<Hit> {
    if parts == [] then multiset{} else Union(parts[..|parts| - 1]) + parts[|parts| - 1]
  }

  ghost function Bags(parts: seq<seq<Hit>>): (r: seq<multiset<Hit>>)
    ensures |r| == |parts| && forall i :: 0 <= i < |parts| ==> r[i] == multiset(parts[i])
  {
    seq(|parts|, i requires 0 <= i < |parts| => multiset(parts[i]))
  }

  /** Copies all partial results into one list. */
  method Gathered(partials: seq<seq<Hit>>) returns (all: seq<Hit>)
    ensures multiset(all) == Union(Bags(partials))
  {
    ghost var bags := Bags(partials);
    all := [];
    for s := 0 to |partials|
      invariant multiset(all) == Union(bags[..s])
    {
      assert bags[..s + 1][..s] == bags[..s];
      ghost var before := all;
      for i := 0 to |partials[s]|
        invariant all == before + partials[s][..i]
      {
        all := all + [partials[s][i]];
      }
      assert partials[s][..|partials[s]|] == partials[s];
    }
    assert bags[..|partials|] == bags;
  }

  /** Keeps the first `topK` of all partial results in distance order. */
  method MergeResults(partials: seq<seq<Hit>>, topK: int) returns (out: seq<Hit>)
    requires topK >= 0 || Union(Bags(partials)) == multiset{}
    ensures if topK >= 0 then Smallest(Union(Bags(partials)), topK, out) else out == []
  {
    hide SortedBy, Union, Smallest;
    var all := Gathered(partials);
    BagSize(all);
    if |all| == 0 {
      if topK >= 0 { NothingSmallest(topK); }
      return [];
    }
    var k := if |all| < topK then |all| else topK;
    var sorted := Sort(ByDist, multiset(all));
    out := sorted[..k];
    PrefixSmallest(sorted, topK);
  }

  lemma NothingSmallest(k: nat)
    ensures Smallest(multiset([]), k, [])
  {
  }

  lemma BagSize(s: seq<Hit>)
    ensures |multiset(s)| == |s|
  {
  }

  /** What `partial_sort` and `resize` leave. */
  lemma PrefixSmallest(sorted: seq<Hit>, k: nat)
    requires SortedBy(ByDist, sorted)
    ensures Smallest(multiset(sorted), k, sorted[..if |sorted| < k then |sorted| else k])
  {
    var n := if |sorted| < k then |sorted| else k;
    var out, rest := sorted[..n], sorted[n..];
    BagSize(sorted);
    assert sorted == out + rest;
    assert multiset(sorted) == multiset(out) + multiset(rest);
    forall x, y | x in out && y in multiset(sorted) - multiset(out) ensures x.dist <= y.dist {
      assert y in multiset(rest);
      assert y in rest;
    }
  }

  /** What the merged list means: in distance order, each hit as often as it came, and nothing left over is nearer. */
  lemma SmallestMeans(all: multiset<Hit>, k: nat, out: seq<Hit>)
    requires Smallest(all, k, out)
    ensures |out| == if |all| < k then |all| else k
    ensures forall i, j :: 0 <= i < j < |out| ==> out[i].dist <= out[j].dist
    ensures forall h :: multiset(out)[h] <= all[h]
    ensures forall h, i :: all[h] > multiset(out)[h] && 0 <= i < |out| ==> out[i].dist <= h.dist
  {
    forall i, j | 0 <= i < j < |out| ensures out[i].dist <= out[j].dist { assert ByDist(out[i], out[j]); }
    forall h, i | all[h] > multiset(out)[h] && 0 <= i < |out| ensures out[i].dist <= h.dist {
      assert h in all - multiset(out) && out[i] in out;
    }
  }

  // ---- the merge of exact partial results is exact ------------------------------------------

  /** Every part of `ps` is an exact top-k of the part of `alls` beside it. */
  ghost predicate PartsExact(alls: seq<multiset<Hit>>, k: nat, ps: seq<seq<Hit>>) {
    |alls| == |ps| && forall s :: 0 <= s < |ps| ==> Smallest(alls[s], k, ps[s])
  }

  lemma {:induction false} UnionMono(ms: seq<multiset<Hit>>, ns: seq<multiset<Hit>>)
    requires |ms| == |ns| && forall s :: 0 <= s < |ms| ==> ms[s] <= ns[s]
    ensures Union(ms) <= Union(ns)
    ensures forall s :: 0 <= s < |ms| ==> ms[s] <= Union(ms)
  {
    if ms != [] {
      var n := |ms| - 1;
      UnionMono(ms[..n], ns[..n]);
    }
  }

  /** A hit that got lost before the merge was dropped by its own shard. */
  lemma {:induction false} DroppedSomewhere(alls: seq<multiset<Hit>>, ms: seq<multiset<Hit>>, y: Hit) returns (s: nat)
    requires |ms| == |alls| && (forall s :: 0 <= s < |ms| ==> ms[s] <= alls[s]) && y in Union(alls) - Union(ms)
    ensures s < |ms| && y in alls[s] - ms[s]
  {
    var n := |ms| - 1;
    assert ms != [];
    if y in alls[n] - ms[n] {
      s := n;
    } else {
      s := DroppedSomewhere(alls[..n], ms[..n], y);
    }
  }

  /** A shard that dropped a hit delivered `k` hits, none farther than the dropped one. */
  lemma FullPart(all: multiset<Hit>, k: nat, p: seq<Hit>, y: Hit)
    requires Smallest(all, k, p) && y in all - multiset(p)
    ensures |p| == k && forall z :: z in p ==> z.dist <= y.dist
  {
    assert |multiset(p)| == |p|;
    assert all == multiset(p) + (all - multiset(p));
  }

  /** If every partial result is its shard's exact top-k, so is the merged list for all shards together. */
  lemma MergeExact(alls: seq<multiset<Hit>>, k: nat, ps: seq<seq<Hit>>, out: seq<Hit>)
    requires PartsExact(alls, k, ps) && Smallest(Union(Bags(ps)), k, out)
    ensures Smallest(Union(alls), k, out)
  {
    hide SortedBy;
    var ms := Bags(ps);
    var whole, kept := Union(alls), Union(ms);
    UnionMono(ms, alls);
    MergedSize(alls, k, ps);
    forall x, y | x in out && y in whole - multiset(out)
      ensures x.dist <= y.dist
    {
      if y !in kept - multiset(out) {
        var s := DroppedSomewhere(alls, ms, y);
        FullPart(alls[s], k, ps[s], y);
        NoRoom(kept, ps[s], out, k, x, y);
      }
    }
  }

  /** The other shards' hits cannot push out a hit that is closer than `k` others. */
  lemma NoRoom(kept: multiset<Hit>, p: seq<Hit>, out: seq<Hit>, k: nat, x: Hit, y: Hit)
    requires multiset(p) <= kept && Smallest(kept, k, out) && |p| == k && x in out
    requires forall z :: z in p ==> z.dist <= y.dist
    ensures x.dist <= y.dist
  {
    hide SortedBy;
    var more, had := multiset(p) + multiset{x}, multiset(out);
    assert |had| == |out| && |multiset(p)| == |p|;
    var z := Excess(more, had);
    if multiset(p)[z] > had[z] {
      assert z in p && z in kept - had;
    } else {
      assert z == x && x in multiset(p);
    }
  }

  lemma Excess(a: multiset<Hit>, b: multiset<Hit>) returns (z: Hit)
    requires |a| > |b|
    ensures a[z] > b[z]
  {
    if forall z :: a[z] <= b[z] { SubBag(a, b); }
    z :| a[z] > b[z];
  }

  lemma SubBag(a: multiset<Hit>, b: multiset<Hit>)
    requires a <= b
    ensures |a| <= |b|
  {
    assert b == a + (b - a);
  }

  lemma Rest(a: multiset<Hit>, b: multiset<Hit>) returns (y: Hit)
    requires a <= b && a != b
    ensures y in b - a
  {
    assert b == a + (b - a);
    y :| y in b - a;
  }

  lemma MergedSize(alls: seq<multiset<Hit>>, k: nat, ps: seq<seq<Hit>>)
    requires PartsExact(alls, k, ps)
    ensures var whole, kept := |Union(alls)|, |Union(Bags(ps))|; kept <= whole && (kept < k ==> kept == whole)
  {
    hide SortedBy, Union;
    var ms := Bags(ps);
    UnionMono(ms, alls);
    SubBag(Union(ms), Union(alls));
    if Union(ms) != Union(alls) {
      var y := Rest(Union(ms), Union(alls));
      var s := DroppedSomewhere(alls, ms, y);
      FullPart(alls[s], k, ps[s], y);
      SubBag(ms[s], Union(ms));
      assert |ms[s]| == |ps[s]|;
    }
  }

  // ---- from one shard's search to the brute-force list ---------------------------------------

  /** Every vector of a shard as a hit. */
  ghost function EveryHit<V>(dist: Metric<V>, vs: seq<V>, q: V): (r: seq<Hit>)
    ensures |r| == |vs| && forall i :: 0 <= i < |vs| ==> r[i] == At(dist, vs, q, i)
  {
    seq(|vs|, i requires 0 <= i < |vs| => At(dist, vs, q, i))
  }

  /** An exact search result of a shard is a shortest list of all its vectors. */
  lemma TopKIsSmallest<V>(dist: Metric<V>, vs: seq<V>, q: V, k: nat, out: seq<Hit>)
    requires TopK(dist, vs, q, Below(|vs|), k, out)
    ensures Smallest(multiset(EveryHit(dist, vs, q)), k, out)
  {
    hide SortedBy;
    var every := EveryHit(dist, vs, q);
    OnceEach(every);
    OnceEach(out);
    assert |multiset(every)| == |every|;
    forall h | h in multiset(out) ensures multiset(out)[h] <= multiset(every)[h] {
      assert h in out && h.id < |vs| && every[h.id] == h;
      assert h in every;
    }
    forall x, y | x in out && y in multiset(every) - multiset(out) ensures x.dist <= y.dist {
      assert y in every && y !in out;
      var i :| 0 <= i < |vs| && every[i] == y;
      assert i in Below(|vs|);
    }
  }

  /** Hits with distinct ids are listed once each. */
  lemma {:induction false} OnceEach(s: seq<Hit>)
    requires DistinctIds(s)
    ensures forall h :: multiset(s)[h] == if h in s then 1 else 0
  {
    if s != [] {
      var n := |s| - 1;
      OnceEach(s[..n]);
      assert s == s[..n] + [s[n]];
      assert s[n] !in s[..n];
    }
  }
}
