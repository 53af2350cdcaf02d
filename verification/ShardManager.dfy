/** The coordinator's search: scattered over all shards, gathered, merged. */
module ShardManagers {
  import opened Bytes
  import opened Hits
  import opened HnswSpec
  import opened HnswTheorems
  import opened HnswIndexes
  import opened Shards
  import opened Merging

  datatype ShardSearchResult = ShardSearchResult(results: seq<Hit>, degraded: bool, shardsOk: nat, shardsErr: nat)

  /** The exception a search of the shard throws. */
  predicate Throws(healthy: bool, size: nat, topK: int) { healthy && size > 0 && topK < 0 }

  /** `hits` is what a shard contributes to the merge. */
  ghost predicate Partial(healthy: bool, dist: Metric<Vector>, s: State<Vector>, q: Vector, topK: int, ef: int, hits: seq<Hit>) {
    if healthy && !Throws(healthy, |s.vectors|, topK) then
      exists ep, cands, seen :: SearchStep(dist, s, q, topK, ef, ep, cands, seen, hits)
    else hits == []
  }

  /** How many of the shards threw. */
  function Count(thrown: seq<bool>): nat {
    if thrown == [] then 0 else Count(thrown[..|thrown| - 1]) + if thrown[|thrown| - 1] then 1 else 0
  }

  function Thrown(futures: seq<SearchOutcome>): (r: seq<bool>)
    ensures |r| == |futures| && forall i :: 0 <= i < |r| ==> r[i] == futures[i].LengthError?
  {
    seq(|futures|, i requires 0 <= i < |futures| => futures[i].LengthError?)
  }

  lemma CountNext(thrown: seq<bool>, n: nat)
    requires n < |thrown|
    ensures Count(thrown[..n + 1]) == Count(thrown[..n]) + if thrown[n] then 1 else 0
  {
    assert thrown[..n + 1][..n] == thrown[..n];
  }

  lemma NoneThrown()
    ensures Count([]) == 0
  {
  }

  class ShardManager {
    const cfg: Config
    const dist: Metric<Vector>
    const shards: seq<Shard>

    /** The shards are distinct objects, with indexes of one configuration and one metric. */
    ghost predicate Valid()
      reads shards, set s | s in shards :: s.index, set s | s in shards :: s.index.neighbours
    {
      && (forall i, j :: 0 <= i < j < |shards| ==> shards[i] != shards[j])
      && forall i :: 0 <= i < |shards| ==> shards[i].index.Valid() && shards[i].index.cfg == cfg && shards[i].index.dist == dist
    }

    ghost function States(): (r: seq<State<Vector>>)
      reads shards, set s | s in shards :: s.index, set s | s in shards :: s.index.neighbours
      ensures |r| == |shards| && forall i :: 0 <= i < |shards| ==> r[i] == shards[i].index.Value()
    {
      seq(|shards|, i requires 0 <= i < |shards|
        reads shards, set s | s in shards :: s.index, set s | s in shards :: s.index.neighbours => shards[i].index.Value())
    }

    constructor (cfg: Config, dist: Metric<Vector>, shards: seq<Shard>)
      ensures this.cfg == cfg && this.dist == dist && this.shards == shards
    {
      this.cfg, this.dist, this.shards := cfg, dist, shards;
    }

    /** The task started for one shard. */
    static method SearchShard(s: Shard, query: Vector, topK: int, ef: int) returns (o: SearchOutcome)
      requires s.index.Valid()
      ensures o.LengthError? <==> Throws(s.healthy, |s.index.vectors|, topK)
      ensures o.Found? ==> Partial(s.healthy, s.index.dist, s.index.Value(), query, topK, ef, o.hits)
    {
      hide SearchStep;
      if !s.healthy { return Found([]); }
      ghost var ep, cands, seen;
      o, ep, cands, seen := s.index.Search(query, topK, ef);
    }

    /** Starts all tasks. */
    method Scatter(query: Vector, topK: int, ef: int) returns (futures: seq<SearchOutcome>)
      requires Valid()
      ensures |futures| == |shards|
      ensures forall i :: 0 <= i < |shards| ==> var s := shards[i];
        && (futures[i].LengthError? <==> Throws(s.healthy, |s.index.vectors|, topK))
        && (futures[i].Found? ==> Partial(s.healthy, s.index.dist, s.index.Value(), query, topK, ef, futures[i].hits))
    {
      hide Partial, Throws;
      futures := [];
      for s := 0 to |shards|
        invariant |futures| == s
        invariant forall i :: 0 <= i < s ==> var s := shards[i];
          && (futures[i].LengthError? <==> Throws(s.healthy, |s.index.vectors|, topK))
          && (futures[i].Found? ==> Partial(s.healthy, s.index.dist, s.index.Value(), query, topK, ef, futures[i].hits))
      {
        var o := SearchShard(shards[s], query, topK, ef);
        futures := futures + [o];
      }
    }

    /** Waits for every task: a shard that threw is marked unhealthy and contributes nothing. */
    method Gather(futures: seq<SearchOutcome>) returns (partials: seq<seq<Hit>>, ok: nat, err: nat, degraded: bool)
      requires Valid() && |futures| == |shards|
      modifies (set s | s in shards)`healthy
      ensures Valid() && |partials| == |shards| && ok + err == |shards|
      ensures err == Count(Thrown(futures)) && (degraded <==> err > 0)
      ensures forall i :: 0 <= i < |shards| ==> partials[i] == if futures[i].Found? then futures[i].hits else []
      ensures forall i :: 0 <= i < |shards| ==> shards[i].healthy == (old(shards[i].healthy) && futures[i].Found?)
    {
      hide Count, HnswIndex.Valid;
      ghost var thrown := Thrown(futures);
      NoneThrown();
      partials, ok, err, degraded := [], 0, 0, false;
      for s := 0 to |shards|
        invariant |partials| == s && ok + err == s && err == Count(thrown[..s]) && (degraded <==> err > 0)
        invariant forall i :: 0 <= i < s ==> partials[i] == if futures[i].Found? then futures[i].hits else []
        invariant forall i :: 0 <= i < |shards| ==>
          shards[i].healthy == (old(shards[i].healthy) && (i < s ==> futures[i].Found?))
        modifies (set s | s in shards)`healthy
      {
        CountNext(thrown, s);
        match futures[s] {
          case Found(hits) =>
            partials, ok := partials + [hits], ok + 1;
          case LengthError =>
            shards[s].healthy := false;
            partials, err, degraded := partials + [[]], err + 1, true;
        }
      }
      assert thrown[..|shards|] == thrown;
    }

    /** Searches every shard and merges what comes back. An `ef` of 0 or less asks for the configured beam width. */
    method Search(query: Vector, topK: int, ef: int) returns (r: ShardSearchResult, ghost partials: seq<seq<Hit>>, ghost thrown: seq<bool>)
      requires Valid()
      modifies (set s | s in shards)`healthy
      ensures Valid() && |partials| == |thrown| == |shards|
      ensures r.shardsOk + r.shardsErr == |shards| && r.shardsErr == Count(thrown)
      ensures (r.degraded <==> r.shardsErr > 0) && (topK >= 0 ==> r.shardsErr == 0)
      ensures forall i :: 0 <= i < |shards| ==> thrown[i] == Throws(old(shards[i].healthy), |shards[i].index.vectors|, topK)
      ensures forall i :: 0 <= i < |shards| ==> shards[i].healthy == (old(shards[i].healthy) && !thrown[i])
      ensures forall i :: 0 <= i < |shards| ==>
        Partial(old(shards[i].healthy), dist, shards[i].index.Value(), query, topK, if ef > 0 then ef else cfg.efSearch, partials[i])
      ensures forall i :: 0 <= i < |shards| && !old(shards[i].healthy) ==> partials[i] == [] && !thrown[i]
      ensures if topK >= 0 then Smallest(Union(Bags(partials)), topK, r.results) else r.results == []
    {
      hide HnswIndex.Valid, Inv, SearchStep, Count, Smallest, Union;
      var efActual := if ef > 0 then ef else cfg.efSearch;
      var futures := Scatter(query, topK, efActual);
      ghost var states := States();
      forall i | 0 <= i < |shards| ensures Inv(cfg, states[i]) { IndexInv(shards[i].index); }
      var ok, err, degraded, parts;
      parts, ok, err, degraded := Gather(futures);
      partials, thrown := parts, Thrown(futures);
      if topK < 0 { NothingFound(cfg, dist, states, query, topK, efActual, partials); }
      var results := MergeResults(parts, topK);
      NoFailures(thrown);
      r := ShardSearchResult(results, degraded, ok, err);
    }
  }

  lemma IndexInv(idx: HnswIndex<Vector>)
    requires idx.Valid()
    ensures Inv(idx.cfg, idx.Value())
  {
  }

  /** With a negative `topK` no shard has anything to merge: a populated one throws. */
  lemma {:induction false} NothingFound(cfg: Config, dist: Metric<Vector>, states: seq<State<Vector>>, q: Vector, topK: int, ef: int, partials: seq<seq<Hit>>)
    requires |partials| == |states| && topK < 0
    requires forall i :: 0 <= i < |states| ==> Inv(cfg, states[i])
    requires forall i :: 0 <= i < |states| ==>
      Partial(true, dist, states[i], q, topK, ef, partials[i]) || partials[i] == []
    ensures Union(Bags(partials)) == multiset{}
  {
    var n := |states| - 1;
    if states != [] {
      NothingFound(cfg, dist, states[..n], q, topK, ef, partials[..n]);
      assert Bags(partials)[..n] == Bags(partials[..n]);
      assert partials[n] == [];
    }
  }

  /** Only a negative `topK` makes shards fail. */
  lemma {:induction false} NoFailures(thrown: seq<bool>)
    ensures Count(thrown) == 0 <==> forall i :: 0 <= i < |thrown| ==> !thrown[i]
  {
    if thrown != [] { NoFailures(thrown[..|thrown| - 1]); }
  }

  /** Every vector of every shard as a hit. */
  ghost function Everything(dist: Metric<Vector>, states: seq<State<Vector>>, q: Vector): (r: seq<multiset<Hit>>)
    ensures |r| == |states| && forall i :: 0 <= i < |states| ==> r[i] == multiset(EveryHit(dist, states[i].vectors, q))
  {
    seq(|states|, i requires 0 <= i < |states| => multiset(EveryHit(dist, states[i].vectors, q)))
  }

  /**
   * Small healthy shards and a wide enough beam: the merged answer is the brute-force top-k over the
   * vectors of all shards.
   */
  lemma SmallShardsExact(cfg: Config, dist: Metric<Vector>, states: seq<State<Vector>>, q: Vector, topK: nat, ef: int,
                         partials: seq<seq<Hit>>, out: seq<Hit>)
    requires |partials| == |states|
    requires forall i :: 0 <= i < |states| ==> Inv(cfg, states[i]) && |states[i].vectors| <= cfg.Mmax0 + 1
    requires forall i :: 0 <= i < |states| ==> (if ef < topK then topK as int else ef) >= |states[i].vectors|
    requires forall i :: 0 <= i < |states| ==> Partial(true, dist, states[i], q, topK, ef, partials[i])
    requires Smallest(Union(Bags(partials)), topK, out)
    ensures Smallest(Union(Everything(dist, states, q)), topK, out)
  {
    hide Inv, SearchStep, Smallest, TopK, Union;
    var alls := Everything(dist, states, q);
    forall i | 0 <= i < |states|
      ensures Smallest(alls[i], topK, partials[i])
    {
      var ep, cands, seen :| SearchStep(dist, states[i], q, topK, ef, ep, cands, seen, partials[i]);
      SmallExact(cfg, dist, states[i], q, topK, ef, ep, cands, seen, partials[i]);
      TopKIsSmallest(dist, states[i].vectors, q, topK, partials[i]);
    }
    MergeExact(alls, topK, partials, out);
  }
}
