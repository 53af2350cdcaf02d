/** The consistent-hash ring: which shard owns a point, and what adding a shard changes. */
module Rings {
  import opened Bytes
  import opened Options
  import opened Fnv
  import opened Sorting

  /** A virtual node: its position, and the shard that owns the arc ending there. */
  datatype VNode = VNode(hash: nat, shard: nat)

  predicate ByHash(a: VNode, b: VNode) { a.hash <= b.hash }

  ghost predicate Sorted(ring: seq<VNode>) {
    forall i, j :: 0 <= i < j < |ring| ==> ring[i].hash <= ring[j].hash
  }

  /** A usable ring: some positions, in order. */
  ghost predicate RingOk(ring: seq<VNode>) {
    ring != [] && Sorted(ring) && forall n :: n in ring ==> n.hash < SPACE
  }

  /** The index of the first node at or after `h`. */
  function LowerBound(ring: seq<VNode>, h: nat): (r: nat)
    ensures r <= |ring|
  {
    if ring == [] || ring[0].hash >= h then 0 else 1 + LowerBound(ring[1..], h)
  }

  /** The node that owns the point `h`: past the last node the ring starts over. */
  function OwnerNode(ring: seq<VNode>, h: nat): VNode
    requires ring != []
  {
    var i := LowerBound(ring, h);
    ring[if i == |ring| then 0 else i]
  }

  function Owner(ring: seq<VNode>, h: nat): nat
    requires ring != []
  {
    OwnerNode(ring, h).shard
  }

  // ---- the circle --------------------------------------------------------------------

  /** How far clockwise from `h` the position `p` lies. */
  function Ahead(h: nat, p: nat): int { if p >= h then p - h else p + SPACE - h }

  /** `n` is a closest node clockwise from `h`. */
  ghost predicate Next(nodes: seq<VNode>, h: nat, n: VNode) {
    n in nodes && forall x :: x in nodes ==> Ahead(h, n.hash) <= Ahead(h, x.hash)
  }

  lemma {:induction false} LowerBoundSplits(ring: seq<VNode>, h: nat)
    requires Sorted(ring)
    ensures var i := LowerBound(ring, h);
      && (forall k :: 0 <= k < i ==> ring[k].hash < h)
      && (forall k :: i <= k < |ring| ==> ring[k].hash >= h)
  {
    if ring != [] && ring[0].hash < h {
      LowerBoundSplits(ring[1..], h);
      assert forall k :: 0 < k < |ring| ==> ring[k] == ring[1..][k - 1];
    }
  }

  lemma LowerBoundIs(ring: seq<VNode>, h: nat, i: nat)
    requires Sorted(ring) && i <= |ring|
    requires forall k :: 0 <= k < i ==> ring[k].hash < h
    requires forall k :: i <= k < |ring| ==> ring[k].hash >= h
    ensures LowerBound(ring, h) == i
  {
    LowerBoundSplits(ring, h);
    var j := LowerBound(ring, h);
    assert (j < |ring| ==> ring[j].hash >= h) && (i < |ring| ==> ring[i].hash >= h);
  }

  /** The owner is the first node clockwise, wrap-around included. */
  lemma OwnerIsNext(ring: seq<VNode>, h: nat)
    requires RingOk(ring) && h < SPACE
    ensures Next(ring, h, OwnerNode(ring, h))
  {
    LowerBoundSplits(ring, h);
    var i := LowerBound(ring, h);
    var n := OwnerNode(ring, h);
    forall x | x in ring ensures Ahead(h, n.hash) <= Ahead(h, x.hash) {
      var k :| 0 <= k < |ring| && ring[k] == x;
    }
  }

  /** Two shards never share a position. */
  ghost predicate OwnersApart(nodes: seq<VNode>) {
    forall x, y :: x in nodes && y in nodes && x.hash == y.hash ==> x.shard == y.shard
  }

  /** So there is one owner only: any first node clockwise names it. */
  lemma OneOwner(ring: seq<VNode>, h: nat, n: VNode)
    requires RingOk(ring) && h < SPACE && OwnersApart(ring) && Next(ring, h, n)
    ensures n.shard == Owner(ring, h)
  {
    OwnerIsNext(ring, h);
  }

  // ---- adding a shard ------------------------------------------------------------------

  /** The nodes `added` belong to `shard`, those of the ring do not. */
  ghost predicate Additions(ring: seq<VNode>, added: seq<VNode>, shard: nat) {
    && RingOk(ring)
    && (forall n :: n in added ==> n.shard == shard && n.hash < SPACE)
    && (forall n :: n in ring ==> n.shard != shard)
  }

  /** `ring'` is a ring over the nodes of `ring` and the nodes `added`, equal positions in any order. */
  ghost predicate Arranged(ring: seq<VNode>, added: seq<VNode>, ring': seq<VNode>) {
    Sorted(ring') && multiset(ring') == multiset(ring) + multiset(added)
  }

  lemma ArrangedOk(ring: seq<VNode>, added: seq<VNode>, shard: nat, ring': seq<VNode>)
    requires Additions(ring, added, shard) && Arranged(ring, added, ring')
    ensures RingOk(ring') && forall n :: n in ring' <==> n in ring || n in added
  {
    assert forall n :: n in ring' <==> n in multiset(ring');
    assert forall n :: n in multiset(ring) <==> n in ring;
    assert forall n :: n in multiset(added) <==> n in added;
    assert ring[0] in ring;
  }

  /** The point keeps its owner or goes to the new shard. */
  ghost predicate KeepsOrMoves(ring: seq<VNode>, ring': seq<VNode>, shard: nat, h: nat)
    requires ring != [] && ring' != []
  {
    h < SPACE ==> Owner(ring', h) == Owner(ring, h) || Owner(ring', h) == shard
  }

  /** `s` loses the point `h` to the new shard. */
  ghost predicate LosesPoint(ring: seq<VNode>, ring': seq<VNode>, shard: nat, s: nat, h: nat)
    requires ring != [] && ring' != []
  {
    h < SPACE && Owner(ring, h) == s && Owner(ring', h) == shard
  }

  ghost predicate Loses(ring: seq<VNode>, ring': seq<VNode>, shard: nat, s: nat)
    requires ring != [] && ring' != []
  {
    exists h :: LosesPoint(ring, ring', shard, s, h)
  }

  /** No node of the ring is at the position `p`. */
  ghost predicate Free(ring: seq<VNode>, p: nat) { forall n :: n in ring ==> n.hash != p }

  /** Some new node that `s` owns the position of has that position for itself. */
  ghost predicate HasFreeSpot(ring: seq<VNode>, added: seq<VNode>, s: nat)
    requires ring != []
  {
    exists k :: k in added && Owner(ring, k.hash) == s && Free(ring, k.hash)
  }

  lemma PointKeepsOrMoves(ring: seq<VNode>, added: seq<VNode>, shard: nat, ring': seq<VNode>, h: nat)
    requires Additions(ring, added, shard) && Arranged(ring, added, ring') && OwnersApart(ring)
    ensures ring' != [] && KeepsOrMoves(ring, ring', shard, h)
  {
    ArrangedOk(ring, added, shard, ring');
    if h < SPACE {
      OwnerIsNext(ring', h);
      var n := OwnerNode(ring', h);
      if n in ring { OneOwner(ring, h, n); }
    }
  }

  /** The owner of a point owns all positions between the point and its own. */
  lemma OwnerBetween(ring: seq<VNode>, h: nat, p: nat)
    requires RingOk(ring) && h < SPACE && p < SPACE && Ahead(h, p) <= Ahead(h, OwnerNode(ring, h).hash)
    ensures OwnerNode(ring, p) == OwnerNode(ring, h)
  {
    LowerBoundSplits(ring, h);
    var i, n := LowerBound(ring, h), OwnerNode(ring, h);
    assert n in ring;
    LowerBoundIs(ring, p, if i == |ring| && p < h then 0 else i);
  }

  /** Whatever a shard loses, it loses at the position of a new node. */
  lemma LostAtNewNode(ring: seq<VNode>, added: seq<VNode>, shard: nat, ring': seq<VNode>, s: nat, h: nat)
    requires Additions(ring, added, shard) && Arranged(ring, added, ring')
    requires ring' != [] && LosesPoint(ring, ring', shard, s, h)
    ensures var m := OwnerNode(ring', h); m in added && LosesPoint(ring, ring', shard, s, m.hash)
  {
    hide OwnerNode;
    ArrangedOk(ring, added, shard, ring');
    var n, m := OwnerNode(ring, h), OwnerNode(ring', h);
    OwnerIsNext(ring, h);
    OwnerIsNext(ring', h);
    assert n in ring' && m in added;
    OwnerBetween(ring', h, m.hash);
    OwnerBetween(ring, h, m.hash);
  }

  /** A new node at a position of its own takes that position, whatever the order of ties. */
  lemma FreeSpotTaken(ring: seq<VNode>, added: seq<VNode>, shard: nat, ring': seq<VNode>, k: VNode)
    requires Additions(ring, added, shard) && Arranged(ring, added, ring') && k in added && Free(ring, k.hash)
    ensures ring' != [] && LosesPoint(ring, ring', shard, Owner(ring, k.hash), k.hash)
  {
    ArrangedOk(ring, added, shard, ring');
    OwnerIsNext(ring', k.hash);
    assert k in ring' && Ahead(k.hash, k.hash) == 0;
  }

  // ---- the orders of ties that matter ----------------------------------------------------

  /** Puts `n` behind the nodes at its position. */
  function InsertLast(ring: seq<VNode>, n: VNode): seq<VNode> {
    if ring == [] || ring[0].hash > n.hash then [n] + ring else [ring[0]] + InsertLast(ring[1..], n)
  }

  /** Puts `n` in front of the nodes at its position. */
  function InsertFirst(ring: seq<VNode>, n: VNode): seq<VNode> {
    if ring == [] || ring[0].hash >= n.hash then [n] + ring else [ring[0]] + InsertFirst(ring[1..], n)
  }

  /** At every position the nodes of `shard` come last. */
  ghost predicate Behind(ring: seq<VNode>, shard: nat) {
    forall i, j :: 0 <= i < j < |ring| && ring[i].hash == ring[j].hash && ring[i].shard == shard ==> ring[j].shard == shard
  }

  lemma {:induction false} InsertLastOk(ring: seq<VNode>, n: VNode)
    requires Sorted(ring) && Behind(ring, n.shard)
    ensures var r := InsertLast(ring, n); Sorted(r) && Behind(r, n.shard) && multiset(r) == multiset(ring) + multiset{n}
  {
    if ring != [] && ring[0].hash <= n.hash {
      InsertLastOk(ring[1..], n);
      Prepended(ring, n, InsertLast(ring[1..], n));
    } else {
      assert forall j :: 0 <= j < |ring| ==> ring[j].hash > n.hash;
    }
  }

  lemma {:induction false} InsertFirstOk(ring: seq<VNode>, n: VNode)
    requires Sorted(ring)
    ensures var r := InsertFirst(ring, n); Sorted(r) && multiset(r) == multiset(ring) + multiset{n}
  {
    if ring != [] && ring[0].hash < n.hash {
      InsertFirstOk(ring[1..], n);
      Prepended(ring, n, InsertFirst(ring[1..], n));
    }
  }

  /** Putting the first node back in front after inserting `n` behind it. */
  lemma Prepended(ring: seq<VNode>, n: VNode, rest: seq<VNode>)
    requires ring != [] && Sorted(ring) && Sorted(rest) && ring[0].hash <= n.hash
    requires multiset(rest) == multiset(ring[1..]) + multiset{n}
    ensures Sorted([ring[0]] + rest) && multiset([ring[0]] + rest) == multiset(ring) + multiset{n}
    ensures Behind(ring, n.shard) && Behind(rest, n.shard) ==> Behind([ring[0]] + rest, n.shard)
  {
    assert ring == [ring[0]] + ring[1..];
    forall j | 0 <= j < |rest|
      ensures ring[0].hash <= rest[j].hash
      ensures Behind(ring, n.shard) && rest[j].hash == ring[0].hash && ring[0].shard == n.shard ==> rest[j].shard == n.shard
    {
      assert rest[j] in multiset(rest);
      assert rest[j] == n || rest[j] in ring[1..];
    }
  }

  lemma {:induction false} InsertedFirst(ring: seq<VNode>, n: VNode)
    ensures var r := InsertFirst(ring, n); var i := LowerBound(r, n.hash); i < |r| && r[i] == n
  {
    if ring != [] && ring[0].hash < n.hash {
      InsertedFirst(ring[1..], n);
      assert InsertFirst(ring, n)[1..] == InsertFirst(ring[1..], n);
    }
  }

  /** The arrangement that puts every new node behind the old ones at its position. */
  function OldFirst(ring: seq<VNode>, added: seq<VNode>): seq<VNode> {
    if added == [] then ring else InsertLast(OldFirst(ring, added[..|added| - 1]), added[|added| - 1])
  }

  lemma {:induction false} OldFirstOk(ring: seq<VNode>, added: seq<VNode>, shard: nat)
    requires Sorted(ring) && (forall n :: n in ring ==> n.shard != shard) && forall n :: n in added ==> n.shard == shard
    ensures Arranged(ring, added, OldFirst(ring, added)) && Behind(OldFirst(ring, added), shard)
  {
    hide InsertLast, Behind;
    if added == [] { NoneBehind(ring, shard); }
    if added != [] {
      var before, last := added[..|added| - 1], added[|added| - 1];
      OldFirstOk(ring, before, shard);
      InsertLastOk(OldFirst(ring, before), last);
      assert added == before + [last];
    }
  }

  lemma NoneBehind(ring: seq<VNode>, shard: nat)
    requires forall n :: n in ring ==> n.shard != shard
    ensures Behind(ring, shard)
  {
  }

  /** There, a shard loses a point only at a free position. */
  lemma OldFirstKeeps(ring: seq<VNode>, added: seq<VNode>, shard: nat, ring': seq<VNode>, s: nat, h: nat)
    requires Additions(ring, added, shard) && Arranged(ring, added, ring') && Behind(ring', shard)
    requires ring' != [] && LosesPoint(ring, ring', shard, s, h)
    ensures HasFreeSpot(ring, added, s)
  {
    ArrangedOk(ring, added, shard, ring');
    LostAtNewNode(ring, added, shard, ring', s, h);
    var m := OwnerNode(ring', h);
    OwnerIsNext(ring', h);
    OwnerBetween(ring', h, m.hash);
    LowerBoundSplits(ring', m.hash);
    var i := LowerBound(ring', m.hash);
    assert m in ring' && ring'[i] == m;
    assert forall j :: i < j < |ring'| && ring'[j].hash == m.hash ==> ring'[j].shard == shard;
    forall n | n in ring ensures n.hash != m.hash {
      assert n in ring';
      var j :| 0 <= j < |ring'| && ring'[j] == n;
    }
  }

  /** The losers in every order of ties are the shards that own a free position of a new node. */
  lemma LosersExactly(ring: seq<VNode>, added: seq<VNode>, shard: nat, s: nat)
    requires Additions(ring, added, shard)
    ensures (forall ring' :: Arranged(ring, added, ring') && ring' != [] ==> Loses(ring, ring', shard, s))
      <==> HasFreeSpot(ring, added, s)
  {
    hide Owner, OwnerNode, LosesPoint, Free;
    if HasFreeSpot(ring, added, s) {
      var k :| k in added && Owner(ring, k.hash) == s && Free(ring, k.hash);
      forall ring' | Arranged(ring, added, ring') && ring' != []
        ensures Loses(ring, ring', shard, s)
      {
        FreeSpotTaken(ring, added, shard, ring', k);
      }
    } else {
      var ring' := OldFirst(ring, added);
      OldFirstOk(ring, added, shard);
      ArrangedOk(ring, added, shard, ring');
      if h :| LosesPoint(ring, ring', shard, s, h) {
        OldFirstKeeps(ring, added, shard, ring', s, h);
      }
    }
  }

  /** `s` owns the position of some new node. */
  ghost predicate Listed(ring: seq<VNode>, added: seq<VNode>, s: nat)
    requires ring != []
  {
    exists m :: m in added && Owner(ring, m.hash) == s
  }

  /** Every owner of a new position owns one that is free. */
  ghost predicate OwnersHaveSpots(ring: seq<VNode>, added: seq<VNode>)
    requires ring != []
  {
    forall s :: Listed(ring, added, s) ==> HasFreeSpot(ring, added, s)
  }

  ghost predicate ListExact(ring: seq<VNode>, added: seq<VNode>, shard: nat, ring': seq<VNode>)
    requires ring != [] && ring' != []
  {
    forall s :: Listed(ring, added, s) <==> Loses(ring, ring', shard, s)
  }

  /** The owners of the new positions are exactly the losers in every order of ties, if and only if each owns a free one. */
  lemma AffectedExactly(ring: seq<VNode>, added: seq<VNode>, shard: nat)
    requires Additions(ring, added, shard)
    ensures (forall ring' :: Arranged(ring, added, ring') && ring' != [] ==> ListExact(ring, added, shard, ring'))
      <==> OwnersHaveSpots(ring, added)
  {
    hide Owner, OwnerNode, Free, HasFreeSpot, Loses, Listed;
    forall s { LosersExactly(ring, added, shard, s); }
    forall ring', s | Arranged(ring, added, ring') && ring' != [] && Loses(ring, ring', shard, s)
      ensures Listed(ring, added, s)
    {
      LoserListed(ring, added, shard, ring', s);
    }
    if !OwnersHaveSpots(ring, added) {
      var s :| Listed(ring, added, s) && !HasFreeSpot(ring, added, s);
      var ring' :| Arranged(ring, added, ring') && ring' != [] && !Loses(ring, ring', shard, s);
      assert !ListExact(ring, added, shard, ring');
    }
  }

  lemma LoserListed(ring: seq<VNode>, added: seq<VNode>, shard: nat, ring': seq<VNode>, s: nat)
    requires Additions(ring, added, shard) && Arranged(ring, added, ring') && ring' != [] && Loses(ring, ring', shard, s)
    ensures Listed(ring, added, s)
  {
    hide OwnerNode;
    var h :| LosesPoint(ring, ring', shard, s, h);
    LostAtNewNode(ring, added, shard, ring', s, h);
  }

  /** Any node of the ring can own its position in some order of ties. */
  lemma CanBeFirst(ring: seq<VNode>, added: seq<VNode>, shard: nat, n: VNode) returns (ring': seq<VNode>)
    requires Additions(ring, added, shard) && n in ring
    ensures Arranged(ring, added, ring') && ring' != [] && OwnerNode(ring', n.hash) == n
  {
    hide OldFirst, InsertFirst, Behind;
    var rest := Without(ring, n);
    OldFirstOk(rest, added, shard);
    ring' := InsertFirst(OldFirst(rest, added), n);
    InsertFirstOk(OldFirst(rest, added), n);
    InsertedFirst(OldFirst(rest, added), n);
  }

  lemma Without(ring: seq<VNode>, n: VNode) returns (rest: seq<VNode>)
    requires Sorted(ring) && n in ring
    ensures Sorted(rest) && multiset(ring) == multiset(rest) + multiset{n} && forall x :: x in rest ==> x in ring
  {
    var j :| 0 <= j < |ring| && ring[j] == n;
    rest := ring[..j] + ring[j + 1..];
    assert ring == ring[..j] + [n] + ring[j + 1..];
  }

  /** No point moves between old shards in any order of ties, if and only if no two old shards share a position. */
  lemma MovementExactly(ring: seq<VNode>, added: seq<VNode>, shard: nat)
    requires Additions(ring, added, shard)
    ensures (forall ring', h :: Arranged(ring, added, ring') && ring' != [] ==> KeepsOrMoves(ring, ring', shard, h))
      <==> OwnersApart(ring)
  {
    hide OwnerNode;
    if OwnersApart(ring) {
      forall ring', h: nat | Arranged(ring, added, ring') && ring' != []
        ensures KeepsOrMoves(ring, ring', shard, h)
      {
        PointKeepsOrMoves(ring, added, shard, ring', h);
      }
    } else {
      var x, y :| x in ring && y in ring && x.hash == y.hash && x.shard != y.shard;
      var n := if Owner(ring, x.hash) == x.shard then y else x;
      var ring' := CanBeFirst(ring, added, shard, n);
      assert !KeepsOrMoves(ring, ring', shard, n.hash);
    }
  }

  // ---- the ring of the source ------------------------------------------------------------

  /** The virtual nodes of one shard, and of all shards, in the order they are generated. */
  function NodesOf(shard: nat, count: nat): (r: seq<VNode>)
    ensures |r| == count && forall v :: 0 <= v < count ==> r[v] == VNode(VNodePosition(shard, v), shard)
  {
    seq(count, v requires 0 <= v < count => VNode(VNodePosition(shard, v), shard))
  }

  function AllNodes(shards: nat, count: nat): seq<VNode> {
    if shards == 0 then [] else AllNodes(shards - 1, count) + NodesOf(shards - 1, count)
  }

  lemma {:induction false} NodesInSpace(shards: nat, count: nat)
    ensures forall n :: n in AllNodes(shards, count) ==> n.hash < SPACE && n.shard < shards
    ensures shards > 0 && count > 0 ==> AllNodes(shards, count) != []
  {
    if shards > 0 { NodesInSpace(shards - 1, count); }
  }

  /** They are `count` nodes for each shard below `shards`: every position of every such shard, and nothing else. */
  lemma {:induction false} NodesExactly(shards: nat, count: nat, n: VNode)
    ensures |AllNodes(shards, count)| == SlotAt(count, shards)
    ensures n in AllNodes(shards, count) <==> n.shard < shards && exists v :: 0 <= v < count && n.hash == VNodePosition(n.shard, v)
  {
    hide VNodePosition, SlotAt;
    if shards == 0 {
      NoSlots(count);
    } else {
      NodesExactly(shards - 1, count, n);
      SlotStep(count, shards - 1);
      var last := NodesOf(shards - 1, count);
      assert AllNodes(shards, count) == AllNodes(shards - 1, count) + last;
      if n.shard == shards - 1 && exists v :: 0 <= v < count && n.hash == VNodePosition(n.shard, v) {
        var v :| 0 <= v < count && n.hash == VNodePosition(n.shard, v);
        assert last[v] == n;
      }
      if n in last {
        var v :| 0 <= v < count && last[v] == n;
        assert n.hash == VNodePosition(n.shard, v);
      }
    }
  }

  /** A ring over all virtual nodes of `shards` shards, equal positions in any order. */
  ghost predicate RingOf(ring: seq<VNode>, shards: nat, count: nat) {
    ring != [] && Sorted(ring) && multiset(ring) == multiset(AllNodes(shards, count))
  }

  lemma RingOfOk(ring: seq<VNode>, shards: nat, count: nat)
    requires RingOf(ring, shards, count)
    ensures RingOk(ring) && forall n :: n in ring <==> n in AllNodes(shards, count)
  {
    NodesInSpace(shards, count);
    assert forall n :: n in ring <==> n in multiset(ring);
    assert forall n :: n in AllNodes(shards, count) <==> n in multiset(AllNodes(shards, count));
  }

  /** The rings of one shard more are the arrangements of the ring with the new shard's nodes. */
  lemma OneShardMore(ring: seq<VNode>, shards: nat, count: nat)
    requires RingOf(ring, shards, count)
    ensures Additions(ring, NodesOf(shards, count), shards)
    ensures forall ring' :: Arranged(ring, NodesOf(shards, count), ring') && ring' != [] <==> RingOf(ring', shards + 1, count)
  {
    hide NodesOf;
    RingOfOk(ring, shards, count);
    NodesInSpace(shards, count);
    OneShard(shards, count);
    assert AllNodes(shards + 1, count) == AllNodes(shards, count) + NodesOf(shards, count);
  }

  lemma OneShard(shard: nat, count: nat)
    ensures forall n :: n in NodesOf(shard, count) ==> n.shard == shard && n.hash < SPACE
  {
  }

  /** Going from `ring` to `ring'` every point keeps its owner or moves to the new shard, and `affected` names exactly the losers. */
  ghost predicate MinimalMove(ring: seq<VNode>, ring': seq<VNode>, shard: nat, affected: seq<nat>)
    requires ring != [] && ring' != []
  {
    && (forall h :: KeepsOrMoves(ring, ring', shard, h))
    && forall s :: s in affected <==> Loses(ring, ring', shard, s)
  }

  /**
   * Adding a shard to the source's ring: for every order of ties every point keeps its owner or moves
   * to the new shard and the list `affected_shards_on_add` returned names exactly the shards that
   * lose a point, if and only if no two shards share a position now and each listed shard owns a
   * position of the new shard that is free.
   */
  lemma AddingAShard(ring: seq<VNode>, shards: nat, count: nat, affected: seq<nat>)
    requires RingOf(ring, shards, count)
    requires forall s :: s in affected <==> Listed(ring, NodesOf(shards, count), s)
    ensures (forall ring' :: RingOf(ring', shards + 1, count) ==> MinimalMove(ring, ring', shards, affected))
      <==> OwnersApart(ring) && OwnersHaveSpots(ring, NodesOf(shards, count))
  {
    hide Listed, Loses, KeepsOrMoves, Arranged, OwnersApart, OwnersHaveSpots, NodesOf, Additions;
    var added := NodesOf(shards, count);
    OneShardMore(ring, shards, count);
    MovementExactly(ring, added, shards);
    AffectedExactly(ring, added, shards);
    forall ring' | RingOf(ring', shards + 1, count)
      ensures MinimalMove(ring, ring', shards, affected) <==>
        ListExact(ring, added, shards, ring') && forall h :: KeepsOrMoves(ring, ring', shards, h)
    {
    }
  }

  /** The nodes of a small ring are all apart. */
  lemma {:induction false} SmallNodes(shards: nat, count: nat)
    requires shards <= 256 && count <= 256
    ensures forall x :: x in AllNodes(shards, count) ==> exists v :: 0 <= v < count && x.hash == VNodePosition(x.shard, v) && x.shard < shards
  {
    if shards > 0 { SmallNodes(shards - 1, count); }
  }

  lemma SmallApart(shards: nat, count: nat)
    requires shards <= 256 && count <= 256
    ensures OwnersApart(AllNodes(shards, count))
  {
    hide VNodePosition;
    SmallNodes(shards, count);
    forall x, y | x in AllNodes(shards, count) && y in AllNodes(shards, count) && x.hash == y.hash
      ensures x.shard == y.shard
    {
      var v :| 0 <= v < count && x.hash == VNodePosition(x.shard, v) && x.shard < shards;
      var w :| 0 <= w < count && y.hash == VNodePosition(y.shard, w) && y.shard < shards;
      SmallRingNeverCollides(x.shard, v, y.shard, w);
    }
  }

  /** On up to 255 shards with up to 256 virtual nodes each, the default of 150 included, that is always so. */
  lemma AddingAShardToSmallRing(ring: seq<VNode>, ring': seq<VNode>, shards: nat, count: nat, affected: seq<nat>)
    requires shards <= 255 && count <= 256 && RingOf(ring, shards, count) && RingOf(ring', shards + 1, count)
    requires forall s :: s in affected <==> Listed(ring, NodesOf(shards, count), s)
    ensures MinimalMove(ring, ring', shards, affected)
  {
    hide Owner, Loses, KeepsOrMoves, MinimalMove, Additions, Sorted;
    SmallRingApart(ring, shards, count);
    AddingAShard(ring, shards, count, affected);
  }

  lemma SmallRingApart(ring: seq<VNode>, shards: nat, count: nat)
    requires shards <= 255 && count <= 256 && RingOf(ring, shards, count)
    ensures OwnersApart(ring) && OwnersHaveSpots(ring, NodesOf(shards, count))
  {
    hide Owner, NodesOf, VNodePosition;
    var all, added := AllNodes(shards + 1, count), NodesOf(shards, count);
    SmallApart(shards + 1, count);
    RingOfOk(ring, shards, count);
    NodesInSpace(shards, count);
    OneShard(shards, count);
    assert all == AllNodes(shards, count) + added;
    assert forall k :: k in added ==> k in all && Free(ring, k.hash);
  }

  class Ring {
    const shardCount: nat
    const virtualNodes: nat
    const nodes: seq<VNode>

    ghost predicate Valid() {
      && 0 < shardCount < 0x1_0000_0000 && 0 < virtualNodes < 0x1_0000_0000 && RingOf(nodes, shardCount, virtualNodes)
    }

    constructor (shardCount: nat, virtualNodes: nat, nodes: seq<VNode>)
      ensures this.shardCount == shardCount && this.virtualNodes == virtualNodes && this.nodes == nodes
    {
      this.shardCount, this.virtualNodes, this.nodes := shardCount, virtualNodes, nodes;
    }

    /** Places every virtual node and sorts them; refuses an empty ring. */
    static method Create(shardCount: nat, virtualNodes: nat) returns (r: Option<Ring>)
      requires shardCount < 0x1_0000_0000 && virtualNodes < 0x1_0000_0000
      ensures r.None? <==> shardCount == 0 || virtualNodes == 0
      ensures r.Some? ==> fresh(r.value) && r.value.Valid() && r.value.shardCount == shardCount && r.value.virtualNodes == virtualNodes
    {
      if shardCount == 0 { return None; }
      if virtualNodes == 0 { return None; }
      var unsorted: seq<VNode> := [];
      for s := 0 to shardCount
        invariant unsorted == AllNodes(s, virtualNodes)
      {
        ghost var before := unsorted;
        for v := 0 to virtualNodes
          invariant unsorted == before + NodesOf(s, v)
        {
          var position := HashKey(VNodeKey(s, v));
          unsorted := unsorted + [VNode(position, s)];
        }
      }
      var sorted := Sort(ByHash, multiset(unsorted));
      NodesInSpace(shardCount, virtualNodes);
      assert |multiset(unsorted)| == |unsorted|;
      assert forall i, j :: 0 <= i < j < |sorted| ==> ByHash(sorted[i], sorted[j]);
      var ring := new Ring(shardCount, virtualNodes, sorted);
      r := Some(ring);
    }

    /** `std::lower_bound`. */
    method Search(h: nat) returns (lo: nat)
      requires Sorted(nodes)
      ensures lo == LowerBound(nodes, h)
    {
      var hi := |nodes|;
      lo := 0;
      while lo < hi
        invariant lo <= hi <= |nodes|
        invariant forall k :: 0 <= k < lo ==> nodes[k].hash < h
        invariant forall k :: hi <= k < |nodes| ==> nodes[k].hash >= h
      {
        var mid := (lo + hi) / 2;
        if nodes[mid].hash < h { lo := mid + 1; } else { hi := mid; }
      }
      LowerBoundIs(nodes, h, lo);
    }

    method OwnerOf(h: nat) returns (shard: nat)
      requires Valid() && h < SPACE
      ensures shard == Owner(nodes, h) && shard < shardCount
    {
      var i := Search(h);
      if i == |nodes| { i := 0; }
      shard := nodes[i].shard;
      assert nodes[i] in multiset(nodes);
      NodesInSpace(shardCount, virtualNodes);
    }

    /** The shard of a vector id. */
    method GetShard(id: nat) returns (shard: nat)
      requires Valid() && id < SPACE
      ensures shard == Owner(nodes, Hash(LE(id, 8))) && shard < shardCount
    {
      var h := HashKey(LE(id, 8));
      shard := OwnerOf(h);
    }

    /** The shard of a string key. */
    method GetShardOfKey(key: seq<Byte>) returns (shard: nat)
      requires Valid()
      ensures shard == Owner(nodes, Hash(key)) && shard < shardCount
    {
      var h := HashKey(key);
      shard := OwnerOf(h);
    }

    /** The owners of the positions one more shard would take, each listed once. */
    method AffectedShardsOnAdd() returns (affected: seq<nat>)
      requires Valid()
      ensures forall i, j :: 0 <= i < j < |affected| ==> affected[i] != affected[j]
      ensures forall s :: s in affected <==> Listed(nodes, NodesOf(shardCount, virtualNodes), s)
    {
      ghost var added := NodesOf(shardCount, virtualNodes);
      affected := [];
      for v := 0 to virtualNodes
        invariant forall i, j :: 0 <= i < j < |affected| ==> affected[i] != affected[j]
        invariant forall s :: s in affected <==> exists m :: m in added[..v] && Owner(nodes, m.hash) == s
      {
        var position := HashKey(VNodeKey(shardCount, v));
        var owner := OwnerOf(position);
        assert added[..v + 1] == added[..v] + [VNode(position, shardCount)];
        var found := false;
        for i := 0 to |affected|
          invariant found <==> owner in affected[..i]
        {
          if affected[i] == owner { found := true; break; }
        }
        if !found { affected := affected + [owner]; }
      }
      assert added[..virtualNodes] == added;
    }
  }
}
