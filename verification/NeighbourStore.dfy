/** The adjacency lists of the index, changed in place. */
module NeighbourStores {
  import opened Graphs

  class NeighbourStore {
    var adj: Adj

    constructor ()
      ensures adj == []
    {
      adj := [];
    }

    /** Grows the store to `newSize` nodes; each new node gets `maxLayers` empty lists. */
    method Resize(newSize: nat, maxLayers: nat)
      modifies this
      ensures newSize <= |old(adj)| ==> adj == old(adj)
      ensures newSize > |old(adj)| ==> |adj| == newSize && adj[..|old(adj)|] == old(adj)
      ensures forall i :: |old(adj)| <= i < |adj| ==> adj[i] == NoLinks(maxLayers)
    {
      if newSize <= |adj| { return; }
      var i := |adj|;
      while i < newSize
        invariant |old(adj)| <= i == |adj| <= newSize
        invariant adj[..|old(adj)|] == old(adj)
        invariant forall k :: |old(adj)| <= k < |adj| ==> adj[k] == NoLinks(maxLayers)
      {
        adj := adj + [NoLinks(maxLayers)];
        i := i + 1;
      }
    }

    /** Replaces one list; every other list is unchanged. */
    method SetNeighbours(node: nat, layer: nat, list: seq<nat>)
      requires node < |adj| && layer < |adj[node]|
      modifies this
      ensures adj == old(adj)[node := old(adj)[node][layer := list]]
    {
      adj := adj[node := adj[node][layer := list]];
    }

    /** Appends one id to one list; every other list is unchanged. */
    method AddNeighbour(node: nat, layer: nat, neighbour: nat)
      requires node < |adj| && layer < |adj[node]|
      modifies this
      ensures adj == old(adj)[node := old(adj)[node][layer := old(adj)[node][layer] + [neighbour]]]
    {
      adj := adj[node := adj[node][layer := adj[node][layer] + [neighbour]]];
    }

    function GetNeighbours(node: nat, layer: int): (r: seq<nat>)
      reads this
      ensures r == Nbrs(adj, node, layer)
    {
      Nbrs(adj, node, layer)
    }

    function LayerCount(node: nat): nat
      reads this
    {
      if node < |adj| then |adj[node]| else 0
    }
  }
}
