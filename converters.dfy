/**
 * The read-only views of a graph: `build_adjacency_matrix`, `build_edge_list`
 * and the two counts `print_stats` reports.
 */
module Converters {
  import opened Graphs

  /** `{node: i for i, node in enumerate(nodes)}`: each key's position in the key order. */
  function NodeIndices(nodes: seq<Node>): (idx: map<Node, nat>)
    requires Distinct(nodes)
    ensures forall i :: 0 <= i < |nodes| ==> nodes[i] in idx && idx[nodes[i]] == i
    ensures forall n :: n in idx ==> n in nodes
  {
    DistinctIndices(nodes);
    map i | 0 <= i < |nodes| :: nodes[i] := i
  }

  /** Cell (i, j) of the adjacency matrix: 1 when the j-th key occurs in the i-th key's list, however often. */
  function Cell(g: Graph, i: nat, j: nat): int
    requires Valid(g) && i < |g.nodes| && j < |g.nodes|
  {
    if g.nodes[j] in g.adj[g.nodes[i]] then 1 else 0
  }

  /**
   * `build_adjacency_matrix`: an n-by-n matrix of zeros, then a 1 written at
   * (row of the key, column of the target) for every list entry.
   */
  method BuildAdjacencyMatrix(g: Graph) returns (m: array2<int>)
    requires Valid(g) && Closed(g)
    ensures fresh(m)
    ensures m.Length0 == |g.nodes| && m.Length1 == |g.nodes|
    ensures forall i, j :: 0 <= i < m.Length0 && 0 <= j < m.Length1 ==> m[i, j] == Cell(g, i, j)
  {
    var nodes := g.nodes;
    var nodeIndices := NodeIndices(nodes);
    var size := |nodes|;
    m := new int[size, size]((_, _) => 0);
    var r := 0;
    while r < size
      invariant 0 <= r <= size
      invariant forall i, j :: 0 <= i < r && 0 <= j < size ==> m[i, j] == Cell(g, i, j)
      invariant forall i, j :: r <= i < size && 0 <= j < size ==> m[i, j] == 0
    {
      var node := nodes[r];
      var row := nodeIndices[node];
      MarkRow(m, row, nodes, nodeIndices, g.adj[node]);
      r := r + 1;
    }
  }

  /** The inner loop of `build_adjacency_matrix`: a 1 in `row` at the column of every entry of `targets`. */
  method MarkRow(m: array2<int>, row: nat, nodes: seq<Node>, nodeIndices: map<Node, nat>, targets: seq<Node>)
    requires row < m.Length0 && m.Length1 == |nodes| && Distinct(nodes)
    requires forall i :: 0 <= i < |nodes| ==> nodes[i] in nodeIndices && nodeIndices[nodes[i]] == i
    requires forall t :: t in targets ==> t in nodes
    requires forall j :: 0 <= j < m.Length1 ==> m[row, j] == 0
    modifies m
    ensures forall i, j :: 0 <= i < m.Length0 && i != row && 0 <= j < m.Length1 ==> m[i, j] == old(m[i, j])
    ensures forall j :: 0 <= j < m.Length1 ==> m[row, j] == if nodes[j] in targets then 1 else 0
  {
    var k := 0;
    while k < |targets|
      invariant 0 <= k <= |targets|
      invariant forall i, j :: 0 <= i < m.Length0 && i != row && 0 <= j < m.Length1 ==> m[i, j] == old(m[i, j])
      invariant forall j :: 0 <= j < m.Length1 ==> m[row, j] == if nodes[j] in targets[..k] then 1 else 0
    {
      assert targets[k] in targets;
      ghost var c :| 0 <= c < |nodes| && nodes[c] == targets[k];
      var col := nodeIndices[targets[k]];
      assert col == c;
      m[row, col] := 1;
      assert targets[..k + 1] == targets[..k] + [targets[k]];
      k := k + 1;
    }
    assert targets[..k] == targets;
  }

  /** The pairs `(n, t)` for the entries `t` of `ts`, in order. */
  function Row(n: Node, ts: seq<Node>): (r: seq<(Node, Node)>)
    ensures |r| == |ts|
  {
    if ts == [] then [] else Row(n, ts[..|ts| - 1]) + [(n, ts[|ts| - 1])]
  }

  /** The edge pairs of the keys `ns`, key by key and, within a key, in list order. */
  function EdgesOf(g: Graph, ns: seq<Node>): seq<(Node, Node)>
    requires forall n :: n in ns ==> n in g.adj
  {
    if ns == [] then [] else EdgesOf(g, ns[..|ns| - 1]) + Row(ns[|ns| - 1], g.adj[ns[|ns| - 1]])
  }

  /** The edge list of a graph: every key's pairs, in key order. */
  function Edges(g: Graph): seq<(Node, Node)>
    requires Valid(g)
  {
    EdgesOf(g, g.nodes)
  }

  /** `build_edge_list`: appends `(node, target)` for every key and every entry of its list. */
  method BuildEdgeList(g: Graph) returns (edges: seq<(Node, Node)>)
    requires Valid(g)
    ensures edges == Edges(g)
    ensures |edges| == EdgeCount(g)
    ensures forall a, b :: multiset(edges)[(a, b)] == if a in g.adj then multiset(g.adj[a])[b] else 0
  {
    edges := [];
    var r := 0;
    while r < |g.nodes|
      invariant 0 <= r <= |g.nodes|
      invariant edges == EdgesOf(g, g.nodes[..r])
    {
      var node := g.nodes[r];
      var targets := g.adj[node];
      var k := 0;
      while k < |targets|
        invariant 0 <= k <= |targets|
        invariant edges == EdgesOf(g, g.nodes[..r]) + Row(node, targets[..k])
      {
        edges := edges + [(node, targets[k])];
        assert targets[..k + 1][..k] == targets[..k];
        k := k + 1;
      }
      assert targets[..k] == targets;
      assert g.nodes[..r + 1][..r] == g.nodes[..r];
      r := r + 1;
    }
    assert g.nodes[..r] == g.nodes;
    EdgesLength(g);
    EdgeMultiplicity(g);
  }

  lemma {:induction false} EdgesOfLength(g: Graph, ns: seq<Node>)
    requires forall n :: n in ns ==> n in g.adj
    ensures |EdgesOf(g, ns)| == OutDegreeSum(g, ns)
  {
    if ns != [] {
      EdgesOfLength(g, ns[..|ns| - 1]);
    }
  }

  /** The edge list has one pair per list entry: its length is the edge count. */
  lemma EdgesLength(g: Graph)
    requires Valid(g)
    ensures |Edges(g)| == EdgeCount(g)
  {
    EdgesOfLength(g, g.nodes);
  }

  lemma {:induction false} RowMultiplicity(n: Node, ts: seq<Node>, a: Node, b: Node)
    ensures multiset(Row(n, ts))[(a, b)] == if a == n then multiset(ts)[b] else 0
  {
    if ts != [] {
      var init := ts[..|ts| - 1];
      RowMultiplicity(n, init, a, b);
      assert ts == init + [ts[|ts| - 1]];
    }
  }

  lemma {:induction false} EdgesOfMultiplicity(g: Graph, ns: seq<Node>, a: Node, b: Node)
    requires Distinct(ns)
    requires forall n :: n in ns ==> n in g.adj
    ensures multiset(EdgesOf(g, ns))[(a, b)] == if a in ns then multiset(g.adj[a])[b] else 0
  {
    if ns != [] {
      var init, last := ns[..|ns| - 1], ns[|ns| - 1];
      EdgesOfMultiplicity(g, init, a, b);
      RowMultiplicity(last, g.adj[last], a, b);
      assert a in ns <==> a in init || a == last;
    }
  }

  /**
   * Multi-edges are kept: a pair occurs in the edge list exactly as often as
   * its target occurs in its source's list, and a non-key source never occurs.
   */
  lemma EdgeMultiplicity(g: Graph)
    requires Valid(g)
    ensures forall a, b :: multiset(Edges(g))[(a, b)] == if a in g.adj then multiset(g.adj[a])[b] else 0
  {
    forall a, b
      ensures multiset(Edges(g))[(a, b)] == if a in g.adj then multiset(g.adj[a])[b] else 0
    {
      EdgesOfMultiplicity(g, g.nodes, a, b);
    }
  }

  /**
   * Multi-edges collapse in the matrix: a cell is 1 exactly when its pair
   * occurs in the edge list, however many times.
   */
  lemma CellIffEdge(g: Graph, i: nat, j: nat)
    requires Valid(g) && i < |g.nodes| && j < |g.nodes|
    ensures Cell(g, i, j) == 1 <==> (g.nodes[i], g.nodes[j]) in Edges(g)
    ensures Cell(g, i, j) == 0 <==> (g.nodes[i], g.nodes[j]) !in Edges(g)
  {
    EdgesOfMultiplicity(g, g.nodes, g.nodes[i], g.nodes[j]);
  }

  /** `print_stats`' two numbers: `len(graph)` and the sum of the list lengths. */
  function Stats(g: Graph): (r: (nat, nat))
    requires Valid(g)
    ensures r.0 == |g.nodes|
    ensures r.1 == |Edges(g)|
  {
    NodeCountIsKeyOrderLength(g);
    EdgesLength(g);
    (NodeCount(g), EdgeCount(g))
  }
}
