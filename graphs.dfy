/**
 * The graph as page_rank.py holds it: a dict from a node token to the ordered
 * list of the tokens it links to.
 */
module Graphs {

  /** A node identifier: one whitespace-free token of the input file. */
  type Node = string

  /**
   * A dict from node to target list, split into its key order and its contents.
   * `nodes` is the insertion order of the keys, which is the order in which
   * `keys()`, `items()` and `values()` visit them; `adj` maps each key to its list.
   */
  datatype Graph = Graph(nodes: seq<Node>, adj: map<Node, seq<Node>>)

  /** No element occurs twice: each one is absent from the elements before it. */
  predicate Distinct(s: seq<Node>)
  {
    s == [] || (Distinct(s[..|s| - 1]) && s[|s| - 1] !in s[..|s| - 1])
  }

  /** In a sequence without repeats, different positions hold different elements. */
  lemma {:induction false} DistinctIndices(s: seq<Node>)
    requires Distinct(s)
    ensures forall i, j :: 0 <= i < j < |s| ==> s[i] != s[j]
  {
    if s != [] {
      var init := s[..|s| - 1];
      DistinctIndices(init);
      assert forall i :: 0 <= i < |init| ==> s[i] == init[i] && init[i] in init;
    }
  }

  /** In a sequence without repeats, each of its elements occurs exactly once. */
  lemma {:induction false} DistinctMultiplicity(s: seq<Node>, x: Node)
    requires Distinct(s) && x in s
    ensures multiset(s)[x] == 1
  {
    var init, last := s[..|s| - 1], s[|s| - 1];
    assert s == init + [last];
    if x != last {
      DistinctMultiplicity(init, x);
    }
  }

  /** A dict's keys are unique, and its key order lists exactly its keys. */
  predicate Valid(g: Graph)
  {
    && Distinct(g.nodes)
    && (forall n :: n in g.nodes ==> n in g.adj)
    && (forall n :: n in g.adj ==> n in g.nodes)
  }

  /**
   * Every list entry is itself a key. Looking up a target
   * (`node_indices[t]`, `hit_count[t]`, `next_prob[t]`) raises KeyError otherwise.
   */
  predicate Closed(g: Graph)
  {
    forall n :: n in g.adj ==> forall t :: t in g.adj[n] ==> t in g.adj
  }

  /** The dict `{}`. */
  function EmptyGraph(): Graph
  {
    Graph([], map[])
  }

  /** The number of iterations of `for _ in range(n)`: none when `n` is not positive. */
  function RangeCount(n: int): nat
  {
    if n < 0 then 0 else n
  }

  /** The set of elements of a sequence. */
  function Elements(s: seq<Node>): set<Node>
  {
    set n | n in s
  }

  lemma {:induction false} DistinctCardinality(s: seq<Node>)
    requires Distinct(s)
    ensures |Elements(s)| == |s|
  {
    if s != [] {
      var init := s[..|s| - 1];
      DistinctCardinality(init);
      assert Elements(s) == Elements(init) + {s[|s| - 1]};
      assert s[|s| - 1] !in Elements(init);
    }
  }

  /** `len(graph)`: the number of keys. */
  function NodeCount(g: Graph): nat
  {
    |g.adj|
  }

  /** `len(graph)` equals `len(list(graph.keys()))`, the node count the rankers use. */
  lemma NodeCountIsKeyOrderLength(g: Graph)
    requires Valid(g)
    ensures NodeCount(g) == |g.nodes|
  {
    assert g.adj.Keys == Elements(g.nodes);
    DistinctCardinality(g.nodes);
  }

  /** The sum of the list lengths of the keys `ns`, in order. */
  function OutDegreeSum(g: Graph, ns: seq<Node>): nat
    requires forall n :: n in ns ==> n in g.adj
  {
    if ns == [] then 0 else OutDegreeSum(g, ns[..|ns| - 1]) + |g.adj[ns[|ns| - 1]]|
  }

  /** `sum(len(targets) for targets in graph.values())`: edges counted with multiplicity. */
  function EdgeCount(g: Graph): nat
    requires Valid(g)
  {
    OutDegreeSum(g, g.nodes)
  }
}
