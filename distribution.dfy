/**
 * `distribution_page_rank`: the probability of standing on each node,
 * starting uniform and pushed along the links once per step. A node with
 * links splits its probability evenly over its list entries (an entry listed
 * twice gets two shares); a node without links spreads it evenly over all nodes.
 */
module DistributionRank {
  import opened Graphs
  import opened Sums

  /** `{node: 1 / num_nodes for node in nodes}`; no division happens when there are no nodes. */
  function Uniform(g: Graph): map<Node, real>
  {
    map n | n in g.nodes :: 1.0 / (|g.nodes| as real)
  }

  /** `{node: 0 for node in nodes}`. */
  function Zeros(g: Graph): map<Node, real>
  {
    map n | n in g.nodes :: 0.0
  }

  /** `for target in ts: m[target] += c`, one entry at a time. */
  function AddAll(m: map<Node, real>, ts: seq<Node>, c: real): (r: map<Node, real>)
    requires forall t :: t in ts ==> t in m
    ensures r.Keys == m.Keys
  {
    if ts == [] then m
    else
      var r0 := AddAll(m, ts[..|ts| - 1], c);
      r0[ts[|ts| - 1] := r0[ts[|ts| - 1]] + c]
  }

  /** `c` added up `k` times: the total that `k` list entries receive at `c` each. */
  function Times(k: nat, c: real): real
  {
    if k == 0 then 0.0 else Times(k - 1, c) + c
  }

  /** Adding `c` up `k` times is multiplying it by `k`. */
  lemma {:induction false} TimesIsProduct(k: nat, c: real)
    ensures Times(k, c) == (k as real) * c
  {
    if k > 0 {
      TimesIsProduct(k - 1, c);
      assert (k as real) * c == ((k - 1) as real) * c + c;
    }
  }

  /** Each key gains `c` once for every time it occurs in `ts`. */
  lemma {:induction false} AddAllAt(m: map<Node, real>, ts: seq<Node>, c: real, t: Node)
    requires forall x :: x in ts ==> x in m
    requires t in m
    ensures AddAll(m, ts, c)[t] == m[t] + Times(multiset(ts)[t], c)
  {
    if ts != [] {
      var init, last := ts[..|ts| - 1], ts[|ts| - 1];
      AddAllAt(m, init, c, t);
      assert ts == init + [last];
      if last == t {
        assert multiset(ts)[t] == multiset(init)[t] + 1;
      } else {
        assert multiset(ts)[t] == multiset(init)[t];
      }
    }
  }

  /** Over keys without repeats that cover `ts`, the values grow in total by `c` per entry of `ts`. */
  lemma {:induction false} AddAllSum(ns: seq<Node>, m: map<Node, real>, ts: seq<Node>, c: real)
    requires Distinct(ns)
    requires forall n :: n in ns ==> n in m
    requires forall t :: t in ts ==> t in ns
    ensures SumReal(ns, AddAll(m, ts, c)) == SumReal(ns, m) + Times(|ts|, c)
  {
    if ts != [] {
      var init, last := ts[..|ts| - 1], ts[|ts| - 1];
      AddAllSum(ns, m, init, c);
      var r0 := AddAll(m, init, c);
      SumRealUpdate(ns, r0, last, r0[last] + c);
    }
  }

  /** Handing `x` out in `k` equal parts hands out exactly `x`. */
  lemma EqualParts(k: nat, x: real)
    requires k > 0
    ensures Times(k, x / (k as real)) == x
  {
    TimesIsProduct(k, x / (k as real));
  }

  /**
   * The body of `for node, targets in graph.items()`: `n`'s probability `p[n]`,
   * split evenly over its list entries, or over all nodes when its list is empty.
   */
  function Contribute(g: Graph, p: map<Node, real>, m: map<Node, real>, n: Node): (r: map<Node, real>)
    requires Valid(g) && Closed(g)
    requires n in g.adj && n in p && m.Keys == g.adj.Keys
    ensures r.Keys == g.adj.Keys
  {
    var targets := g.adj[n];
    if targets != [] then AddAll(m, targets, p[n] / (|targets| as real))
    else AddAll(m, g.nodes, p[n] / (|g.nodes| as real))
  }

  /** `next_prob` after the inner loop has handled the first `i` keys. */
  function Accumulate(g: Graph, p: map<Node, real>, i: nat): (r: map<Node, real>)
    requires Valid(g) && Closed(g) && p.Keys == g.adj.Keys && i <= |g.nodes|
    ensures r.Keys == g.adj.Keys
  {
    if i == 0 then Zeros(g) else Contribute(g, p, Accumulate(g, p, i - 1), g.nodes[i - 1])
  }

  /** One iteration of `for _ in range(args.steps)`: `next_prob` computed from `node_prob`. */
  function Step(g: Graph, p: map<Node, real>): (r: map<Node, real>)
    requires Valid(g) && Closed(g) && p.Keys == g.adj.Keys
    ensures r.Keys == g.adj.Keys
  {
    Accumulate(g, p, |g.nodes|)
  }

  /** `node_prob` after `k` iterations. */
  function Iterate(g: Graph, k: nat): (r: map<Node, real>)
    requires Valid(g) && (k > 0 ==> Closed(g))
    ensures r.Keys == g.adj.Keys
  {
    if k == 0 then Uniform(g) else Step(g, Iterate(g, k - 1))
  }

  /** What `n` passes on to `t` in one step: one share per occurrence of `t` in `n`'s list, or a 1/N share when the list is empty. */
  function Share(g: Graph, p: map<Node, real>, n: Node, t: Node): real
    requires Valid(g) && n in g.adj && n in p
  {
    var targets := g.adj[n];
    if targets != [] then Times(multiset(targets)[t], p[n] / (|targets| as real))
    else if t in g.adj then p[n] / (|g.nodes| as real)
    else 0.0
  }

  /** The total that the keys `ns` pass on to `t` in one step. */
  function Inflow(g: Graph, p: map<Node, real>, t: Node, ns: seq<Node>): real
    requires Valid(g) && p.Keys == g.adj.Keys
    requires forall n :: n in ns ==> n in g.adj
  {
    if ns == [] then 0.0 else Inflow(g, p, t, ns[..|ns| - 1]) + Share(g, p, ns[|ns| - 1], t)
  }

  lemma {:induction false} ContributeAt(g: Graph, p: map<Node, real>, m: map<Node, real>, n: Node, t: Node)
    requires Valid(g) && Closed(g)
    requires n in g.adj && n in p && m.Keys == g.adj.Keys && t in g.adj
    ensures Contribute(g, p, m, n)[t] == m[t] + Share(g, p, n, t)
  {
    var targets := g.adj[n];
    if targets != [] {
      AddAllAt(m, targets, p[n] / (|targets| as real), t);
    } else {
      AddAllAt(m, g.nodes, p[n] / (|g.nodes| as real), t);
      DistinctMultiplicity(g.nodes, t);
    }
  }

  lemma {:induction false} AccumulateAt(g: Graph, p: map<Node, real>, i: nat, t: Node)
    requires Valid(g) && Closed(g) && p.Keys == g.adj.Keys && i <= |g.nodes| && t in g.adj
    ensures Accumulate(g, p, i)[t] == Inflow(g, p, t, g.nodes[..i])
  {
    if i > 0 {
      AccumulateAt(g, p, i - 1, t);
      ContributeAt(g, p, Accumulate(g, p, i - 1), g.nodes[i - 1], t);
      assert g.nodes[..i][..i - 1] == g.nodes[..i - 1];
    }
  }

  /**
   * The PageRank equation without damping: after a step, each node holds
   * exactly what every node passes on to it.
   */
  lemma StepIsInflow(g: Graph, p: map<Node, real>)
    requires Valid(g) && Closed(g) && p.Keys == g.adj.Keys
    ensures forall t :: t in g.adj ==> Step(g, p)[t] == Inflow(g, p, t, g.nodes)
  {
    forall t | t in g.adj
      ensures Step(g, p)[t] == Inflow(g, p, t, g.nodes)
    {
      AccumulateAt(g, p, |g.nodes|, t);
      assert g.nodes[..|g.nodes|] == g.nodes;
    }
  }

  /** A node passes on exactly its own probability in one step. */
  lemma ContributeSum(g: Graph, p: map<Node, real>, m: map<Node, real>, n: Node)
    requires Valid(g) && Closed(g)
    requires n in g.adj && n in p && m.Keys == g.adj.Keys
    ensures SumReal(g.nodes, Contribute(g, p, m, n)) == SumReal(g.nodes, m) + p[n]
  {
    var targets := g.adj[n];
    if targets != [] {
      AddAllSum(g.nodes, m, targets, p[n] / (|targets| as real));
      EqualParts(|targets|, p[n]);
    } else {
      AddAllSum(g.nodes, m, g.nodes, p[n] / (|g.nodes| as real));
      EqualParts(|g.nodes|, p[n]);
    }
  }

  lemma {:induction false} AccumulateSum(g: Graph, p: map<Node, real>, i: nat)
    requires Valid(g) && Closed(g) && p.Keys == g.adj.Keys && i <= |g.nodes|
    ensures SumReal(g.nodes, Accumulate(g, p, i)) == SumReal(g.nodes[..i], p)
  {
    if i == 0 {
      SumRealConstant(g.nodes, Zeros(g), 0.0);
    } else {
      AccumulateSum(g, p, i - 1);
      ContributeSum(g, p, Accumulate(g, p, i - 1), g.nodes[i - 1]);
      assert g.nodes[..i][..i - 1] == g.nodes[..i - 1];
    }
  }

  /** A step neither creates nor loses probability: the total is unchanged. */
  lemma StepConserves(g: Graph, p: map<Node, real>)
    requires Valid(g) && Closed(g) && p.Keys == g.adj.Keys
    ensures SumReal(g.nodes, Step(g, p)) == SumReal(g.nodes, p)
  {
    AccumulateSum(g, p, |g.nodes|);
    assert g.nodes[..|g.nodes|] == g.nodes;
  }

  lemma {:induction false} InflowNonNegative(g: Graph, p: map<Node, real>, t: Node, ns: seq<Node>)
    requires Valid(g) && p.Keys == g.adj.Keys
    requires forall n :: n in ns ==> n in g.adj
    requires forall n :: n in p ==> p[n] >= 0.0
    ensures Inflow(g, p, t, ns) >= 0.0
  {
    if ns != [] {
      InflowNonNegative(g, p, t, ns[..|ns| - 1]);
      ShareNonNegative(g, p, ns[|ns| - 1], t);
    }
  }

  lemma {:induction false} TimesNonNegative(k: nat, c: real)
    requires c >= 0.0
    ensures Times(k, c) >= 0.0
  {
    if k > 0 {
      TimesNonNegative(k - 1, c);
    }
  }

  lemma ShareNonNegative(g: Graph, p: map<Node, real>, n: Node, t: Node)
    requires Valid(g) && n in g.adj && n in p && p[n] >= 0.0
    ensures Share(g, p, n, t) >= 0.0
  {
    var targets := g.adj[n];
    if targets != [] {
      TimesNonNegative(multiset(targets)[t], p[n] / (|targets| as real));
    }
  }

  /** A step keeps every probability non-negative. */
  lemma StepNonNegative(g: Graph, p: map<Node, real>)
    requires Valid(g) && Closed(g) && p.Keys == g.adj.Keys
    requires forall n :: n in p ==> p[n] >= 0.0
    ensures forall t :: t in Step(g, p) ==> Step(g, p)[t] >= 0.0
  {
    StepIsInflow(g, p);
    forall t | t in g.adj
      ensures Step(g, p)[t] >= 0.0
    {
      InflowNonNegative(g, p, t, g.nodes);
    }
  }

  /** A step turns a rank distribution into a rank distribution. */
  lemma StepPreservesDistribution(g: Graph, p: map<Node, real>)
    requires Valid(g) && Closed(g) && IsDistribution(g, p)
    ensures IsDistribution(g, Step(g, p))
  {
    StepConserves(g, p);
    StepNonNegative(g, p);
  }

  /** The starting point gives each of the N nodes 1/N, which is a rank distribution. */
  lemma UniformIsDistribution(g: Graph)
    requires Valid(g) && g.nodes != []
    ensures IsDistribution(g, Uniform(g))
  {
    var u, c := Uniform(g), 1.0 / (|g.nodes| as real);
    assert u.Keys == g.adj.Keys;
    assert forall n :: n in u ==> u[n] == c;
    SumRealConstant(g.nodes, u, c);
    Inverse(|g.nodes|);
  }

  lemma Inverse(k: nat)
    requires k > 0
    ensures 1.0 / (k as real) > 0.0
    ensures (k as real) * (1.0 / (k as real)) == 1.0
  {
  }

  /** Every iterate of a non-empty graph is a rank distribution. */
  lemma {:induction false} IterateIsDistribution(g: Graph, k: nat)
    requires Valid(g) && (k > 0 ==> Closed(g)) && g.nodes != []
    ensures IsDistribution(g, Iterate(g, k))
  {
    if k == 0 {
      UniformIsDistribution(g);
    } else {
      IterateIsDistribution(g, k - 1);
      StepPreservesDistribution(g, Iterate(g, k - 1));
    }
  }

  /**
   * `distribution_page_rank`: start uniform, then run `steps` iterations of
   * the propagation loop. No iterations run when `steps` is not positive, and
   * the empty graph yields the empty dict.
   */
  method DistributionPageRank(g: Graph, steps: int) returns (prob: map<Node, real>)
    requires Valid(g) && (steps > 0 ==> Closed(g))
    ensures prob == Iterate(g, RangeCount(steps))
    ensures prob.Keys == g.adj.Keys
    ensures forall n :: n in prob ==> 0.0 <= prob[n] <= 1.0
    ensures g.nodes != [] ==> IsDistribution(g, prob)
    ensures g.nodes == [] ==> prob == map[]
    ensures steps <= 0 ==> forall n :: n in prob ==> prob[n] == 1.0 / (|g.nodes| as real)
    ensures steps > 0 ==> forall t :: t in prob ==> prob[t] == Inflow(g, Iterate(g, steps - 1), t, g.nodes)
  {
    var nodes := g.nodes;
    var numNodes := |nodes|;
    prob := map n | n in nodes :: 1.0 / (numNodes as real);
    var s := 0;
    while s < RangeCount(steps)
      invariant 0 <= s <= RangeCount(steps)
      invariant prob == Iterate(g, s)
    {
      prob := Propagate(g, prob);
      IterateNext(g, s);
      s := s + 1;
    }
    if nodes != [] {
      IterateIsDistribution(g, s);
      DistributionBounded(g, prob);
    }
    if steps > 0 {
      StepIsInflow(g, Iterate(g, steps - 1));
    }
  }

  lemma IterateNext(g: Graph, k: nat)
    requires Valid(g) && Closed(g)
    ensures Iterate(g, k + 1) == Step(g, Iterate(g, k))
  {
  }

  /** The body of the step loop: a zeroed `next_prob` that every key adds its contribution to. */
  method Propagate(g: Graph, prob: map<Node, real>) returns (next: map<Node, real>)
    requires Valid(g) && Closed(g) && prob.Keys == g.adj.Keys
    ensures next == Step(g, prob)
  {
    var nodes := g.nodes;
    next := map n | n in nodes :: 0.0;
    var i := 0;
    while i < |nodes|
      invariant 0 <= i <= |nodes|
      invariant next == Accumulate(g, prob, i)
    {
      next := PassOn(g, prob, next, nodes[i]);
      AccumulateNext(g, prob, i);
      i := i + 1;
    }
  }

  /** The body of `for node, targets in graph.items()`: `node`'s probability added to `next` in equal parts. */
  method PassOn(g: Graph, prob: map<Node, real>, next: map<Node, real>, node: Node) returns (r: map<Node, real>)
    requires Valid(g) && Closed(g)
    requires node in g.adj && prob.Keys == g.adj.Keys && next.Keys == g.adj.Keys
    ensures r == Contribute(g, prob, next, node)
  {
    var targets := g.adj[node];
    if targets != [] {
      var contribution := prob[node] / (|targets| as real);
      r := Spread(next, targets, contribution);
    } else {
      var contribution := prob[node] / (|g.nodes| as real);
      r := Spread(next, g.nodes, contribution);
    }
  }

  lemma AccumulateNext(g: Graph, p: map<Node, real>, i: nat)
    requires Valid(g) && Closed(g) && p.Keys == g.adj.Keys && i < |g.nodes|
    ensures Accumulate(g, p, i + 1) == Contribute(g, p, Accumulate(g, p, i), g.nodes[i])
  {
  }

  /** `for target in targets: next_prob[target] += contribution`. */
  method Spread(next: map<Node, real>, targets: seq<Node>, contribution: real) returns (r: map<Node, real>)
    requires forall t :: t in targets ==> t in next
    ensures r == AddAll(next, targets, contribution)
  {
    r := next;
    var j := 0;
    while j < |targets|
      invariant 0 <= j <= |targets|
      invariant r == AddAll(next, targets[..j], contribution)
    {
      var target := targets[j];
      r := r[target := r[target] + contribution];
      assert targets[..j + 1][..j] == targets[..j];
      j := j + 1;
    }
    assert targets[..j] == targets;
  }
}
