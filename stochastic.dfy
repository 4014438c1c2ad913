/**
 * `stochastic_page_rank`: a random walk over the keys that counts how often
 * it lands on each key, then divides every count by the total. The walk
 * follows a random list entry, or jumps to a random key from a node whose
 * list is empty. The random numbers come from the caller: `draws(0)` picks
 * the start, `draws(k)` the move of the k-th step.
 */
module StochasticRank {
  import opened Graphs
  import opened Sums
  import opened Results

  /**
   * Why the ranker raises: `random.choice([])` on an empty graph, or a
   * KeyError from `hit_count[t] += 1` when the walk lands on a target `t`
   * that is no key.
   */
  datatype RankError = NoStartNode | MissingKey(node: Node)

  /** `random.choice(xs)`, with the random number `draw` supplied by the caller. */
  function Choice(xs: seq<Node>, draw: nat): (r: Node)
    requires xs != []
    ensures r in xs
  {
    xs[draw % |xs|]
  }

  /** Every element of `xs` is chosen by some draw, so the supplied draws cover every walk. */
  lemma {:induction false} ChoiceReachesAll(xs: seq<Node>, x: Node)
    requires x in xs
    ensures exists draw: nat :: Choice(xs, draw) == x
  {
    var i :| 0 <= i < |xs| && xs[i] == x;
    assert Choice(xs, i) == x;
  }

  /** A key to start from, and a key order that lists keys: every non-empty well-formed graph has both. */
  predicate HasStart(g: Graph)
  {
    && g.nodes != []
    && (forall n :: n in g.nodes ==> n in g.adj)
  }

  /** One step of the walker from the key `current`: a random entry of its list, or a random key when the list is empty. */
  function Move(g: Graph, current: Node, draw: nat): (next: Node)
    requires HasStart(g) && current in g.adj
    ensures g.adj[current] != [] ==> next in g.adj[current]
    ensures g.adj[current] == [] ==> next in g.nodes
    ensures Closed(g) ==> next in g.adj
  {
    if g.adj[current] == [] then Choice(g.nodes, draw) else Choice(g.adj[current], draw)
  }

  /**
   * Where the walker stands after `k` steps. Once it has landed on a node
   * that is no key the source has raised; the model then keeps it there.
   */
  function Position(g: Graph, draws: nat -> nat, k: nat): (p: Node)
    requires HasStart(g)
    ensures Closed(g) ==> p in g.adj
  {
    if k == 0 then Choice(g.nodes, draws(0))
    else
      var previous := Position(g, draws, k - 1);
      if previous in g.adj then Move(g, previous, draws(k)) else previous
  }

  /** The walk lands on keys only during its first `k` steps, so `stochastic_page_rank` gets past them. */
  predicate Stays(g: Graph, draws: nat -> nat, k: nat)
    requires HasStart(g)
  {
    Position(g, draws, k) in g.adj && (k > 0 ==> Stays(g, draws, k - 1))
  }

  /** Staying on keys for `k` steps is standing on a key after each of them. */
  lemma {:induction false} StaysAt(g: Graph, draws: nat -> nat, k: nat, i: nat)
    requires HasStart(g) && Stays(g, draws, k) && i <= k
    ensures Position(g, draws, i) in g.adj
  {
    if i < k {
      StaysAt(g, draws, k - 1, i);
    }
  }

  /** Staying one step longer: the next position is a key too. */
  lemma StaysNext(g: Graph, draws: nat -> nat, k: nat)
    requires HasStart(g) && Stays(g, draws, k) && Position(g, draws, k + 1) in g.adj
    ensures Stays(g, draws, k + 1)
  {
  }

  /** In a graph whose every list entry is a key, the walk never lands elsewhere: the ranker cannot fail. */
  lemma {:induction false} ClosedStays(g: Graph, draws: nat -> nat, k: nat)
    requires HasStart(g) && Closed(g)
    ensures Stays(g, draws, k)
  {
    if k > 0 {
      ClosedStays(g, draws, k - 1);
    }
  }

  /** The nodes the walker occupies: the start, then one node for each of `k` steps. */
  function Walk(g: Graph, draws: nat -> nat, k: nat): (w: seq<Node>)
    requires HasStart(g)
    ensures |w| == k + 1
  {
    if k == 0 then [Position(g, draws, 0)] else Walk(g, draws, k - 1) + [Position(g, draws, k)]
  }

  /** The i-th node of the walk is the position after i steps. */
  lemma {:induction false} WalkPositions(g: Graph, draws: nat -> nat, k: nat)
    requires HasStart(g)
    ensures forall i :: 0 <= i <= k ==> Walk(g, draws, k)[i] == Position(g, draws, i)
  {
    if k > 0 {
      WalkPositions(g, draws, k - 1);
    }
  }

  /**
   * While the walk stays on keys, it starts at a key and each step moves to an
   * entry of the current node's list or, from an empty list, to a key.
   */
  lemma WalkSteps(g: Graph, draws: nat -> nat, k: nat)
    requires HasStart(g) && Stays(g, draws, k)
    ensures var w := Walk(g, draws, k);
      && w[0] in g.nodes
      && (forall i :: 0 <= i <= k ==> w[i] in g.adj)
      && forall i :: 0 < i <= k ==>
           if g.adj[w[i - 1]] == [] then w[i] in g.nodes else w[i] in g.adj[w[i - 1]]
  {
    WalkPositions(g, draws, k);
    forall i | 0 <= i <= k
      ensures Position(g, draws, i) in g.adj
    {
      StaysAt(g, draws, k, i);
    }
  }

  /** `{node: 0 for node in graph}`. */
  function ZeroCounts(g: Graph): (h: map<Node, int>)
    ensures h.Keys == g.adj.Keys
  {
    map n | n in g.adj :: 0
  }

  /**
   * The hit counts after `k` steps: the start key's count set to 1, then 1
   * added to the count of each key the walker lands on.
   */
  function HitCounts(g: Graph, draws: nat -> nat, k: nat): (h: map<Node, int>)
    requires HasStart(g) && Stays(g, draws, k)
    ensures h.Keys == g.adj.Keys
  {
    var h := if k == 0 then ZeroCounts(g) else HitCounts(g, draws, k - 1);
    var p := Position(g, draws, k);
    h[p := h[p] + 1]
  }

  /** A step adds one to the count of the key the walker lands on, and changes nothing else. */
  lemma {:induction false} HitCountsStep(g: Graph, draws: nat -> nat, k: nat)
    requires HasStart(g) && Stays(g, draws, k) && k > 0
    ensures var h, p := HitCounts(g, draws, k - 1), Position(g, draws, k);
      HitCounts(g, draws, k) == h[p := h[p] + 1]
  {
  }

  /** `HitCountsStep` seen from step `k`: how the counts move on to step `k + 1`. */
  lemma {:induction false} HitCountsNext(g: Graph, draws: nat -> nat, k: nat)
    requires HasStart(g) && Stays(g, draws, k + 1)
    ensures var h, p := HitCounts(g, draws, k), Position(g, draws, k + 1);
      HitCounts(g, draws, k + 1) == h[p := h[p] + 1]
  {
  }

  /** The move of step `k + 1` from the key the walker stands on after `k` steps. */
  lemma {:induction false} PositionNext(g: Graph, draws: nat -> nat, k: nat)
    requires HasStart(g) && Stays(g, draws, k)
    ensures Position(g, draws, k + 1) == Move(g, Position(g, draws, k), draws(k + 1))
  {
  }

  /** Each key's count after `k` steps is its number of occurrences in the walk. */
  predicate CountsVisits(g: Graph, draws: nat -> nat, k: nat)
    requires HasStart(g) && Stays(g, draws, k)
  {
    forall n :: n in g.adj ==> HitCounts(g, draws, k)[n] == multiset(Walk(g, draws, k))[n]
  }

  /** Each key is counted once per visit: its count is its multiplicity in the walk. */
  lemma {:induction false} HitCountsAreVisits(g: Graph, draws: nat -> nat, k: nat)
    requires HasStart(g) && Stays(g, draws, k)
    ensures CountsVisits(g, draws, k)
  {
    if k == 0 {
      VisitsStart(g, draws);
    } else {
      HitCountsAreVisits(g, draws, k - 1);
      VisitsStep(g, draws, k);
    }
  }

  /** The start key is counted once, as it occurs once in the one-node walk. */
  lemma {:induction false} VisitsStart(g: Graph, draws: nat -> nat)
    requires HasStart(g) && Stays(g, draws, 0)
    ensures CountsVisits(g, draws, 0)
  {
    assert Walk(g, draws, 0) == [Position(g, draws, 0)];
  }

  /** The count of the key a step lands on grows by one, as does its multiplicity in the walk. */
  lemma {:induction false} VisitsStep(g: Graph, draws: nat -> nat, k: nat)
    requires HasStart(g) && Stays(g, draws, k) && k > 0
    requires CountsVisits(g, draws, k - 1)
    ensures CountsVisits(g, draws, k)
  {
    HitCountsStep(g, draws, k);
    var w, p := Walk(g, draws, k - 1), Position(g, draws, k);
    assert Walk(g, draws, k) == w + [p];
    forall n | n in g.adj
      ensures HitCounts(g, draws, k)[n] == multiset(w + [p])[n]
    {
      assert multiset(w + [p])[n] == multiset(w)[n] + if n == p then 1 else 0;
    }
  }

  /** The hit counts of `k` steps total `k + 1`. */
  lemma {:induction false} HitTotal(g: Graph, draws: nat -> nat, k: nat)
    requires Valid(g) && HasStart(g) && Stays(g, draws, k)
    ensures SumInt(g.nodes, HitCounts(g, draws, k)) == k + 1
  {
    if k == 0 {
      var z, p := ZeroCounts(g), Position(g, draws, 0);
      SumIntZero(g.nodes, z);
      SumIntUpdate(g.nodes, z, p, 1);
    } else {
      HitTotal(g, draws, k - 1);
      TotalStep(g, draws, k);
    }
  }

  /** A step adds one to the total of the hit counts. */
  lemma {:induction false} TotalStep(g: Graph, draws: nat -> nat, k: nat)
    requires Valid(g) && HasStart(g) && Stays(g, draws, k) && k > 0
    requires SumInt(g.nodes, HitCounts(g, draws, k - 1)) == k
    ensures SumInt(g.nodes, HitCounts(g, draws, k)) == k + 1
  {
    var h, p := HitCounts(g, draws, k - 1), Position(g, draws, k);
    HitCountsStep(g, draws, k);
    assert p in g.nodes;
    SumIntUpdate(g.nodes, h, p, h[p] + 1);
    assert SumInt(g.nodes, HitCounts(g, draws, k)) == SumInt(g.nodes, h[p := h[p] + 1]);
  }

  /** `{node: count / total_hits for node, count in hit_count.items()}`. */
  function Normalise(hits: map<Node, int>, total: int): (d: map<Node, real>)
    requires total > 0
    ensures d.Keys == hits.Keys
  {
    map n | n in hits :: hits[n] as real / total as real
  }

  /** Non-negative counts, one per key, divided by their positive sum, form a rank distribution. */
  lemma {:induction false} NormalisedIsDistribution(g: Graph, hits: map<Node, int>, total: int)
    requires Valid(g) && hits.Keys == g.adj.Keys
    requires forall n :: n in hits ==> hits[n] >= 0
    requires total > 0 && SumInt(g.nodes, hits) == total
    ensures IsDistribution(g, Normalise(hits, total))
  {
    SumRealOfQuotients(g.nodes, hits, Normalise(hits, total), total as real);
    assert (total as real) / (total as real) == 1.0;
  }

  /**
   * The ranking after `k` steps: each key's hit count divided by the sum of
   * all hit counts, which is `k + 1`.
   */
  function Ranking(g: Graph, draws: nat -> nat, k: nat): (d: map<Node, real>)
    requires Valid(g) && HasStart(g) && Stays(g, draws, k)
    ensures d.Keys == g.adj.Keys
  {
    var hits := HitCounts(g, draws, k);
    HitTotal(g, draws, k);
    Normalise(hits, SumInt(g.nodes, hits))
  }

  /**
   * The ranking of `k` steps is a rank distribution over the graph's keys:
   * each value is between 0 and 1, and the values sum to 1.
   */
  lemma {:induction false} StochasticIsDistribution(g: Graph, draws: nat -> nat, k: nat)
    requires Valid(g) && HasStart(g) && Stays(g, draws, k)
    ensures IsDistribution(g, Ranking(g, draws, k))
    ensures forall n :: n in g.adj ==> 0.0 <= Ranking(g, draws, k)[n] <= 1.0
  {
    var hits := HitCounts(g, draws, k);
    HitTotal(g, draws, k);
    HitCountsAreVisits(g, draws, k);
    NormalisedIsDistribution(g, hits, k + 1);
    DistributionBounded(g, Ranking(g, draws, k));
  }

  /** Each key's rank is its share of the walk's `k + 1` visits. */
  lemma {:induction false} RankIsVisitShare(g: Graph, draws: nat -> nat, k: nat)
    requires Valid(g) && HasStart(g) && Stays(g, draws, k)
    ensures forall n :: n in g.adj ==>
      Ranking(g, draws, k)[n] == multiset(Walk(g, draws, k))[n] as real / (k + 1) as real
  {
    HitTotal(g, draws, k);
    HitCountsAreVisits(g, draws, k);
  }

  /** With no steps, the walk cannot fail; the start node gets 1 and every other key 0. */
  lemma {:induction false} NoStepsRanksStartOnly(g: Graph, draws: nat -> nat)
    requires Valid(g) && HasStart(g)
    ensures Stays(g, draws, 0)
    ensures var d := Ranking(g, draws, 0);
      forall n :: n in d ==> d[n] == if n == Choice(g.nodes, draws(0)) then 1.0 else 0.0
  {
    HitTotal(g, draws, 0);
  }

  /** Step `i` is the first to land on a node that is no key. */
  predicate EscapesAt(g: Graph, draws: nat -> nat, i: nat)
    requires HasStart(g)
  {
    i > 0 && Stays(g, draws, i - 1) && Position(g, draws, i) !in g.adj
  }

  /**
   * `stochastic_page_rank`: fails on an empty graph, or at the first step
   * that lands on a node that is no key; otherwise walks `max(repeats, 0)`
   * steps counting hits and normalises them by their sum.
   */
  method StochasticPageRank(g: Graph, repeats: int, draws: nat -> nat) returns (r: Result<map<Node, real>, RankError>)
    requires Valid(g)
    ensures r == Err(NoStartNode) <==> g.nodes == []
    ensures g.nodes != [] ==> (r.Ok? <==> Stays(g, draws, RangeCount(repeats)))
    ensures r.Ok? ==> g.nodes != [] && r.value == Ranking(g, draws, RangeCount(repeats))
    ensures r.Ok? ==> IsDistribution(g, r.value)
    ensures r.Err? && g.nodes != [] ==>
      exists i :: 0 < i <= RangeCount(repeats) && EscapesAt(g, draws, i) && r.error == MissingKey(Position(g, draws, i))
  {
    var nodes := g.nodes;
    if nodes == [] {
      return Err(NoStartNode);
    }
    var steps := RangeCount(repeats);
    var counted := CountHits(g, steps, draws);
    if counted.Err? {
      return Err(counted.error);
    }
    var hitCount := counted.value;
    var totalHits := SumInt(nodes, hitCount);
    HitTotal(g, draws, steps);
    r := Ok(Normalise(hitCount, totalHits));
    StochasticIsDistribution(g, draws, steps);
  }

  /** The walk of `stochastic_page_rank`: `hit_count` after the start and `steps` moves, or the KeyError of a move. */
  method CountHits(g: Graph, steps: nat, draws: nat -> nat) returns (r: Result<map<Node, int>, RankError>)
    requires HasStart(g)
    ensures r.Ok? <==> Stays(g, draws, steps)
    ensures r.Ok? ==> r.value == HitCounts(g, draws, steps)
    ensures r.Err? ==> exists i :: 0 < i <= steps && EscapesAt(g, draws, i) && r.error == MissingKey(Position(g, draws, i))
  {
    var nodes := g.nodes;
    var hitCount := ZeroCounts(g);
    var current := Choice(nodes, draws(0));
    hitCount := hitCount[current := hitCount[current] + 1];
    var k := 0;
    while k < steps
      invariant 0 <= k <= steps
      invariant Stays(g, draws, k)
      invariant current == Position(g, draws, k)
      invariant hitCount == HitCounts(g, draws, k)
    {
      PositionNext(g, draws, k);
      ghost var previous := current;
      if g.adj[current] == [] {
        current := Choice(nodes, draws(k + 1));
      } else {
        current := Choice(g.adj[current], draws(k + 1));
      }
      assert current == Move(g, previous, draws(k + 1)) == Position(g, draws, k + 1);
      if current !in hitCount {
        assert EscapesAt(g, draws, k + 1);
        NeverStaysAfter(g, draws, k + 1, steps);
        return Err(MissingKey(current));
      }
      hitCount := hitCount[current := hitCount[current] + 1];
      StaysNext(g, draws, k);
      HitCountsNext(g, draws, k);
      k := k + 1;
    }
    r := Ok(hitCount);
  }

  /** Once the walk has left the keys it has not stayed on them for any longer run. */
  lemma NeverStaysAfter(g: Graph, draws: nat -> nat, i: nat, k: nat)
    requires HasStart(g) && i <= k && Position(g, draws, i) !in g.adj
    ensures !Stays(g, draws, k)
  {
    if Stays(g, draws, k) {
      StaysAt(g, draws, k, i);
    }
  }
}
