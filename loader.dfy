/**
 * `load_graph`: building the dict from the lines of the input file, one
 * `source target` pair per line. Reading the file and splitting each line
 * into tokens happen before this model; it starts from the token lists.
 */
module Loader {
  import opened Graphs
  import opened Results

  /** One input line after `line.strip().split()`. */
  type Line = seq<string>

  /** Unpacking `node, target = ...` raises ValueError unless a line has exactly two tokens. */
  datatype LoadError = MalformedLine(index: nat, tokenCount: nat)

  predicate WellFormed(lines: seq<Line>)
  {
    forall i :: 0 <= i < |lines| ==> |lines[i]| == 2
  }

  /**
   * The loop body: create an empty list for a source not yet a key (it becomes
   * the last key), then append the target to the source's list.
   */
  function AddEdge(g: Graph, source: Node, target: Node): Graph
  {
    var g' := if source in g.adj then g else Graph(g.nodes + [source], g.adj[source := []]);
    Graph(g'.nodes, g'.adj[source := g'.adj[source] + [target]])
  }

  /**
   * One loop step keeps the dict well formed: the source becomes the last key
   * if it was none, its list grows by the target, and no other list changes.
   */
  lemma AddEdgeEffect(g: Graph, source: Node, target: Node)
    requires Valid(g)
    ensures var r := AddEdge(g, source, target);
      && Valid(r)
      && r.adj.Keys == g.adj.Keys + {source}
      && r.nodes == (if source in g.adj then g.nodes else g.nodes + [source])
      && r.adj[source] == (if source in g.adj then g.adj[source] else []) + [target]
      && forall n :: n in g.adj && n != source ==> r.adj[n] == g.adj[n]
  {
  }

  /** What `load_graph` returns for `lines`, or the error its first malformed line raises. */
  function Load(lines: seq<Line>): Result<Graph, LoadError>
  {
    if lines == [] then Ok(EmptyGraph())
    else
      match Load(lines[..|lines| - 1])
      case Err(e) => Err(e)
      case Ok(g) =>
        var line := lines[|lines| - 1];
        if |line| != 2 then Err(MalformedLine(|lines| - 1, |line|))
        else Ok(AddEdge(g, line[0], line[1]))
  }

  /** A loaded graph is a well-formed dict. */
  lemma {:induction false} LoadValid(lines: seq<Line>)
    ensures Load(lines).Ok? ==> Valid(Load(lines).value)
  {
    if lines != [] {
      var init := lines[..|lines| - 1];
      LoadValid(init);
      if Load(init).Ok? && |lines[|lines| - 1]| == 2 {
        AddEdgeEffect(Load(init).value, lines[|lines| - 1][0], lines[|lines| - 1][1]);
      }
    }
  }

  /** `load_graph`'s loop, growing the key order and the lists in place. */
  method LoadGraph(lines: seq<Line>) returns (r: Result<Graph, LoadError>)
    ensures r == Load(lines)
  {
    var nodes: seq<Node> := [];
    var adj: map<Node, seq<Node>> := map[];
    var i := 0;
    while i < |lines|
      invariant 0 <= i <= |lines|
      invariant Load(lines[..i]) == Ok(Graph(nodes, adj))
    {
      var line := lines[i];
      assert lines[..i + 1][..i] == lines[..i];
      if |line| != 2 {
        LoadKeepsFirstError(lines, i + 1);
        return Err(MalformedLine(i, |line|));
      }
      var node, target := line[0], line[1];
      if node !in adj {
        nodes := nodes + [node];
        adj := adj[node := []];
      }
      adj := adj[node := adj[node] + [target]];
      i := i + 1;
    }
    assert lines[..i] == lines;
    r := Ok(Graph(nodes, adj));
  }

  /** Once a prefix fails, the whole input fails with the same error. */
  lemma {:induction false} LoadKeepsFirstError(lines: seq<Line>, k: nat)
    requires k <= |lines| && Load(lines[..k]).Err?
    ensures Load(lines) == Load(lines[..k])
  {
    if k < |lines| {
      var init := lines[..|lines| - 1];
      assert init[..k] == lines[..k];
      LoadKeepsFirstError(init, k);
    } else {
      assert lines[..k] == lines;
    }
  }

  /**
   * Loading fails exactly when some line does not have two tokens, and then
   * it reports the first such line and its token count.
   */
  lemma {:induction false} LoadFailsIffMalformed(lines: seq<Line>)
    ensures Load(lines).Err? <==> !WellFormed(lines)
    ensures Load(lines).Err? ==>
      var e := Load(lines).error;
      && e.index < |lines|
      && e.tokenCount == |lines[e.index]| != 2
      && forall i :: 0 <= i < e.index ==> |lines[i]| == 2
  {
    if lines != [] {
      var init := lines[..|lines| - 1];
      LoadFailsIffMalformed(init);
      assert forall i :: 0 <= i < |init| ==> init[i] == lines[i];
    }
  }

  /** The source token of each line, in file order. */
  function Sources(lines: seq<Line>): seq<Node>
    requires WellFormed(lines)
  {
    if lines == [] then [] else Sources(lines[..|lines| - 1]) + [lines[|lines| - 1][0]]
  }

  /** The targets of the lines whose source is `n`, in file order, duplicates kept. */
  function TargetsOf(lines: seq<Line>, n: Node): seq<Node>
    requires WellFormed(lines)
  {
    if lines == [] then []
    else
      var last := lines[|lines| - 1];
      TargetsOf(lines[..|lines| - 1], n) + if last[0] == n then [last[1]] else []
  }

  /**
   * The keys of a loaded graph are the source tokens and nothing else (a token
   * seen only as a target is no key); each key's list holds that source's
   * targets in file order with duplicates, so no list is empty.
   */
  lemma {:induction false} LoadKeysAndLists(lines: seq<Line>)
    requires WellFormed(lines)
    ensures Load(lines).Ok?
    ensures forall n :: n in Load(lines).value.adj <==> n in Sources(lines)
    ensures forall n :: n in Load(lines).value.adj ==>
      Load(lines).value.adj[n] == TargetsOf(lines, n) && Load(lines).value.adj[n] != []
    ensures forall n :: n !in Load(lines).value.adj ==> TargetsOf(lines, n) == []
  {
    if lines != [] {
      var init := lines[..|lines| - 1];
      LoadKeysAndLists(init);
      LoadValid(init);
      var g0, line := Load(init).value, lines[|lines| - 1];
      AddEdgeEffect(g0, line[0], line[1]);
      assert Load(lines) == Ok(AddEdge(g0, line[0], line[1]));
      forall n
        ensures n in Load(lines).value.adj ==> Load(lines).value.adj[n] == TargetsOf(lines, n) != []
        ensures n !in Load(lines).value.adj ==> TargetsOf(lines, n) == []
      {
        assert TargetsOf(lines, n) == TargetsOf(init, n) + if line[0] == n then [line[1]] else [];
      }
    }
  }

  /** The position of the first occurrence of `x` in `s`. */
  function FirstIndex(s: seq<Node>, x: Node): (r: nat)
    requires x in s
    ensures r < |s| && s[r] == x
    ensures forall j :: 0 <= j < r ==> s[j] != x
  {
    if s[0] == x then 0 else 1 + FirstIndex(s[1..], x)
  }

  /** Appending to a sequence does not move the first occurrence of an element already in it. */
  lemma FirstIndexAppend(s: seq<Node>, y: Node, x: Node)
    requires x in s
    ensures FirstIndex(s + [y], x) == FirstIndex(s, x)
  {
    var b := FirstIndex(s, x);
    assert (s + [y])[b] == x;
  }

  /** The keys of a loaded graph are ordered by the first line that names them as a source. */
  lemma {:induction false} LoadKeyOrder(lines: seq<Line>)
    requires WellFormed(lines)
    ensures Load(lines).Ok?
    ensures var g := Load(lines).value;
      && (forall i :: 0 <= i < |g.nodes| ==> g.nodes[i] in Sources(lines))
      && forall i, j :: 0 <= i < j < |g.nodes| ==>
           FirstIndex(Sources(lines), g.nodes[i]) < FirstIndex(Sources(lines), g.nodes[j])
  {
    if lines != [] {
      var init, line := lines[..|lines| - 1], lines[|lines| - 1];
      LoadKeyOrder(init);
      var g0 := Load(init).value;
      var g := AddEdge(g0, line[0], line[1]);
      assert Load(lines) == Ok(g);
      var s0, s := Sources(init), Sources(lines);
      assert s == s0 + [line[0]];
      forall i | 0 <= i < |g0.nodes|
        ensures g0.nodes[i] in s && FirstIndex(s, g0.nodes[i]) == FirstIndex(s0, g0.nodes[i])
      {
        FirstIndexAppend(s0, line[0], g0.nodes[i]);
      }
      if line[0] in g0.adj {
        assert g.nodes == g0.nodes;
      } else {
        LoadKeysAndLists(init);
        assert FirstIndex(s, line[0]) == |s0|;
        assert g.nodes == g0.nodes + [line[0]];
      }
    }
  }

  /** Adding one edge adds one to the list lengths of the keys `ns` when the source is among them. */
  lemma {:induction false} OutDegreeSumAfterAdd(g: Graph, source: Node, target: Node, ns: seq<Node>)
    requires Valid(g) && Distinct(ns)
    requires forall n :: n in ns ==> n in g.adj
    ensures OutDegreeSum(AddEdge(g, source, target), ns) == OutDegreeSum(g, ns) + if source in ns then 1 else 0
  {
    if ns != [] {
      OutDegreeSumAfterAdd(g, source, target, ns[..|ns| - 1]);
    }
  }

  /** Every line adds one edge: a loaded graph has as many edges as the input has lines. */
  lemma {:induction false} LoadEdgeCount(lines: seq<Line>)
    requires WellFormed(lines)
    ensures Load(lines).Ok? && Valid(Load(lines).value) && EdgeCount(Load(lines).value) == |lines|
  {
    LoadFailsIffMalformed(lines);
    LoadValid(lines);
    if lines != [] {
      var init := lines[..|lines| - 1];
      LoadEdgeCount(init);
      LoadFailsIffMalformed(init);
      var g0 := Load(init).value;
      var line := lines[|lines| - 1];
      var g := AddEdge(g0, line[0], line[1]);
      OutDegreeSumAfterAdd(g0, line[0], line[1], g0.nodes);
      if line[0] !in g0.adj {
        assert g.nodes[..|g.nodes| - 1] == g0.nodes;
      }
    }
  }

  /**
   * Loading alone does not make every target a key: a single line `A B` loads
   * to a graph whose target `B` is none, which the matrix builder and every
   * distribution step look up and fail on.
   */
  lemma OneLineIsNotClosed()
    ensures Load([["A", "B"]]) == Ok(Graph(["A"], map["A" := ["B"]]))
    ensures !Closed(Load([["A", "B"]]).value)
  {
    var lines: seq<Line> := [["A", "B"]];
    assert lines[..0] == [];
    assert Load(lines[..0]) == Ok(EmptyGraph());
    assert Load(lines) == Ok(AddEdge(EmptyGraph(), "A", "B"));
    var none: seq<Node> := [];
    assert none + ["A"] == ["A"] && none + ["B"] == ["B"];
    var g := Load(lines).value;
    assert g.adj == map["A" := ["B"]];
    assert "B" in g.adj["A"] && "B" !in g.adj;
    assert "B" in g.adj["A"];
  }
}
