# PageRank over a link graph

This project models the core of `page_rank.py`, a small PageRank estimator.
The program loads a directed link graph from a file of `source target` lines
and can show the graph as an adjacency matrix, as an edge list, or as node and
edge counts. It ranks the nodes in one of two ways:

- a Monte-Carlo random walk that counts how often each node is visited;
- an undamped power iteration that pushes probability along the links.

The model is split into these modules:

- `Graphs` (`graphs.dfy`): the graph is a Python dict from a node token to the ordered list of its link targets. It is modelled as its key order (`nodes`) plus its contents (`adj`). `Valid` says the keys are unique and that `nodes` lists exactly the keys. `Closed` says every list entry is itself a key. It also holds the node and edge counts of `print_stats`.
- `Loader` (`loader.dfy`): `load_graph`'s accumulation loop, as a fold over already-tokenised lines (`Load`) and as a method with the loop (`LoadGraph`). A line without exactly two tokens gives `MalformedLine`.
- `Converters` (`converters.dfy`): `build_adjacency_matrix`, which fills a `array2<int>` in place, and `build_edge_list`, which appends to a sequence. Each is proved against a specification function (`Cell`, `Edges`).
- `StochasticRank` (`stochastic.dfy`): `stochastic_page_rank`. The random choices are passed in as an oracle `draws: nat -> nat`. `random.choice(xs)` becomes `xs[draws(k) % |xs|]`, with `draws(0)` choosing the start and `draws(k)` the move of step `k`. `Position`, `Walk` and `HitCounts` are the walk as functions. `CountHits` and `StochasticPageRank` are the loop. Both of the source's failures are modelled as errors:
  - an empty graph (`random.choice([])`) gives `NoStartNode`;
  - landing on a target that is no key gives `MissingKey`, as `hit_count[current_node] += 1` (line 76) raises `KeyError`. Line 70 never raises, because the walker stands on a key whenever it gets there.
- `DistributionRank` (`distribution.dfy`): `distribution_page_rank`, with exact `real` probabilities. `Step` is one iteration, built as `Accumulate` over the keys, and `Iterate` is `k` iterations. The loops are `DistributionPageRank`, `Propagate`, `PassOn` and `Spread`. The step is also characterised as a sum of shares (`Inflow`), the PageRank equation without damping.
- `Sums` (`sums.dfy`) and `Results` (`results.dfy`): sums over the key order, the rank-distribution predicate, and a result type.

How the code behaves on edge inputs, which the model follows:

- **Targets that are not keys.** A list entry that is not itself a key raises `KeyError` when it is looked up: at line 34 (`node_indices[target]`), line 76 (`hit_count[current_node]`) and line 97 (`next_prob[target]`). The model makes `Closed` a precondition of the matrix builder, and of the distribution ranker when it runs at least one step. These are exactly the inputs on which those functions do not raise. The stochastic ranker returns `MissingKey` instead. So `{A: [B, B]}` makes line 34 raise (`B` is no key), while `build_edge_list` returns `[(A,B), (A,B)]`.
- **Negative step counts.** A negative `repeats` or `steps` acts as 0, because `range` of it is empty (`RangeCount`).
- **Empty graph.** `stochastic_page_rank` fails on an empty graph, at `random.choice([])` (line 63). `distribution_page_rank` returns `{}` for any step count without dividing, so its values sum to 1 only for non-empty graphs.

## Model

| member | source | states |
|---|---|---|
| Graphs.NodeCountIsKeyOrderLength | page_rank.py:50 | `len(graph)` equals the length of the key order, the node count the rankers divide by |
| Loader.AddEdgeEffect | page_rank.py:16-18 | one loop step keeps the dict well formed: an unseen source becomes the last key, the source's list grows by the target, and no other list changes |
| Loader.LoadValid | page_rank.py:11-19 | a successfully loaded graph has unique keys and a key order listing exactly its keys |
| Loader.LoadGraph | page_rank.py:8-19 | the loop that grows the key order and the lists in place returns exactly the fold `Load`, including the error of the first malformed line |
| Loader.LoadKeepsFirstError | page_rank.py:13-14 | once a line fails to unpack, the load fails with that line's error whatever follows |
| Loader.LoadFailsIffMalformed | page_rank.py:14 | loading fails if and only if some line does not have exactly two tokens; the error names the first such line and its token count |
| Loader.LoadKeysAndLists | page_rank.py:13-18 | the keys are exactly the source tokens (a target-only token is no key); each key's list is its targets in file order with duplicates, so no list is empty |
| Loader.LoadKeyOrder | page_rank.py:16-17 | the key order is the order of first appearance as a source |
| Loader.LoadEdgeCount | page_rank.py:13-18 | a loaded graph has exactly one edge per input line |
| Loader.OneLineIsNotClosed | page_rank.py:16-18 | the input `A B` loads to `{A: [B]}`, whose target `B` is no key: loading does not establish `Closed` |
| Converters.NodeIndices | page_rank.py:26 | each key maps to its position in the key order, and only keys are mapped |
| Converters.BuildAdjacencyMatrix | page_rank.py:21-36 | the result is an n-by-n matrix, n the number of keys, whose cell (i, j) is 1 when the j-th key occurs in the i-th key's list and 0 otherwise |
| Converters.MarkRow | page_rank.py:33-35 | the inner loop sets exactly the columns of the row's targets to 1 and leaves every other row unchanged |
| Converters.BuildEdgeList | page_rank.py:38-45 | the list is the pairs in key order then list order; its length is the edge count, and each pair occurs as often as its target occurs in its source's list |
| Converters.EdgesLength | page_rank.py:52 | the edge list's length equals the sum of the list lengths |
| Converters.EdgeMultiplicity | page_rank.py:42-44 | multi-edges are kept: a pair occurs as often as the target occurs in the source's list, and never with a non-key source |
| Converters.CellIffEdge | page_rank.py:31-35 | multi-edges collapse: a matrix cell is 1 exactly when its pair occurs in the edge list, and 0 exactly when it does not |
| Converters.Stats | page_rank.py:47-52 | the node count is the number of keys and the edge count is the length of the edge list |
| StochasticRank.Choice | page_rank.py:63 | the choice from a non-empty list is one of its elements |
| StochasticRank.ChoiceReachesAll | page_rank.py:63 | every element of the list is chosen by some draw, so the oracle loses no walk |
| StochasticRank.Move | page_rank.py:69-74 | a step goes to an entry of the current key's list, or to a key when that list is empty; with every target a key, it lands on a key |
| StochasticRank.Position | page_rank.py:63-74 | with every target a key, the walker is on a key after any number of steps |
| StochasticRank.ClosedStays | page_rank.py:68-76 | with every target a key, the walk never leaves the keys, so the ranker cannot raise `KeyError` |
| StochasticRank.WalkSteps | page_rank.py:63-74 | a walk that stays on keys starts at a key, and each step follows a list entry of the previous node, or goes to a key from an empty list |
| StochasticRank.HitCountsAreVisits | page_rank.py:59-76 | each key's hit count is the number of times it occurs in the walk |
| StochasticRank.HitTotal | page_rank.py:78 | after `k` steps the hit counts total `k + 1` |
| StochasticRank.NormalisedIsDistribution | page_rank.py:78-79 | non-negative counts over the keys, divided by their positive sum, are non-negative and sum to 1 over the keys |
| StochasticRank.StochasticIsDistribution | page_rank.py:78-79 | the ranking has exactly the graph's keys, each value is in [0, 1], and the values sum to 1 |
| StochasticRank.RankIsVisitShare | page_rank.py:79 | each key's rank is its number of visits divided by `k + 1` |
| StochasticRank.NoStepsRanksStartOnly | page_rank.py:63-68 | with no steps the walk cannot fail; the start key gets 1 and every other key 0 |
| StochasticRank.NeverStaysAfter | page_rank.py:70-76 | once the walk has landed on a non-key, no longer walk stays on keys |
| StochasticRank.CountHits | page_rank.py:59-76 | the walk loop succeeds if and only if the walk stays on keys for all `steps` moves, and then returns the hit counts; otherwise it reports the first non-key landed on |
| StochasticRank.StochasticPageRank | page_rank.py:56-79 | fails with `NoStartNode` exactly on an empty graph; otherwise it succeeds exactly when the walk of `max(repeats, 0)` steps stays on keys, and then returns a rank distribution over the keys; otherwise it names the first non-key the walk lands on |
| DistributionRank.AddAllAt | page_rank.py:96-97 | adding a contribution for every list entry gives each key one contribution per occurrence |
| DistributionRank.AddAllSum | page_rank.py:96-97 | over distinct keys, adding a contribution per entry raises the total by the contribution times the number of entries |
| DistributionRank.EqualParts | page_rank.py:95 | `k` parts of `x / k` add up to `x` |
| DistributionRank.ContributeAt | page_rank.py:94-101 | handling one node adds to each key exactly that node's share for it |
| DistributionRank.ContributeSum | page_rank.py:94-101 | handling one node adds exactly that node's probability to the total |
| DistributionRank.StepIsInflow | page_rank.py:92-103 | after a step every key holds exactly the sum of the shares that all keys pass to it, computed from the previous probabilities (the undamped PageRank equation) |
| DistributionRank.StepConserves | page_rank.py:90-103 | a step keeps the total probability unchanged |
| DistributionRank.StepNonNegative | page_rank.py:90-103 | a step keeps every probability non-negative |
| DistributionRank.StepPreservesDistribution | page_rank.py:90-103 | a step maps a rank distribution over the keys to a rank distribution over the keys |
| DistributionRank.UniformIsDistribution | page_rank.py:87 | for a non-empty graph, 1/N on every key is a rank distribution |
| DistributionRank.IterateIsDistribution | page_rank.py:87-103 | for a non-empty graph, the probabilities after any number of steps form a rank distribution |
| DistributionRank.Spread | page_rank.py:96-97 | the loop over a list adds the contribution once for each entry |
| DistributionRank.PassOn | page_rank.py:94-101 | a node with links splits its probability over its list entries, and a sink splits it over all keys |
| DistributionRank.Propagate | page_rank.py:92-103 | one iteration computes the next probabilities from the previous ones, starting from zeros |
| DistributionRank.DistributionPageRank | page_rank.py:81-106 | returns the `max(steps, 0)`-th iterate, with exactly the keys and values in [0, 1]; a rank distribution for a non-empty graph; the empty dict for an empty graph; 1/N on every key with no steps; otherwise each key holds the inflow from the previous iterate |

## Left out

- Reading the file and splitting each line (`line.strip().split()`, page_rank.py:12-14) are not modelled. The loader starts from token lists and checks only their count.
- The command-line driver (page_rank.py:108-154) is not modelled. That covers argument parsing, timing, printing the matrix, the edge list and the sorted top ranks, and the `print` in `print_stats`. These are input, output and display.
- The `progress` import (page_rank.py:6) is not modelled. `progress.py` is not part of this model, and page_rank.py does not use it.
- `random.choice` is replaced by the draws oracle reduced modulo the list length. The statistical behaviour of the walk, and convergence of either ranker as the step count grows, are not modelled.
- Floating-point rounding is not modelled. Probabilities are exact reals, so mass is conserved exactly and the sums are exactly 1. The source's integer `0` that starts `next_prob` is the real `0.0`.
- Dict iteration order is modelled by the key order. The order of the returned rank dicts is not, because they are maps.
- Converters.BuildAdjacencyMatrix: requires every target to be a key instead of modelling the `KeyError` that line 34 raises otherwise.
- DistributionRank.DistributionPageRank: requires every target to be a key when at least one step runs, instead of modelling the `KeyError` that line 97 raises otherwise.
- StochasticRank.Position: after the walk lands on a non-key the source has already raised, and the model simply keeps the position there. Only positions up to the first such landing are used.
