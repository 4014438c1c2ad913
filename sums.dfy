/**
 * Sums of a dict's values over its key order, as Python's `sum(d.values())`,
 * for the integer hit counts and the real-valued probabilities.
 */
module Sums {
  import opened Graphs

  /** The sum of `m`'s values at the keys `ns`, in order. */
  function SumReal(ns: seq<Node>, m: map<Node, real>): real
    requires forall n :: n in ns ==> n in m
  {
    if ns == [] then 0.0 else SumReal(ns[..|ns| - 1], m) + m[ns[|ns| - 1]]
  }

  /** The sum of `m`'s values at the keys `ns`, in order. */
  function SumInt(ns: seq<Node>, m: map<Node, int>): int
    requires forall n :: n in ns ==> n in m
  {
    if ns == [] then 0 else SumInt(ns[..|ns| - 1], m) + m[ns[|ns| - 1]]
  }

  /** Changing a key outside `ns` does not change the sum over `ns`. */
  lemma {:induction false} SumRealIgnores(ns: seq<Node>, m: map<Node, real>, t: Node, v: real)
    requires forall n :: n in ns ==> n in m
    requires t !in ns
    ensures SumReal(ns, m[t := v]) == SumReal(ns, m)
  {
    if ns != [] {
      SumRealIgnores(ns[..|ns| - 1], m, t, v);
    }
  }

  /** Changing the value at a key that occurs once in `ns` shifts the sum by the difference. */
  lemma {:induction false} SumRealUpdate(ns: seq<Node>, m: map<Node, real>, t: Node, v: real)
    requires forall n :: n in ns ==> n in m
    requires Distinct(ns) && t in ns
    ensures SumReal(ns, m[t := v]) == SumReal(ns, m) - m[t] + v
  {
    var init := ns[..|ns| - 1];
    if ns[|ns| - 1] == t {
      SumRealIgnores(init, m, t, v);
    } else {
      SumRealUpdate(init, m, t, v);
    }
  }

  /** A map that is constant on `ns` sums to the constant times `|ns|`. */
  lemma {:induction false} SumRealConstant(ns: seq<Node>, m: map<Node, real>, c: real)
    requires forall n :: n in ns ==> n in m && m[n] == c
    ensures SumReal(ns, m) == (|ns| as real) * c
  {
    if ns != [] {
      SumRealConstant(ns[..|ns| - 1], m, c);
    }
  }

  /** A sum of non-negative values is non-negative. */
  lemma {:induction false} SumRealNonNegative(ns: seq<Node>, m: map<Node, real>)
    requires forall n :: n in ns ==> n in m && m[n] >= 0.0
    ensures SumReal(ns, m) >= 0.0
  {
    if ns != [] {
      SumRealNonNegative(ns[..|ns| - 1], m);
    }
  }

  /** Changing a key outside `ns` does not change the sum over `ns`. */
  lemma {:induction false} SumIntIgnores(ns: seq<Node>, m: map<Node, int>, t: Node, v: int)
    requires forall n :: n in ns ==> n in m
    requires t !in ns
    ensures SumInt(ns, m[t := v]) == SumInt(ns, m)
  {
    if ns != [] {
      SumIntIgnores(ns[..|ns| - 1], m, t, v);
    }
  }

  /** Changing the value at a key that occurs once in `ns` shifts the sum by the difference. */
  lemma {:induction false} SumIntUpdate(ns: seq<Node>, m: map<Node, int>, t: Node, v: int)
    requires forall n :: n in ns ==> n in m
    requires Distinct(ns) && t in ns
    ensures SumInt(ns, m[t := v]) == SumInt(ns, m) - m[t] + v
  {
    var init := ns[..|ns| - 1];
    if ns[|ns| - 1] == t {
      SumIntIgnores(init, m, t, v);
    } else {
      SumIntUpdate(init, m, t, v);
    }
  }

  /** A map that is zero on `ns` sums to zero. */
  lemma {:induction false} SumIntZero(ns: seq<Node>, m: map<Node, int>)
    requires forall n :: n in ns ==> n in m && m[n] == 0
    ensures SumInt(ns, m) == 0
  {
    if ns != [] {
      SumIntZero(ns[..|ns| - 1], m);
    }
  }

  /** Dividing every value by `d` divides the sum by `d`. */
  lemma {:induction false} SumRealOfQuotients(ns: seq<Node>, counts: map<Node, int>, shares: map<Node, real>, d: real)
    requires d != 0.0
    requires forall n :: n in ns ==> n in counts && n in shares && shares[n] == counts[n] as real / d
    ensures SumReal(ns, shares) == SumInt(ns, counts) as real / d
  {
    if ns != [] {
      var init, last := ns[..|ns| - 1], ns[|ns| - 1];
      SumRealOfQuotients(init, counts, shares, d);
      assert (SumInt(init, counts) as real + counts[last] as real) / d
          == SumInt(init, counts) as real / d + counts[last] as real / d;
    }
  }

  /** With non-negative values, each value at a key of `ns` is at most the sum. */
  lemma {:induction false} SumRealBounds(ns: seq<Node>, m: map<Node, real>, t: Node)
    requires forall n :: n in ns ==> n in m && m[n] >= 0.0
    requires t in ns
    ensures 0.0 <= m[t] <= SumReal(ns, m)
  {
    var init := ns[..|ns| - 1];
    if ns[|ns| - 1] == t {
      SumRealNonNegative(init, m);
    } else {
      SumRealBounds(init, m, t);
    }
  }

  /** A rank distribution over `g`'s keys: one non-negative value per key, the values summing to 1. */
  predicate IsDistribution(g: Graph, d: map<Node, real>)
    requires Valid(g)
  {
    && d.Keys == g.adj.Keys
    && (forall n :: n in d ==> d[n] >= 0.0)
    && SumReal(g.nodes, d) == 1.0
  }

  /** No value of a rank distribution exceeds 1. */
  lemma DistributionBounded(g: Graph, d: map<Node, real>)
    requires Valid(g) && IsDistribution(g, d)
    ensures forall n :: n in d ==> 0.0 <= d[n] <= 1.0
  {
    forall n | n in d
      ensures d[n] <= 1.0
    {
      SumRealBounds(g.nodes, d, n);
    }
  }
}
