/** Finite directed graphs over names: walks, cycles and rankings. */
module Digraph {
  import opened Blocks

  type Graph = map<string, set<string>>

  /** Every edge leads to a node of the graph. */
  ghost predicate Closed(g: Graph) {
    forall a :: a in g ==> g[a] <= g.Keys
  }

  /** A non-empty sequence of nodes in which each one has an edge to the next. */
  ghost predicate IsWalk(g: Graph, w: seq<string>) {
    && |w| >= 1
    && (forall i :: 0 <= i < |w| ==> w[i] in g)
    && (forall i :: 0 <= i < |w| - 1 ==> w[i + 1] in g[w[i]])
  }

  ghost predicate IsCycle(g: Graph, w: seq<string>) {
    IsWalk(g, w) && |w| >= 2 && w[0] == w[|w| - 1]
  }

  ghost predicate Cyclic(g: Graph) {
    exists w :: IsCycle(g, w)
  }

  /** h decreases along every edge that leaves one of the nodes it ranks. */
  ghost predicate Ranks(g: Graph, h: map<string, nat>) {
    forall a, b :: a in h && a in g && b in g[a] ==> b in h && h[b] < h[a]
  }

  /** h decreases along every edge of the graph. */
  ghost predicate IsRanking(g: Graph, h: map<string, nat>) {
    h.Keys == g.Keys && Ranks(g, h)
  }

  lemma {:induction false} WalkDescends(g: Graph, h: map<string, nat>, w: seq<string>, i: nat, j: nat)
    requires IsRanking(g, h) && IsWalk(g, w)
    requires i <= j < |w|
    ensures h[w[j]] + (j - i) <= h[w[i]]
    decreases j - i
  {
    if i < j {
      WalkDescends(g, h, w, i + 1, j);
      assert w[i + 1] in g[w[i]];
    }
  }

  /** A graph with a ranking has no cycle. */
  lemma RankedIsAcyclic(g: Graph, h: map<string, nat>)
    requires IsRanking(g, h)
    ensures !Cyclic(g)
  {
    if Cyclic(g) {
      var w :| IsCycle(g, w);
      WalkDescends(g, h, w, 0, |w| - 1);
      assert false;
    }
  }

  lemma {:induction false} DistinctCount(w: seq<string>)
    requires forall i, j :: 0 <= i < j < |w| ==> w[i] != w[j]
    ensures |Elements(w)| == |w|
  {
    if w != [] {
      var n := |w| - 1;
      DistinctCount(w[..n]);
      assert Elements(w) == Elements(w[..n]) + {w[n]};
      assert w[n] !in Elements(w[..n]);
    }
  }

  lemma SubsetSize(a: set<string>, b: set<string>)
    requires a <= b
    ensures |a| <= |b|
  {
    assert b == a + (b - a);
  }

  /** In a ranked graph no walk is longer than the number of nodes, so every recursive walk ends. */
  lemma WalkBounded(g: Graph, h: map<string, nat>, w: seq<string>)
    requires IsRanking(g, h) && IsWalk(g, w)
    ensures |w| <= |g|
  {
    forall i, j | 0 <= i < j < |w| ensures w[i] != w[j] {
      WalkDescends(g, h, w, i, j);
    }
    DistinctCount(w);
    SubsetSize(Elements(w), g.Keys);
  }
}
