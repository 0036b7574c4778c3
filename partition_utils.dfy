/**
 * The cut-edge count and the per-vertex counting queries of `PartitionUtils`
 * (Java) and `podzial.c` / `algorytm_kl.c` (C), as functions of the graph
 * and of the assignment sequence.
 */
module PartitionUtils {
  import opened Graphs
  import opened Partitions

  /** Entries x of `ns` that row `u` counts as cut edges: u < x < n and the two ends lie in different parts. */
  function RowCut(a: seq<int>, n: int, u: int, ns: seq<int>): (c: nat)
    ensures c <= |ns|
  {
    if ns == [] then 0
    else (if u < ns[0] < n && Part(a, u) != Part(a, ns[0]) then 1 else 0) + RowCut(a, n, u, ns[1..])
  }

  /** Cut edges counted by the rows 0 .. k-1. */
  function CutRows(g: Graph, a: seq<int>, k: int): (c: nat)
    requires Csr(g) && 0 <= k <= g.vertexCount
    ensures c <= g.rowPointers[k]
  {
    if k == 0 then 0 else CutRows(g, a, k - 1) + RowCut(a, g.vertexCount, k - 1, Neighbors(g, k - 1))
  }

  /**
   * `calculateCutEdges` / `oblicz_przeciete_krawedzie`: every stored pair
   * u < v (v a vertex of the graph) whose ends lie in different parts.
   */
  function CutEdges(g: Graph, a: seq<int>): (c: nat)
    requires Csr(g)
    ensures c <= |g.adjacencyList|
  {
    if g.vertexCount == 0 then 0 else CutRows(g, a, g.vertexCount)
  }

  /** Entries x of `ns` that are vertices (0 <= x < n) assigned to part `p`. */
  function InPart(a: seq<int>, n: int, ns: seq<int>, p: int): (c: nat)
    ensures c <= |ns|
  {
    if ns == [] then 0
    else (if 0 <= ns[0] < n && Part(a, ns[0]) == p then 1 else 0) + InPart(a, n, ns[1..], p)
  }

  /** `countNeighborsInPart` / `oblicz_liczbe_sasiadow`. */
  function NeighborsInPart(g: Graph, a: seq<int>, v: int, p: int): (c: nat)
    requires Csr(g)
    ensures c <= |Neighbors(g, v)|
  {
    InPart(a, g.vertexCount, Neighbors(g, v), p)
  }

  /** `calculateGain` / `oblicz_zysk`: neighbours in the target part minus neighbours in the current part. */
  function Gain(g: Graph, a: seq<int>, v: int, target: int): (r: int)
    requires Csr(g)
    ensures -|Neighbors(g, v)| <= r <= |Neighbors(g, v)|
  {
    NeighborsInPart(g, a, v, target) - NeighborsInPart(g, a, v, Part(a, v))
  }

  /**
   * `canMoveVertex`: a different part, and after the move the target is
   * still at most avg + imb and the source at least avg - imb.
   */
  function CanMoveVertex(a: seq<int>, sizes: seq<int>, margin: int, v: int, target: int): (r: bool)
    requires 0 <= target < |sizes| && 0 <= Part(a, v) < |sizes|
    ensures r <==>
      var avg, imb := AveragePartSize(|a|, |sizes|), MaxImbalance(|a|, |sizes|, margin);
      target != Part(a, v) && sizes[target] + 1 <= avg + imb && sizes[Part(a, v)] - 1 >= avg - imb
  {
    var current := Part(a, v);
    if current == target then false
    else
      var avg := AveragePartSize(|a|, |sizes|);
      var imb := MaxImbalance(|a|, |sizes|, margin);
      if sizes[target] >= avg + imb then false
      else if sizes[current] <= avg - imb then false
      else true
  }

  /** The part sizes after moving one vertex from part `src` to part `dst`. */
  function MovedSizes(sizes: seq<int>, src: int, dst: int): seq<int>
    requires 0 <= src < |sizes| && 0 <= dst < |sizes|
  {
    sizes[src := sizes[src] - 1][dst := sizes[src := sizes[src] - 1][dst] + 1]
  }

  /** A move that `canMoveVertex` allows keeps a balanced partition balanced. */
  lemma {:induction false} LegalMoveKeepsBalance(a: seq<int>, sizes: seq<int>, margin: int, v: int, target: int)
    requires 0 <= target < |sizes| && 0 <= Part(a, v) < |sizes|
    requires Balanced(sizes, |a|, margin)
    requires CanMoveVertex(a, sizes, margin, v, target)
    ensures Balanced(MovedSizes(sizes, Part(a, v), target), |a|, margin)
  {
  }

  /** Neighbour entries outside 0 .. n-1 never contribute to the cut. */
  lemma {:induction false} RowCutIgnoresOutside(a: seq<int>, n: int, u: int, ns: seq<int>, x: int)
    requires u >= 0 && !(0 <= x < n)
    ensures RowCut(a, n, u, ns + [x]) == RowCut(a, n, u, ns)
  {
    if ns != [] {
      assert (ns + [x])[1..] == ns[1..] + [x];
      RowCutIgnoresOutside(a, n, u, ns[1..], x);
    }
  }

  lemma {:induction false} RowCutSamePart(a: seq<int>, n: int, u: int, ns: seq<int>)
    requires 0 <= u < n
    requires forall v :: 0 <= v < n ==> Part(a, v) == Part(a, 0)
    ensures RowCut(a, n, u, ns) == 0
  {
    if ns != [] {
      RowCutSamePart(a, n, u, ns[1..]);
    }
  }

  lemma {:induction false} CutRowsSamePart(g: Graph, a: seq<int>, k: int)
    requires Csr(g) && 0 <= k <= g.vertexCount
    requires forall v :: 0 <= v < g.vertexCount ==> Part(a, v) == Part(a, 0)
    ensures CutRows(g, a, k) == 0
  {
    if k > 0 {
      CutRowsSamePart(g, a, k - 1);
      RowCutSamePart(a, g.vertexCount, k - 1, Neighbors(g, k - 1));
    }
  }

  /** With every vertex in one part nothing is cut. */
  lemma {:induction false} SinglePartHasNoCut(g: Graph, a: seq<int>)
    requires Csr(g)
    requires forall v :: 0 <= v < g.vertexCount ==> Part(a, v) == Part(a, 0)
    ensures CutEdges(g, a) == 0
  {
    if g.vertexCount > 0 {
      CutRowsSamePart(g, a, g.vertexCount);
    }
  }

  // ---------------------------------------------------------------------
  // Moving one vertex changes the cut by exactly minus its gain.
  // ---------------------------------------------------------------------

  /** Change of "y is cut from the moved vertex" when that vertex goes from part s to part t. */
  function Flip(y: int, s: int, t: int): int
  {
    (if y != t then 1 else 0) - (if y != s then 1 else 0)
  }

  /** Sum of Flip over the parts of the entries x of `ns` with lo <= x < hi. */
  function FlipSum(a: seq<int>, ns: seq<int>, lo: int, hi: int, s: int, t: int): int
  {
    if ns == [] then 0
    else (if lo <= ns[0] < hi then Flip(Part(a, ns[0]), s, t) else 0) + FlipSum(a, ns[1..], lo, hi, s, t)
  }

  /** Sum over the vertices u < k of Occurrences(ns, u) * Flip(part of u). */
  function WeightedFlips(a: seq<int>, ns: seq<int>, k: nat, s: int, t: int): int
  {
    if k == 0 then 0
    else WeightedFlips(a, ns, k - 1, s, t) + Occurrences(ns, k - 1) * Flip(Part(a, k - 1), s, t)
  }

  /** Sum over the rows u < k of (times w occurs in u's row) * Flip(part of u). */
  function RowsWeightedFlips(g: Graph, a: seq<int>, w: int, k: nat, s: int, t: int): int
    requires Csr(g) && k <= g.vertexCount
  {
    if k == 0 then 0
    else RowsWeightedFlips(g, a, w, k - 1, s, t) + Occurrences(Neighbors(g, k - 1), w) * Flip(Part(a, k - 1), s, t)
  }

  lemma {:induction false} RowCutBelow(a: seq<int>, n: int, u: int, w: int, t: int, ns: seq<int>)
    requires 0 <= u < w < n && w < |a|
    ensures RowCut(a[w := t], n, u, ns) ==
      RowCut(a, n, u, ns) + Occurrences(ns, w) * Flip(Part(a, u), a[w], t)
  {
    if ns != [] {
      RowCutBelow(a, n, u, w, t, ns[1..]);
    }
  }

  lemma {:induction false} RowCutAbove(a: seq<int>, n: int, u: int, w: int, t: int, ns: seq<int>)
    requires 0 <= w < u && w < |a|
    ensures RowCut(a[w := t], n, u, ns) == RowCut(a, n, u, ns)
  {
    if ns != [] {
      RowCutAbove(a, n, u, w, t, ns[1..]);
    }
  }

  lemma {:induction false} RowCutSelf(a: seq<int>, n: int, w: int, t: int, ns: seq<int>)
    requires 0 <= w < n && w < |a|
    ensures RowCut(a[w := t], n, w, ns) == RowCut(a, n, w, ns) + FlipSum(a, ns, w + 1, n, a[w], t)
  {
    if ns != [] {
      RowCutSelf(a, n, w, t, ns[1..]);
    }
  }

  lemma {:induction false} CutRowsAfterMove(g: Graph, a: seq<int>, w: int, t: int, k: nat)
    requires Csr(g) && k <= g.vertexCount && 0 <= w < g.vertexCount && w < |a|
    ensures CutRows(g, a[w := t], k) ==
      CutRows(g, a, k) + RowsWeightedFlips(g, a, w, if k < w then k else w, a[w], t)
        + (if k > w then FlipSum(a, Neighbors(g, w), w + 1, g.vertexCount, a[w], t) else 0)
  {
    if k > 0 {
      var n, u, b := g.vertexCount, k - 1, a[w := t];
      var above := FlipSum(a, Neighbors(g, w), w + 1, n, a[w], t);
      CutRowsAfterMove(g, a, w, t, u);
      assert CutRows(g, b, k) == CutRows(g, b, u) + RowCut(b, n, u, Neighbors(g, u));
      assert CutRows(g, a, k) == CutRows(g, a, u) + RowCut(a, n, u, Neighbors(g, u));
      if u < w {
        RowCutBelow(a, n, u, w, t, Neighbors(g, u));
        assert RowsWeightedFlips(g, a, w, k, a[w], t) ==
          RowsWeightedFlips(g, a, w, u, a[w], t) + Occurrences(Neighbors(g, u), w) * Flip(Part(a, u), a[w], t);
      } else if u == w {
        RowCutSelf(a, n, w, t, Neighbors(g, w));
      } else {
        RowCutAbove(a, n, u, w, t, Neighbors(g, u));
      }
    }
  }

  lemma {:induction false} FlipSumExtend(a: seq<int>, ns: seq<int>, lo: int, hi: int, s: int, t: int)
    requires lo <= hi
    ensures FlipSum(a, ns, lo, hi + 1, s, t) == FlipSum(a, ns, lo, hi, s, t) + Occurrences(ns, hi) * Flip(Part(a, hi), s, t)
  {
    if ns != [] {
      FlipSumExtend(a, ns[1..], lo, hi, s, t);
    }
  }

  lemma {:induction false} WeightedFlipsRegroup(a: seq<int>, ns: seq<int>, k: nat, s: int, t: int)
    ensures WeightedFlips(a, ns, k, s, t) == FlipSum(a, ns, 0, k, s, t)
  {
    if k == 0 {
      FlipSumEmptyRange(a, ns, s, t);
    } else {
      WeightedFlipsRegroup(a, ns, k - 1, s, t);
      FlipSumExtend(a, ns, 0, k - 1, s, t);
    }
  }

  lemma {:induction false} FlipSumEmptyRange(a: seq<int>, ns: seq<int>, s: int, t: int)
    ensures FlipSum(a, ns, 0, 0, s, t) == 0
  {
    if ns != [] {
      FlipSumEmptyRange(a, ns[1..], s, t);
    }
  }

  lemma {:induction false} SymmetricRegroup(g: Graph, a: seq<int>, w: int, k: nat, s: int, t: int)
    requires Csr(g) && Symmetric(g) && k <= w < g.vertexCount
    ensures RowsWeightedFlips(g, a, w, k, s, t) == WeightedFlips(a, Neighbors(g, w), k, s, t)
  {
    if k > 0 {
      SymmetricRegroup(g, a, w, k - 1, s, t);
      assert Occurrences(Neighbors(g, k - 1), w) == Occurrences(Neighbors(g, w), k - 1);
    }
  }

  lemma {:induction false} FlipSumSplit(a: seq<int>, ns: seq<int>, w: int, n: int, s: int, t: int)
    requires 0 <= w < n && w !in ns
    ensures FlipSum(a, ns, 0, w, s, t) + FlipSum(a, ns, w + 1, n, s, t) == FlipSum(a, ns, 0, n, s, t)
  {
    if ns != [] {
      FlipSumSplit(a, ns[1..], w, n, s, t);
    }
  }

  lemma {:induction false} FlipSumIsCountDifference(a: seq<int>, ns: seq<int>, n: int, s: int, t: int)
    ensures FlipSum(a, ns, 0, n, s, t) == InPart(a, n, ns, s) - InPart(a, n, ns, t)
  {
    if ns != [] {
      FlipSumIsCountDifference(a, ns[1..], n, s, t);
    }
  }

  /**
   * The Kernighan-Lin bookkeeping is exact: on a symmetric graph without
   * self-loops, moving vertex w to part t lowers the cut-edge count by
   * exactly Gain(w, t).
   */
  lemma {:induction false} MoveChangesCutByGain(g: Graph, a: seq<int>, w: int, t: int)
    requires Csr(g) && Symmetric(g) && Loopless(g)
    requires 0 <= w < g.vertexCount && w < |a|
    ensures CutEdges(g, a[w := t]) == CutEdges(g, a) - Gain(g, a, w, t)
  {
    var n, s, ns := g.vertexCount, a[w], Neighbors(g, w);
    CutRowsAfterMove(g, a, w, t, n);
    SymmetricRegroup(g, a, w, w, s, t);
    WeightedFlipsRegroup(a, ns, w, s, t);
    FlipSumSplit(a, ns, w, n, s, t);
    FlipSumIsCountDifference(a, ns, n, s, t);
  }
}
