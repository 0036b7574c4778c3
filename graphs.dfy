/**
 * The immutable graph of the partitioner, stored in compressed-sparse-row
 * (CSR) form: the neighbours of vertex `v` are the entries
 * `adjacencyList[rowPointers[v] .. rowPointers[v + 1]]`.
 */
module Graphs {

  datatype Graph = Graph(vertexCount: int, edgeCount: int, rowPointers: seq<int>, adjacencyList: seq<int>)

  /** Number of entries of `s` equal to `x`. */
  function Occurrences(s: seq<int>, x: int): nat
  {
    if s == [] then 0 else (if s[0] == x then 1 else 0) + Occurrences(s[1..], x)
  }

  /** CSR shape: one offset per vertex plus a final one, starting at 0, never decreasing, ending at the storage length. */
  predicate Csr(g: Graph)
  {
    && g.vertexCount >= 0
    && |g.rowPointers| == g.vertexCount + 1
    && g.rowPointers[0] == 0
    && g.rowPointers[g.vertexCount] == |g.adjacencyList|
    && forall i, j :: 0 <= i <= j <= g.vertexCount ==> g.rowPointers[i] <= g.rowPointers[j]
  }

  /** Every stored neighbour is a vertex of the graph. */
  predicate EntriesInRange(g: Graph)
  {
    forall i :: 0 <= i < |g.adjacencyList| ==> 0 <= g.adjacencyList[i] < g.vertexCount
  }

  /** Neighbours of `v` in storage order; the empty sequence for a vertex outside the graph. */
  function Neighbors(g: Graph, v: int): (r: seq<int>)
    requires Csr(g)
    ensures !(0 <= v < g.vertexCount) ==> r == []
    ensures 0 <= v < g.vertexCount ==>
      |r| == g.rowPointers[v + 1] - g.rowPointers[v] &&
      forall i :: 0 <= i < |r| ==> r[i] == g.adjacencyList[g.rowPointers[v] + i]
  {
    if 0 <= v < g.vertexCount then g.adjacencyList[g.rowPointers[v]..g.rowPointers[v + 1]] else []
  }

  /** Undirected storage: each edge appears in both endpoint lists, equally often. */
  predicate Symmetric(g: Graph)
    requires Csr(g)
  {
    forall u, v :: 0 <= u < g.vertexCount && 0 <= v < g.vertexCount ==>
      Occurrences(Neighbors(g, u), v) == Occurrences(Neighbors(g, v), u)
  }

  /** No vertex lists itself as a neighbour. */
  predicate Loopless(g: Graph)
    requires Csr(g)
  {
    forall v :: 0 <= v < g.vertexCount ==> v !in Neighbors(g, v)
  }

  /** The graphs the loaders build: CSR, in range, symmetric and without self-loops. */
  predicate Undirected(g: Graph)
  {
    Csr(g) && EntriesInRange(g) && Symmetric(g) && Loopless(g)
  }

  lemma {:induction false} OccurrencesPositive(s: seq<int>, x: int)
    ensures Occurrences(s, x) > 0 <==> x in s
  {
    if s != [] {
      OccurrencesPositive(s[1..], x);
      assert s == [s[0]] + s[1..];
    }
  }

  /** The scan of `hasEdge`: does `v` occur in storage positions `i .. end`? */
  function ScanFor(adj: seq<int>, i: int, end: int, v: int): (found: bool)
    requires 0 <= i <= end <= |adj|
    ensures found <==> v in adj[i..end]
    decreases end - i
  {
    if i == end then false
    else if adj[i] == v then true
    else
      assert adj[i..end] == [adj[i]] + adj[i + 1..end];
      ScanFor(adj, i + 1, end, v)
  }

  /** `hasEdge`: false for vertices outside the graph, otherwise a scan of `u`'s row. */
  function HasEdge(g: Graph, u: int, v: int): (b: bool)
    requires Csr(g)
    ensures b <==> 0 <= u < g.vertexCount && 0 <= v < g.vertexCount && v in Neighbors(g, u)
  {
    if u < 0 || u >= g.vertexCount || v < 0 || v >= g.vertexCount then false
    else ScanFor(g.adjacencyList, g.rowPointers[u], g.rowPointers[u + 1], v)
  }

  /** On an undirected graph the edge test does not depend on the order of its endpoints. */
  lemma {:induction false} HasEdgeSymmetric(g: Graph, u: int, v: int)
    requires Csr(g) && Symmetric(g)
    ensures HasEdge(g, u, v) == HasEdge(g, v, u)
  {
    if 0 <= u < g.vertexCount && 0 <= v < g.vertexCount {
      OccurrencesPositive(Neighbors(g, u), v);
      OccurrencesPositive(Neighbors(g, v), u);
    }
  }

  /**
   * `getDensity` as an exact fraction (numerator, denominator):
   * 0 for at most one vertex, otherwise edgeCount / (n(n-1)/2).
   */
  function Density(g: Graph): (d: (int, int))
    ensures d.1 > 0
    ensures g.vertexCount <= 1 ==> d.0 == 0
    ensures g.vertexCount > 1 ==> d.0 * g.vertexCount * (g.vertexCount - 1) == 2 * g.edgeCount * d.1
  {
    if g.vertexCount <= 1 then (0, 1)
    else (2 * g.edgeCount, g.vertexCount * (g.vertexCount - 1))
  }

  /** density < num / den, compared without rounding. */
  predicate DensityBelow(g: Graph, num: int, den: int)
    requires den > 0
  {
    Density(g).0 * den < num * Density(g).1
  }

  /** `density < 0.01` holds exactly when the graph has at most one vertex or 200·E < n(n-1). */
  lemma {:induction false} DensityBelowOnePercent(g: Graph)
    ensures DensityBelow(g, 1, 100) <==> g.vertexCount <= 1 || 200 * g.edgeCount < g.vertexCount * (g.vertexCount - 1)
  {
  }

  /** The concatenation of a list of lists, in order. */
  function Flatten(xss: seq<seq<int>>): seq<int>
  {
    if xss == [] then [] else Flatten(xss[..|xss| - 1]) + xss[|xss| - 1]
  }

  /** Where each of the first `k` lists starts in their concatenation. */
  function Starts(xss: seq<seq<int>>, k: nat): seq<int>
    requires k <= |xss|
  {
    if k == 0 then [] else Starts(xss, k - 1) + [|Flatten(xss[..k - 1])|]
  }

  /** The CSR graph in which vertex `i` has the neighbour list `lists[i]`. */
  function FromLists(lists: seq<seq<int>>, edgeCount: int): Graph
  {
    Graph(|lists|, edgeCount, Starts(lists, |lists|) + [|Flatten(lists)|], Flatten(lists))
  }

  /** Flattening the first lists gives a prefix of flattening them all. */
  lemma {:induction false} FlattenPrefix(xss: seq<seq<int>>, k: nat)
    requires k <= |xss|
    ensures |Flatten(xss[..k])| <= |Flatten(xss)|
    ensures Flatten(xss)[..|Flatten(xss[..k])|] == Flatten(xss[..k])
    decreases |xss|
  {
    if k < |xss| {
      var front := xss[..|xss| - 1];
      assert front[..k] == xss[..k];
      FlattenPrefix(front, k);
      assert Flatten(xss)[..|Flatten(front)|] == Flatten(front);
    } else {
      assert xss[..k] == xss;
    }
  }

  lemma {:induction false} StartsAt(xss: seq<seq<int>>, k: nat)
    requires k <= |xss|
    ensures |Starts(xss, k)| == k
    ensures forall j :: 0 <= j < k ==> Starts(xss, k)[j] == |Flatten(xss[..j])|
  {
    if k > 0 {
      StartsAt(xss, k - 1);
    }
  }

  /** A graph built from neighbour lists is in CSR form and gives each vertex back its list. */
  lemma FromListsCsr(lists: seq<seq<int>>, edgeCount: int)
    ensures Csr(FromLists(lists, edgeCount))
    ensures forall i :: 0 <= i < |lists| ==> Neighbors(FromLists(lists, edgeCount), i) == lists[i]
  {
    var g, n := FromLists(lists, edgeCount), |lists|;
    RowPointersOfLists(lists, edgeCount);
    forall i, j | 0 <= i <= j <= n
      ensures g.rowPointers[i] <= g.rowPointers[j]
    {
      assert lists[..j][..i] == lists[..i];
      FlattenPrefix(lists[..j], i);
    }
    forall i | 0 <= i < n
      ensures Neighbors(g, i) == lists[i]
    {
      RowOfLists(lists, i);
    }
  }

  /** Row pointer `k` of a graph built from lists is the length of the first `k` lists flattened. */
  lemma {:induction false} RowPointersOfLists(lists: seq<seq<int>>, edgeCount: int)
    ensures var g := FromLists(lists, edgeCount);
      |g.rowPointers| == |lists| + 1 && forall k :: 0 <= k <= |lists| ==> g.rowPointers[k] == |Flatten(lists[..k])|
  {
    StartsAt(lists, |lists|);
    assert lists[..|lists|] == lists;
  }

  /** List `i` sits in the concatenation between the lengths of the first `i` and `i + 1` lists. */
  lemma {:induction false} RowOfLists(lists: seq<seq<int>>, i: int)
    requires 0 <= i < |lists|
    ensures |Flatten(lists[..i])| <= |Flatten(lists[..i + 1])| <= |Flatten(lists)|
    ensures Flatten(lists)[|Flatten(lists[..i])|..|Flatten(lists[..i + 1])|] == lists[i]
  {
    var lo, hi := |Flatten(lists[..i])|, |Flatten(lists[..i + 1])|;
    assert lists[..i + 1][..i] == lists[..i];
    FlattenPrefix(lists, i + 1);
    assert Flatten(lists)[lo..hi] == Flatten(lists)[..hi][lo..];
  }

  /** The entries of a graph built from lists are the entries of the lists. */
  lemma {:induction false} FlattenInRange(xss: seq<seq<int>>, n: int)
    requires forall i, a :: 0 <= i < |xss| && 0 <= a < |xss[i]| ==> 0 <= xss[i][a] < n
    ensures forall a :: 0 <= a < |Flatten(xss)| ==> 0 <= Flatten(xss)[a] < n
  {
    if xss != [] {
      FlattenInRange(xss[..|xss| - 1], n);
    }
  }
}
