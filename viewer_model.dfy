/**
 * The read-only model classes of the graph viewer (`pl.edu.graph.model`):
 * a CSR graph and a finished partition, both set once by their
 * constructors. Their queries are strict: an index outside the structure
 * raises `IllegalArgumentException`, and arrays that do not fit their
 * counts raise `ArrayIndexOutOfBoundsException`.
 */
module Viewer {
  import opened Graphs
  import Partitions

  /** The exceptions the queries can raise. */
  datatype Failure = InvalidVertex | InvalidPart | IndexOutOfBounds

  datatype Result<T> = Ok(value: T) | Fail(failure: Failure)

  // ------------------------------------------------------------ Graph

  /**
   * `getNeighbors`: a vertex outside `0 .. vertexCount-1` is refused;
   * otherwise the entries between the vertex's two row pointers are copied
   * in storage order, failing on the first array read out of bounds.
   */
  function GetNeighbors(g: Graph, v: int): (r: Result<seq<int>>)
    ensures r == Fail(InvalidVertex) <==> v < 0 || v >= g.vertexCount
    ensures r.Ok? ==>
      && v + 1 < |g.rowPointers|
      && |r.value| == (if g.rowPointers[v] < g.rowPointers[v + 1] then g.rowPointers[v + 1] - g.rowPointers[v] else 0)
      && (r.value != [] ==> 0 <= g.rowPointers[v] && g.rowPointers[v + 1] <= |g.adjacencyList|)
      && forall i :: 0 <= i < |r.value| ==> r.value[i] == g.adjacencyList[g.rowPointers[v] + i]
  {
    if v < 0 || v >= g.vertexCount then Fail(InvalidVertex)
    else if v + 1 >= |g.rowPointers| then Fail(IndexOutOfBounds)
    else
      var start, end := g.rowPointers[v], g.rowPointers[v + 1];
      if end <= start then Ok([])
      else if start < 0 || end > |g.adjacencyList| then Fail(IndexOutOfBounds)
      else Ok(g.adjacencyList[start..end])
  }

  /**
   * On a well-formed CSR graph the strict query never fails inside the
   * graph and agrees with the partitioner's lenient `getNeighbors`, which
   * answers an empty list where this one refuses the vertex.
   */
  lemma StrictNeighbors(g: Graph, v: int)
    requires Csr(g)
    ensures 0 <= v < g.vertexCount ==> GetNeighbors(g, v) == Ok(Neighbors(g, v))
    ensures 0 <= v < g.vertexCount ==> |Neighbors(g, v)| == g.rowPointers[v + 1] - g.rowPointers[v]
    ensures !(0 <= v < g.vertexCount) ==> GetNeighbors(g, v) == Fail(InvalidVertex) && Neighbors(g, v) == []
  {
    if 0 <= v < g.vertexCount {
      assert g.rowPointers[v] <= g.rowPointers[v + 1];
      assert 0 <= g.rowPointers[v] by {
        assert g.rowPointers[0] <= g.rowPointers[v];
      }
      assert g.rowPointers[v + 1] <= |g.adjacencyList| by {
        assert g.rowPointers[v + 1] <= g.rowPointers[g.vertexCount];
      }
    }
  }

  // ------------------------------------------------------------ Partition

  /** A finished partition as the viewer receives it. */
  datatype ViewPartition = ViewPartition(
    assignments: seq<int>,
    partSizes: seq<int>,
    partCount: int,
    cutEdges: int,
    marginPercent: int)

  /** `getAssignment`: the part of an existing vertex; any other index is refused. */
  function GetAssignment(p: ViewPartition, vertex: int): (r: Result<int>)
    ensures r.Ok? <==> 0 <= vertex < |p.assignments|
    ensures r.Fail? ==> r.failure == InvalidVertex
    ensures r.Ok? ==> r.value == Partitions.Part(p.assignments, vertex)
  {
    if vertex < 0 || vertex >= |p.assignments| then Fail(InvalidVertex)
    else Ok(p.assignments[vertex])
  }

  /** The viewer's strict query and the partitioner's lenient one, which answers -1 outside the array. */
  lemma StrictAssignment(p: ViewPartition, vertex: int)
    ensures GetAssignment(p, vertex).Fail? <==> Partitions.Part(p.assignments, vertex) == -1 && !(0 <= vertex < |p.assignments|)
    ensures GetAssignment(p, vertex).Ok? ==> GetAssignment(p, vertex).value == Partitions.Part(p.assignments, vertex)
  {
  }

  /** `getPartSize`: a part outside `0 .. partCount-1` is refused; otherwise the stored size. */
  function GetPartSize(p: ViewPartition, part: int): (r: Result<int>)
    ensures r == Fail(InvalidPart) <==> part < 0 || part >= p.partCount
    ensures r.Ok? ==> 0 <= part < |p.partSizes| && r.value == p.partSizes[part]
  {
    if part < 0 || part >= p.partCount then Fail(InvalidPart)
    else if part >= |p.partSizes| then Fail(IndexOutOfBounds)
    else Ok(p.partSizes[part])
  }

  /** The sizes the partitioner hands over: one per part, each counting the vertices in that part. */
  predicate Consistent(p: ViewPartition)
  {
    && |p.partSizes| == p.partCount
    && forall q :: 0 <= q < p.partCount ==> p.partSizes[q] == Occurrences(p.assignments, q)
  }

  /**
   * For a consistent partition every part's size is available and counts
   * its vertices; when every vertex is in a part, the sizes add up to the
   * number of vertices.
   */
  lemma PartSizesCount(p: ViewPartition)
    requires Consistent(p)
    ensures forall q :: 0 <= q < p.partCount ==> GetPartSize(p, q) == Ok(Occurrences(p.assignments, q))
    ensures Partitions.FullyAssigned(p.assignments, p.partCount) ==> Partitions.Sum(p.partSizes) == |p.assignments|
  {
    if Partitions.FullyAssigned(p.assignments, p.partCount) {
      Partitions.SizesSumToVertexCount(p.assignments, p.partSizes);
    }
  }
}
