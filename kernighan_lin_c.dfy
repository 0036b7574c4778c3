/**
 * The C Kernighan-Lin pass of `algorytm_kl.c`. Phase 1 and phase 2 are
 * those of the Java pass; phase 3 differs: both arrays are restored with
 * `memcpy` from the snapshot buffers and the best prefix is re-applied by
 * writing the assignment and both part sizes directly.
 */
module KernighanLinC {
  import opened Graphs
  import opened Partitions
  import opened PartitionUtils
  import opened MoveLogs
  import opened KernighanLin

  /** `malloc` plus `memcpy`: a fresh buffer holding the same values. */
  method Duplicate(src: array<int>) returns (dst: array<int>)
    ensures fresh(dst) && dst[..] == src[..]
  {
    dst := new int[src.Length];
    var i := 0;
    while i < src.Length
      invariant 0 <= i <= src.Length
      invariant dst[..i] == src[..i]
    {
      dst[i] := src[i];
      i := i + 1;
    }
    assert dst[..] == dst[..src.Length];
  }

  /** `memcpy(dst, src, length)`: `dst` takes the values of `src` and nothing else changes. */
  method CopyInto(dst: array<int>, src: array<int>)
    requires dst.Length == src.Length && dst != src
    modifies dst
    ensures dst[..] == src[..]
  {
    var i := 0;
    while i < src.Length
      invariant 0 <= i <= src.Length
      invariant dst[..i] == src[..i]
    {
      dst[i] := src[i];
      i := i + 1;
    }
    assert dst[..] == dst[..src.Length];
  }

  /**
   * Phase 3, second half, in C: each of the first `count` moves writes its
   * new part and moves one unit of size from its recorded old part, which
   * is the vertex's current part because no vertex was moved twice.
   */
  method ReapplyPrefixC(p: Partition, moves: seq<Move>, count: int)
    requires p.Valid() && 0 <= count <= |moves|
    requires RecordedMoves(moves, p.assignments.Length, p.partCount) && DistinctVertices(moves)
    requires OldPartsFrom(p.assignments[..], moves)
    requires FullyAssigned(p.assignments[..], p.partCount)
    modifies p.assignments, p.partSizes
    ensures p.Valid() && FullyAssigned(p.assignments[..], p.partCount)
    ensures p.assignments[..] == ApplyMoves(old(p.assignments[..]), moves[..count])
  {
    ghost var orig := p.assignments[..];
    var i := 0;
    while i < count
      invariant 0 <= i <= count
      invariant p.Valid() && FullyAssigned(p.assignments[..], p.partCount)
      invariant p.assignments[..] == ApplyMoves(orig, moves[..i])
    {
      var v, src, dst := moves[i].vertex, moves[i].oldPart, moves[i].newPart;
      EarlierMovesMissVertex(moves, i);
      ApplyMovesUntouched(orig, moves[..i], v);
      ApplyMovesStep(orig, moves, i);
      p.Transfer(v, src, dst);
      i := i + 1;
    }
  }

  /**
   * `przejscie_kernighan_lin`: the same contract as the Java pass, so it
   * improves exactly when the partition is not a local optimum. The
   * snapshot lives in two buffers of its own, so restoring it touches
   * nothing but the partition's arrays.
   */
  method PassC(g: Graph, p: Partition) returns (improved: bool)
    requires Csr(g) && p.Valid() && p.assignments.Length == g.vertexCount
    requires g.vertexCount > 0 && p.partCount > 1 ==> FullyAssigned(p.assignments[..], p.partCount)
    modifies p, p.assignments, p.partSizes
    ensures p.Valid()
    ensures g.vertexCount > 0 && p.partCount > 1 ==> FullyAssigned(p.assignments[..], p.partCount)
    ensures g.vertexCount == 0 || p.partCount <= 1 ==> !improved
    ensures !improved ==>
      p.assignments[..] == old(p.assignments[..]) && p.partSizes[..] == old(p.partSizes[..]) && p.cutEdges == old(p.cutEdges)
    ensures improved ==> p.cutEdges < old(p.cutEdges)
    ensures Undirected(g) ==>
      CutEdges(g, p.assignments[..]) == CutEdges(g, old(p.assignments[..])) - (old(p.cutEdges) - p.cutEdges)
    ensures g.vertexCount > 0 && p.partCount > 1 ==>
      (improved <==> !LocalOptimum(g, old(p.assignments[..]), p.partCount, p.marginPercent))
  {
    var n := g.vertexCount;
    if n == 0 || p.partCount <= 1 {
      return false;
    }
    ghost var orig := p.assignments[..];
    var savedAssignments := Duplicate(p.assignments);
    var savedSizes := Duplicate(p.partSizes);
    var moves, maxGain, bestLength := PlanMoves(g, p);
    improved := ApplyBestPrefixC(p, savedAssignments, savedSizes, moves, maxGain, bestLength);
    if maxGain > 0 {
      assert moves[..bestLength] == moves;
    }
  }

  /**
   * Phase 3 in C: both arrays are copied back from the snapshot buffers
   * and, when the best prefix gains something, its moves are written
   * again and the cached cut drops by that gain.
   */
  method ApplyBestPrefixC(p: Partition, savedAssignments: array<int>, savedSizes: array<int>, moves: seq<Move>,
                          maxGain: int, bestLength: int) returns (improved: bool)
    requires p.Valid() && savedAssignments.Length == p.assignments.Length && savedSizes.Length == p.partSizes.Length
    requires savedAssignments != p.assignments && savedAssignments != p.partSizes
    requires savedSizes != p.assignments && savedSizes != p.partSizes && savedSizes != savedAssignments
    requires FullyAssigned(savedAssignments[..], p.partCount)
    requires forall q :: 0 <= q < p.partCount ==> savedSizes[q] == Occurrences(savedAssignments[..], q)
    requires RecordedMoves(moves, p.assignments.Length, p.partCount) && DistinctVertices(moves)
    requires OldPartsFrom(savedAssignments[..], moves)
    requires 0 <= bestLength <= |moves| && maxGain >= 0
    modifies p, p.assignments, p.partSizes
    ensures p.Valid() && FullyAssigned(p.assignments[..], p.partCount)
    ensures improved <==> maxGain > 0
    ensures !improved ==> p.assignments[..] == savedAssignments[..] && p.partSizes[..] == savedSizes[..]
    ensures improved ==> p.assignments[..] == ApplyMoves(savedAssignments[..], moves[..bestLength])
    ensures p.cutEdges == old(p.cutEdges) - maxGain
  {
    CopyInto(p.assignments, savedAssignments);
    CopyInto(p.partSizes, savedSizes);
    assert p.Valid() by {
      assert forall q :: 0 <= q < p.partCount ==> p.partSizes[..][q] == savedSizes[q];
    }
    if maxGain > 0 {
      ReapplyPrefixC(p, moves, bestLength);
      p.cutEdges := p.cutEdges - maxGain;
      return true;
    }
    return false;
  }

  /**
   * `algorytm_kernighan_lin`: passes until one does not improve, at most
   * 50 (20 above 5000 vertices), then the cached cut is reconciled.
   * Stopping before the cap means the partition is a local optimum.
   */
  method OptimizeC(g: Graph, p: Partition) returns (ghost passes: nat)
    requires Csr(g) && p.Valid() && p.assignments.Length == g.vertexCount
    requires g.vertexCount > 0 && p.partCount > 1 ==> FullyAssigned(p.assignments[..], p.partCount)
    modifies p, p.assignments, p.partSizes
    ensures p.Valid()
    ensures g.vertexCount == 0 || p.partCount <= 1 ==>
      passes == 0 && p.assignments[..] == old(p.assignments[..]) && p.cutEdges == old(p.cutEdges)
    ensures g.vertexCount > 0 && p.partCount > 1 ==>
      FullyAssigned(p.assignments[..], p.partCount) && p.cutEdges == CutEdges(g, p.assignments[..])
    ensures passes <= (if g.vertexCount > 5000 then 20 else 50)
    ensures Undirected(g) ==> CutEdges(g, p.assignments[..]) <= CutEdges(g, old(p.assignments[..]))
    ensures g.vertexCount > 0 && p.partCount > 1 && passes < (if g.vertexCount > 5000 then 20 else 50) ==>
      LocalOptimum(g, p.assignments[..], p.partCount, p.marginPercent)
  {
    passes := 0;
    if g.vertexCount == 0 || p.partCount <= 1 {
      return;
    }
    var cap := if g.vertexCount > 5000 then 20 else 50;
    var iteration := 0;
    var improvement := true;
    while improvement && iteration < cap
      invariant 0 <= iteration <= cap && passes == iteration
      invariant p.Valid() && FullyAssigned(p.assignments[..], p.partCount)
      invariant Undirected(g) ==> CutEdges(g, p.assignments[..]) <= CutEdges(g, old(p.assignments[..]))
      invariant !improvement ==> LocalOptimum(g, p.assignments[..], p.partCount, p.marginPercent)
    {
      improvement := PassC(g, p);
      iteration := iteration + 1;
      passes := iteration;
    }
    var finalEdges := CutEdges(g, p.assignments[..]);
    if finalEdges != p.cutEdges {
      p.cutEdges := finalEdges;
    }
  }
}
