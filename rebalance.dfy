/**
 * Size-driven rebalancing of a random partition: `balanceRandomPartition`
 * (Java) and `zbalansuj_losowy_podzial` (C). Each round lists the parts
 * above the band avg + imb and the parts below avg - imb, and moves one
 * randomly chosen vertex from the i-th part above to the i-th part below.
 */
module Rebalance {
  import opened Graphs
  import opened Partitions
  import opened PartitionUtils

  /** The parts q < hi whose size exceeds avg + imb, in increasing order. */
  function PartsAbove(sizes: seq<int>, avg: int, imb: int, hi: nat): seq<int>
    requires hi <= |sizes|
  {
    if hi == 0 then []
    else PartsAbove(sizes, avg, imb, hi - 1) + (if sizes[hi - 1] > avg + imb then [hi - 1] else [])
  }

  /** The parts q < hi that are not above the band and whose size is under avg - imb, in increasing order. */
  function PartsBelow(sizes: seq<int>, avg: int, imb: int, hi: nat): seq<int>
    requires hi <= |sizes|
  {
    if hi == 0 then []
    else
      PartsBelow(sizes, avg, imb, hi - 1)
        + (if !(sizes[hi - 1] > avg + imb) && sizes[hi - 1] < avg - imb then [hi - 1] else [])
  }

  /** The vertices v < hi assigned to `part`, in increasing order. */
  function VerticesIn(a: seq<int>, part: int, hi: nat): seq<int>
    requires hi <= |a|
  {
    if hi == 0 then [] else VerticesIn(a, part, hi - 1) + (if a[hi - 1] == part then [hi - 1] else [])
  }

  /** Strictly increasing entries, all within 0 .. hi-1. */
  predicate IncreasingBelow(s: seq<int>, hi: int)
  {
    (forall i :: 0 <= i < |s| ==> 0 <= s[i] < hi) && (forall i, j :: 0 <= i < j < |s| ==> s[i] < s[j])
  }

  lemma {:induction false} PartsAboveExactly(sizes: seq<int>, avg: int, imb: int, hi: nat)
    requires hi <= |sizes|
    ensures forall q :: q in PartsAbove(sizes, avg, imb, hi) <==> 0 <= q < hi && sizes[q] > avg + imb
    ensures IncreasingBelow(PartsAbove(sizes, avg, imb, hi), hi)
  {
    if hi > 0 {
      PartsAboveExactly(sizes, avg, imb, hi - 1);
    }
  }

  lemma {:induction false} PartsBelowExactly(sizes: seq<int>, avg: int, imb: int, hi: nat)
    requires hi <= |sizes|
    ensures forall q :: q in PartsBelow(sizes, avg, imb, hi) <==>
      0 <= q < hi && !(sizes[q] > avg + imb) && sizes[q] < avg - imb
    ensures IncreasingBelow(PartsBelow(sizes, avg, imb, hi), hi)
  {
    if hi > 0 {
      PartsBelowExactly(sizes, avg, imb, hi - 1);
    }
  }

  lemma {:induction false} VerticesInExactly(a: seq<int>, part: int, hi: nat)
    requires hi <= |a|
    ensures forall v :: v in VerticesIn(a, part, hi) <==> 0 <= v < hi && a[v] == part
  {
    if hi > 0 {
      VerticesInExactly(a, part, hi - 1);
    }
  }

  /** A part with members has candidates: the list of its vertices is not empty. */
  lemma {:induction false} MembersGiveCandidates(a: seq<int>, part: int)
    requires Occurrences(a, part) > 0
    ensures VerticesIn(a, part, |a|) != []
  {
    OccurrencesPositive(a, part);
    var v :| 0 <= v < |a| && a[v] == part;
    VerticesInExactly(a, part, |a|);
  }

  /** The classification loop at the head of each round. */
  method ClassifyParts(sizes: array<int>, avg: int, imb: int) returns (above: seq<int>, below: seq<int>)
    ensures above == PartsAbove(sizes[..], avg, imb, sizes.Length)
    ensures below == PartsBelow(sizes[..], avg, imb, sizes.Length)
  {
    above, below := [], [];
    var q := 0;
    while q < sizes.Length
      invariant 0 <= q <= sizes.Length
      invariant above == PartsAbove(sizes[..], avg, imb, q)
      invariant below == PartsBelow(sizes[..], avg, imb, q)
    {
      var current := sizes[q];
      if current > avg + imb {
        above := above + [q];
      } else if current < avg - imb {
        below := below + [q];
      }
      q := q + 1;
    }
  }

  /** The candidate loop: every vertex of the graph currently in `part`. */
  method CollectCandidates(a: array<int>, part: int, n: int) returns (candidates: seq<int>)
    requires 0 <= n <= a.Length
    ensures candidates == VerticesIn(a[..], part, n)
  {
    candidates := [];
    var v := 0;
    while v < n
      invariant 0 <= v <= n
      invariant candidates == VerticesIn(a[..], part, v)
    {
      if a[v] == part {
        candidates := candidates + [v];
      }
      v := v + 1;
    }
  }

  /**
   * What one round does to a consistent partition: part above[i] gives one
   * vertex to part below[i] for every i < t, and a vertex that changed part
   * came from a part above the band and went to a part below it.
   */
  ghost predicate RoundEffect(a0: seq<int>, s0: seq<int>, a: seq<int>, s: seq<int>, above: seq<int>, below: seq<int>, t: int)
    requires |a| == |a0| && |s| == |s0| && 0 <= t <= |above| && t <= |below|
  {
    && (forall q :: 0 <= q < |s| ==>
          s[q] == s0[q] - (if q in above[..t] then 1 else 0) + (if q in below[..t] then 1 else 0))
    && (forall v :: 0 <= v < |a| && a[v] != a0[v] ==> a0[v] in above[..t] && a[v] in below[..t])
  }

  /** The lists a round works from: the parts above and below the band of the current sizes. */
  ghost predicate RoundLists(s: seq<int>, avg: int, imb: int, above: seq<int>, below: seq<int>)
  {
    && above == PartsAbove(s, avg, imb, |s|)
    && below == PartsBelow(s, avg, imb, |s|)
  }

  lemma {:induction false} RoundListsFacts(s: seq<int>, avg: int, imb: int, above: seq<int>, below: seq<int>)
    requires RoundLists(s, avg, imb, above, below)
    ensures IncreasingBelow(above, |s|) && IncreasingBelow(below, |s|)
    ensures forall q :: q in above ==> 0 <= q < |s| && s[q] > avg + imb
    ensures forall q :: q in below ==> 0 <= q < |s| && s[q] < avg - imb && q !in above
  {
    PartsAboveExactly(s, avg, imb, |s|);
    PartsBelowExactly(s, avg, imb, |s|);
  }

  /** One more transfer of the round extends its effect by one source and one target. */
  lemma {:induction false} RoundEffectStep(a0: seq<int>, s0: seq<int>, a: seq<int>, s: seq<int>, a': seq<int>, s': seq<int>,
                                           above: seq<int>, below: seq<int>, i: int, v: int)
    requires |a| == |a0| == |a'| && |s| == |s0| == |s'| && 0 <= i < |above| && i < |below|
    requires IncreasingBelow(above, |s|) && IncreasingBelow(below, |s|)
    requires forall q :: q in below ==> q !in above
    requires RoundEffect(a0, s0, a, s, above, below, i)
    requires 0 <= v < |a| && a[v] == above[i] && a' == a[v := below[i]]
    requires forall q :: 0 <= q < |s| ==>
      s'[q] == s[q] - (if q == above[i] then 1 else 0) + (if q == below[i] then 1 else 0)
    ensures RoundEffect(a0, s0, a', s', above, below, i + 1)
  {
    assert above[..i + 1] == above[..i] + [above[i]];
    assert below[..i + 1] == below[..i] + [below[i]];
    assert forall j :: 0 <= j < i ==> above[..i][j] < above[i];
    assert forall j :: 0 <= j < i ==> below[..i][j] < below[i];
    assert forall x :: x in below[..i] ==> x in below;
  }

  /** A part above the band that no earlier transfer of the round touched still has members. */
  lemma {:induction false} SourceStillFull(a: seq<int>, s0: seq<int>, s: seq<int>, above: seq<int>, below: seq<int>,
                                           avg: int, imb: int, i: int)
    requires |s| == |s0| && 0 <= i < |above| && i < |below| && avg >= 0 && imb >= 1
    requires IncreasingBelow(above, |s|) && IncreasingBelow(below, |s|)
    requires forall q :: q in above ==> 0 <= q < |s| && s0[q] > avg + imb
    requires forall q :: q in below ==> q !in above
    requires forall q :: 0 <= q < |s| ==>
      s[q] == s0[q] - (if q in above[..i] then 1 else 0) + (if q in below[..i] then 1 else 0)
    requires forall q :: 0 <= q < |s| ==> s[q] == Occurrences(a, q)
    ensures Occurrences(a, above[i]) > 0
  {
    assert forall j :: 0 <= j < i ==> above[..i][j] < above[i];
    assert forall x :: x in below[..i] ==> x in below;
  }

  /**
   * The transfers of one Java round: for each i below both list lengths a
   * random vertex of part above[i] is moved to part below[i] with
   * `setAssignment`. The source always has a member, so every transfer
   * happens.
   */
  method TransferRound(p: Partition, n: int, avg: int, imb: int, above: seq<int>, below: seq<int>)
    requires p.Valid() && n == p.assignments.Length && avg >= 0 && imb >= 1
    requires RoundLists(p.partSizes[..], avg, imb, above, below)
    modifies p.assignments, p.partSizes
    ensures p.Valid()
    ensures var t := if |above| < |below| then |above| else |below|;
      RoundEffect(old(p.assignments[..]), old(p.partSizes[..]), p.assignments[..], p.partSizes[..], above, below, t)
  {
    ghost var a0, s0 := p.assignments[..], p.partSizes[..];
    RoundListsFacts(s0, avg, imb, above, below);
    var i := 0;
    while i < |above| && i < |below|
      invariant 0 <= i <= |above| && i <= |below|
      invariant p.Valid() && p.partSizes.Length == |s0| && p.assignments.Length == |a0|
      invariant RoundEffect(a0, s0, p.assignments[..], p.partSizes[..], above, below, i)
    {
      TransferOne(p, n, avg, imb, a0, s0, above, below, i);
      i := i + 1;
    }
  }

  /** Transfer i of a Java round: a random member of part above[i] goes to part below[i]. */
  method TransferOne(p: Partition, n: int, avg: int, imb: int, ghost a0: seq<int>, ghost s0: seq<int>,
                     above: seq<int>, below: seq<int>, i: int)
    requires p.Valid() && n == p.assignments.Length == |a0| && |s0| == p.partSizes.Length && avg >= 0 && imb >= 1
    requires 0 <= i < |above| && i < |below|
    requires IncreasingBelow(above, |s0|) && IncreasingBelow(below, |s0|)
    requires forall q :: q in above ==> 0 <= q < |s0| && s0[q] > avg + imb
    requires forall q :: q in below ==> q !in above
    requires RoundEffect(a0, s0, p.assignments[..], p.partSizes[..], above, below, i)
    modifies p.assignments, p.partSizes
    ensures p.Valid()
    ensures RoundEffect(a0, s0, p.assignments[..], p.partSizes[..], above, below, i + 1)
  {
    var source, target := above[i], below[i];
    SourceStillFull(p.assignments[..], s0, p.partSizes[..], above, below, avg, imb, i);
    MembersGiveCandidates(p.assignments[..], source);
    var candidates := CollectCandidates(p.assignments, source, n);
    if candidates != [] {
      var pick :| 0 <= pick < |candidates|;
      var v := candidates[pick];
      VerticesInExactly(p.assignments[..], source, n);
      assert candidates[pick] in candidates;
      ghost var a, s := p.assignments[..], p.partSizes[..];
      var _ := p.SetAssignment(v, target);
      RoundEffectStep(a0, s0, a, s, p.assignments[..], p.partSizes[..], above, below, i, v);
    }
  }

  /** Neither a part above the band nor one below it: the loop's exit test. */
  predicate Settled(sizes: seq<int>, avg: int, imb: int)
  {
    (forall q :: 0 <= q < |sizes| ==> sizes[q] <= avg + imb) || (forall q :: 0 <= q < |sizes| ==> sizes[q] >= avg - imb)
  }

  lemma {:induction false} SettledWhenListEmpty(s: seq<int>, avg: int, imb: int)
    requires imb >= 0
    requires PartsAbove(s, avg, imb, |s|) == [] || PartsBelow(s, avg, imb, |s|) == []
    ensures Settled(s, avg, imb)
  {
    PartsAboveExactly(s, avg, imb, |s|);
    PartsBelowExactly(s, avg, imb, |s|);
    if PartsAbove(s, avg, imb, |s|) == [] {
      assert forall q :: 0 <= q < |s| ==> q !in PartsAbove(s, avg, imb, |s|);
    } else {
      assert forall q :: 0 <= q < |s| ==> q !in PartsBelow(s, avg, imb, |s|);
    }
  }

  /** A round moves vertices between real parts only, so the assigned count stays the same. */
  lemma {:induction false} RoundKeepsAssignedCount(a0: seq<int>, s0: seq<int>, a: seq<int>, s: seq<int>,
                                                   above: seq<int>, below: seq<int>, t: int, k: int)
    requires |a| == |a0| && |s| == |s0| == k && 0 <= t <= |above| && t <= |below|
    requires IncreasingBelow(above, k) && IncreasingBelow(below, k)
    requires RoundEffect(a0, s0, a, s, above, below, t)
    ensures AssignedCount(a, k) == AssignedCount(a0, k)
    ensures FullyAssigned(a0, k) ==> FullyAssigned(a, k)
  {
    var b := a0;
    var v := 0;
    while v < |a|
      invariant 0 <= v <= |a| && |b| == |a|
      invariant AssignedCount(b, k) == AssignedCount(a0, k)
      invariant forall u :: 0 <= u < v ==> b[u] == a[u]
      invariant forall u :: v <= u < |a| ==> b[u] == a0[u]
    {
      if a[v] != a0[v] {
        assert a0[v] in above[..t] && a[v] in below[..t];
        assert a0[v] in above && a[v] in below;
        AssignedCountUpdate(b, v, a[v], k);
        b := b[v := a[v]];
      }
      v := v + 1;
    }
    assert b == a;
    if FullyAssigned(a0, k) {
      forall u | 0 <= u < |a| ensures 0 <= a[u] < k {
        if a[u] != a0[u] {
          assert a[u] in below[..t];
          assert a[u] in below;
        }
      }
    }
  }

  /**
   * One round of the Java loop: when no part is above the band or none is
   * below it the round reports that and changes nothing; otherwise it makes
   * its transfers, which keep the vertices in real parts.
   */
  method Round(p: Partition, avg: int, imb: int) returns (settled: bool)
    requires p.Valid() && avg >= 0 && imb >= 1
    modifies p.assignments, p.partSizes
    ensures p.Valid()
    ensures settled ==> (Settled(p.partSizes[..], avg, imb) &&
      p.assignments[..] == old(p.assignments[..]) && p.partSizes[..] == old(p.partSizes[..]))
    ensures AssignedCount(p.assignments[..], p.partCount) == old(AssignedCount(p.assignments[..], p.partCount))
    ensures FullyAssigned(old(p.assignments[..]), p.partCount) ==> FullyAssigned(p.assignments[..], p.partCount)
  {
    var above, below := ClassifyParts(p.partSizes, avg, imb);
    if above == [] || below == [] {
      SettledWhenListEmpty(p.partSizes[..], avg, imb);
      return true;
    }
    ghost var a1, s1 := p.assignments[..], p.partSizes[..];
    RoundListsFacts(s1, avg, imb, above, below);
    TransferRound(p, p.assignments.Length, avg, imb, above, below);
    RoundKeepsAssignedCount(a1, s1, p.assignments[..], p.partSizes[..], above, below,
                            if |above| < |below| then |above| else |below|, p.partCount);
    return false;
  }

  /** The Java loop: rounds until one reports the partition settled, at most `maxIterations` of them. */
  method Rounds(p: Partition, avg: int, imb: int, maxIterations: nat) returns (rounds: nat)
    requires p.Valid() && avg >= 0 && imb >= 1
    modifies p.assignments, p.partSizes
    ensures p.Valid()
    ensures rounds <= maxIterations
    ensures rounds < maxIterations ==> Settled(p.partSizes[..], avg, imb)
    ensures AssignedCount(p.assignments[..], p.partCount) == old(AssignedCount(p.assignments[..], p.partCount))
    ensures FullyAssigned(old(p.assignments[..]), p.partCount) ==> FullyAssigned(p.assignments[..], p.partCount)
  {
    rounds := 0;
    while rounds < maxIterations
      invariant rounds <= maxIterations
      invariant p.Valid()
      invariant AssignedCount(p.assignments[..], p.partCount) == old(AssignedCount(p.assignments[..], p.partCount))
      invariant FullyAssigned(old(p.assignments[..]), p.partCount) ==> FullyAssigned(p.assignments[..], p.partCount)
    {
      var settled := Round(p, avg, imb);
      if settled {
        return;
      }
      rounds := rounds + 1;
    }
  }

  /**
   * `balanceRandomPartition`: nothing for an empty graph or a single
   * part; otherwise at most n/2 rounds, stopping early once no part is
   * above the band or none is below it, and the cached cut is recomputed.
   * Vertices move between real parts only, so the number of assigned
   * vertices, and with it the sum of the part sizes, does not change.
   */
  method Balance(g: Graph, p: Partition) returns (ghost rounds: nat)
    requires Csr(g) && p.Valid() && p.assignments.Length == g.vertexCount
    modifies p, p.assignments, p.partSizes
    ensures p.Valid()
    ensures g.vertexCount == 0 || p.partCount <= 1 ==>
      rounds == 0 && p.assignments[..] == old(p.assignments[..]) && p.partSizes[..] == old(p.partSizes[..]) &&
      p.cutEdges == old(p.cutEdges)
    ensures g.vertexCount > 0 && p.partCount > 1 ==>
      && rounds <= g.vertexCount / 2
      && (rounds < g.vertexCount / 2 ==>
            Settled(p.partSizes[..], AveragePartSize(g.vertexCount, p.partCount),
                    MaxImbalance(g.vertexCount, p.partCount, p.marginPercent)))
      && p.cutEdges == CutEdges(g, p.assignments[..])
      && AssignedCount(p.assignments[..], p.partCount) == old(AssignedCount(p.assignments[..], p.partCount))
      && Sum(p.partSizes[..]) == old(Sum(p.partSizes[..]))
      && (FullyAssigned(old(p.assignments[..]), p.partCount) ==> FullyAssigned(p.assignments[..], p.partCount))
  {
    rounds := 0;
    var n, k := g.vertexCount, p.partCount;
    if n == 0 || k <= 1 {
      return;
    }
    ghost var a0 := p.assignments[..];
    SizesSumToAssigned(a0, p.partSizes[..], k);
    assert p.partSizes[..][..k] == p.partSizes[..];
    var avg := AveragePartSize(p.assignments.Length, k);
    var imb := MaxImbalance(p.assignments.Length, k, p.marginPercent);
    rounds := Rounds(p, avg, imb, n / 2);
    SizesSumToAssigned(p.assignments[..], p.partSizes[..], k);
    assert p.partSizes[..][..k] == p.partSizes[..];
    p.cutEdges := CutEdges(g, p.assignments[..]);
  }
}
