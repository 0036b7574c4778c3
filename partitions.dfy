/**
 * The mutable partition of the Java `Partition` class and the C `Podzial`
 * struct: one part id per vertex (-1 when unassigned), the size of every
 * part, the cached cut-edge count and the balance margin in percent.
 */
module Partitions {
  import opened Graphs

  /** Integer division truncating toward zero, as Java and C divide. */
  function TruncDiv(x: int, d: int): (q: int)
    requires d > 0
    ensures x >= 0 ==> q == x / d
    ensures x < 0 ==> -q == (-x) / d
  {
    if x >= 0 then x / d else -((-x) / d)
  }

  /** Euclidean division has exactly one quotient and remainder. */
  lemma {:induction false} DivModUnique(n: int, k: int, q: int, r: int)
    requires k > 0 && 0 <= r < k && n == k * q + r
    ensures n / k == q && n % k == r
  {
    var q', r' := n / k, n % k;
    assert n == k * q' + r';
    if q' > q {
      assert k * q' == k * q + k * (q' - q);
      MulAtLeast(k, q' - q);
    } else if q' < q {
      assert k * q == k * q' + k * (q - q');
      MulAtLeast(k, q - q');
    }
  }

  lemma {:induction false} MulAtLeast(k: int, d: int)
    requires k > 0 && d >= 1
    ensures k * d >= k
  {
    if d > 1 {
      MulAtLeast(k, d - 1);
      assert k * d == k * (d - 1) + k;
    }
  }

  /** `getAssignment` on the contents: the part of `v`, or -1 outside the array. */
  function Part(a: seq<int>, v: int): int
  {
    if 0 <= v < |a| then a[v] else -1
  }

  /** The part sizes a consistent partition keeps for the assignment `a` over `k` parts. */
  function SizesOf(a: seq<int>, k: nat): (s: seq<int>)
    ensures |s| == k && forall p :: 0 <= p < k ==> s[p] == Occurrences(a, p)
  {
    seq(k, p => Occurrences(a, p))
  }

  /** Every vertex sits in one of the parts 0 .. k-1. */
  predicate FullyAssigned(a: seq<int>, k: int)
  {
    forall v :: 0 <= v < |a| ==> 0 <= a[v] < k
  }

  /** Number of vertices whose part id is a real part 0 .. k-1. */
  function AssignedCount(a: seq<int>, k: int): nat
  {
    if a == [] then 0 else (if 0 <= a[0] < k then 1 else 0) + AssignedCount(a[1..], k)
  }

  function Sum(s: seq<int>): int
  {
    if s == [] then 0 else Sum(s[..|s| - 1]) + s[|s| - 1]
  }

  /** `getAveragePartSize`: vertices per part, rounded down. */
  function AveragePartSize(n: int, k: int): int
    requires n >= 0 && k > 0
  {
    n / k
  }

  /** `getMaxImbalance`: margin percent of the average size, never less than one vertex. */
  function MaxImbalance(n: int, k: int, margin: int): (r: int)
    requires n >= 0 && k > 0
    ensures r >= 1
    ensures margin >= 0 ==> r * 100 >= AveragePartSize(n, k) * margin - 99
  {
    var x := TruncDiv(AveragePartSize(n, k) * margin, 100);
    if x > 1 then x else 1
  }

  /** `isBalanced`: every part size lies within MaxImbalance of the average. */
  predicate Balanced(sizes: seq<int>, n: int, margin: int)
    requires n >= 0 && |sizes| > 0
  {
    var avg, imb := AveragePartSize(n, |sizes|), MaxImbalance(n, |sizes|, margin);
    forall p :: 0 <= p < |sizes| ==> avg - imb <= sizes[p] <= avg + imb
  }

  lemma {:induction false} OccurrencesAbsent(s: seq<int>, x: int)
    requires x !in s
    ensures Occurrences(s, x) == 0
  {
    OccurrencesPositive(s, x);
  }

  /** Writing one entry moves one occurrence from the old value to the new one. */
  lemma {:induction false} OccurrencesUpdate(s: seq<int>, i: int, y: int, x: int)
    requires 0 <= i < |s|
    ensures Occurrences(s[i := y], x) ==
      Occurrences(s, x) - (if s[i] == x then 1 else 0) + (if y == x then 1 else 0)
  {
    if i > 0 {
      assert s[i := y][1..] == s[1..][i - 1 := y];
      OccurrencesUpdate(s[1..], i - 1, y, x);
    } else {
      assert s[i := y][1..] == s[1..];
    }
  }

  /** Appending one entry adds one occurrence of that value. */
  lemma {:induction false} OccurrencesAppend(s: seq<int>, y: int, x: int)
    ensures Occurrences(s + [y], x) == Occurrences(s, x) + (if y == x then 1 else 0)
  {
    if s != [] {
      assert (s + [y])[1..] == s[1..] + [y];
      OccurrencesAppend(s[1..], y, x);
    } else {
      assert (s + [y])[1..] == [];
    }
  }

  lemma {:induction false} AssignedCountStep(a: seq<int>, k: int)
    requires k >= 0
    ensures AssignedCount(a, k + 1) == AssignedCount(a, k) + Occurrences(a, k)
  {
    if a != [] {
      AssignedCountStep(a[1..], k);
    }
  }

  class Partition {
    const assignments: array<int>
    const partSizes: array<int>
    const partCount: int
    var cutEdges: int
    const marginPercent: int

    /** partSizes[p] is the number of vertices assigned to p, for every part p. */
    ghost predicate Valid()
      reads this, assignments, partSizes
    {
      && assignments != partSizes
      && partSizes.Length == partCount
      && forall p :: 0 <= p < partCount ==> partSizes[p] == Occurrences(assignments[..], p)
    }

    /** An empty partition: every vertex unassigned, every part empty, no cut edges. */
    constructor (partCount: int, numVertices: int, marginPercent: int)
      requires partCount >= 0 && numVertices >= 0
      ensures Valid() && fresh(assignments) && fresh(partSizes)
      ensures this.partCount == partCount && this.marginPercent == marginPercent && cutEdges == 0
      ensures assignments.Length == numVertices
      ensures forall v :: 0 <= v < numVertices ==> assignments[v] == -1
      ensures forall p :: 0 <= p < partCount ==> partSizes[p] == 0
    {
      var a := new int[numVertices];
      var i := 0;
      while i < numVertices
        invariant 0 <= i <= numVertices
        invariant forall v :: 0 <= v < i ==> a[v] == -1
      {
        a[i] := -1;
        i := i + 1;
      }
      var s := new int[partCount];
      i := 0;
      while i < partCount
        invariant 0 <= i <= partCount
        invariant forall p :: 0 <= p < i ==> s[p] == 0
        invariant forall v :: 0 <= v < numVertices ==> a[v] == -1
      {
        s[i] := 0;
        i := i + 1;
      }
      assignments, partSizes := a, s;
      this.partCount, this.marginPercent, cutEdges := partCount, marginPercent, 0;
      new;
      forall p | 0 <= p < partCount
        ensures partSizes[p] == Occurrences(assignments[..], p)
      {
        assert forall v :: 0 <= v < numVertices ==> assignments[..][v] == -1;
        OccurrencesAbsent(assignments[..], p);
      }
    }

    /** The constructor that takes all fields, as the loaders and `copy` use it. */
    constructor Of(assignments: array<int>, partSizes: array<int>, partCount: int, cutEdges: int, marginPercent: int)
      ensures this.assignments == assignments && this.partSizes == partSizes
      ensures this.partCount == partCount && this.cutEdges == cutEdges && this.marginPercent == marginPercent
    {
      this.assignments, this.partSizes := assignments, partSizes;
      this.partCount, this.cutEdges, this.marginPercent := partCount, cutEdges, marginPercent;
    }

    /**
     * `setAssignment`: out-of-range vertex or part is refused (the source
     * throws); otherwise the old part, when it is a real part, loses the
     * vertex and the new part gains it.
     */
    method SetAssignment(vertex: int, partId: int) returns (ok: bool)
      requires Valid()
      modifies assignments, partSizes
      ensures Valid()
      ensures ok <==> 0 <= vertex < assignments.Length && 0 <= partId < partCount
      ensures assignments[..] == if ok then old(assignments[..])[vertex := partId] else old(assignments[..])
      ensures !ok ==> partSizes[..] == old(partSizes[..])
      ensures ok ==> forall p :: 0 <= p < partCount ==>
        partSizes[p] == old(partSizes[p]) - (if p == old(assignments[vertex]) then 1 else 0) + (if p == partId then 1 else 0)
    {
      if vertex < 0 || vertex >= assignments.Length || partId < 0 || partId >= partCount {
        return false;
      }
      ghost var before := assignments[..];
      var oldPart := assignments[vertex];
      if 0 <= oldPart < partCount {
        partSizes[oldPart] := partSizes[oldPart] - 1;
      }
      partSizes[partId] := partSizes[partId] + 1;
      assignments[vertex] := partId;
      assert assignments[..] == before[vertex := partId];
      forall p | 0 <= p < partCount
        ensures partSizes[p] == Occurrences(assignments[..], p)
      {
        OccurrencesUpdate(before, vertex, partId, p);
      }
      return true;
    }

    /**
     * The C code's in-place move: the assignment and both part sizes are
     * written directly, without range checks; the vertex must be in `src`.
     */
    method Transfer(vertex: int, src: int, dst: int)
      requires Valid() && 0 <= vertex < assignments.Length && 0 <= src < partCount && 0 <= dst < partCount
      requires assignments[vertex] == src
      modifies assignments, partSizes
      ensures Valid()
      ensures assignments[..] == old(assignments[..])[vertex := dst]
      ensures forall p :: 0 <= p < partCount ==>
        partSizes[p] == old(partSizes[p]) - (if p == src then 1 else 0) + (if p == dst then 1 else 0)
    {
      ghost var before := assignments[..];
      assignments[vertex] := dst;
      partSizes[src] := partSizes[src] - 1;
      partSizes[dst] := partSizes[dst] + 1;
      assert assignments[..] == before[vertex := dst];
      forall p | 0 <= p < partCount
        ensures partSizes[p] == Occurrences(assignments[..], p)
      {
        OccurrencesUpdate(before, vertex, dst, p);
      }
    }

    /**
     * `copy(numVertices)`: fresh arrays; the assignments are cut or padded
     * with 0 to `numVertices` entries as `Arrays.copyOf` does.
     */
    method Copy(numVertices: int) returns (c: Partition)
      requires numVertices >= 0
      ensures fresh(c) && fresh(c.assignments) && fresh(c.partSizes)
      ensures c.assignments.Length == numVertices
      ensures forall v :: 0 <= v < numVertices ==> c.assignments[v] == (if v < assignments.Length then assignments[v] else 0)
      ensures c.partSizes[..] == partSizes[..]
      ensures c.partCount == partCount && c.cutEdges == cutEdges && c.marginPercent == marginPercent
      ensures Valid() && numVertices == assignments.Length ==> c.Valid() && c.assignments[..] == assignments[..]
    {
      var a := new int[numVertices];
      var i := 0;
      while i < numVertices
        invariant 0 <= i <= numVertices
        invariant forall v :: 0 <= v < i ==> a[v] == (if v < assignments.Length then assignments[v] else 0)
      {
        a[i] := if i < assignments.Length then assignments[i] else 0;
        i := i + 1;
      }
      var s := new int[partSizes.Length];
      i := 0;
      while i < partSizes.Length
        invariant 0 <= i <= partSizes.Length
        invariant forall p :: 0 <= p < i ==> s[p] == partSizes[p]
        invariant forall v :: 0 <= v < numVertices ==> a[v] == (if v < assignments.Length then assignments[v] else 0)
      {
        s[i] := partSizes[i];
        i := i + 1;
      }
      if numVertices == assignments.Length {
        assert a[..] == assignments[..];
      }
      c := new Partition.Of(a, s, partCount, cutEdges, marginPercent);
    }

    /**
     * `kopiuj_podzial`: NULL (here `null`) when asked for no vertices,
     * otherwise a copy of the first `n` assignments and all part sizes.
     */
    method CopyC(n: int) returns (c: Partition?)
      requires n <= assignments.Length
      ensures c == null <==> n <= 0
      ensures c != null ==> fresh(c) && fresh(c.assignments) && fresh(c.partSizes)
      ensures c != null ==> c.assignments[..] == assignments[..n] && c.partSizes[..] == partSizes[..]
      ensures c != null ==> c.partCount == partCount && c.cutEdges == cutEdges && c.marginPercent == marginPercent
      ensures c != null && Valid() && n == assignments.Length ==> c.Valid()
    {
      if n <= 0 {
        return null;
      }
      var a := new int[n];
      var i := 0;
      while i < n
        invariant 0 <= i <= n
        invariant a[..i] == assignments[..i]
      {
        a[i] := assignments[i];
        i := i + 1;
      }
      var s := new int[partSizes.Length];
      i := 0;
      while i < partSizes.Length
        invariant 0 <= i <= partSizes.Length
        invariant s[..i] == partSizes[..i]
        invariant a[..] == assignments[..n]
      {
        s[i] := partSizes[i];
        i := i + 1;
      }
      assert s[..] == s[..partSizes.Length];
      if n == assignments.Length {
        assert assignments[..n] == assignments[..];
      }
      c := new Partition.Of(a, s, partCount, cutEdges, marginPercent);
    }

    /** `isBalanced`: stops at the first part outside the band. */
    method IsBalanced() returns (b: bool)
      requires partCount > 0 && partSizes.Length == partCount
      ensures b <==> Balanced(partSizes[..], assignments.Length, marginPercent)
    {
      var avg := AveragePartSize(assignments.Length, partCount);
      var imb := MaxImbalance(assignments.Length, partCount, marginPercent);
      var p := 0;
      while p < partCount
        invariant 0 <= p <= partCount
        invariant forall q :: 0 <= q < p ==> avg - imb <= partSizes[q] <= avg + imb
      {
        var diff := partSizes[p] - avg;
        if (if diff < 0 then -diff else diff) > imb {
          return false;
        }
        p := p + 1;
      }
      return true;
    }
  }

  /** The part sizes of a consistent partition add up to the number of assigned vertices. */
  lemma {:induction false} SizesSumToAssigned(a: seq<int>, sizes: seq<int>, k: nat)
    requires k <= |sizes|
    requires forall p :: 0 <= p < |sizes| ==> sizes[p] == Occurrences(a, p)
    ensures Sum(sizes[..k]) == AssignedCount(a, k)
  {
    if k == 0 {
      AssignedCountEmptyRange(a);
    } else {
      SizesSumToAssigned(a, sizes, k - 1);
      assert sizes[..k][..k - 1] == sizes[..k - 1];
      AssignedCountStep(a, k - 1);
    }
  }

  lemma {:induction false} AssignedCountEmptyRange(a: seq<int>)
    ensures AssignedCount(a, 0) == 0
  {
    if a != [] {
      AssignedCountEmptyRange(a[1..]);
    }
  }
  /** Moving a vertex between two real parts keeps the number of assigned vertices. */
  lemma {:induction false} AssignedCountUpdate(a: seq<int>, i: int, y: int, k: int)
    requires 0 <= i < |a| && 0 <= a[i] < k && 0 <= y < k
    ensures AssignedCount(a[i := y], k) == AssignedCount(a, k)
  {
    if i > 0 {
      assert a[i := y][1..] == a[1..][i - 1 := y];
      AssignedCountUpdate(a[1..], i - 1, y, k);
    } else {
      assert a[i := y][1..] == a[1..];
    }
  }

  /** When every vertex is in a real part, all of them are counted. */
  lemma {:induction false} FullyAssignedCount(a: seq<int>, k: int)
    requires FullyAssigned(a, k)
    ensures AssignedCount(a, k) == |a|
  {
    if a != [] {
      assert FullyAssigned(a[1..], k) by {
        forall v | 0 <= v < |a[1..]| ensures 0 <= a[1..][v] < k {
          assert a[1..][v] == a[v + 1];
        }
      }
      FullyAssignedCount(a[1..], k);
    }
  }

  /** When every vertex sits in one of the parts and the sizes count them, the sizes add up to the vertex count. */
  lemma SizesSumToVertexCount(a: seq<int>, sizes: seq<int>)
    requires FullyAssigned(a, |sizes|)
    requires forall p :: 0 <= p < |sizes| ==> sizes[p] == Occurrences(a, p)
    ensures Sum(sizes) == |a|
  {
    FullyAssignedCount(a, |sizes|);
    SizesSumToAssigned(a, sizes, |sizes|);
    assert sizes[..|sizes|] == sizes;
  }
}
