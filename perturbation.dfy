/**
 * Perturbation of a partition, used by the hybrid search to escape local
 * optima: `Perturbation.perturbPartition` (uniform: random legal moves of
 * shuffled vertices), `Perturbation.perturbPartitionSmart` (boundary
 * vertices moved toward the part most of their neighbours are in) and the C
 * `perturbuj_podzial`. All of them work on a copy and leave the source
 * partition untouched, make only moves that `canMoveVertex` allows, and
 * recompute the cut at the end.
 */
module Perturbation {
  import opened Graphs
  import opened Partitions
  import opened PartitionUtils
  import opened MoveLogs

  /**
   * The number of moves asked for: `(int)(n * ratio)` with the ratio given
   * as num / den, raised to 1 for a positive ratio and capped at n.
   */
  function TargetMoves(n: int, num: int, den: int): (c: int)
    requires n >= 0 && den > 0
    ensures c <= n
    ensures num > 0 && n > 0 ==> c >= 1
    ensures num <= 0 ==> c <= 0
    ensures num >= 0 ==> c >= 0
  {
    ProductSign(n, num);
    var c0 := TruncDiv(n * num, den);
    var c1 := if c0 < 1 && num > 0 && n > 0 then 1 else c0;
    if c1 > n then n else c1
  }

  lemma ProductSign(n: int, num: int)
    requires n >= 0
    ensures num <= 0 ==> n * num <= 0
    ensures num >= 0 ==> n * num >= 0
  {
  }

  /** The smart strategy's count: `max(1, min((int)(b * ratio), b))` for b boundary vertices. */
  function SmartTarget(b: int, num: int, den: int): (c: int)
    requires b >= 1 && den > 0
    ensures 1 <= c <= b
  {
    var c0 := TruncDiv(b * num, den);
    var c1 := if c0 < b then c0 else b;
    if c1 > 1 then c1 else 1
  }

  /** Number of positions where two assignment sequences differ. */
  function Changed(a: seq<int>, b: seq<int>): (c: nat)
    requires |a| == |b|
    ensures c <= |a|
  {
    if a == [] then 0 else (if a[0] != b[0] then 1 else 0) + Changed(a[1..], b[1..])
  }

  /** Identical assignments differ nowhere. */
  lemma {:induction false} ChangedNone(a: seq<int>)
    ensures Changed(a, a) == 0
  {
    if a != [] {
      ChangedNone(a[1..]);
    }
  }

  /** Writing one entry changes at most one more position. */
  lemma {:induction false} ChangedUpdate(a: seq<int>, b: seq<int>, i: int, x: int)
    requires |a| == |b| && 0 <= i < |b|
    ensures Changed(a, b[i := x]) <= Changed(a, b) + 1
  {
    if i > 0 {
      assert b[i := x][1..] == b[1..][i - 1 := x];
      ChangedUpdate(a[1..], b[1..], i - 1, x);
    } else {
      assert b[i := x][1..] == b[1..];
    }
  }

  /** No entry occurs twice. */
  predicate Distinct(s: seq<int>)
  {
    s == [] || (s[0] !in s[1..] && Distinct(s[1..]))
  }

  /** `Collections.shuffle` of 0 .. n-1: every vertex exactly once, in some order. */
  predicate Shuffled(order: seq<int>, n: int)
  {
    |order| == n && (forall i :: 0 <= i < n ==> 0 <= order[i] < n) && Distinct(order)
  }

  /** The identity order is one such shuffle, so a shuffle always exists. */
  lemma {:induction false} IdentityShuffled(lo: int, n: int)
    requires 0 <= lo <= n
    ensures Distinct(seq(n - lo, i => lo + i))
    decreases n - lo
  {
    var s := seq(n - lo, i => lo + i);
    if lo < n {
      assert s[1..] == seq(n - (lo + 1), i => lo + 1 + i);
      IdentityShuffled(lo + 1, n);
    }
  }

  /** `Collections.shuffle`: some order of the vertices, not fixed by the model. */
  method Shuffle(n: nat) returns (order: seq<int>)
    ensures Shuffled(order, n)
  {
    IdentityShuffled(0, n);
    assert seq(n - 0, i => 0 + i) == seq(n, i => i);
    assert Shuffled(seq(n, i => i), n);
    order :| Shuffled(order, n);
  }

  /**
   * One committed move: `setAssignment(v, dest)` after `canMoveVertex`
   * approved it. A balanced partition stays balanced and the assignment
   * differs from `base` in at most one more place.
   */
  method Commit(r: Partition, v: int, dest: int, ghost base: seq<int>)
    requires r.Valid() && FullyAssigned(r.assignments[..], r.partCount) && |base| == r.assignments.Length
    requires 0 <= v < r.assignments.Length && 0 <= dest < r.partCount
    requires CanMoveVertex(r.assignments[..], r.partSizes[..], r.marginPercent, v, dest)
    modifies r.assignments, r.partSizes
    ensures r.Valid() && FullyAssigned(r.assignments[..], r.partCount)
    ensures r.assignments[..] == old(r.assignments[..])[v := dest]
    ensures Changed(base, r.assignments[..]) <= old(Changed(base, r.assignments[..])) + 1
    ensures old(Balanced(r.partSizes[..], r.assignments.Length, r.marginPercent)) ==>
      Balanced(r.partSizes[..], r.assignments.Length, r.marginPercent)
  {
    ghost var a0, s0 := r.assignments[..], r.partSizes[..];
    var ok := r.SetAssignment(v, dest);
    ChangedUpdate(base, a0, v, dest);
    assert r.partSizes[..] == MovedSizes(s0, a0[v], dest);
    if Balanced(s0, |a0|, r.marginPercent) {
      LegalMoveKeepsBalance(a0, s0, r.marginPercent, v, dest);
    }
  }

  /**
   * One attempt of the uniform loop: draw a part other than that of `v`
   * (giving up after 10 draws) and move `v` there if `canMoveVertex` allows.
   * The vertex moves exactly when the drawn part differs from its own and
   * the move is allowed, and then it moves to that part.
   */
  method Attempt(r: Partition, v: int, ghost base: seq<int>) returns (moved: bool, destPart: int)
    requires r.Valid() && FullyAssigned(r.assignments[..], r.partCount) && |base| == r.assignments.Length
    requires 0 <= v < r.assignments.Length
    modifies r.assignments, r.partSizes
    ensures r.Valid() && FullyAssigned(r.assignments[..], r.partCount)
    ensures moved <==> old(Legal(r, v, destPart))
    ensures moved ==> r.assignments[..] == old(r.assignments[..])[v := destPart]
    ensures !moved ==> r.assignments[..] == old(r.assignments[..]) && r.partSizes[..] == old(r.partSizes[..])
    ensures Changed(base, r.assignments[..]) <= old(Changed(base, r.assignments[..])) + (if moved then 1 else 0)
    ensures old(Balanced(r.partSizes[..], r.assignments.Length, r.marginPercent)) ==>
      Balanced(r.partSizes[..], r.assignments.Length, r.marginPercent)
  {
    var srcPart := r.assignments[v];
    destPart := srcPart;
    var partAttempts := 0;
    while destPart == srcPart && r.partCount > 1 && partAttempts < 10
      invariant 0 <= destPart < r.partCount
      decreases 10 - partAttempts
    {
      destPart :| 0 <= destPart < r.partCount;
      partAttempts := partAttempts + 1;
    }
    if destPart == srcPart ||
       !CanMoveVertex(r.assignments[..], r.partSizes[..], r.marginPercent, v, destPart) {
      return false, destPart;
    }
    Commit(r, v, destPart, base);
    moved := true;
  }

  /** Index into the shuffled list, wrapping around: `attempts % n`. */
  function Slot(i: int, n: int): (s: int)
    requires i >= 0 && n > 0
    ensures 0 <= s < n
  {
    i % n
  }

  /**
   * `perturbPartition`: null for an empty graph or a single part;
   * otherwise a copy on which, over at most 10 * target attempts, vertices
   * taken from a shuffled list get a random different part (at most 10
   * draws) and move when `canMoveVertex` allows, until `target` moves are
   * made.
   */
  method Uniform(source: Partition, g: Graph, num: int, den: int) returns (r: Partition?, ghost movesMade: int, ghost attempts: int)
    requires Csr(g) && den > 0
    requires source.Valid() && source.assignments.Length == g.vertexCount
    requires FullyAssigned(source.assignments[..], source.partCount)
    ensures r == null <==> g.vertexCount == 0 || source.partCount <= 1
    ensures r != null ==>
      && fresh(r) && fresh(r.assignments) && fresh(r.partSizes) && r.Valid()
      && r.partCount == source.partCount && r.marginPercent == source.marginPercent
      && r.assignments.Length == g.vertexCount
      && FullyAssigned(r.assignments[..], r.partCount)
      && 0 <= movesMade && (movesMade == 0 || movesMade <= TargetMoves(g.vertexCount, num, den))
      && 0 <= attempts && (attempts == 0 || attempts <= 10 * TargetMoves(g.vertexCount, num, den))
      && Changed(source.assignments[..], r.assignments[..]) <= movesMade
      && (Balanced(source.partSizes[..], g.vertexCount, source.marginPercent) ==>
            Balanced(r.partSizes[..], g.vertexCount, r.marginPercent))
      && r.cutEdges == CutEdges(g, r.assignments[..])
  {
    var n := g.vertexCount;
    movesMade, attempts := 0, 0;
    if n == 0 || source.partCount <= 1 {
      return null, movesMade, attempts;
    }
    var moves, tries := 0, 0;
    r := source.Copy(n);
    ChangedNone(source.assignments[..]);
    var target := TargetMoves(n, num, den);
    var vertexList := Shuffle(n);
    var maxAttempts := target * 10;
    while moves < target && tries < maxAttempts
      invariant fresh(r.assignments) && fresh(r.partSizes)
      invariant r.Valid() && r.assignments.Length == n && FullyAssigned(r.assignments[..], r.partCount)
      invariant 0 <= moves && (moves == 0 || moves <= target)
      invariant 0 <= tries && (tries == 0 || tries <= maxAttempts)
      invariant Changed(source.assignments[..], r.assignments[..]) <= moves
      invariant Balanced(source.partSizes[..], n, source.marginPercent) ==>
        Balanced(r.partSizes[..], n, r.marginPercent)
      decreases maxAttempts - tries
    {
      tries := tries + 1;
      var moved, _ := Attempt(r, vertexList[Slot(tries, n)], source.assignments[..]);
      if moved {
        moves := moves + 1;
      }
    }
    movesMade, attempts := moves, tries;
    r.cutEdges := CutEdges(g, r.assignments[..]);
  }

  // ---------------------------------------------------------------------
  // The smart strategy.
  // ---------------------------------------------------------------------

  /** A boundary vertex has a neighbour assigned to a different part. */
  predicate IsBoundary(g: Graph, a: seq<int>, v: int)
    requires Csr(g)
  {
    Foreign(a, Neighbors(g, v), Part(a, v))
  }

  /** Some entry of `ns` lies outside part `part`. */
  predicate Foreign(a: seq<int>, ns: seq<int>, part: int)
  {
    ns != [] && (Part(a, ns[0]) != part || Foreign(a, ns[1..], part))
  }

  /** `Foreign` is the existential it names. */
  lemma {:induction false} ForeignExists(a: seq<int>, ns: seq<int>, part: int)
    ensures Foreign(a, ns, part) <==> exists x :: x in ns && Part(a, x) != part
  {
    if ns != [] {
      ForeignExists(a, ns[1..], part);
      if Part(a, ns[0]) == part {
        forall x | x in ns && Part(a, x) != part
          ensures x in ns[1..]
        {
          var i :| 0 <= i < |ns| && ns[i] == x;
          assert i != 0;
          assert ns[1..][i - 1] == x;
        }
      }
    }
  }

  /** The boundary vertices below `hi`, in increasing order. */
  function BoundaryVertices(g: Graph, a: seq<int>, hi: nat): seq<int>
    requires Csr(g)
  {
    if hi == 0 then [] else BoundaryVertices(g, a, hi - 1) + (if IsBoundary(g, a, hi - 1) then [hi - 1] else [])
  }

  lemma {:induction false} BoundaryVerticesExactly(g: Graph, a: seq<int>, hi: nat)
    requires Csr(g)
    ensures forall v :: v in BoundaryVertices(g, a, hi) <==> 0 <= v < hi && IsBoundary(g, a, v)
  {
    if hi > 0 {
      BoundaryVerticesExactly(g, a, hi - 1);
      var prev := BoundaryVertices(g, a, hi - 1);
      var isLast := IsBoundary(g, a, hi - 1);
      assert BoundaryVertices(g, a, hi) == prev + (if isLast then [hi - 1] else []);
      forall v
        ensures v in BoundaryVertices(g, a, hi) <==> 0 <= v < hi && IsBoundary(g, a, v)
      {
        if v == hi - 1 {
          assert v !in prev;
        } else {
          assert v in BoundaryVertices(g, a, hi) <==> v in prev;
        }
      }
    }
  }

  lemma {:induction false} BoundaryInRange(g: Graph, a: seq<int>, hi: nat)
    requires Csr(g)
    ensures forall v :: v in BoundaryVertices(g, a, hi) ==> 0 <= v < hi
  {
    if hi > 0 {
      BoundaryInRange(g, a, hi - 1);
    }
  }

  /** The inner scan of the boundary loop, stopping at the first neighbour in another part. */
  method ScanBoundary(g: Graph, a: seq<int>, v: int) returns (isBoundary: bool)
    requires Csr(g)
    ensures isBoundary <==> IsBoundary(g, a, v)
  {
    var ns := Neighbors(g, v);
    var currentPart := Part(a, v);
    isBoundary := false;
    var j := 0;
    while j < |ns|
      invariant 0 <= j <= |ns|
      invariant Foreign(a, ns, currentPart) == Foreign(a, ns[j..], currentPart)
    {
      assert ns[j..][1..] == ns[j + 1..];
      if Part(a, ns[j]) != currentPart {
        isBoundary := true;
        break;
      }
      j := j + 1;
    }
  }

  /** The loop that lists the boundary vertices of the copy. */
  method CollectBoundary(g: Graph, a: seq<int>) returns (boundary: seq<int>)
    requires Csr(g)
    ensures boundary == BoundaryVertices(g, a, g.vertexCount)
  {
    boundary := [];
    var v := 0;
    while v < g.vertexCount
      invariant 0 <= v <= g.vertexCount
      invariant boundary == BoundaryVertices(g, a, v)
    {
      var isBoundary := ScanBoundary(g, a, v);
      if isBoundary {
        boundary := boundary + [v];
      }
      v := v + 1;
    }
  }

  /** Number of entries of `ns` whose part is `p`. */
  function Tally(a: seq<int>, ns: seq<int>, p: int): nat
  {
    if ns == [] then 0 else Tally(a, ns[..|ns| - 1], p) + (if Part(a, ns[|ns| - 1]) == p then 1 else 0)
  }

  /**
   * The `neighborCounts` map: a key for every part some neighbour of `v`
   * is in, mapped to the number of such neighbours.
   */
  method CountNeighborParts(g: Graph, a: seq<int>, v: int) returns (counts: map<int, int>)
    requires Csr(g)
    ensures forall p :: p in counts <==> Tally(a, Neighbors(g, v), p) > 0
    ensures forall p :: p in counts ==> counts[p] == Tally(a, Neighbors(g, v), p)
  {
    var ns := Neighbors(g, v);
    counts := map[];
    var j := 0;
    while j < |ns|
      invariant 0 <= j <= |ns|
      invariant forall p :: p in counts <==> Tally(a, ns[..j], p) > 0
      invariant forall p :: p in counts ==> counts[p] == Tally(a, ns[..j], p)
    {
      var neighborPart := Part(a, ns[j]);
      assert ns[..j + 1][..j] == ns[..j];
      counts := counts[neighborPart := (if neighborPart in counts then counts[neighborPart] else 0) + 1];
      j := j + 1;
    }
    assert ns[..|ns|] == ns;
  }

  /** A part `v` may move to: a real part other than its own that `canMoveVertex` allows. */
  predicate LegalTarget(a: seq<int>, sizes: seq<int>, margin: int, v: int, p: int)
    requires FullyAssigned(a, |sizes|) && 0 <= v < |a|
  {
    0 <= p < |sizes| && p != a[v] && CanMoveVertex(a, sizes, margin, v, p)
  }

  /** `LegalTarget` on the current state of the partition `r`. */
  predicate Legal(r: Partition, v: int, p: int)
    reads r, r.assignments, r.partSizes
    requires r.Valid() && FullyAssigned(r.assignments[..], r.partCount) && 0 <= v < r.assignments.Length
  {
    LegalTarget(r.assignments[..], r.partSizes[..], r.marginPercent, v, p)
  }

  /**
   * The smart rule for `v`: a legal part and, whenever some legal part
   * holds a neighbour of `v`, one holding the most neighbours among the
   * legal parts.
   */
  ghost predicate SmartChoice(g: Graph, a: seq<int>, sizes: seq<int>, margin: int, v: int, t: int)
    requires Csr(g) && FullyAssigned(a, |sizes|) && 0 <= v < |a|
  {
    && LegalTarget(a, sizes, margin, v, t)
    && ((exists p :: LegalTarget(a, sizes, margin, v, p) && NeighborsInPart(g, a, v, p) > 0) ==>
          && NeighborsInPart(g, a, v, t) > 0
          && forall p :: LegalTarget(a, sizes, margin, v, p) ==> NeighborsInPart(g, a, v, p) <= NeighborsInPart(g, a, v, t))
  }

  /**
   * The walk over the `neighborCounts` entries, in the map's own (arbitrary)
   * order: the result is -1 when no neighbour part is legal, otherwise a
   * legal neighbour part whose count no other legal neighbour part exceeds.
   */
  method BestNeighborPart(r: Partition, v: int, counts: map<int, int>) returns (bestPart: int)
    requires r.Valid() && FullyAssigned(r.assignments[..], r.partCount) && 0 <= v < r.assignments.Length
    requires forall p :: p in counts ==> 0 <= p < r.partCount && counts[p] >= 0
    ensures bestPart == -1 <==> forall p :: p in counts ==> !Legal(r, v, p)
    ensures bestPart != -1 ==>
      bestPart in counts && Legal(r, v, bestPart) &&
      forall p :: p in counts && Legal(r, v, p) ==> counts[p] <= counts[bestPart]
  {
    bestPart := -1;
    var maxNeighbors := -1;
    var unseen := counts.Keys;
    while unseen != {}
      invariant unseen <= counts.Keys
      invariant bestPart == -1 <==> forall p :: p in counts && p !in unseen ==> !Legal(r, v, p)
      invariant bestPart == -1 ==> maxNeighbors == -1
      invariant bestPart != -1 ==> bestPart in counts && Legal(r, v, bestPart) && maxNeighbors == counts[bestPart]
      invariant forall p :: p in counts && p !in unseen && Legal(r, v, p) ==> counts[p] <= maxNeighbors
      decreases |unseen|
    {
      PickExists(unseen);
      var part :| part in unseen;
      unseen := unseen - {part};
      var count := counts[part];
      if part != r.assignments[v] && count > maxNeighbors &&
         CanMoveVertex(r.assignments[..], r.partSizes[..], r.marginPercent, v, part) {
        bestPart := part;
        maxNeighbors := count;
      }
    }
  }

  lemma PickExists(s: set<int>)
    requires s != {}
    ensures exists x :: x in s
  {
    if forall x :: x !in s {
      assert false;
    }
  }

  /** The fallback: the parts `v` may legally move to, in increasing order. */
  method LegalParts(r: Partition, v: int) returns (validParts: seq<int>)
    requires r.Valid() && FullyAssigned(r.assignments[..], r.partCount) && 0 <= v < r.assignments.Length
    ensures forall p :: p in validParts <==> Legal(r, v, p)
  {
    validParts := [];
    var p := 0;
    while p < r.partCount
      invariant 0 <= p <= r.partCount
      invariant forall q :: q in validParts <==> 0 <= q < p && Legal(r, v, q)
    {
      if p != r.assignments[v] && CanMoveVertex(r.assignments[..], r.partSizes[..], r.marginPercent, v, p) {
        validParts := validParts + [p];
      }
      p := p + 1;
    }
  }

  /**
   * The target chosen for boundary vertex `v`: the legal neighbour part
   * with the most neighbours, else a random legal part, else -1 when no
   * legal part exists.
   */
  method ChooseTarget(g: Graph, r: Partition, v: int) returns (bestPart: int)
    requires Csr(g) && EntriesInRange(g) && r.assignments.Length == g.vertexCount
    requires r.Valid() && FullyAssigned(r.assignments[..], r.partCount) && 0 <= v < r.assignments.Length
    ensures bestPart == -1 <==> forall p :: !Legal(r, v, p)
    ensures bestPart != -1 ==> Legal(r, v, bestPart)
    ensures bestPart != -1 && (exists p :: Legal(r, v, p) && NeighborsInPart(g, r.assignments[..], v, p) > 0) ==>
      NeighborsInPart(g, r.assignments[..], v, bestPart) > 0 &&
      forall p :: Legal(r, v, p) ==> NeighborsInPart(g, r.assignments[..], v, p) <= NeighborsInPart(g, r.assignments[..], v, bestPart)
  {
    var a := r.assignments[..];
    var counts := CountNeighborParts(g, a, v);
    forall p | p in counts
      ensures 0 <= p < r.partCount && counts[p] >= 0 && counts[p] == NeighborsInPart(g, a, v, p)
    {
      TallyPositive(a, Neighbors(g, v), p);
      var x :| x in Neighbors(g, v) && Part(a, x) == p;
      var i :| 0 <= i < |Neighbors(g, v)| && Neighbors(g, v)[i] == x;
      assert g.rowPointers[v] + i < g.rowPointers[v + 1] <= |g.adjacencyList|;
      TallyIsInPart(g, a, Neighbors(g, v), p);
    }
    bestPart := BestNeighborPart(r, v, counts);
    forall p | Legal(r, v, p) && NeighborsInPart(g, a, v, p) > 0
      ensures p in counts
    {
      TallyIsInPart(g, a, Neighbors(g, v), p);
    }
    if bestPart == -1 {
      var validParts := LegalParts(r, v);
      if validParts != [] {
        var pick :| 0 <= pick < |validParts|;
        bestPart := validParts[pick];
        assert bestPart in validParts;
      } else {
        assert forall p :: p !in validParts;
      }
    }
  }

  /** With every stored neighbour a vertex, the tally of a part is `countNeighborsInPart`. */
  lemma {:induction false} TallyIsInPart(g: Graph, a: seq<int>, ns: seq<int>, p: int)
    requires forall i :: 0 <= i < |ns| ==> 0 <= ns[i] < g.vertexCount
    ensures Tally(a, ns, p) == InPart(a, g.vertexCount, ns, p)
    decreases |ns|
  {
    if ns != [] {
      TallyIsInPart(g, a, ns[..|ns| - 1], p);
      InPartAppend(a, g.vertexCount, ns[..|ns| - 1], ns[|ns| - 1], p);
      assert ns[..|ns| - 1] + [ns[|ns| - 1]] == ns;
    }
  }

  lemma {:induction false} InPartAppend(a: seq<int>, n: int, ns: seq<int>, x: int, p: int)
    ensures InPart(a, n, ns + [x], p) == InPart(a, n, ns, p) + (if 0 <= x < n && Part(a, x) == p then 1 else 0)
  {
    if ns != [] {
      assert (ns + [x])[1..] == ns[1..] + [x];
      InPartAppend(a, n, ns[1..], x, p);
    } else {
      assert ([] + [x])[1..] == [];
    }
  }

  /** A part with a positive tally is the part of some entry. */
  lemma {:induction false} TallyPositive(a: seq<int>, ns: seq<int>, p: int)
    requires Tally(a, ns, p) > 0
    ensures exists x :: x in ns && Part(a, x) == p
  {
    var last := ns[|ns| - 1];
    if Part(a, last) != p {
      TallyPositive(a, ns[..|ns| - 1], p);
      var x :| x in ns[..|ns| - 1] && Part(a, x) == p;
      assert x in ns;
    } else {
      assert last in ns;
    }
  }

  /**
   * One boundary vertex of the smart loop: move it to the target
   * `ChooseTarget` picks, unless there is none. It stays put exactly when
   * no part is legal for it, and otherwise it moves to a part the smart
   * rule allows.
   */
  method SmartStep(g: Graph, r: Partition, v: int, ghost base: seq<int>) returns (moved: bool, target: int)
    requires Csr(g) && EntriesInRange(g) && r.assignments.Length == g.vertexCount
    requires r.Valid() && FullyAssigned(r.assignments[..], r.partCount) && |base| == r.assignments.Length
    requires 0 <= v < r.assignments.Length
    modifies r.assignments, r.partSizes
    ensures r.Valid() && FullyAssigned(r.assignments[..], r.partCount)
    ensures forall u :: 0 <= u < r.assignments.Length && u != v ==> r.assignments[u] == old(r.assignments[u])
    ensures moved ==>
      old(SmartChoice(g, r.assignments[..], r.partSizes[..], r.marginPercent, v, target)) &&
      r.assignments[..] == old(r.assignments[..])[v := target]
    ensures !moved ==>
      r.assignments[..] == old(r.assignments[..]) && r.partSizes[..] == old(r.partSizes[..]) &&
      forall p :: !Legal(r, v, p)
    ensures Changed(base, r.assignments[..]) <= old(Changed(base, r.assignments[..])) + (if moved then 1 else 0)
    ensures old(Balanced(r.partSizes[..], r.assignments.Length, r.marginPercent)) ==>
      Balanced(r.partSizes[..], r.assignments.Length, r.marginPercent)
  {
    target := ChooseTarget(g, r, v);
    if target == -1 {
      assert forall p :: !Legal(r, v, p);
      return false, target;
    }
    assert SmartChoice(g, r.assignments[..], r.partSizes[..], r.marginPercent, v, target) by {
      forall p | LegalTarget(r.assignments[..], r.partSizes[..], r.marginPercent, v, p)
        ensures Legal(r, v, p)
      {
      }
    }
    Commit(r, v, target, base);
    moved := true;
  }

  /** One move of the smart loop: the vertex and the part it went to. */
  datatype Step = Step(vertex: int, target: int)

  /** The assignment reached from `a` by making the steps in order. */
  function Replay(a: seq<int>, steps: seq<Step>): (r: seq<int>)
    ensures |r| == |a|
  {
    if steps == [] then a
    else
      var s, b := steps[|steps| - 1], Replay(a, steps[..|steps| - 1]);
      if 0 <= s.vertex < |b| then b[s.vertex := s.target] else b
  }

  /** Step i went where the smart rule allows on the state the steps before it left. */
  ghost predicate SmartAt(g: Graph, a0: seq<int>, steps: seq<Step>, k: nat, margin: int, i: int)
    requires Csr(g) && 0 <= i < |steps|
  {
    var a := Replay(a0, steps[..i]);
    FullyAssigned(a, k) && 0 <= steps[i].vertex < |a| &&
    SmartChoice(g, a, SizesOf(a, k), margin, steps[i].vertex, steps[i].target)
  }

  /** Every step went where the smart rule allows on the state before it. */
  ghost predicate SmartTrace(g: Graph, a0: seq<int>, steps: seq<Step>, k: nat, margin: int)
    requires Csr(g)
  {
    forall i :: 0 <= i < |steps| ==> SmartAt(g, a0, steps, k, margin, i)
  }

  lemma {:induction false} SmartTraceAppend(g: Graph, a0: seq<int>, steps: seq<Step>, k: nat, margin: int, s: Step)
    requires Csr(g) && SmartTrace(g, a0, steps, k, margin)
    requires var a := Replay(a0, steps);
      FullyAssigned(a, k) && 0 <= s.vertex < |a| && SmartChoice(g, a, SizesOf(a, k), margin, s.vertex, s.target)
    ensures SmartTrace(g, a0, steps + [s], k, margin)
    ensures Replay(a0, steps + [s]) == Replay(a0, steps)[s.vertex := s.target]
  {
    var ext := steps + [s];
    assert ext[..|steps|] == steps;
    forall i | 0 <= i < |ext| ensures SmartAt(g, a0, ext, k, margin, i) {
      if i < |steps| {
        assert ext[..i] == steps[..i];
        assert SmartAt(g, a0, steps, k, margin, i);
      }
    }
  }

  /** `Collections.shuffle` of the boundary list: the same vertices in some order. */
  method ShuffleOf(s: seq<int>) returns (order: seq<int>)
    ensures multiset(order) == multiset(s)
    ensures |order| == |s| && forall j :: 0 <= j < |order| ==> order[j] in s
  {
    order :| multiset(order) == multiset(s);
    assert |order| == |multiset(order)| == |s|;
    forall j | 0 <= j < |order|
      ensures order[j] in s
    {
      assert order[j] in multiset(order);
    }
  }

  /**
   * The loop of the smart strategy: each of the first `count` vertices of
   * `order` goes through `SmartStep` on `r`. At most `count` vertices
   * change, all of them in `boundary`, and `steps` lists the moves made.
   */
  method SmartMoves(g: Graph, r: Partition, order: seq<int>, count: int, ghost boundary: seq<int>)
    returns (ghost steps: seq<Step>)
    requires Csr(g) && EntriesInRange(g) && r.assignments.Length == g.vertexCount
    requires r.Valid() && FullyAssigned(r.assignments[..], r.partCount) && r.partCount > 0
    requires 0 <= count <= |order| && forall j :: 0 <= j < |order| ==> order[j] in boundary
    requires forall v :: v in boundary ==> 0 <= v < g.vertexCount
    modifies r.assignments, r.partSizes
    ensures r.Valid() && FullyAssigned(r.assignments[..], r.partCount)
    ensures Changed(old(r.assignments[..]), r.assignments[..]) <= count
    ensures forall u :: 0 <= u < g.vertexCount && r.assignments[u] != old(r.assignments[u]) ==> u in boundary
    ensures old(Balanced(r.partSizes[..], g.vertexCount, r.marginPercent)) ==>
      Balanced(r.partSizes[..], g.vertexCount, r.marginPercent)
    ensures r.assignments[..] == Replay(old(r.assignments[..]), steps) && |steps| <= count
    ensures SmartTrace(g, old(r.assignments[..]), steps, r.partCount, r.marginPercent)
    ensures forall j :: 0 <= j < |steps| ==> steps[j].vertex in boundary
  {
    var n := g.vertexCount;
    ghost var a0 := r.assignments[..];
    ChangedNone(a0);
    steps := [];
    var i := 0;
    while i < count
      invariant 0 <= i <= count
      invariant r.Valid() && r.assignments.Length == n && FullyAssigned(r.assignments[..], r.partCount)
      invariant Changed(a0, r.assignments[..]) <= i
      invariant forall u :: 0 <= u < n && r.assignments[u] != a0[u] ==> u in boundary
      invariant old(Balanced(r.partSizes[..], n, r.marginPercent)) ==> Balanced(r.partSizes[..], n, r.marginPercent)
      invariant r.assignments[..] == Replay(a0, steps) && |steps| <= i
      invariant SmartTrace(g, a0, steps, r.partCount, r.marginPercent)
      invariant forall j :: 0 <= j < |steps| ==> steps[j].vertex in boundary
    {
      var v := order[i];
      assert r.partSizes[..] == SizesOf(r.assignments[..], r.partCount);
      var moved, target := SmartStep(g, r, v, a0);
      if moved {
        SmartTraceAppend(g, a0, steps, r.partCount, r.marginPercent, Step(v, target));
        steps := steps + [Step(v, target)];
      }
      i := i + 1;
    }
  }

  /** What changed, and every vertex a step moved, was a boundary vertex of the starting assignment. */
  lemma {:induction false} OnlyBoundaryMoves(g: Graph, a0: seq<int>, a1: seq<int>, steps: seq<Step>)
    requires Csr(g) && |a0| == |a1| == g.vertexCount
    requires forall u :: 0 <= u < g.vertexCount && a1[u] != a0[u] ==> u in BoundaryVertices(g, a0, g.vertexCount)
    requires forall j :: 0 <= j < |steps| ==> steps[j].vertex in BoundaryVertices(g, a0, g.vertexCount)
    ensures forall u :: 0 <= u < g.vertexCount && a1[u] != a0[u] ==> IsBoundary(g, a0, u)
    ensures forall j :: 0 <= j < |steps| ==> IsBoundary(g, a0, steps[j].vertex)
  {
    BoundaryVerticesExactly(g, a0, g.vertexCount);
  }

  /**
   * `perturbPartitionSmart`: null for an empty graph or a single part; the
   * uniform strategy when no vertex is on the boundary; otherwise the
   * first `SmartTarget` vertices of the shuffled boundary list each move to
   * their chosen target. Only boundary vertices of the source change, and
   * at most `SmartTarget` of them; `steps` lists the moves made, each to a
   * part the smart rule allows on the state the moves before it left.
   */
  method Smart(source: Partition, g: Graph, num: int, den: int) returns (r: Partition?, ghost steps: seq<Step>)
    requires Csr(g) && EntriesInRange(g) && den > 0
    requires source.Valid() && source.assignments.Length == g.vertexCount
    requires FullyAssigned(source.assignments[..], source.partCount)
    ensures r == null <==> g.vertexCount == 0 || source.partCount <= 1
    ensures r != null ==>
      && fresh(r) && fresh(r.assignments) && fresh(r.partSizes) && r.Valid()
      && r.partCount == source.partCount && r.marginPercent == source.marginPercent
      && r.assignments.Length == g.vertexCount
      && FullyAssigned(r.assignments[..], r.partCount)
      && (Balanced(source.partSizes[..], g.vertexCount, source.marginPercent) ==>
            Balanced(r.partSizes[..], g.vertexCount, r.marginPercent))
      && r.cutEdges == CutEdges(g, r.assignments[..])
    ensures r != null && BoundaryVertices(g, source.assignments[..], g.vertexCount) != [] ==>
      && Changed(source.assignments[..], r.assignments[..]) <=
           SmartTarget(|BoundaryVertices(g, source.assignments[..], g.vertexCount)|, num, den)
      && forall u :: 0 <= u < g.vertexCount && r.assignments[u] != source.assignments[u] ==>
           IsBoundary(g, source.assignments[..], u)
    ensures r != null && BoundaryVertices(g, source.assignments[..], g.vertexCount) != [] ==>
      && r.assignments[..] == Replay(source.assignments[..], steps)
      && SmartTrace(g, source.assignments[..], steps, source.partSizes.Length, source.marginPercent)
      && |steps| <= SmartTarget(|BoundaryVertices(g, source.assignments[..], g.vertexCount)|, num, den)
      && forall i :: 0 <= i < |steps| ==> IsBoundary(g, source.assignments[..], steps[i].vertex)
  {
    var n := g.vertexCount;
    steps := [];
    if n == 0 || source.partCount <= 1 {
      return null, steps;
    }
    r := source.Copy(n);
    ghost var a0 := source.assignments[..];
    var boundary := CollectBoundary(g, r.assignments[..]);
    assert boundary == BoundaryVertices(g, a0, n);
    if boundary == [] {
      ghost var movesMade, attempts;
      r, movesMade, attempts := Uniform(source, g, num, den);
      return r, steps;
    }
    BoundaryInRange(g, a0, n);
    var verticesToPerturb := SmartTarget(|boundary|, num, den);
    var order := ShuffleOf(boundary);
    steps := SmartMoves(g, r, order, verticesToPerturb, boundary);
    OnlyBoundaryMoves(g, a0, r.assignments[..], steps);
    r.cutEdges := CutEdges(g, r.assignments[..]);
  }

  // ---------------------------------------------------------------------
  // perturbuj_podzial (C).
  // ---------------------------------------------------------------------

  /**
   * One attempt of the C loop: a drawn vertex and a drawn part other than
   * its own; the move is made, with the three direct writes, unless the
   * destination is full or the source part is at its minimum.
   */
  method AttemptC(r: Partition, v: int, destPart: int, ghost base: seq<int>) returns (moved: bool)
    requires r.Valid() && FullyAssigned(r.assignments[..], r.partCount) && |base| == r.assignments.Length
    requires 0 <= v < r.assignments.Length && 0 <= destPart < r.partCount && destPart != r.assignments[v]
    modifies r.assignments, r.partSizes
    ensures r.Valid() && FullyAssigned(r.assignments[..], r.partCount)
    ensures moved <==> old(Legal(r, v, destPart))
    ensures moved ==> r.assignments[..] == old(r.assignments[..])[v := destPart]
    ensures !moved ==> r.assignments[..] == old(r.assignments[..]) && r.partSizes[..] == old(r.partSizes[..])
    ensures Changed(base, r.assignments[..]) <= old(Changed(base, r.assignments[..])) + (if moved then 1 else 0)
    ensures old(Balanced(r.partSizes[..], r.assignments.Length, r.marginPercent)) ==>
      Balanced(r.partSizes[..], r.assignments.Length, r.marginPercent)
  {
    var n, k := r.assignments.Length, r.partCount;
    var avg := AveragePartSize(n, k);
    var imb := MaxImbalance(n, k, r.marginPercent);
    var srcPart := r.assignments[v];
    if r.partSizes[destPart] >= avg + imb || r.partSizes[srcPart] <= avg - imb {
      return false;
    }
    ghost var a0, s0 := r.assignments[..], r.partSizes[..];
    r.Transfer(v, srcPart, destPart);
    ChangedUpdate(base, a0, v, destPart);
    assert r.partSizes[..] == MovedSizes(s0, srcPart, destPart);
    if Balanced(s0, n, r.marginPercent) {
      LegalMoveKeepsBalance(a0, s0, r.marginPercent, v, destPart);
    }
    moved := true;
  }

  /**
   * `perturbuj_podzial`: the same contract as the Java uniform strategy,
   * with random vertices drawn with repetition and an unbounded redraw of
   * the destination part.
   */
  method PerturbC(source: Partition, g: Graph, num: int, den: int) returns (r: Partition?, ghost movesMade: int, ghost attempts: int)
    requires Csr(g) && den > 0
    requires source.Valid() && source.assignments.Length == g.vertexCount
    requires FullyAssigned(source.assignments[..], source.partCount)
    ensures r == null <==> g.vertexCount == 0 || source.partCount <= 1
    ensures r != null ==>
      && fresh(r) && fresh(r.assignments) && fresh(r.partSizes) && r.Valid()
      && r.partCount == source.partCount && r.marginPercent == source.marginPercent
      && r.assignments.Length == g.vertexCount
      && FullyAssigned(r.assignments[..], r.partCount)
      && 0 <= movesMade && (movesMade == 0 || movesMade <= TargetMoves(g.vertexCount, num, den))
      && 0 <= attempts && (attempts == 0 || attempts <= 10 * TargetMoves(g.vertexCount, num, den))
      && Changed(source.assignments[..], r.assignments[..]) <= movesMade
      && (Balanced(source.partSizes[..], g.vertexCount, source.marginPercent) ==>
            Balanced(r.partSizes[..], g.vertexCount, r.marginPercent))
      && r.cutEdges == CutEdges(g, r.assignments[..])
  {
    var n := g.vertexCount;
    movesMade, attempts := 0, 0;
    if n == 0 || source.partCount <= 1 {
      return null, movesMade, attempts;
    }
    r := source.CopyC(n);
    assert source.assignments[..n] == source.assignments[..];
    ChangedNone(source.assignments[..]);
    var target := TargetMoves(n, num, den);
    var moves, tries := 0, 0;
    var maxAttempts := target * 10;
    while moves < target && tries < maxAttempts
      invariant fresh(r.assignments) && fresh(r.partSizes)
      invariant r.Valid() && r.assignments.Length == n && FullyAssigned(r.assignments[..], r.partCount)
      invariant r.partCount == source.partCount
      invariant 0 <= moves && (moves == 0 || moves <= target)
      invariant 0 <= tries && (tries == 0 || tries <= maxAttempts)
      invariant Changed(source.assignments[..], r.assignments[..]) <= moves
      invariant Balanced(source.partSizes[..], n, source.marginPercent) ==>
        Balanced(r.partSizes[..], n, r.marginPercent)
      decreases maxAttempts - tries
    {
      tries := tries + 1;
      var v :| 0 <= v < n;
      var destPart :| 0 <= destPart < r.partCount && destPart != r.assignments[v];
      var moved := AttemptC(r, v, destPart, source.assignments[..]);
      if moved {
        moves := moves + 1;
      }
    }
    movesMade, attempts := moves, tries;
    r.cutEdges := CutEdges(g, r.assignments[..]);
  }
}
