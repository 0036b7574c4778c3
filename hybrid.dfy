/**
 * The hybrid search (`HybridAlgorithm` in Java, `znajdz_najlepszy_podzial`
 * in C): every deterministic initialiser and a number of random ones, each
 * improved by Kernighan-Lin, then a few perturbation rounds of the best
 * partition found. The best-so-far is replaced only by a strictly smaller
 * cut, so the result's cut is the smallest cut any candidate reached.
 */
module Hybrid {
  import opened Wrappers
  import opened Graphs
  import opened Partitions
  import opened PartitionUtils
  import opened KernighanLin
  import opened KernighanLinC
  import opened Initializers
  import opened Perturbation

  // ---------------------------------------------------------------------
  // The adaptive number of random trials (Java and C share the formula).
  // ---------------------------------------------------------------------

  /**
   * `calculateAdaptiveRandomTrials` / `oblicz_adaptacyjna_liczbe_prob`:
   * 5, 4 or 3 trials by density, up to two more for many parts, one more
   * when no partition is known yet or the best cut exceeds half the edges.
   * `best` is None where the source passes its `Integer.MAX_VALUE` /
   * `INT_MAX` "nothing yet" marker.
   */
  function AdaptiveRandomTrials(g: Graph, numParts: int, best: Option<int>): (t: int)
    ensures 3 <= t <= 8
    ensures numParts > 10 && (best.None? || best.value > TruncDiv(g.edgeCount, 2)) ==> t >= 6
    ensures DensityBelow(g, 1, 100) ==> t >= 5
    ensures !DensityBelow(g, 1, 10) && numParts <= 5 && best.Some? && best.value <= TruncDiv(g.edgeCount, 2) ==> t == 3
  {
    var base := if DensityBelow(g, 1, 100) then 5 else if DensityBelow(g, 1, 10) then 4 else 3;
    var forParts := if numParts > 10 then 2 else if numParts > 5 then 1 else 0;
    var forBest := if best.None? || best.value > TruncDiv(g.edgeCount, 2) then 1 else 0;
    base + forParts + forBest
  }

  /** Below 1% density is also below 10%. */
  lemma DensityBelowWidens(g: Graph)
    ensures DensityBelow(g, 1, 100) ==> DensityBelow(g, 1, 10)
  {
  }

  /** A sparser graph on the same vertices never gets fewer trials. */
  lemma {:induction false} SparserGetsMoreTrials(g1: Graph, g2: Graph, numParts: int, best: Option<int>)
    requires g1.vertexCount == g2.vertexCount && g1.edgeCount <= g2.edgeCount
    ensures AdaptiveRandomTrials(g1, numParts, best) >= AdaptiveRandomTrials(g2, numParts, best)
  {
    DensityBelowWidens(g1);
    DensityBelowWidens(g2);
    HalfMonotone(g1.edgeCount, g2.edgeCount);
    DensityMonotone(g1, g2, 1, 100);
    DensityMonotone(g1, g2, 1, 10);
  }

  lemma DensityMonotone(g1: Graph, g2: Graph, num: int, den: int)
    requires g1.vertexCount == g2.vertexCount && g1.edgeCount <= g2.edgeCount && den > 0
    ensures DensityBelow(g2, num, den) ==> DensityBelow(g1, num, den)
  {
    if g1.vertexCount > 1 {
      MulMonotone(den, 2 * g1.edgeCount, 2 * g2.edgeCount);
    }
  }

  lemma MulMonotone(d: int, a: int, b: int)
    requires d > 0 && a <= b
    ensures a * d <= b * d
  {
  }

  lemma HalfMonotone(x: int, y: int)
    requires x <= y
    ensures TruncDiv(x, 2) <= TruncDiv(y, 2)
  {
  }

  /** More parts never mean fewer trials, and knowing no partition yet never means fewer. */
  lemma MorePartsMoreTrials(g: Graph, k1: int, k2: int, best: Option<int>)
    requires k1 <= k2
    ensures AdaptiveRandomTrials(g, k1, best) <= AdaptiveRandomTrials(g, k2, best)
    ensures AdaptiveRandomTrials(g, k1, None) >= AdaptiveRandomTrials(g, k1, best)
  {
  }

  /** The random trials actually run: capped at 2 above 10000 vertices. */
  function CappedTrials(n: int, trials: int): (t: int)
    ensures t <= trials && (n > 10000 ==> t <= 2)
    ensures n <= 10000 || trials <= 2 ==> t == trials
  {
    if n > 10000 && trials > 2 then 2 else trials
  }

  /** Perturbation rounds: 2, or 3 above 1000 vertices. */
  function PerturbationRounds(n: int): (r: int)
    ensures 2 <= r <= 3 && (r == 3 <==> n > 1000)
  {
    if n > 1000 then 3 else 2
  }

  /** The perturbation ratio of round i, in hundredths: 0.15 first, 0.10 afterwards. */
  function RatioPercent(i: int): (num: int)
    ensures num == 15 || num == 10
    ensures num == 15 <==> i == 0
  {
    if i == 0 then 15 else 10
  }

  // ---------------------------------------------------------------------
  // Best-so-far tracking.
  // ---------------------------------------------------------------------

  /** The modulo layout: vertex v in part v % k. */
  function ModuloLayout(n: nat, k: int): (a: seq<int>)
    requires k > 0
    ensures |a| == n && FullyAssigned(a, k)
  {
    seq(n, v requires 0 <= v => v % k)
  }

  /** `c` is one of `cuts` and no entry of `cuts` is smaller. */
  predicate Lowest(c: int, cuts: seq<int>)
  {
    c in cuts && forall x :: x in cuts ==> c <= x
  }

  /** A candidate's starting assignment and the assignment Kernighan-Lin refined it to. */
  datatype Trial = Trial(start: seq<int>, refined: seq<int>)

  /**
   * `t.refined` is a refinement of `t.start` on g: both cover the n
   * vertices, the refined one keeps every vertex in one of the k parts, and
   * on an undirected graph its cut is no higher.
   */
  ghost predicate Refines(g: Graph, t: Trial, k: int)
    requires Csr(g)
  {
    && |t.start| == |t.refined| == g.vertexCount && FullyAssigned(t.refined, k)
    && (Undirected(g) ==> CutEdges(g, t.refined) <= CutEdges(g, t.start))
  }

  /**
   * A finished candidate: a consistent partition of g into `k` parts with
   * margin `margin`, every vertex in a real part and the cached cut equal
   * to the recomputed one.
   */
  ghost predicate Sound(g: Graph, p: Partition, k: int, margin: int)
    reads p, p.assignments, p.partSizes
  {
    && Csr(g) && p.Valid() && p.assignments.Length == g.vertexCount
    && p.partCount == k && p.marginPercent == margin
    && FullyAssigned(p.assignments[..], k)
    && p.cutEdges == CutEdges(g, p.assignments[..])
  }

  /**
   * The comparison after each candidate: the candidate becomes the best
   * when there is none yet or its cut is strictly smaller.
   */
  method Keep(best: Partition?, ghost cuts: seq<int>, candidate: Partition) returns (newBest: Partition, ghost newCuts: seq<int>)
    requires best == null ==> cuts == []
    requires best != null ==> Lowest(best.cutEdges, cuts)
    ensures newCuts == cuts + [candidate.cutEdges]
    ensures Lowest(newBest.cutEdges, newCuts)
    ensures newBest == candidate || newBest == best
    ensures best != null && candidate.cutEdges < best.cutEdges ==> newBest == candidate
    ensures best != null && candidate.cutEdges >= best.cutEdges ==> newBest == best
  {
    if best == null || candidate.cutEdges < best.cutEdges {
      newBest := candidate;
    } else {
      newBest := best;
    }
    newCuts := cuts + [candidate.cutEdges];
  }

  /** The arrays and objects of two partitions are distinct. */
  predicate Apart(p: Partition, q: Partition)
  {
    p != q && {p.assignments, p.partSizes} !! {q.assignments, q.partSizes}
  }

  /** A candidate improved by `optimizeWithKernighanLin(graph, p, 0)` and compared with the best. */
  method Evaluate(g: Graph, candidate: Partition, best: Partition?, ghost cuts: seq<int>) returns (newBest: Partition, ghost newCuts: seq<int>, ghost trial: Trial)
    requires Csr(g) && candidate.Valid() && candidate.assignments.Length == g.vertexCount
    requires FullyAssigned(candidate.assignments[..], candidate.partCount)
    requires candidate.cutEdges == CutEdges(g, candidate.assignments[..])
    requires best == null ==> cuts == []
    requires best != null ==>
      Apart(best, candidate) && Sound(g, best, candidate.partCount, candidate.marginPercent) && Lowest(best.cutEdges, cuts)
    modifies candidate, candidate.assignments, candidate.partSizes
    ensures Sound(g, newBest, candidate.partCount, candidate.marginPercent)
    ensures newBest == candidate || newBest == best
    ensures |newCuts| == |cuts| + 1 && newCuts[..|cuts|] == cuts && Lowest(newBest.cutEdges, newCuts)
    ensures trial.start == old(candidate.assignments[..]) && Refines(g, trial, candidate.partCount)
    ensures newCuts[|cuts|] == CutEdges(g, trial.refined)
  {
    ghost var start := candidate.assignments[..];
    ghost var passes := Optimize(g, candidate, 0);
    trial := Trial(start, candidate.assignments[..]);
    newBest, newCuts := Keep(best, cuts, candidate);
    assert newCuts[..|cuts|] == cuts;
  }

  /** The same step in the C driver, with `algorytm_kernighan_lin`. */
  method EvaluateC(g: Graph, candidate: Partition, best: Partition?, ghost cuts: seq<int>) returns (newBest: Partition, ghost newCuts: seq<int>, ghost trial: Trial)
    requires Csr(g) && candidate.Valid() && candidate.assignments.Length == g.vertexCount
    requires FullyAssigned(candidate.assignments[..], candidate.partCount)
    requires candidate.cutEdges == CutEdges(g, candidate.assignments[..])
    requires best == null ==> cuts == []
    requires best != null ==>
      Apart(best, candidate) && Sound(g, best, candidate.partCount, candidate.marginPercent) && Lowest(best.cutEdges, cuts)
    modifies candidate, candidate.assignments, candidate.partSizes
    ensures Sound(g, newBest, candidate.partCount, candidate.marginPercent)
    ensures newBest == candidate || newBest == best
    ensures |newCuts| == |cuts| + 1 && newCuts[..|cuts|] == cuts && Lowest(newBest.cutEdges, newCuts)
    ensures trial.start == old(candidate.assignments[..]) && Refines(g, trial, candidate.partCount)
    ensures newCuts[|cuts|] == CutEdges(g, trial.refined)
  {
    ghost var start := candidate.assignments[..];
    ghost var passes := OptimizeC(g, candidate);
    trial := Trial(start, candidate.assignments[..]);
    newBest, newCuts := Keep(best, cuts, candidate);
    assert newCuts[..|cuts|] == cuts;
  }

  /** A later list of cuts extends an earlier one and its lowest is no higher. */
  predicate Extends(newCuts: seq<int>, cuts: seq<int>)
  {
    |newCuts| >= |cuts| && newCuts[..|cuts|] == cuts
  }

  // ---------------------------------------------------------------------
  // findBestPartitionHybrid (Java).
  // ---------------------------------------------------------------------

  /**
   * The recorded cuts begin with the refined cuts of the deterministic
   * starts: the cut `cuts[i]` is the cut of `trials[i].refined`, a
   * Kernighan-Lin refinement of `trials[i].start`.
   */
  ghost predicate Recorded(g: Graph, cuts: seq<int>, trials: seq<Trial>, k: int)
    requires Csr(g)
  {
    |trials| <= |cuts| && forall i :: 0 <= i < |trials| ==> Refines(g, trials[i], k) && cuts[i] == CutEdges(g, trials[i].refined)
  }

  /**
   * Step 1: modulo, sequential and DFS, each improved by Kernighan-Lin. The
   * three starts are the modulo layout, the sequential layout and a layout
   * of the depth-first initialiser's shape.
   */
  method DeterministicStage(g: Graph, numParts: int, marginPercent: int) returns (best: Partition, ghost cuts: seq<int>, ghost trials: seq<Trial>)
    requires Csr(g) && EntriesInRange(g) && g.vertexCount > 0 && numParts > 0
    ensures fresh(best) && fresh(best.assignments) && fresh(best.partSizes)
    ensures Sound(g, best, numParts, marginPercent) && Lowest(best.cutEdges, cuts) && |cuts| == 3
    ensures |trials| == 3 && Recorded(g, cuts, trials, numParts)
    ensures trials[0].start == ModuloLayout(g.vertexCount, numParts)
    ensures SequentialLayout(g.vertexCount, numParts, trials[1].start)
    ensures exists last :: GrownLayout(g.vertexCount, numParts, trials[2].start, last)
  {
    var b: Partition;
    b, cuts, trials := ModuloAndSequential(g, numParts, marginPercent);
    var dfs, last := Dfs(g, numParts, marginPercent);
    assert GrownLayout(g.vertexCount, numParts, dfs.assignments[..], last);
    ghost var trial;
    best, cuts, trial := Evaluate(g, dfs, b, cuts);
    trials := trials + [trial];
  }

  /** The first two deterministic candidates: the modulo and the sequential start. */
  method ModuloAndSequential(g: Graph, numParts: int, marginPercent: int) returns (best: Partition, ghost cuts: seq<int>, ghost trials: seq<Trial>)
    requires Csr(g) && g.vertexCount > 0 && numParts > 0
    ensures fresh(best) && fresh(best.assignments) && fresh(best.partSizes)
    ensures Sound(g, best, numParts, marginPercent) && Lowest(best.cutEdges, cuts) && |cuts| == 2
    ensures |trials| == 2 && Recorded(g, cuts, trials, numParts)
    ensures trials[0].start == ModuloLayout(g.vertexCount, numParts)
    ensures SequentialLayout(g.vertexCount, numParts, trials[1].start)
  {
    var modulo := Modulo(g, numParts, marginPercent);
    assert modulo.assignments[..] == ModuloLayout(g.vertexCount, numParts);
    var b: Partition?;
    ghost var first, second;
    b, cuts, first := Evaluate(g, modulo, null, []);
    var sequential := Sequential(g, numParts, marginPercent);
    BlocksFullyAssigned(g.vertexCount, numParts, sequential.assignments[..]);
    best, cuts, second := Evaluate(g, sequential, b, cuts);
    trials := [first, second];
  }

  /** A layout that puts every vertex in its block leaves no vertex unassigned. */
  lemma {:induction false} BlocksFullyAssigned(n: int, k: int, a: seq<int>)
    requires n >= 0 && k > 0 && |a| == n
    requires forall v :: 0 <= v < n ==> InBlock(n, k, v, a[v])
    ensures FullyAssigned(a, k)
  {
  }

  /** Step 2: `trials` random initialisations, each improved by Kernighan-Lin. */
  method RandomStage(g: Graph, best: Partition, ghost cuts: seq<int>, trials: int) returns (newBest: Partition, ghost newCuts: seq<int>)
    requires Sound(g, best, best.partCount, best.marginPercent) && Lowest(best.cutEdges, cuts)
    requires g.vertexCount > 0 && best.partCount > 0
    ensures Sound(g, newBest, best.partCount, best.marginPercent) && Lowest(newBest.cutEdges, newCuts)
    ensures newBest == best || (fresh(newBest) && fresh(newBest.assignments) && fresh(newBest.partSizes))
    ensures Extends(newCuts, cuts) && |newCuts| == |cuts| + (if trials > 0 then trials else 0)
  {
    newBest, newCuts := best, cuts;
    var seed := 0;
    while seed < trials
      invariant 0 <= seed && (seed <= trials || seed == 0)
      invariant Sound(g, newBest, best.partCount, best.marginPercent) && Lowest(newBest.cutEdges, newCuts)
      invariant newBest == best || (fresh(newBest) && fresh(newBest.assignments) && fresh(newBest.partSizes))
      invariant Extends(newCuts, cuts) && |newCuts| == |cuts| + seed
    {
      var candidate, rounds := RandomStart(g, best.partCount, best.marginPercent);
      ghost var before := newCuts;
      ghost var trial;
      newBest, newCuts, trial := Evaluate(g, candidate, newBest, newCuts);
      assert newCuts[..|cuts|] == before[..|cuts|];
      seed := seed + 1;
    }
  }

  /**
   * Step 3: perturbation rounds of the current best (uniform in even
   * rounds, smart in odd ones), each copy improved by Kernighan-Lin. The
   * best itself is never modified.
   */
  method PerturbationStage(g: Graph, best: Partition, ghost cuts: seq<int>, rounds: int) returns (newBest: Partition, ghost newCuts: seq<int>)
    requires EntriesInRange(g)
    requires Sound(g, best, best.partCount, best.marginPercent) && Lowest(best.cutEdges, cuts)
    ensures Sound(g, newBest, best.partCount, best.marginPercent) && Lowest(newBest.cutEdges, newCuts)
    ensures newBest == best || (fresh(newBest) && fresh(newBest.assignments) && fresh(newBest.partSizes))
    ensures Extends(newCuts, cuts)
  {
    newBest, newCuts := best, cuts;
    var i := 0;
    while i < rounds
      invariant Sound(g, newBest, best.partCount, best.marginPercent) && Lowest(newBest.cutEdges, newCuts)
      invariant newBest == best || (fresh(newBest) && fresh(newBest.assignments) && fresh(newBest.partSizes))
      invariant Extends(newCuts, cuts)
    {
      var perturbed: Partition?;
      if i % 2 == 0 {
        ghost var movesMade, attempts;
        perturbed, movesMade, attempts := Uniform(newBest, g, RatioPercent(i), 100);
      } else {
        ghost var steps;
        perturbed, steps := Smart(newBest, g, RatioPercent(i), 100);
      }
      if perturbed != null {
        ghost var before := newCuts;
        ghost var trial;
        newBest, newCuts, trial := Evaluate(g, perturbed, newBest, newCuts);
        assert newCuts[..|cuts|] == before[..|cuts|];
      }
      i := i + 1;
    }
  }

  /** Every cut recorded after the first ones is still no lower than the lowest. */
  lemma {:induction false} LowestBelowFirst(c: int, cuts: seq<int>, first: seq<int>, i: int)
    requires Lowest(c, cuts) && Extends(cuts, first) && 0 <= i < |first|
    ensures cuts[i] == first[i] && c <= first[i]
  {
    assert cuts[..|first|][i] == cuts[i];
    assert cuts[i] in cuts;
  }

  /** Extending an extension of `a` extends `a`. */
  lemma {:induction false} ExtendsTransitive(c: seq<int>, b: seq<int>, a: seq<int>)
    requires Extends(c, b) && Extends(b, a)
    ensures Extends(c, a)
  {
    assert c[..|a|] == c[..|b|][..|a|];
  }

  /**
   * `findBestPartitionHybridSilent` and `findBestPartitionHybrid`, which run
   * the same search (the second prints its progress and throws where the
   * first returns null): null for an empty graph, no parts or a negative
   * margin; otherwise a fresh partition whose cut is the lowest of all
   * candidates' cuts (`cuts` lists them in the order tried) and is correct
   * as cached. The first three cuts are those of the refined modulo,
   * sequential and depth-first starts (`trials`), so on an undirected graph
   * the result is no worse than any of the three starts.
   */
  method FindBest(g: Graph, numParts: int, marginPercent: int) returns (best: Partition?, ghost cuts: seq<int>, ghost trials: seq<Trial>)
    requires Csr(g) && EntriesInRange(g)
    ensures best == null <==> g.vertexCount <= 0 || numParts <= 0 || marginPercent < 0
    ensures best != null ==>
      && fresh(best) && fresh(best.assignments) && fresh(best.partSizes)
      && Sound(g, best, numParts, marginPercent) && Lowest(best.cutEdges, cuts)
      && |cuts| >= 5 && |trials| == 3 && Recorded(g, cuts, trials, numParts)
      && trials[0].start == ModuloLayout(g.vertexCount, numParts)
      && SequentialLayout(g.vertexCount, numParts, trials[1].start)
      && (exists last :: GrownLayout(g.vertexCount, numParts, trials[2].start, last))
    ensures best != null ==> forall i :: 0 <= i < 3 ==> best.cutEdges <= CutEdges(g, trials[i].refined)
    ensures best != null && Undirected(g) ==>
      && best.cutEdges <= CutEdges(g, ModuloLayout(g.vertexCount, numParts))
      && (forall a :: SequentialLayout(g.vertexCount, numParts, a) ==> best.cutEdges <= CutEdges(g, a))
      && best.cutEdges <= CutEdges(g, trials[2].start)
  {
    var n := g.vertexCount;
    cuts, trials := [], [];
    if n <= 0 || numParts <= 0 || marginPercent < 0 {
      return null, cuts, trials;
    }
    var b: Partition;
    ghost var c: seq<int>;
    b, c, trials := DeterministicStage(g, numParts, marginPercent);
    ghost var first := c;
    var count := AdaptiveRandomTrials(g, numParts, Some(b.cutEdges));
    count := CappedTrials(n, count);
    b, c := RandomStage(g, b, c, count);
    ghost var middle := c;
    b, c := PerturbationStage(g, b, c, PerturbationRounds(n));
    ExtendsTransitive(c, middle, first);
    b.cutEdges := CutEdges(g, b.assignments[..]);
    best, cuts := b, c;
    forall i | 0 <= i < 3
      ensures cuts[i] == CutEdges(g, trials[i].refined) && best.cutEdges <= cuts[i]
    {
      LowestBelowFirst(best.cutEdges, cuts, first, i);
    }
    if Undirected(g) {
      forall a | SequentialLayout(n, numParts, a)
        ensures best.cutEdges <= CutEdges(g, a)
      {
        SequentialLayoutUnique(n, numParts, a, trials[1].start);
      }
    }
  }

  // ---------------------------------------------------------------------
  // znajdz_najlepszy_podzial (C).
  // ---------------------------------------------------------------------

  /** Step 1 in C: modulo and sequential only. */
  method DeterministicStageC(g: Graph, k: int, margin: int) returns (best: Partition, ghost cuts: seq<int>, ghost trials: seq<Trial>)
    requires Csr(g) && g.vertexCount > 0 && k > 0
    ensures fresh(best) && fresh(best.assignments) && fresh(best.partSizes)
    ensures Sound(g, best, k, margin) && Lowest(best.cutEdges, cuts) && |cuts| == 2
    ensures |trials| == 2 && Recorded(g, cuts, trials, k)
    ensures trials[0].start == ModuloLayout(g.vertexCount, k)
    ensures SequentialLayout(g.vertexCount, k, trials[1].start)
  {
    var n := g.vertexCount;
    var modulo := ModuloC(g, k, margin);
    assert modulo.assignments[..] == ModuloLayout(n, k);
    var b: Partition?;
    ghost var first, second;
    b, cuts, first := EvaluateC(g, modulo, null, []);
    var sequential := SequentialC(g, k, margin);
    BlocksFullyAssigned(n, k, sequential.assignments[..]);
    b, cuts, second := EvaluateC(g, sequential, b, cuts);
    best, trials := b, [first, second];
  }

  /** Step 2 in C: random initialisations, with the single-part cut written (see the findings). */
  method RandomStageC(g: Graph, best: Partition, ghost cuts: seq<int>, trials: int) returns (newBest: Partition, ghost newCuts: seq<int>)
    requires Sound(g, best, best.partCount, best.marginPercent) && Lowest(best.cutEdges, cuts)
    requires g.vertexCount > 0 && best.partCount > 0
    ensures Sound(g, newBest, best.partCount, best.marginPercent) && Lowest(newBest.cutEdges, newCuts)
    ensures newBest == best || (fresh(newBest) && fresh(newBest.assignments) && fresh(newBest.partSizes))
    ensures Extends(newCuts, cuts) && |newCuts| == |cuts| + (if trials > 0 then trials else 0)
  {
    newBest, newCuts := best, cuts;
    var seed := 0;
    while seed < trials
      invariant 0 <= seed && (seed <= trials || seed == 0)
      invariant Sound(g, newBest, best.partCount, best.marginPercent) && Lowest(newBest.cutEdges, newCuts)
      invariant newBest == best || (fresh(newBest) && fresh(newBest.assignments) && fresh(newBest.partSizes))
      invariant Extends(newCuts, cuts) && |newCuts| == |cuts| + seed
    {
      var candidate, rounds := RandomStartCFixed(g, best.partCount, best.marginPercent);
      ghost var before := newCuts;
      ghost var trial;
      newBest, newCuts, trial := EvaluateC(g, candidate, newBest, newCuts);
      assert newCuts[..|cuts|] == before[..|cuts|];
      seed := seed + 1;
    }
  }

  /** Step 3 in C: uniform perturbations only. */
  method PerturbationStageC(g: Graph, best: Partition, ghost cuts: seq<int>, rounds: int) returns (newBest: Partition, ghost newCuts: seq<int>)
    requires Sound(g, best, best.partCount, best.marginPercent) && Lowest(best.cutEdges, cuts)
    ensures Sound(g, newBest, best.partCount, best.marginPercent) && Lowest(newBest.cutEdges, newCuts)
    ensures newBest == best || (fresh(newBest) && fresh(newBest.assignments) && fresh(newBest.partSizes))
    ensures Extends(newCuts, cuts)
  {
    newBest, newCuts := best, cuts;
    var i := 0;
    while i < rounds
      invariant Sound(g, newBest, best.partCount, best.marginPercent) && Lowest(newBest.cutEdges, newCuts)
      invariant newBest == best || (fresh(newBest) && fresh(newBest.assignments) && fresh(newBest.partSizes))
      invariant Extends(newCuts, cuts)
    {
      ghost var movesMade, attempts;
      var perturbed;
      perturbed, movesMade, attempts := PerturbC(newBest, g, RatioPercent(i), 100);
      if perturbed != null {
        ghost var before := newCuts;
        ghost var trial;
        newBest, newCuts, trial := EvaluateC(g, perturbed, newBest, newCuts);
        assert newCuts[..|cuts|] == before[..|cuts|];
      }
      i := i + 1;
    }
  }

  /**
   * `znajdz_najlepszy_podzial`: null for an empty graph, no parts or a
   * negative margin; otherwise the lowest cut among the candidates, with
   * the cached cut verified at the end. The first two cuts are those of the
   * refined modulo and sequential starts, so on an undirected graph the
   * result is no worse than either start.
   */
  method FindBestC(g: Graph, k: int, margin: int) returns (best: Partition?, ghost cuts: seq<int>, ghost trials: seq<Trial>)
    requires Csr(g)
    ensures best == null <==> g.vertexCount <= 0 || k <= 0 || margin < 0
    ensures best != null ==>
      && fresh(best) && fresh(best.assignments) && fresh(best.partSizes)
      && Sound(g, best, k, margin) && Lowest(best.cutEdges, cuts)
      && |cuts| >= 4 && |trials| == 2 && Recorded(g, cuts, trials, k)
      && trials[0].start == ModuloLayout(g.vertexCount, k)
      && SequentialLayout(g.vertexCount, k, trials[1].start)
    ensures best != null ==> forall i :: 0 <= i < 2 ==> best.cutEdges <= CutEdges(g, trials[i].refined)
    ensures best != null && Undirected(g) ==>
      && best.cutEdges <= CutEdges(g, ModuloLayout(g.vertexCount, k))
      && (forall a :: SequentialLayout(g.vertexCount, k, a) ==> best.cutEdges <= CutEdges(g, a))
  {
    var n := g.vertexCount;
    cuts, trials := [], [];
    if n <= 0 || k <= 0 || margin < 0 {
      return null, cuts, trials;
    }
    var b: Partition;
    ghost var c: seq<int>;
    b, c, trials := DeterministicStageC(g, k, margin);
    ghost var first := c;
    var count := AdaptiveRandomTrials(g, k, Some(b.cutEdges));
    count := CappedTrials(n, count);
    b, c := RandomStageC(g, b, c, count);
    ghost var middle := c;
    b, c := PerturbationStageC(g, b, c, PerturbationRounds(n));
    ExtendsTransitive(c, middle, first);
    b.cutEdges := CutEdges(g, b.assignments[..]);
    best, cuts := b, c;
    forall i | 0 <= i < 2
      ensures cuts[i] == CutEdges(g, trials[i].refined) && best.cutEdges <= cuts[i]
    {
      LowestBelowFirst(best.cutEdges, cuts, first, i);
    }
    if Undirected(g) {
      forall a | SequentialLayout(n, k, a)
        ensures best.cutEdges <= CutEdges(g, a)
      {
        SequentialLayoutUnique(n, k, a, trials[1].start);
      }
    }
  }
}
