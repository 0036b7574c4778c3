/**
 * The Kernighan-Lin refinement of `KernighanLin.java`: passes that move
 * vertices tentatively, restore the snapshot taken at the start and
 * re-apply the best prefix of moves, driven by an iteration-capped loop.
 */
module KernighanLin {
  import opened Graphs
  import opened Partitions
  import opened PartitionUtils
  import opened MoveLogs

  /** A pair the scan of one step considers: an unmoved vertex and a legal different part. */
  predicate Candidate(a: seq<int>, sizes: seq<int>, margin: int, moved: seq<bool>, v: int, t: int)
    requires |moved| == |a| && FullyAssigned(a, |sizes|)
  {
    0 <= v < |a| && 0 <= t < |sizes| && !moved[v] && t != a[v] && CanMoveVertex(a, sizes, margin, v, t)
  }

  /** (v, t) comes before (bv, bt) in vertex-then-part order. */
  predicate Before(v: int, t: int, bv: int, bt: int)
  {
    v < bv || (v == bv && t < bt)
  }

  /** The `moved` flags once the logged moves are made: exactly the vertices they touch. */
  function Flags(n: nat, moves: seq<Move>): (f: seq<bool>)
    ensures |f| == n && forall v :: 0 <= v < n ==> (f[v] <==> v in MovedVertices(moves))
  {
    seq(n, v => v in MovedVertices(moves))
  }

  /**
   * The pair (v, t) is the one the scan keeps: a legal pair that gains
   * something, no other legal pair gains more, and every legal pair
   * before it in vertex-then-part order gains strictly less.
   */
  ghost predicate IsBestMove(g: Graph, a: seq<int>, sizes: seq<int>, margin: int, moved: seq<bool>, v: int, t: int)
    requires Csr(g) && |moved| == |a| && FullyAssigned(a, |sizes|)
  {
    && Candidate(a, sizes, margin, moved, v, t) && Gain(g, a, v, t) > 0
    && (forall v', t' :: Candidate(a, sizes, margin, moved, v', t') ==> Gain(g, a, v', t') <= Gain(g, a, v, t))
    && (forall v', t' :: Candidate(a, sizes, margin, moved, v', t') && Before(v', t', v, t) ==> Gain(g, a, v', t') < Gain(g, a, v, t))
  }

  /** No legal pair of the scan gains anything: phase 1 stops here. */
  ghost predicate NoGainingCandidate(g: Graph, a: seq<int>, sizes: seq<int>, margin: int, moved: seq<bool>)
    requires Csr(g) && |moved| == |a| && FullyAssigned(a, |sizes|)
  {
    forall v, t :: Candidate(a, sizes, margin, moved, v, t) ==> Gain(g, a, v, t) <= 0
  }

  /**
   * A local optimum of the pass: no single move of a vertex to another
   * part that `canMoveVertex` allows lowers the cut.
   */
  ghost predicate LocalOptimum(g: Graph, a: seq<int>, k: nat, margin: int)
    requires Csr(g)
  {
    forall v, t :: 0 <= v < |a| && 0 <= a[v] < k && 0 <= t < k && t != a[v] && CanMoveVertex(a, SizesOf(a, k), margin, v, t) ==>
      Gain(g, a, v, t) <= 0
  }

  /** The move `m` is the one phase 1 records on the tentative state `a` with flags `moved`. */
  ghost predicate StepChosen(g: Graph, a: seq<int>, k: nat, margin: int, moved: seq<bool>, m: Move)
    requires Csr(g)
  {
    && |moved| == |a| && FullyAssigned(a, k)
    && IsBestMove(g, a, SizesOf(a, k), margin, moved, m.vertex, m.newPart)
    && m.oldPart == a[m.vertex] && m.gain == Gain(g, a, m.vertex, m.newPart)
  }

  /** Move i of the log was the scan's pick on the state the moves before it left. */
  ghost predicate ChosenAt(g: Graph, orig: seq<int>, moves: seq<Move>, k: nat, margin: int, i: int)
    requires Csr(g) && 0 <= i < |moves|
  {
    StepChosen(g, ApplyMoves(orig, moves[..i]), k, margin, Flags(|orig|, moves[..i]), moves[i])
  }

  /** Every logged move was the scan's pick on the state the moves before it left. */
  ghost predicate ChosenSteps(g: Graph, orig: seq<int>, moves: seq<Move>, k: nat, margin: int)
    requires Csr(g)
  {
    forall i :: 0 <= i < |moves| ==> ChosenAt(g, orig, moves, k, margin, i)
  }

  lemma {:induction false} ChosenAppend(g: Graph, orig: seq<int>, moves: seq<Move>, k: nat, margin: int, m: Move)
    requires Csr(g) && ChosenSteps(g, orig, moves, k, margin)
    requires StepChosen(g, ApplyMoves(orig, moves), k, margin, Flags(|orig|, moves), m)
    ensures ChosenSteps(g, orig, moves + [m], k, margin)
  {
    var ext := moves + [m];
    forall i | 0 <= i < |ext| ensures ChosenAt(g, orig, ext, k, margin, i) {
      assert ext[..i] == moves[..i] by {
        if i == |moves| { assert ext[..i] == moves[..|moves|] == moves; }
      }
      if i < |moves| {
        assert ChosenAt(g, orig, moves, k, margin, i);
      } else {
        assert moves[..i] == moves;
      }
    }
  }

  /** With no vertex moved, a scan that finds no gaining pair stands at a local optimum. */
  lemma {:induction false} NoGainAtStart(g: Graph, orig: seq<int>, k: nat, margin: int)
    requires Csr(g) && FullyAssigned(orig, k)
    requires NoGainingCandidate(g, orig, SizesOf(orig, k), margin, Flags(|orig|, []))
    ensures LocalOptimum(g, orig, k, margin)
  {
    var none, sizes := Flags(|orig|, []), SizesOf(orig, k);
    forall v, t | 0 <= v < |orig| && 0 <= orig[v] < k && 0 <= t < k && t != orig[v] && CanMoveVertex(orig, sizes, margin, v, t)
      ensures Gain(g, orig, v, t) <= 0
    {
      assert v !in MovedVertices([]);
      assert Candidate(orig, sizes, margin, none, v, t);
    }
  }

  /** A move the scan picks with no vertex moved shows the snapshot is no local optimum. */
  lemma {:induction false} GainAtStart(g: Graph, orig: seq<int>, k: nat, margin: int, m: Move)
    requires Csr(g) && StepChosen(g, orig, k, margin, Flags(|orig|, []), m)
    ensures !LocalOptimum(g, orig, k, margin)
  {
    var sizes := SizesOf(orig, k);
    assert Candidate(orig, sizes, margin, Flags(|orig|, []), m.vertex, m.newPart);
    assert 0 <= orig[m.vertex] < k && CanMoveVertex(orig, sizes, margin, m.vertex, m.newPart);
  }

  /**
   * Phase 1 records nothing exactly at a local optimum: with no vertex
   * moved yet the scan's legal pairs are exactly the moves
   * `canMoveVertex` allows, so the first step finds a gaining pair iff
   * one exists.
   */
  lemma {:induction false} FirstStepDecides(g: Graph, orig: seq<int>, moves: seq<Move>, k: nat, margin: int)
    requires Csr(g) && FullyAssigned(orig, k) && ChosenSteps(g, orig, moves, k, margin)
    requires moves == [] ==> |orig| == 0 || NoGainingCandidate(g, orig, SizesOf(orig, k), margin, Flags(|orig|, []))
    ensures moves == [] <==> LocalOptimum(g, orig, k, margin)
  {
    if moves == [] {
      if |orig| > 0 {
        NoGainAtStart(g, orig, k, margin);
      }
    } else {
      assert ChosenAt(g, orig, moves, k, margin, 0);
      assert moves[..0] == [];
      GainAtStart(g, orig, k, margin, moves[0]);
    }
  }

  /** What the scan knows after looking at every pair before (v, t). */
  ghost predicate ScanState(g: Graph, a: seq<int>, sizes: seq<int>, margin: int, moved: seq<bool>,
                            bv: int, bt: int, bg: int, v: int, t: int)
    requires Csr(g) && |moved| == |a| && FullyAssigned(a, |sizes|)
  {
    && (bv == -1 ==> bg == -1)
    && (forall v', t' :: Candidate(a, sizes, margin, moved, v', t') && Before(v', t', v, t) ==> Gain(g, a, v', t') <= bg)
    && (bv != -1 ==>
          && Candidate(a, sizes, margin, moved, bv, bt) && Before(bv, bt, v, t)
          && bg == Gain(g, a, bv, bt) && bg >= 0
          && forall v', t' :: Candidate(a, sizes, margin, moved, v', t') && Before(v', t', bv, bt) ==> Gain(g, a, v', t') < bg)
  }

  /** Looking at the pair (v, t) moves the scan one pair further. */
  lemma {:induction false} ScanAdvance(g: Graph, a: seq<int>, sizes: seq<int>, margin: int, moved: seq<bool>,
                    bv: int, bt: int, bg: int, v: int, t: int, nbv: int, nbt: int, nbg: int)
    requires Csr(g) && |moved| == |a| && FullyAssigned(a, |sizes|)
    requires 0 <= v < |a| && 0 <= t < |sizes|
    requires ScanState(g, a, sizes, margin, moved, bv, bt, bg, v, t)
    requires if Candidate(a, sizes, margin, moved, v, t) && Gain(g, a, v, t) > bg
             then nbv == v && nbt == t && nbg == Gain(g, a, v, t)
             else nbv == bv && nbt == bt && nbg == bg
    ensures ScanState(g, a, sizes, margin, moved, nbv, nbt, nbg, v, t + 1)
  {
    var taken := Candidate(a, sizes, margin, moved, v, t) && Gain(g, a, v, t) > bg;
    forall v', t' | Candidate(a, sizes, margin, moved, v', t') && Before(v', t', v, t + 1)
      ensures Gain(g, a, v', t') <= nbg
    {
      if v' != v || t' != t {
        assert Before(v', t', v, t);
      }
    }
    if taken {
      forall v', t' | Candidate(a, sizes, margin, moved, v', t') && Before(v', t', nbv, nbt)
        ensures Gain(g, a, v', t') < nbg
      {
        assert Before(v', t', v, t);
      }
    }
  }

  /** The inner loop of the scan: every part is tried as a target for the unmoved vertex `v`. */
  method ScanTargets(g: Graph, a: seq<int>, sizes: seq<int>, margin: int, moved: seq<bool>, v: int,
                     bv: int, bt: int, bg: int) returns (bestVertex: int, bestTarget: int, bestGain: int)
    requires Csr(g) && |moved| == |a| && FullyAssigned(a, |sizes|)
    requires 0 <= v < |a| && !moved[v]
    requires ScanState(g, a, sizes, margin, moved, bv, bt, bg, v, 0)
    ensures ScanState(g, a, sizes, margin, moved, bestVertex, bestTarget, bestGain, v + 1, 0)
  {
    bestVertex, bestTarget, bestGain := bv, bt, bg;
    var current := a[v];
    var t := 0;
    while t < |sizes|
      invariant 0 <= t <= |sizes|
      invariant ScanState(g, a, sizes, margin, moved, bestVertex, bestTarget, bestGain, v, t)
    {
      ghost var (pv, pt, pg) := (bestVertex, bestTarget, bestGain);
      if t != current && CanMoveVertex(a, sizes, margin, v, t) {
        var gain := Gain(g, a, v, t);
        if gain > bestGain {
          bestVertex, bestTarget, bestGain := v, t, gain;
        }
      }
      ScanAdvance(g, a, sizes, margin, moved, pv, pt, pg, v, t, bestVertex, bestTarget, bestGain);
      t := t + 1;
    }
    ScanNextVertex(g, a, sizes, margin, moved, bestVertex, bestTarget, bestGain, v);
  }

  /** After the last part of vertex v the scan stands before vertex v + 1. */
  lemma {:induction false} ScanNextVertex(g: Graph, a: seq<int>, sizes: seq<int>, margin: int, moved: seq<bool>,
                       bv: int, bt: int, bg: int, v: int)
    requires Csr(g) && |moved| == |a| && FullyAssigned(a, |sizes|)
    requires ScanState(g, a, sizes, margin, moved, bv, bt, bg, v, |sizes|)
    ensures ScanState(g, a, sizes, margin, moved, bv, bt, bg, v + 1, 0)
  {
    forall v', t' | Candidate(a, sizes, margin, moved, v', t') && Before(v', t', v + 1, 0)
      ensures Gain(g, a, v', t') <= bg
    {
      assert Before(v', t', v, |sizes|);
    }
  }

  /** A vertex already moved in this pass offers no pair. */
  lemma {:induction false} ScanSkipVertex(g: Graph, a: seq<int>, sizes: seq<int>, margin: int, moved: seq<bool>,
                       bv: int, bt: int, bg: int, v: int)
    requires Csr(g) && |moved| == |a| && FullyAssigned(a, |sizes|)
    requires 0 <= v < |a| && moved[v]
    requires ScanState(g, a, sizes, margin, moved, bv, bt, bg, v, 0)
    ensures ScanState(g, a, sizes, margin, moved, bv, bt, bg, v + 1, 0)
  {
    forall v', t' | Candidate(a, sizes, margin, moved, v', t') && Before(v', t', v + 1, 0)
      ensures Gain(g, a, v', t') <= bg
    {
      assert Before(v', t', v, 0);
    }
  }

  /**
   * The scan of one step of phase 1: the first pair of maximal gain in
   * vertex-then-part order among the legal pairs, or -1 when every legal
   * pair loses cut edges.
   */
  method FindBestMove(g: Graph, a: seq<int>, sizes: seq<int>, margin: int, moved: seq<bool>)
    returns (bestVertex: int, bestTarget: int, bestGain: int)
    requires Csr(g) && |moved| == |a| && FullyAssigned(a, |sizes|)
    ensures bestVertex == -1 <==>
      forall v, t :: Candidate(a, sizes, margin, moved, v, t) ==> Gain(g, a, v, t) < 0
    ensures bestVertex != -1 ==>
      && Candidate(a, sizes, margin, moved, bestVertex, bestTarget)
      && bestGain == Gain(g, a, bestVertex, bestTarget)
      && (forall v, t :: Candidate(a, sizes, margin, moved, v, t) ==> Gain(g, a, v, t) <= bestGain)
      && (forall v, t :: Candidate(a, sizes, margin, moved, v, t) && Before(v, t, bestVertex, bestTarget) ==>
            Gain(g, a, v, t) < bestGain)
  {
    bestVertex, bestTarget, bestGain := -1, -1, -1;
    var v := 0;
    while v < |a|
      invariant 0 <= v <= |a|
      invariant ScanState(g, a, sizes, margin, moved, bestVertex, bestTarget, bestGain, v, 0)
    {
      if !moved[v] {
        bestVertex, bestTarget, bestGain := ScanTargets(g, a, sizes, margin, moved, v, bestVertex, bestTarget, bestGain);
      } else {
        ScanSkipVertex(g, a, sizes, margin, moved, bestVertex, bestTarget, bestGain, v);
      }
      v := v + 1;
    }
    assert forall v', t' :: Candidate(a, sizes, margin, moved, v', t') ==> Before(v', t', |a|, 0);
  }

  /**
   * Phase 2: the largest cumulative gain over the prefixes of length
   * 1 .. count (0 when none is positive) and the first length reaching it.
   */
  method BestPrefix(cumulativeGain: seq<int>, count: int) returns (maxGain: int, bestLength: int)
    requires 0 <= count < |cumulativeGain|
    ensures 0 <= bestLength <= count && maxGain >= 0
    ensures maxGain > 0 ==> bestLength >= 1 && cumulativeGain[bestLength] == maxGain
    ensures maxGain == 0 ==> bestLength == 0
    ensures forall i :: 1 <= i <= count ==> cumulativeGain[i] <= maxGain
    ensures forall i :: 1 <= i < bestLength ==> cumulativeGain[i] < maxGain
  {
    maxGain, bestLength := 0, 0;
    var i := 1;
    while i <= count
      invariant 1 <= i <= count + 1
      invariant 0 <= bestLength < i && maxGain >= 0
      invariant maxGain > 0 ==> bestLength >= 1 && cumulativeGain[bestLength] == maxGain
      invariant maxGain == 0 ==> bestLength == 0
      invariant forall j :: 1 <= j < i ==> cumulativeGain[j] <= maxGain
      invariant forall j :: 1 <= j < bestLength ==> cumulativeGain[j] < maxGain
    {
      if cumulativeGain[i] > maxGain {
        maxGain, bestLength := cumulativeGain[i], i;
      }
      i := i + 1;
    }
  }

  /** Two consistent size arrays over the same assignment are equal. */
  lemma {:induction false} SizesDetermined(a: seq<int>, s1: seq<int>, s2: seq<int>)
    requires |s1| == |s2|
    requires forall p :: 0 <= p < |s1| ==> s1[p] == Occurrences(a, p)
    requires forall p :: 0 <= p < |s2| ==> s2[p] == Occurrences(a, p)
    ensures s1 == s2
  {
  }

  /**
   * One step of phase 1: the move the scan picks, when it gains something.
   * The move is the first legal pair of maximal gain, it takes an unmoved
   * vertex to another part, and on an undirected graph it removes exactly
   * its gain from the cut; no move is found exactly when no legal pair
   * gains anything.
   */
  method ChooseMove(g: Graph, a: seq<int>, sizes: seq<int>, margin: int, moved: seq<bool>)
    returns (found: bool, m: Move)
    requires Csr(g) && |moved| == |a| && FullyAssigned(a, |sizes|)
    ensures found ==>
      && 0 <= m.vertex < |a| && !moved[m.vertex] && m.oldPart == a[m.vertex]
      && 0 <= m.newPart < |sizes| && m.newPart != m.oldPart && m.gain > 0
    ensures found ==> IsBestMove(g, a, sizes, margin, moved, m.vertex, m.newPart) && m.gain == Gain(g, a, m.vertex, m.newPart)
    ensures !found ==> NoGainingCandidate(g, a, sizes, margin, moved)
    ensures found && Undirected(g) && |a| == g.vertexCount ==> CutEdges(g, a[m.vertex := m.newPart]) == CutEdges(g, a) - m.gain
  {
    var bestVertex, bestTarget, bestGain := FindBestMove(g, a, sizes, margin, moved);
    if bestVertex == -1 || bestGain <= 0 {
      return false, Move(-1, -1, -1, 0);
    }
    if Undirected(g) && |a| == g.vertexCount {
      MoveChangesCutByGain(g, a, bestVertex, bestTarget);
    }
    return true, Move(bestVertex, a[bestVertex], bestTarget, bestGain);
  }

  /** The running total gets the move's gain added, and the moved vertex is flagged. */
  method ExtendScratch(cumulativeGain: array<int>, moved: array<bool>, step: int, m: Move)
    requires 0 <= step < cumulativeGain.Length - 1 && 0 <= m.vertex < moved.Length
    modifies cumulativeGain, moved
    ensures cumulativeGain[..step + 2] == old(cumulativeGain[..step + 1]) + [old(cumulativeGain[step]) + m.gain]
    ensures moved[..] == old(moved[..])[m.vertex := true]
  {
    cumulativeGain[step + 1] := cumulativeGain[step] + m.gain;
    moved[m.vertex] := true;
  }

  /**
   * The bookkeeping of one tentative move: the vertex is moved through
   * `setAssignment`, flagged as moved, the move is logged and the running
   * gain total extended. A move that removes its gain from the cut keeps
   * the cut in step with the total.
   */
  method RecordMove(g: Graph, p: Partition, ghost orig: seq<int>, moves: seq<Move>, cumulativeGain: array<int>,
                    moved: array<bool>, m: Move) returns (logged: seq<Move>)
    requires PhaseOne(g, p, orig, moves, cumulativeGain, moved) && |moves| < g.vertexCount
    requires 0 <= m.vertex < |orig| && !moved[m.vertex] && 0 <= m.oldPart < p.partCount && 0 <= m.newPart < p.partCount && m.gain > 0
    requires m.oldPart == p.assignments[m.vertex]
    requires Undirected(g) ==>
      CutEdges(g, ApplyMoves(orig, moves + [m])) == CutEdges(g, orig) - PrefixGains(moves + [m])[|moves| + 1]
    modifies p.assignments, p.partSizes, cumulativeGain, moved
    ensures logged == moves + [m]
    ensures PhaseOne(g, p, orig, logged, cumulativeGain, moved)
  {
    ghost var before, log, flags := p.assignments[..], cumulativeGain[..|moves| + 1], moved[..];
    var step := |moves|;
    ExtendScratch(cumulativeGain, moved, step, m);
    var _ := p.SetAssignment(m.vertex, m.newPart);
    logged := moves + [m];
    LogExtends(orig, before, moves, log, flags, p.partCount, m, p.assignments[..], cumulativeGain[..step + 2], moved[..]);
  }

  /** The cut keeps pace with the running total when the logged move removes its gain from the cut. */
  lemma {:induction false} CutFollowsTotal(g: Graph, orig: seq<int>, moves: seq<Move>, cur: seq<int>, m: Move)
    requires Csr(g) && cur == ApplyMoves(orig, moves)
    requires CutEdges(g, cur) == CutEdges(g, orig) - PrefixGains(moves)[|moves|]
    requires 0 <= m.vertex < |orig|
    requires CutEdges(g, cur[m.vertex := m.newPart]) == CutEdges(g, cur) - m.gain
    ensures CutEdges(g, ApplyMoves(orig, moves + [m])) == CutEdges(g, orig) - PrefixGains(moves + [m])[|moves| + 1]
  {
    LogAppend(orig, moves, m);
  }

  /**
   * The state phase 1 keeps between steps: a valid, fully assigned
   * partition, scratch arrays of their own, the bookkeeping of the moves
   * so far and, on an undirected graph, a cut that is the snapshot's cut
   * minus the running gain total.
   */
  ghost predicate PhaseOne(g: Graph, p: Partition, orig: seq<int>, moves: seq<Move>,
                           cumulativeGain: array<int>, moved: array<bool>)
    reads p, p.assignments, p.partSizes, cumulativeGain, moved
  {
    && Csr(g) && p.Valid() && FullyAssigned(p.assignments[..], p.partCount)
    && |orig| == p.assignments.Length == g.vertexCount && cumulativeGain.Length == g.vertexCount + 1
    && |moves| <= g.vertexCount
    && cumulativeGain != p.assignments && cumulativeGain != p.partSizes
    && moved != p.assignments as object && moved != p.partSizes as object
    && MoveLog(orig, p.assignments[..], moves, cumulativeGain[..|moves| + 1], moved[..], p.partCount)
    && (Undirected(g) ==> CutEdges(g, ApplyMoves(orig, moves)) == CutEdges(g, orig) - PrefixGains(moves)[|moves|])
  }

  /** One step of phase 1: the best move is found and recorded, or there is none and nothing changes. */
  method TentativeStep(g: Graph, p: Partition, ghost orig: seq<int>, moves: seq<Move>,
                       cumulativeGain: array<int>, moved: array<bool>) returns (found: bool, logged: seq<Move>)
    requires PhaseOne(g, p, orig, moves, cumulativeGain, moved) && |moves| < g.vertexCount
    requires ChosenSteps(g, orig, moves, p.partCount, p.marginPercent)
    modifies p.assignments, p.partSizes, cumulativeGain, moved
    ensures PhaseOne(g, p, orig, logged, cumulativeGain, moved)
    ensures ChosenSteps(g, orig, logged, p.partCount, p.marginPercent)
    ensures found ==> |logged| == |moves| + 1 && logged[..|moves|] == moves
    ensures !found ==> logged == moves
    ensures !found ==>
      NoGainingCandidate(g, p.assignments[..], SizesOf(p.assignments[..], p.partCount), p.marginPercent, Flags(|orig|, moves))
  {
    var m;
    var cur := p.assignments[..];
    assert p.partSizes[..] == SizesOf(cur, p.partCount);
    assert moved[..] == Flags(|orig|, moves);
    found, m := ChooseMove(g, cur, p.partSizes[..], p.marginPercent, moved[..]);
    if !found {
      return false, moves;
    }
    ChosenAppend(g, orig, moves, p.partCount, p.marginPercent, m);
    if Undirected(g) {
      CutFollowsTotal(g, orig, moves, cur, m);
    }
    logged := RecordMove(g, p, orig, moves, cumulativeGain, moved, m);
    assert logged[..|moves|] == moves;
  }

  /** The scratch state before the first step: no move, a zero total, no vertex flagged. */
  method StartPhaseOne(g: Graph, p: Partition) returns (cumulativeGain: array<int>, moved: array<bool>)
    requires Csr(g) && p.Valid() && p.assignments.Length == g.vertexCount
    requires FullyAssigned(p.assignments[..], p.partCount)
    ensures fresh(cumulativeGain) && fresh(moved)
    ensures PhaseOne(g, p, p.assignments[..], [], cumulativeGain, moved)
  {
    var n := g.vertexCount;
    cumulativeGain := new int[n + 1];
    moved := new bool[n](_ => false);
    cumulativeGain[0] := 0;
    assert cumulativeGain[..1] == PrefixGains([]);
  }

  /**
   * The loop of phase 1: a best move is recorded per step until every
   * vertex has moved or no unmoved vertex has a legal gaining move.
   */
  method ChooseMoves(g: Graph, p: Partition, ghost orig: seq<int>, cumulativeGain: array<int>, moved: array<bool>)
    returns (moves: seq<Move>)
    requires PhaseOne(g, p, orig, [], cumulativeGain, moved)
    modifies p.assignments, p.partSizes, cumulativeGain, moved
    ensures PhaseOne(g, p, orig, moves, cumulativeGain, moved)
    ensures ChosenSteps(g, orig, moves, p.partCount, p.marginPercent)
    ensures |moves| < g.vertexCount ==>
      NoGainingCandidate(g, p.assignments[..], SizesOf(p.assignments[..], p.partCount), p.marginPercent, Flags(|orig|, moves))
  {
    var n := g.vertexCount;
    moves := [];
    var step := 0;
    while step < n
      invariant 0 <= step <= n && |moves| == step
      invariant PhaseOne(g, p, orig, moves, cumulativeGain, moved)
      invariant ChosenSteps(g, orig, moves, p.partCount, p.marginPercent)
    {
      var found;
      found, moves := TentativeStep(g, p, orig, moves, cumulativeGain, moved);
      if !found {
        return;
      }
      step := step + 1;
    }
  }

  /**
   * Phase 1 of `kernighanLinPass`: repeatedly take the best legal move of
   * the current tentative state, as long as it gains something, moving
   * each vertex at most once. Every logged move was the scan's pick on
   * the state before it, phase 1 stops early only when no legal pair
   * gains, and it logs nothing exactly at a local optimum.
   */
  method TentativeMoves(g: Graph, p: Partition) returns (moves: seq<Move>, cumulativeGain: array<int>)
    requires Csr(g) && p.Valid() && p.assignments.Length == g.vertexCount
    requires FullyAssigned(p.assignments[..], p.partCount)
    modifies p.assignments, p.partSizes
    ensures fresh(cumulativeGain) && cumulativeGain.Length == g.vertexCount + 1
    ensures p.Valid() && FullyAssigned(p.assignments[..], p.partCount)
    ensures |moves| <= g.vertexCount
    ensures p.assignments[..] == ApplyMoves(old(p.assignments[..]), moves)
    ensures RecordedMoves(moves, g.vertexCount, p.partCount) && DistinctVertices(moves)
    ensures OldPartsFrom(old(p.assignments[..]), moves)
    ensures cumulativeGain[..|moves| + 1] == PrefixGains(moves)
    ensures Undirected(g) ==>
      CutEdges(g, p.assignments[..]) == CutEdges(g, old(p.assignments[..])) - PrefixGains(moves)[|moves|]
    ensures ChosenSteps(g, old(p.assignments[..]), moves, p.partCount, p.marginPercent)
    ensures |moves| < g.vertexCount ==>
      NoGainingCandidate(g, p.assignments[..], SizesOf(p.assignments[..], p.partCount), p.marginPercent, Flags(g.vertexCount, moves))
    ensures moves == [] <==> LocalOptimum(g, old(p.assignments[..]), p.partCount, p.marginPercent)
  {
    ghost var orig := p.assignments[..];
    var moved;
    cumulativeGain, moved := StartPhaseOne(g, p);
    moves := ChooseMoves(g, p, orig, cumulativeGain, moved);
    LogFacts(orig, p.assignments[..], moves, cumulativeGain[..|moves| + 1], moved[..], p.partCount);
    FirstStepDecides(g, orig, moves, p.partCount, p.marginPercent);
  }

  /** Phase 3, first half: every vertex gets its snapshot part back through `setAssignment`. */
  method RestoreSnapshot(p: Partition, original: Partition)
    requires p.Valid() && original.assignments.Length == p.assignments.Length
    requires original.assignments != p.assignments && original.assignments != p.partSizes
    requires FullyAssigned(original.assignments[..], p.partCount)
    modifies p.assignments, p.partSizes
    ensures p.Valid() && p.assignments[..] == original.assignments[..]
  {
    var n := p.assignments.Length;
    ghost var tentative := p.assignments[..];
    var v := 0;
    while v < n
      invariant 0 <= v <= n
      invariant p.Valid()
      invariant forall u :: 0 <= u < v ==> p.assignments[u] == original.assignments[u]
      invariant forall u :: v <= u < n ==> p.assignments[u] == tentative[u]
    {
      var _ := p.SetAssignment(v, Part(original.assignments[..], v));
      v := v + 1;
    }
    assert p.assignments[..] == original.assignments[..];
  }

  /** Phase 3, second half: the first `count` recorded moves are performed again. */
  method ReapplyPrefix(p: Partition, moves: seq<Move>, count: int)
    requires p.Valid() && 0 <= count <= |moves|
    requires RecordedMoves(moves, p.assignments.Length, p.partCount)
    requires FullyAssigned(p.assignments[..], p.partCount)
    modifies p.assignments, p.partSizes
    ensures p.Valid() && FullyAssigned(p.assignments[..], p.partCount)
    ensures p.assignments[..] == ApplyMoves(old(p.assignments[..]), moves[..count])
  {
    ghost var orig := p.assignments[..];
    var i := 0;
    while i < count
      invariant 0 <= i <= count
      invariant p.Valid() && FullyAssigned(p.assignments[..], p.partCount)
      invariant p.assignments[..] == ApplyMoves(orig, moves[..i])
    {
      var move := moves[i];
      ApplyMovesStep(orig, moves, i);
      var _ := p.SetAssignment(move.vertex, move.newPart);
      i := i + 1;
    }
  }

  /**
   * `kernighanLinPass`: phase 1 records strictly improving moves, phase 2
   * picks the best prefix, phase 3 restores the snapshot and re-applies
   * that prefix. The cached cut drops by the prefix gain, which on an
   * undirected graph is exactly the drop of the recomputed cut. The pass
   * reports an improvement exactly when the partition was not a local
   * optimum, and otherwise changes nothing.
   */
  method Pass(g: Graph, p: Partition) returns (improved: bool)
    requires Csr(g) && p.Valid() && p.assignments.Length == g.vertexCount
    requires g.vertexCount > 0 && p.partCount > 1 ==> FullyAssigned(p.assignments[..], p.partCount)
    modifies p, p.assignments, p.partSizes
    ensures p.Valid()
    ensures g.vertexCount > 0 && p.partCount > 1 ==> FullyAssigned(p.assignments[..], p.partCount)
    ensures g.vertexCount == 0 || p.partCount <= 1 ==> !improved
    ensures !improved ==>
      p.assignments[..] == old(p.assignments[..]) && p.partSizes[..] == old(p.partSizes[..]) && p.cutEdges == old(p.cutEdges)
    ensures improved ==> p.cutEdges < old(p.cutEdges)
    ensures Undirected(g) ==>
      CutEdges(g, p.assignments[..]) == CutEdges(g, old(p.assignments[..])) - (old(p.cutEdges) - p.cutEdges)
    ensures g.vertexCount > 0 && p.partCount > 1 ==>
      (improved <==> !LocalOptimum(g, old(p.assignments[..]), p.partCount, p.marginPercent))
  {
    var n := g.vertexCount;
    if n == 0 || p.partCount <= 1 {
      return false;
    }
    ghost var orig, origSizes := p.assignments[..], p.partSizes[..];
    var original := p.Copy(n);
    var moves, maxGain, bestLength := PlanMoves(g, p);
    assert maxGain > 0 ==> moves[..bestLength] == moves;
    improved := ApplyBestPrefix(p, original, moves, maxGain, bestLength);
    if !improved {
      SizesDetermined(orig, p.partSizes[..], origSizes);
    }
  }

  /**
   * Phases 1 and 2 of the pass: the tentative moves and the best prefix
   * of their running gain totals. Every logged move gains something, so
   * the best prefix is the whole log, and it is empty exactly at a local
   * optimum.
   */
  method PlanMoves(g: Graph, p: Partition) returns (moves: seq<Move>, maxGain: int, bestLength: int)
    requires Csr(g) && p.Valid() && p.assignments.Length == g.vertexCount
    requires FullyAssigned(p.assignments[..], p.partCount)
    modifies p.assignments, p.partSizes
    ensures p.Valid() && FullyAssigned(p.assignments[..], p.partCount)
    ensures p.assignments[..] == ApplyMoves(old(p.assignments[..]), moves)
    ensures RecordedMoves(moves, g.vertexCount, p.partCount) && DistinctVertices(moves)
    ensures OldPartsFrom(old(p.assignments[..]), moves)
    ensures maxGain == PrefixGains(moves)[|moves|] && bestLength == |moves|
    ensures maxGain > 0 <==> moves != []
    ensures Undirected(g) ==>
      CutEdges(g, p.assignments[..]) == CutEdges(g, old(p.assignments[..])) - maxGain
    ensures moves == [] <==> LocalOptimum(g, old(p.assignments[..]), p.partCount, p.marginPercent)
  {
    var cumulativeGain;
    moves, cumulativeGain := TentativeMoves(g, p);
    ghost var totals := PrefixGains(moves);
    PrefixGainsIncrease(moves);
    assert forall i :: 0 <= i <= |moves| ==> cumulativeGain[..][i] == totals[i] by {
      assert cumulativeGain[..|moves| + 1] == totals;
    }
    maxGain, bestLength := BestPrefix(cumulativeGain[..], |moves|);
    assert maxGain > 0 ==> bestLength == |moves|;
    assert maxGain == 0 ==> |moves| == 0;
  }

  /**
   * Phase 3 of `kernighanLinPass`: the snapshot is restored and, when the
   * best prefix gains something, its moves are made again and the cached
   * cut drops by that gain.
   */
  method ApplyBestPrefix(p: Partition, original: Partition, moves: seq<Move>, maxGain: int, bestLength: int)
    returns (improved: bool)
    requires p.Valid() && original.assignments.Length == p.assignments.Length
    requires original.assignments != p.assignments && original.assignments != p.partSizes
    requires FullyAssigned(original.assignments[..], p.partCount)
    requires RecordedMoves(moves, p.assignments.Length, p.partCount) && 0 <= bestLength <= |moves| && maxGain >= 0
    modifies p, p.assignments, p.partSizes
    ensures p.Valid() && FullyAssigned(p.assignments[..], p.partCount)
    ensures improved <==> maxGain > 0
    ensures p.assignments[..] ==
      if improved then ApplyMoves(original.assignments[..], moves[..bestLength]) else original.assignments[..]
    ensures p.cutEdges == old(p.cutEdges) - maxGain
  {
    RestoreSnapshot(p, original);
    if maxGain > 0 {
      ReapplyPrefix(p, moves, bestLength);
      p.cutEdges := p.cutEdges - maxGain;
      return true;
    }
    return false;
  }

  /** The pass cap of the drivers: the caller's, or 50 (20 above 5000 vertices) when none is given. */
  function IterationCap(n: int, maxIterations: int): (cap: int)
    ensures cap >= 1 && (maxIterations > 0 ==> cap == maxIterations)
    ensures maxIterations <= 0 ==> cap == (if n > 5000 then 20 else 50)
  {
    if maxIterations <= 0 then (if n > 5000 then 20 else 50) else maxIterations
  }

  /**
   * `optimizeWithKernighanLin` (and its silent twin, which computes the
   * same): passes until one does not improve or the cap is reached, then
   * the cached cut is reconciled with the recomputed one. Stopping before
   * the cap means the last pass found the partition a local optimum.
   */
  method Optimize(g: Graph, p: Partition, maxIterations: int) returns (ghost passes: nat)
    requires Csr(g) && p.Valid() && p.assignments.Length == g.vertexCount
    requires g.vertexCount > 0 && p.partCount > 1 ==> FullyAssigned(p.assignments[..], p.partCount)
    modifies p, p.assignments, p.partSizes
    ensures p.Valid()
    ensures g.vertexCount == 0 || p.partCount <= 1 ==>
      passes == 0 && p.assignments[..] == old(p.assignments[..]) && p.cutEdges == old(p.cutEdges)
    ensures g.vertexCount > 0 && p.partCount > 1 ==>
      FullyAssigned(p.assignments[..], p.partCount) && p.cutEdges == CutEdges(g, p.assignments[..])
    ensures passes <= IterationCap(g.vertexCount, maxIterations)
    ensures Undirected(g) ==> CutEdges(g, p.assignments[..]) <= CutEdges(g, old(p.assignments[..]))
    ensures g.vertexCount > 0 && p.partCount > 1 && passes < IterationCap(g.vertexCount, maxIterations) ==>
      LocalOptimum(g, p.assignments[..], p.partCount, p.marginPercent)
  {
    passes := 0;
    if g.vertexCount == 0 || p.partCount <= 1 {
      return;
    }
    var cap := IterationCap(g.vertexCount, maxIterations);
    var iteration := 0;
    var improvement := true;
    while improvement && iteration < cap
      invariant 0 <= iteration <= cap && passes == iteration
      invariant p.Valid() && FullyAssigned(p.assignments[..], p.partCount)
      invariant Undirected(g) ==> CutEdges(g, p.assignments[..]) <= CutEdges(g, old(p.assignments[..]))
      invariant !improvement ==> LocalOptimum(g, p.assignments[..], p.partCount, p.marginPercent)
    {
      improvement := Pass(g, p);
      iteration := iteration + 1;
      passes := iteration;
    }
    var finalEdges := CutEdges(g, p.assignments[..]);
    if finalEdges != p.cutEdges {
      p.cutEdges := finalEdges;
    }
  }
}
