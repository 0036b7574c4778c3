/**
 * The log of phase 1 of a Kernighan-Lin pass: the recorded moves, the
 * assignment they lead to, the running gain totals and the moved flags,
 * with the facts that keep them consistent as one more move is logged.
 */
module MoveLogs {

  /** One recorded tentative move. */
  datatype Move = Move(vertex: int, oldPart: int, newPart: int, gain: int)

  /** The assignment reached from `a` by performing the moves in order. */
  function ApplyMoves(a: seq<int>, moves: seq<Move>): (r: seq<int>)
    ensures |r| == |a|
  {
    if moves == [] then a
    else
      var m, b := moves[|moves| - 1], ApplyMoves(a, moves[..|moves| - 1]);
      if 0 <= m.vertex < |b| then b[m.vertex := m.newPart] else b
  }

  /** Moves that name a vertex and a real part and gained something. */
  predicate RecordedMoves(moves: seq<Move>, n: int, k: int)
  {
    forall i :: 0 <= i < |moves| ==>
      0 <= moves[i].vertex < n && 0 <= moves[i].newPart < k && 0 <= moves[i].oldPart < k && moves[i].gain > 0
  }


  lemma {:induction false} ApplyMovesStep(a: seq<int>, moves: seq<Move>, i: int)
    requires 0 <= i < |moves|
    ensures ApplyMoves(a, moves[..i + 1]) ==
      var b := ApplyMoves(a, moves[..i]);
      if 0 <= moves[i].vertex < |b| then b[moves[i].vertex := moves[i].newPart] else b
  {
    assert moves[..i + 1][..i] == moves[..i];
  }


  /** The running totals of the recorded gains: 0, then one more entry per move. */
  function PrefixGains(moves: seq<Move>): (r: seq<int>)
    ensures |r| == |moves| + 1 && r[0] == 0
  {
    if moves == [] then [0]
    else
      var r := PrefixGains(moves[..|moves| - 1]);
      r + [r[|r| - 1] + moves[|moves| - 1].gain]
  }

  /** Each total is the previous one plus the gain of the move in between. */
  lemma {:induction false} PrefixGainsStep(moves: seq<Move>)
    ensures forall i :: 0 <= i < |moves| ==> PrefixGains(moves)[i + 1] == PrefixGains(moves)[i] + moves[i].gain
  {
    if moves != [] {
      var init := moves[..|moves| - 1];
      PrefixGainsStep(init);
      assert forall i :: 0 <= i < |init| ==> moves[i] == init[i];
    }
  }

  /** When every recorded move gains something, the last total is the strict maximum. */
  lemma {:induction false} PrefixGainsIncrease(moves: seq<Move>)
    requires forall i :: 0 <= i < |moves| ==> moves[i].gain > 0
    ensures forall i :: 0 <= i < |moves| ==> PrefixGains(moves)[i] < PrefixGains(moves)[|moves|]
  {
    if moves != [] {
      var init := moves[..|moves| - 1];
      PrefixGainsIncrease(init);
    }
  }

  /** The vertices the recorded moves touch. */
  function MovedVertices(moves: seq<Move>): set<int>
  {
    set i | 0 <= i < |moves| :: moves[i].vertex
  }

  /** Each move's old part is the part its vertex had in the snapshot. */
  predicate OldPartsFrom(orig: seq<int>, moves: seq<Move>)
  {
    forall i :: 0 <= i < |moves| && 0 <= moves[i].vertex < |orig| ==> moves[i].oldPart == orig[moves[i].vertex]
  }

  /** A vertex no move touches keeps its snapshot part. */
  lemma {:induction false} ApplyMovesUntouched(orig: seq<int>, moves: seq<Move>, v: int)
    requires 0 <= v < |orig| && v !in MovedVertices(moves)
    ensures ApplyMoves(orig, moves)[v] == orig[v]
  {
    if moves != [] {
      var init := moves[..|moves| - 1];
      assert MovedVertices(init) <= MovedVertices(moves) by {
        forall x | x in MovedVertices(init) ensures x in MovedVertices(moves) {
          var i :| 0 <= i < |init| && init[i].vertex == x;
          assert moves[i].vertex == x;
        }
      }
      assert moves[|moves| - 1].vertex in MovedVertices(moves);
      ApplyMovesUntouched(orig, init, v);
    }
  }

  lemma {:induction false} OldPartsAppend(orig: seq<int>, moves: seq<Move>, m: Move)
    requires OldPartsFrom(orig, moves)
    requires 0 <= m.vertex < |orig| && m.oldPart == orig[m.vertex]
    ensures OldPartsFrom(orig, moves + [m])
  {
    var ext := moves + [m];
    forall i | 0 <= i < |ext| && 0 <= ext[i].vertex < |orig| ensures ext[i].oldPart == orig[ext[i].vertex] {
      if i < |moves| {
        assert ext[i] == moves[i];
      }
    }
  }

  /** No vertex is moved twice. */
  predicate DistinctVertices(moves: seq<Move>)
  {
    forall i, j :: 0 <= i < j < |moves| ==> moves[i].vertex != moves[j].vertex
  }

  /** With distinct vertices, the vertex of move i is touched by none of the moves before it. */
  lemma {:induction false} EarlierMovesMissVertex(moves: seq<Move>, i: int)
    requires DistinctVertices(moves) && 0 <= i < |moves|
    ensures moves[i].vertex !in MovedVertices(moves[..i])
  {
    forall j | 0 <= j < i
      ensures moves[..i][j].vertex != moves[i].vertex
    {
      assert moves[..i][j] == moves[j];
    }
  }

  /**
   * The bookkeeping of phase 1: the tentative assignment is the snapshot
   * with the recorded moves applied, every move names a vertex and a real
   * part, gained something and touched a vertex not moved before, `moved`
   * flags exactly the touched vertices, and `gains` holds the running totals.
   */
  ghost predicate MoveLog(orig: seq<int>, cur: seq<int>, moves: seq<Move>, gains: seq<int>, moved: seq<bool>, k: int)
  {
    && |moved| == |orig|
    && cur == ApplyMoves(orig, moves)
    && RecordedMoves(moves, |orig|, k) && DistinctVertices(moves) && OldPartsFrom(orig, moves)
    && (forall v :: 0 <= v < |moved| ==> (moved[v] <==> v in MovedVertices(moves)))
    && gains == PrefixGains(moves)
  }

  /** What the bookkeeping says about the log once phase 1 ends. */
  lemma {:induction false} LogFacts(orig: seq<int>, cur: seq<int>, moves: seq<Move>, gains: seq<int>, moved: seq<bool>, k: int)
    requires MoveLog(orig, cur, moves, gains, moved, k)
    ensures cur == ApplyMoves(orig, moves) && gains == PrefixGains(moves)
    ensures RecordedMoves(moves, |orig|, k) && DistinctVertices(moves) && OldPartsFrom(orig, moves)
  {
  }

  /** Appending a move to the log: each log function takes one more step. */
  lemma {:induction false} LogAppend(orig: seq<int>, moves: seq<Move>, m: Move)
    ensures ApplyMoves(orig, moves + [m]) ==
      var b := ApplyMoves(orig, moves); if 0 <= m.vertex < |b| then b[m.vertex := m.newPart] else b
    ensures PrefixGains(moves + [m]) == PrefixGains(moves) + [PrefixGains(moves)[|moves|] + m.gain]
  {
    assert (moves + [m])[..|moves|] == moves;
  }

  lemma {:induction false} MovedVerticesAppend(moves: seq<Move>, m: Move)
    ensures MovedVertices(moves + [m]) == MovedVertices(moves) + {m.vertex}
  {
    var ext := moves + [m];
    assert forall i :: 0 <= i < |moves| ==> ext[i] == moves[i];
    forall v | v in MovedVertices(ext) ensures v in MovedVertices(moves) + {m.vertex} {
      var i :| 0 <= i < |ext| && ext[i].vertex == v;
      if i < |moves| { assert moves[i].vertex == v; }
    }
    forall v | v in MovedVertices(moves) + {m.vertex} ensures v in MovedVertices(ext) {
      if v == m.vertex {
        assert ext[|moves|].vertex == v;
      } else {
        var i :| 0 <= i < |moves| && moves[i].vertex == v;
        assert ext[i].vertex == v;
      }
    }
  }

  lemma {:induction false} RecordedAppend(moves: seq<Move>, m: Move, n: int, k: int)
    requires RecordedMoves(moves, n, k) && DistinctVertices(moves)
    requires 0 <= m.vertex < n && 0 <= m.oldPart < k && 0 <= m.newPart < k && m.gain > 0
    requires m.vertex !in MovedVertices(moves)
    ensures RecordedMoves(moves + [m], n, k) && DistinctVertices(moves + [m])
  {
    var ext := moves + [m];
    forall i | 0 <= i < |moves| ensures ext[i] == moves[i] && ext[i].vertex != m.vertex {
      assert moves[i].vertex in MovedVertices(moves);
    }
  }

  lemma {:induction false} FlagsAppend(moves: seq<Move>, moved: seq<bool>, m: Move)
    requires forall v :: 0 <= v < |moved| ==> (moved[v] <==> v in MovedVertices(moves))
    requires 0 <= m.vertex < |moved|
    ensures forall v :: 0 <= v < |moved| ==> (moved[m.vertex := true][v] <==> v in MovedVertices(moves + [m]))
  {
    MovedVerticesAppend(moves, m);
  }

  /** Recording one more move of an unmoved vertex keeps the bookkeeping consistent. */
  lemma {:induction false} LogExtends(orig: seq<int>, cur: seq<int>, moves: seq<Move>, gains: seq<int>, moved: seq<bool>, k: int, m: Move,
                                      cur': seq<int>, gains': seq<int>, moved': seq<bool>)
    requires MoveLog(orig, cur, moves, gains, moved, k)
    requires 0 <= m.vertex < |orig| && 0 <= m.oldPart < k && 0 <= m.newPart < k && m.gain > 0 && !moved[m.vertex]
    requires m.oldPart == cur[m.vertex]
    requires cur' == cur[m.vertex := m.newPart] && gains' == gains + [gains[|moves|] + m.gain] && moved' == moved[m.vertex := true]
    ensures MoveLog(orig, cur', moves + [m], gains', moved', k)
  {
    LogAppend(orig, moves, m);
    RecordedAppend(moves, m, |orig|, k);
    FlagsAppend(moves, moved, m);
    ApplyMovesUntouched(orig, moves, m.vertex);
    OldPartsAppend(orig, moves, m);
  }

}
