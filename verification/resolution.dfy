/** Shot resolution: `EvaluateTarget`, a state machine over one cell.

  0 (water)       -> 2 (miss),  no score
  1 (hit ship)    -> unchanged, no score
  2 (miss)        -> unchanged, no score
  k >= 3 (ship k) -> 1 (hit),   score; sunk when no cell holds k any more
  negative        -> unchanged, no score (no case of the switch matches)
 */
module Resolution {
  import opened Base
  import opened Sea
  import opened Catalog

  datatype Outcome =
    | Miss
    | AlreadyHit
    | AlreadyMissed
    | Hit(id: int)
    | Sunk(id: int, name: string)
    | Ignored

  /** The boolean `EvaluateTarget` returns. */
  predicate Scored(o: Outcome) {
    o.Hit? || o.Sunk?
  }

  /** Every cell holds one of the codes 0..8 that the engine produces. */
  ghost predicate KnownCodes(b: Board) {
    forall r, c | InGrid(b, r, c) :: 0 <= b[r][c] <= 8
  }

  /** Writing a known code into one cell keeps every cell a known code. */
  lemma SetKeepsCodes(b: Board, r: int, c: int, x: int)
    requires InGrid(b, r, c) && 0 <= x <= 8
    ensures KnownCodes(b) ==> KnownCodes(Set(b, r, c, x))
  {
    var b' := Set(b, r, c, x);
    if KnownCodes(b) {
      forall r', c' | InGrid(b', r', c')
        ensures 0 <= b'[r'][c'] <= 8
      {
        assert InGrid(b, r', c');
      }
    }
  }

  /** `EvaluateTarget`: resolves a shot at (row, col). An index outside the
      grid is the runtime's range error; a sunk ship whose id has no name is
      the dictionary's missing-key error. */
  function EvaluateTarget(board: Board, row: int, col: int): (r: Result<(Board, Outcome)>)
    ensures (r.Err? && r.error == OutOfBounds) <==> !InGrid(board, row, col)
    ensures InGrid(board, row, col) && KnownCodes(board) ==> r.Ok?
    ensures r.Ok? ==> |r.value.0| == |board| && (IsGrid(board) ==> IsGrid(r.value.0) && Width(r.value.0) == Width(board))
    ensures r.Ok? && KnownCodes(board) ==> KnownCodes(r.value.0)
    // water becomes a miss; nothing else changes
    ensures r.Ok? && board[row][col] == Water ==>
              r.value.0 == Set(board, row, col, Missed) && r.value.1 == Miss
    // resolved cells (and codes no case matches) leave the whole board unchanged
    ensures r.Ok? && board[row][col] == HitShip ==> r.value == (board, AlreadyHit)
    ensures r.Ok? && board[row][col] == Missed ==> r.value == (board, AlreadyMissed)
    ensures r.Ok? && board[row][col] < 0 ==> r.value == (board, Ignored)
    // an intact segment of ship k becomes a hit; k loses exactly one cell
    ensures r.Ok? && board[row][col] >= 3 ==>
              var k := board[row][col];
              && r.value.0 == Set(board, row, col, HitShip)
              && Scored(r.value.1) && r.value.1.id == k
              && Count(r.value.0, k) == Count(board, k) - 1
              && (r.value.1.Sunk? <==> Count(r.value.0, k) == 0)
              && (r.value.1.Sunk? ==> k in MakeShipMappings() && r.value.1.name == MakeShipMappings()[k])
    // the score moves in step with the number of hit cells
    ensures r.Ok? ==> Count(r.value.0, HitShip) == Count(board, HitShip) + (if Scored(r.value.1) then 1 else 0)
  {
    if !InGrid(board, row, col) then Err(OutOfBounds)
    else
      var v := board[row][col];
      if v == Water then
        CountUpdate(board, row, col, Missed, HitShip);
        SetKeepsCodes(board, row, col, Missed);
        Ok((Set(board, row, col, Missed), Miss))
      else if v == HitShip then Ok((board, AlreadyHit))
      else if v == Missed then Ok((board, AlreadyMissed))
      else if v >= 3 then
        var b' := Set(board, row, col, HitShip);
        CountUpdate(board, row, col, HitShip, v);
        CountUpdate(board, row, col, HitShip, HitShip);
        SetKeepsCodes(board, row, col, HitShip);
        if Count(b', v) == 0 then
          if v in MakeShipMappings() then Ok((b', Sunk(v, MakeShipMappings()[v])))
          else Err(UnknownShipId)
        else Ok((b', Hit(v)))
      else Ok((board, Ignored))
  }

  /** Shooting the same cell twice: the second shot finds the cell resolved,
      scores nothing and changes nothing. */
  lemma RetargetIsIdempotent(board: Board, row: int, col: int)
    requires InGrid(board, row, col) && KnownCodes(board)
    ensures var b1 := EvaluateTarget(board, row, col).value.0;
            var second := EvaluateTarget(b1, row, col);
            && second.Ok? && second.value.0 == b1 && !Scored(second.value.1)
            && (second.value.1 == AlreadyHit || second.value.1 == AlreadyMissed)
  {
  }

  // ---------------------------------------------------------------------
  // A sequence of shots and the sinking property
  // ---------------------------------------------------------------------

  ghost predicate ShotsInGrid(b: Board, shots: seq<(int, int)>) {
    forall i | 0 <= i < |shots| :: InGrid(b, shots[i].0, shots[i].1)
  }

  /** Resolving shots one after the other; the outcomes in shot order. */
  function ResolveAll(board: Board, shots: seq<(int, int)>): (r: (Board, seq<Outcome>))
    requires IsGrid(board) && KnownCodes(board) && ShotsInGrid(board, shots)
    ensures |r.0| == |board| && IsGrid(r.0) && Width(r.0) == Width(board) && KnownCodes(r.0)
    ensures |r.1| == |shots|
  {
    if |shots| == 0 then (board, [])
    else
      var prev := ResolveAll(board, shots[..|shots| - 1]);
      var shot := shots[|shots| - 1];
      var step := EvaluateTarget(prev.0, shot.0, shot.1).value;
      (step.0, prev.1 + [step.1])
  }

  /** Number of scoring outcomes against ship k. */
  function HitsOn(outs: seq<Outcome>, k: int): nat {
    if |outs| == 0 then 0
    else HitsOn(outs[..|outs| - 1], k) + (if Scored(outs[|outs| - 1]) && outs[|outs| - 1].id == k then 1 else 0)
  }

  /** The outcomes of a prefix of the shots are the prefix of the outcomes. */
  lemma {:induction false} ResolvePrefix(board: Board, shots: seq<(int, int)>, m: nat)
    requires IsGrid(board) && KnownCodes(board) && ShotsInGrid(board, shots) && m <= |shots|
    ensures ResolveAll(board, shots).1[..m] == ResolveAll(board, shots[..m]).1
  {
    if m < |shots| {
      var p := shots[..|shots| - 1];
      assert p[..m] == shots[..m];
      ResolvePrefix(board, p, m);
    } else {
      assert shots[..m] == shots;
    }
  }

  /** Every scoring shot against ship k removes one of its intact cells. */
  lemma {:induction false} HitsOnCount(board: Board, shots: seq<(int, int)>, k: int)
    requires IsGrid(board) && KnownCodes(board) && ShotsInGrid(board, shots) && k >= 3
    ensures Count(ResolveAll(board, shots).0, k) == Count(board, k) - HitsOn(ResolveAll(board, shots).1, k)
  {
    if |shots| > 0 {
      var p := shots[..|shots| - 1];
      HitsOnCount(board, p, k);
      var prev := ResolveAll(board, p);
      var outs := ResolveAll(board, shots).1;
      assert outs[..|outs| - 1] == prev.1;
      var shot := shots[|shots| - 1];
      var v := prev.0[shot.0][shot.1];
      var step := EvaluateTarget(prev.0, shot.0, shot.1).value;
      assert ResolveAll(board, shots).0 == step.0;
      assert HitsOn(outs, k) == HitsOn(prev.1, k) + (if Scored(step.1) && step.1.id == k then 1 else 0);
      if v == Water {
        CountUpdate(prev.0, shot.0, shot.1, Missed, k);
      } else if v >= 3 {
        CountUpdate(prev.0, shot.0, shot.1, HitShip, k);
      }
    }
  }

  /** Shot j is resolved against the board the earlier shots left. */
  lemma {:induction false} OutcomeAt(board: Board, shots: seq<(int, int)>, j: int)
    requires IsGrid(board) && KnownCodes(board) && ShotsInGrid(board, shots)
    requires 0 <= j < |shots|
    ensures var before := ResolveAll(board, shots[..j]).0;
            InGrid(before, shots[j].0, shots[j].1) &&
            ResolveAll(board, shots).1[j] == EvaluateTarget(before, shots[j].0, shots[j].1).value.1
  {
    ResolvePrefix(board, shots, j + 1);
    var pre := shots[..j + 1];
    assert pre[..|pre| - 1] == shots[..j];
    assert pre[|pre| - 1] == shots[j];
    assert ResolveAll(board, shots).1[j] == ResolveAll(board, shots).1[..j + 1][j];
  }

  /** Sinking: for a ship k with L intact cells, a shot reports "sunk k"
      exactly when it is the L-th scoring shot against k, never earlier. */
  lemma {:induction false} SunkOnLastHit(board: Board, shots: seq<(int, int)>, k: int, j: int)
    requires IsGrid(board) && KnownCodes(board) && ShotsInGrid(board, shots) && k >= 3
    requires 0 <= j < |shots|
    ensures var outs := ResolveAll(board, shots).1;
            (outs[j].Sunk? && outs[j].id == k)
            <==> (Scored(outs[j]) && outs[j].id == k && HitsOn(outs[..j + 1], k) == Count(board, k))
  {
    var outs := ResolveAll(board, shots).1;
    var before := ResolveAll(board, shots[..j]);
    OutcomeAt(board, shots, j);
    ResolvePrefix(board, shots, j);
    HitsOnCount(board, shots[..j], k);
    // before.0 holds Count(board, k) - HitsOn(outs[..j], k) intact cells of k
    assert outs[..j + 1][..j] == outs[..j];
    assert HitsOn(outs[..j + 1], k) == HitsOn(outs[..j], k) + (if Scored(outs[j]) && outs[j].id == k then 1 else 0);
    var step := EvaluateTarget(before.0, shots[j].0, shots[j].1).value;
    assert outs[j] == step.1;
  }

  lemma {:induction false} HitsOnMonotone(outs: seq<Outcome>, k: int, a: nat, b: nat)
    requires a <= b <= |outs|
    ensures HitsOn(outs[..a], k) <= HitsOn(outs[..b], k)
  {
    if a < b {
      HitsOnMonotone(outs, k, a, b - 1);
      assert outs[..b][..b - 1] == outs[..b - 1];
    }
  }

  /** A ship is reported sunk at most once: two different shots never both sink k. */
  lemma {:induction false} SunkOnce(board: Board, shots: seq<(int, int)>, k: int, j1: int, j2: int)
    requires IsGrid(board) && KnownCodes(board) && ShotsInGrid(board, shots) && k >= 3
    requires 0 <= j1 < j2 < |shots|
    ensures var outs := ResolveAll(board, shots).1;
            !(outs[j1].Sunk? && outs[j1].id == k && outs[j2].Sunk? && outs[j2].id == k)
  {
    var outs := ResolveAll(board, shots).1;
    SunkOnLastHit(board, shots, k, j1);
    SunkOnLastHit(board, shots, k, j2);
    HitsOnMonotone(outs, k, j1 + 1, j2);
    assert outs[..j2 + 1][..j2] == outs[..j2];
  }
}
