/** Placing a whole ruleset: the retry structure of `PlaceShips` and the
invariants that successive successful placements keep.

Random proposals and typed proposals are both reduced to a sequence of
`Option<Proposal>`: a draw of the random generator always yields a
proposal, a line typed by the player yields one only when it has the
letter-digit-direction shape (otherwise it is skipped and the player is
asked again).
 */
module Fleet {
  import opened Base
  import opened Sea
  import opened Catalog
  import opened Text
  import opened Placement

  // ---------------------------------------------------------------------
  // Fleet invariants
  // ---------------------------------------------------------------------

  ghost predicate Neighbours(r1: int, c1: int, r2: int, c2: int) {
    -1 <= r1 - r2 <= 1 && -1 <= c1 - c2 <= 1
  }

  /** No ship touches the outer border. */
  ghost predicate BorderClear(b: Board) {
    forall r, c | InGrid(b, r, c) && (r == 0 || r == |b| - 1 || c == 0 || c == |b[r]| - 1) ::
      b[r][c] == Water
  }

  /** Non-water cells with different codes are never 8-neighbours. */
  ghost predicate Separated(b: Board) {
    forall r1, c1, r2, c2 |
      InGrid(b, r1, c1) && InGrid(b, r2, c2) && Neighbours(r1, c1, r2, c2) &&
      b[r1][c1] != Water && b[r2][c2] != Water ::
      b[r1][c1] == b[r2][c2]
  }

  /** Total length of the ships in `ships` whose id is v. */
  function IdLength(ships: ShipSet, v: int): int {
    if |ships| == 0 then 0
    else
      var last := ships[|ships| - 1];
      IdLength(ships[..|ships| - 1], v) + (if ShipIdOf(last.0) == Some(v) then last.1 else 0)
  }

  /** A committed placement keeps ships apart and off the border. */
  lemma CommitKeepsFleet(b: Board, row: int, col: int, d: Direction, len: int, name: string)
    requires IsGrid(b) && Accepts(b, row, col, d, len)
    requires Separated(b) && BorderClear(b)
    ensures Separated(Commit(b, row, col, d, len, name))
    ensures BorderClear(Commit(b, row, col, d, len, name))
  {
    var b' := Commit(b, row, col, d, len, name);
    if len > 0 && ShipIdOf(name).Some? {
      forall r1, c1, r2, c2 |
        InGrid(b', r1, c1) && InGrid(b', r2, c2) && Neighbours(r1, c1, r2, c2) &&
        b'[r1][c1] != Water && b'[r2][c2] != Water
        ensures b'[r1][c1] == b'[r2][c2]
      {
        var on1 := OnShip(row, col, d, len, r1, c1);
        var on2 := OnShip(row, col, d, len, r2, c2);
        if on1 && !on2 {
          assert NearShip(row, col, d, len, r2, c2);
        } else if on2 && !on1 {
          assert NearShip(row, col, d, len, r1, c1);
        }
      }
      forall r, c | InGrid(b', r, c) && (r == 0 || r == |b'| - 1 || c == 0 || c == |b'[r]| - 1)
        ensures b'[r][c] == Water
      {
        GuardKeepsScanInside(|b|, Width(b), row, col, d, len, r, c);
      }
    }
  }

  /** Writing a ship of length k on water moves exactly k cells from water
      to the ship's id. */
  lemma {:induction false} PlaceSegsCount(b: Board, row: int, col: int, d: Direction, k: nat, id: int, v: int)
    requires IsGrid(b) && (k == 0 || HeadFits(|b|, Width(b), row, col, d, k))
    requires forall r, c | InGrid(b, r, c) && OnShip(row, col, d, k, r, c) :: b[r][c] == Water
    requires id != Water
    ensures Count(PlaceSegs(b, row, col, d, k, id), v)
            == Count(b, v) + (if v == id then k else 0) - (if v == Water then k else 0)
  {
    if k > 0 {
      if k > 1 {
        HeadFitsShorter(|b|, Width(b), row, col, d, k, k - 1);
      }
      forall r, c | InGrid(b, r, c) && OnShip(row, col, d, k - 1, r, c)
        ensures b[r][c] == Water
      {
        assert OnShip(row, col, d, k, r, c);
      }
      PlaceSegsCount(b, row, col, d, k - 1, id, v);
      LastSegment(b, row, col, d, k, id);
      CountUpdate(PlaceSegs(b, row, col, d, k - 1, id), SegRow(row, d, k - 1), SegCol(col, d, k - 1), id, v);
    }
  }

  /** The k-th segment lands on a cell that was water and that the first
      k - 1 segments left alone. */
  lemma LastSegment(b: Board, row: int, col: int, d: Direction, k: nat, id: int)
    requires IsGrid(b) && k > 0 && HeadFits(|b|, Width(b), row, col, d, k)
    requires forall r, c | InGrid(b, r, c) && OnShip(row, col, d, k, r, c) :: b[r][c] == Water
    ensures k == 1 || HeadFits(|b|, Width(b), row, col, d, k - 1)
    ensures var prev := PlaceSegs(b, row, col, d, k - 1, id);
            var sr, sc := SegRow(row, d, k - 1), SegCol(col, d, k - 1);
            && InGrid(prev, sr, sc) && prev[sr][sc] == Water
            && PlaceSegs(b, row, col, d, k, id) == Set(prev, sr, sc, id)
  {
    if k > 1 {
      HeadFitsShorter(|b|, Width(b), row, col, d, k, k - 1);
    }
    var sr, sc := SegRow(row, d, k - 1), SegCol(col, d, k - 1);
    GuardKeepsScanInside(|b|, Width(b), row, col, d, k, sr, sc);
    assert OnShip(row, col, d, k, sr, sc);
    assert InGrid(b, sr, sc) && !OnShip(row, col, d, k - 1, sr, sc);
  }

  /** The counts after a committed placement of a known ship. */
  lemma CommitCounts(b: Board, row: int, col: int, d: Direction, len: int, name: string, v: int)
    requires IsGrid(b) && Accepts(b, row, col, d, len) && ShipIdOf(name).Some? && len >= 0
    ensures Count(Commit(b, row, col, d, len, name), v)
            == Count(b, v) + (if v == ShipIdOf(name).value then len else 0) - (if v == Water then len else 0)
  {
    if len > 0 {
      GuardFacts(b, row, col, d, len);
      PlaceSegsCount(b, row, col, d, len, ShipIdOf(name).value, v);
    }
  }

  lemma {:induction false} IdLengthAbsent(ships: ShipSet, v: int)
    requires forall i | 0 <= i < |ships| :: ShipIdOf(ships[i].0) != Some(v)
    ensures IdLength(ships, v) == 0
  {
    if |ships| > 0 {
      IdLengthAbsent(ships[..|ships| - 1], v);
    }
  }

  /** With distinct known names, each ship's id accounts for exactly that ship. */
  lemma {:induction false} IdLengthOfShip(ships: ShipSet, j: int)
    requires DistinctNames(ships) && KnownNames(ships) && 0 <= j < |ships|
    ensures IdLength(ships, ShipIdOf(ships[j].0).value) == ships[j].1
  {
    var n := |ships|;
    var v := ShipIdOf(ships[j].0).value;
    var p := ships[..n - 1];
    if j == n - 1 {
      forall i | 0 <= i < |p|
        ensures ShipIdOf(p[i].0) != Some(v)
      {
        assert p[i].0 != ships[j].0;
      }
      IdLengthAbsent(p, v);
    } else {
      IdLengthOfShip(p, j);
      assert ships[n - 1].0 != ships[j].0;
    }
  }

  // ---------------------------------------------------------------------
  // The retry loops
  // ---------------------------------------------------------------------

  datatype Proposal = Proposal(row: int, col: int, direction: char)

  predicate ValidDirections(ps: seq<Option<Proposal>>) {
    forall i | 0 <= i < |ps| && ps[i].Some? :: ps[i].value.direction in "^v<>"
  }

  /** Proposal p would be accepted on `sea` for a ship of length len. */
  ghost predicate Takes(sea: Board, p: Proposal, len: int) {
    DirectionOf(p.direction).Some? && Accepts(sea, p.row, p.col, DirectionOf(p.direction).value, len)
  }

  /** The index of the first proposal from `from` on that `sea` accepts for
      a ship of length len, if there is one. */
  ghost function FirstTaken(sea: Board, len: int, proposals: seq<Option<Proposal>>, from: nat): (k: Option<nat>)
    ensures k.Some? ==> from <= k.value < |proposals| && proposals[k.value].Some? && Takes(sea, proposals[k.value].value, len)
    decreases |proposals| - from
  {
    if from >= |proposals| then None
    else if proposals[from].Some? && Takes(sea, proposals[from].value, len) then Some(from)
    else FirstTaken(sea, len, proposals, from + 1)
  }

  /** `FirstTaken` finds nothing exactly when no proposal from `from` on is
      accepted, and what it finds has no accepted proposal before it. */
  lemma {:induction false} FirstTakenIsFirst(sea: Board, len: int, proposals: seq<Option<Proposal>>, from: nat)
    ensures var k := FirstTaken(sea, len, proposals, from);
            k.None? <==> forall j | from <= j < |proposals| && proposals[j].Some? :: !Takes(sea, proposals[j].value, len)
    ensures var k := FirstTaken(sea, len, proposals, from);
            k.Some? ==> forall j | from <= j < k.value && proposals[j].Some? :: !Takes(sea, proposals[j].value, len)
    decreases |proposals| - from
  {
    if from < |proposals| && !(proposals[from].Some? && Takes(sea, proposals[from].value, len)) {
      FirstTakenIsFirst(sea, len, proposals, from + 1);
    }
  }

  /** Reference for a whole ruleset, from ship `i` on: each ship in turn is
      committed at the first accepted proposal after the one the previous
      ship used, and the first ship that finds none ends the placement. */
  ghost function Placed(sea: Board, ships: ShipSet, i: nat, proposals: seq<Option<Proposal>>, next: nat): (r: Result<Board>)
    requires IsGrid(sea)
    ensures r.Err? ==> r.error == AttemptsExhausted
    ensures r.Ok? ==> |r.value| == |sea| && IsGrid(r.value) && Width(r.value) == Width(sea)
    decreases |ships| - i
  {
    if i >= |ships| then Ok(sea)
    else
      match FirstTaken(sea, ships[i].1, proposals, next)
      case None => Err(AttemptsExhausted)
      case Some(k) =>
        var p := proposals[k].value;
        var b := Commit(sea, p.row, p.col, DirectionOf(p.direction).value, ships[i].1, ships[i].0);
        Placed(b, ships, i + 1, proposals, k + 1)
  }

  /** One step of `Placed` when ship i takes proposal k. */
  lemma PlacedTakes(sea: Board, ships: ShipSet, i: nat, proposals: seq<Option<Proposal>>, next: nat, k: nat, b: Board)
    requires IsGrid(sea) && i < |ships| && FirstTaken(sea, ships[i].1, proposals, next) == Some(k)
    requires var p := proposals[k].value;
             b == Commit(sea, p.row, p.col, DirectionOf(p.direction).value, ships[i].1, ships[i].0)
    ensures Placed(sea, ships, i, proposals, next) == Placed(b, ships, i + 1, proposals, k + 1)
  {
  }

  /** One ship: proposals from index `next` on are tried in order until one
      is accepted. A rejected proposal leaves the board as it was (the
      source's copy/restore), so trying the next one starts from the same board. */
  method PlaceOne(sea: Board, name: string, len: int, proposals: seq<Option<Proposal>>, next: nat)
    returns (r: Result<(Board, nat)>)
    requires IsGrid(sea) && ValidDirections(proposals)
    ensures r.Err? ==> r.error == AttemptsExhausted
    // it fails exactly when no remaining proposal is accepted
    ensures r.Err? <==> forall k | next <= k < |proposals| && proposals[k].Some? :: !Takes(sea, proposals[k].value, len)
    // on success it took the first accepted proposal and committed it
    ensures r.Ok? ==> next < r.value.1 <= |proposals|
    ensures r.Err? <==> FirstTaken(sea, len, proposals, next).None?
    ensures r.Ok? ==> FirstTaken(sea, len, proposals, next) == Some(r.value.1 - 1)
    ensures r.Ok? ==>
              var p := proposals[r.value.1 - 1];
              && p.Some? && Takes(sea, p.value, len)
              && r.value.0 == Commit(sea, p.value.row, p.value.col, DirectionOf(p.value.direction).value, len, name)
              && forall k | next <= k < r.value.1 - 1 && proposals[k].Some? :: !Takes(sea, proposals[k].value, len)
    ensures r.Ok? ==> |r.value.0| == |sea| && IsGrid(r.value.0) && Width(r.value.0) == Width(sea)
    ensures r.Ok? && Separated(sea) && BorderClear(sea) ==> Separated(r.value.0) && BorderClear(r.value.0)
    ensures r.Ok? && ShipIdOf(name).Some? && len >= 0 ==>
              forall v :: Count(r.value.0, v)
                          == Count(sea, v) + (if v == ShipIdOf(name).value then len else 0) - (if v == Water then len else 0)
    ensures r.Ok? && ShipIdOf(name).None? ==> r.value.0 == sea
  {
    FirstTakenIsFirst(sea, len, proposals, next);
    var k := next;
    while k < |proposals|
      invariant next <= k
      invariant forall j | next <= j < k && j < |proposals| && proposals[j].Some? :: !Takes(sea, proposals[j].value, len)
      decreases |proposals| - k
    {
      if proposals[k].Some? {
        var p := proposals[k].value;
        var res := CheckAndPlaceShips(sea, p.row, p.col, p.direction, len, name);
        if res.value.1 {
          var d := DirectionOf(p.direction).value;
          if Separated(sea) && BorderClear(sea) {
            CommitKeepsFleet(sea, p.row, p.col, d, len, name);
          }
          if ShipIdOf(name).Some? && len >= 0 {
            forall v {
              CommitCounts(sea, p.row, p.col, d, len, name, v);
            }
          }
          return Ok((res.value.0, k + 1));
        }
      }
      k := k + 1;
    }
    return Err(AttemptsExhausted);
  }

  /** The running tallies of `PlaceFleet` after the first j ships: every
      id counts the cells of its ships so far, and water the rest of the
      `cells` cells. */
  ghost predicate Tally(b: Board, cells: int, ships: ShipSet, j: nat)
    requires j <= |ships|
  {
    && Count(b, Water) == cells - TotalLength(ships[..j])
    && forall v | v != Water :: Count(b, v) == IdLength(ships[..j], v)
  }

  /** Ship j's turn in `PlaceFleet`: its retry loop, and what that does to the
      board, the tallies and the reference placement. */
  method PlaceNth(b: Board, ghost cells: int, ships: ShipSet, j: nat, proposals: seq<Option<Proposal>>, next: nat)
    returns (res: Result<(Board, nat)>)
    requires IsGrid(b) && ValidDirections(proposals) && j < |ships|
    ensures res.Err? ==> Placed(b, ships, j, proposals, next) == Err(AttemptsExhausted)
    ensures res.Ok? ==> |res.value.0| == |b| && IsGrid(res.value.0) && Width(res.value.0) == Width(b)
    ensures res.Ok? ==> Placed(b, ships, j, proposals, next) == Placed(res.value.0, ships, j + 1, proposals, res.value.1)
    ensures res.Ok? && Separated(b) && BorderClear(b) ==> Separated(res.value.0) && BorderClear(res.value.0)
    ensures res.Ok? && KnownNames(ships) && PositiveLengths(ships) && Tally(b, cells, ships, j) ==>
              Tally(res.value.0, cells, ships, j + 1)
  {
    res := PlaceOne(b, ships[j].0, ships[j].1, proposals, next);
    if res.Ok? {
      PlacedTakes(b, ships, j, proposals, next, res.value.1 - 1, res.value.0);
    }
    if res.Ok? && KnownNames(ships) && PositiveLengths(ships) && Tally(b, cells, ships, j) {
      TallyStep(b, res.value.0, cells, ships, j);
    }
  }

  /** Committing ship j moves its length from water to its id. */
  lemma TallyStep(b: Board, b': Board, cells: int, ships: ShipSet, j: nat)
    requires j < |ships| && KnownNames(ships) && PositiveLengths(ships) && Tally(b, cells, ships, j)
    requires forall v :: Count(b', v) == Count(b, v) + (if v == ShipIdOf(ships[j].0).value then ships[j].1 else 0)
                                                     - (if v == Water then ships[j].1 else 0)
    ensures Tally(b', cells, ships, j + 1)
  {
    assert ships[..j + 1][..j] == ships[..j];
  }

  /** Every ship of the ruleset, in order, each with its own retry loop. */
  method PlaceFleet(sea: Board, ships: ShipSet, proposals: seq<Option<Proposal>>) returns (r: Result<Board>)
    requires IsGrid(sea) && ValidDirections(proposals)
    // it succeeds, with this board, exactly when the reference placement does
    ensures r == Placed(sea, ships, 0, proposals, 0)
    ensures r.Err? ==> r.error == AttemptsExhausted
    ensures r.Ok? ==> |r.value| == |sea| && IsGrid(r.value) && Width(r.value) == Width(sea)
    ensures r.Ok? && Separated(sea) && BorderClear(sea) ==> Separated(r.value) && BorderClear(r.value)
    ensures r.Ok? && AllZero(sea) && DistinctNames(ships) && KnownNames(ships) && PositiveLengths(ships) ==>
              && (forall j | 0 <= j < |ships| :: Count(r.value, ShipIdOf(ships[j].0).value) == ships[j].1)
              && Count(r.value, Water) == |sea| * Width(sea) - TotalLength(ships)
  {
    ghost var cells := |sea| * Width(sea);
    ghost var cleared := AllZero(sea) && KnownNames(ships) && PositiveLengths(ships);
    ghost var fleet := Separated(sea) && BorderClear(sea);
    if cleared {
      forall v {
        AllZeroCount(sea, v);
      }
      assert Tally(sea, cells, ships, 0);
    }
    var b := sea;
    var next := 0;
    var j := 0;
    while j < |ships|
      invariant 0 <= j <= |ships|
      invariant |b| == |sea| && IsGrid(b) && Width(b) == Width(sea)
      invariant fleet ==> Separated(b) && BorderClear(b)
      invariant cleared ==> Tally(b, cells, ships, j)
      invariant Placed(sea, ships, 0, proposals, 0) == Placed(b, ships, j, proposals, next)
    {
      var res := PlaceNth(b, cells, ships, j, proposals, next);
      if res.Err? {
        return Err(AttemptsExhausted);
      }
      assert Placed(sea, ships, 0, proposals, 0) == Placed(res.value.0, ships, j + 1, proposals, res.value.1);
      b, next := res.value.0, res.value.1;
      j := j + 1;
    }
    assert ships[..j] == ships;
    if cleared && DistinctNames(ships) {
      forall i | 0 <= i < |ships|
        ensures Count(b, ShipIdOf(ships[i].0).value) == ships[i].1
      {
        IdLengthOfShip(ships, i);
      }
    }
    return Ok(b);
  }

  // ---------------------------------------------------------------------
  // Proposal sources
  // ---------------------------------------------------------------------

  /** The direction characters in the order the random generator indexes them. */
  const Directions := "<>^v"

  /** One round of the random generator: row, column and direction index. */
  datatype Draw = Draw(row: int, col: int, dirIndex: int)

  function FromDraw(d: Draw): (p: Option<Proposal>)
    requires 0 <= d.dirIndex < 4
    ensures p.Some? && p.value.direction in "^v<>"
  {
    Some(Proposal(d.row, d.col, Directions[d.dirIndex]))
  }

  /** The random branch's proposals, one per draw. */
  function RandomProposals(draws: seq<Draw>): (ps: seq<Option<Proposal>>)
    requires forall i | 0 <= i < |draws| :: 0 <= draws[i].dirIndex < 4
    ensures |ps| == |draws| && ValidDirections(ps)
    ensures forall i | 0 <= i < |ps| :: ps[i].Some?
  {
    seq(|draws|, i requires 0 <= i < |draws| => FromDraw(draws[i]))
  }

  /** The custom branch's parse: letter, digit, direction; row = digit - 1,
      col = upper(letter) - 'A'. No range check here: the placement guard
      rejects what does not fit. */
  function ParsePlacement(input: string): (p: Option<Proposal>)
    ensures p.Some? <==> |input| == 3 && IsLetter(input[0]) && IsDigit(input[1]) && input[2] in "^v<>"
    ensures p.Some? ==> p.value.direction in "^v<>" && -1 <= p.value.row <= 8 && 0 <= p.value.col < 26
  {
    if |input| == 3 && IsLetter(input[0]) && IsDigit(input[1]) && input[2] in "^v<>" then
      Some(Proposal(DigitValue(input[1]) - 1, LetterIndex(input[0]), input[2]))
    else
      None
  }

  /** The custom branch's proposals, one per typed line; a line of the wrong
      shape yields none. */
  function TypedProposals(inputs: seq<string>): (ps: seq<Option<Proposal>>)
    ensures |ps| == |inputs| && ValidDirections(ps)
    ensures forall i | 0 <= i < |ps| :: ps[i].Some? <==> ParsePlacement(inputs[i]).Some?
  {
    seq(|inputs|, i requires 0 <= i < |inputs| => ParsePlacement(inputs[i]))
  }

  /** How a player writes a placement: column letter, 1-based row digit, direction. */
  function FormatPlacement(p: Proposal, lower: bool): string
    requires 0 <= p.row <= 8 && 0 <= p.col < 26
  {
    var letter := (ColumnLetter(p.col) as int + (if lower then 32 else 0)) as char;
    [letter, ('1' as int + p.row) as char, p.direction]
  }

  /** Every head cell with a one-digit row and every direction can be typed,
      in either letter case, and reads back as itself. */
  lemma ParsePlacementRoundTrip(p: Proposal, lower: bool)
    requires 0 <= p.row <= 8 && 0 <= p.col < 26 && p.direction in "^v<>"
    ensures ParsePlacement(FormatPlacement(p, lower)) == Some(p)
  {
  }

  /** `PlaceShips`: refuses an unknown placement type, then places the whole
      ruleset from random draws or from typed lines. */
  method PlaceShips(sea: Board, ships: ShipSet, placementType: string, draws: seq<Draw>, inputs: seq<string>)
    returns (r: Result<Board>)
    requires IsGrid(sea)
    requires forall i | 0 <= i < |draws| :: 0 <= draws[i].dirIndex < 4
    ensures (r.Err? && r.error == InvalidPlacementType) <==> placementType != "random" && placementType != "custom"
    ensures r.Err? ==> r.error == InvalidPlacementType || r.error == AttemptsExhausted
    ensures placementType == "random" ==> r == Placed(sea, ships, 0, RandomProposals(draws), 0)
    ensures placementType == "custom" ==> r == Placed(sea, ships, 0, TypedProposals(inputs), 0)
    ensures r.Ok? ==> |r.value| == |sea| && IsGrid(r.value) && Width(r.value) == Width(sea)
    ensures r.Ok? && Separated(sea) && BorderClear(sea) ==> Separated(r.value) && BorderClear(r.value)
    ensures r.Ok? && AllZero(sea) && DistinctNames(ships) && KnownNames(ships) && PositiveLengths(ships) ==>
              && (forall j | 0 <= j < |ships| :: Count(r.value, ShipIdOf(ships[j].0).value) == ships[j].1)
              && Count(r.value, Water) == |sea| * Width(sea) - TotalLength(ships)
  {
    if !(placementType == "random" || placementType == "custom") {
      return Err(InvalidPlacementType);
    }
    var proposals := if placementType == "random" then RandomProposals(draws) else TypedProposals(inputs);
    r := PlaceFleet(sea, ships, proposals);
  }
}
