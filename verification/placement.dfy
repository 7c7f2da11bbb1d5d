/** Ship placement: the validator/committer `CheckAndPlaceShips` and the
per-ship retry loop of `PlaceShips`.

A proposal names the head cell (row, col), a direction and implicitly the
ship's length. The guard checks the head against the borders (with the
source's asymmetric margins), then every segment's 3x3 neighbourhood must
be water; only then are the segments written with the ship's id.
 */
module Placement {
  import opened Base
  import opened Sea
  import opened Catalog
  import opened Text

  datatype Direction = Up | Down | Left | Right

  /** The direction characters `^ v < >`; anything else is refused. */
  function DirectionOf(ch: char): (r: Option<Direction>)
    ensures r.Some? <==> ch in "^v<>"
  {
    if ch == '^' then Some(Up)
    else if ch == 'v' then Some(Down)
    else if ch == '<' then Some(Left)
    else if ch == '>' then Some(Right)
    else None
  }

  function DirectionChar(d: Direction): char {
    match d
    case Up => '^'
    case Down => 'v'
    case Left => '<'
    case Right => '>'
  }

  /** The character table and the direction type are in bijection. */
  lemma DirectionRoundTrip(d: Direction, ch: char)
    ensures DirectionOf(DirectionChar(d)) == Some(d)
    ensures DirectionOf(ch) == Some(d) <==> ch == DirectionChar(d)
  {
  }

  /** Row of segment i: `row + rowOffset * i`, rowOffset being -1 for ^, 1 for v, 0 otherwise. */
  function SegRow(row: int, d: Direction, i: int): int {
    match d
    case Up => row - i
    case Down => row + i
    case _ => row
  }

  /** Column of segment i: `col + colOffset * i`, colOffset being -1 for <, 1 for >, 0 otherwise. */
  function SegCol(col: int, d: Direction, i: int): int {
    match d
    case Left => col - i
    case Right => col + i
    case _ => col
  }

  /** The per-direction bounds guard, with its asymmetric margins: for ^ the
      head needs `row - len - 1 >= 0`, so the tail keeps two rows of margin
      and the head (against the far border) one; v, < and > are analogous. */
  predicate HeadFits(rows: int, cols: int, row: int, col: int, d: Direction, len: int) {
    match d
    case Up =>    row - len - 1 >= 0 && row + 1 <= rows - 1 && col - 1 >= 0 && col + 1 <= cols - 1
    case Down =>  row - 1 >= 0 && row + len + 1 <= rows - 1 && col - 1 >= 0 && col + 1 <= cols - 1
    case Left =>  row - 1 >= 0 && row + 1 <= rows - 1 && col - len - 1 >= 0 && col + 1 <= cols - 1
    case Right => row - 1 >= 0 && row + 1 <= rows - 1 && col - 1 >= 0 && col + len + 1 <= cols - 1
  }

  /** Cell (r, c) is one of the first k segments of the ship. */
  predicate OnShip(row: int, col: int, d: Direction, k: int, r: int, c: int) {
    match d
    case Up =>    c == col && row - k < r <= row
    case Down =>  c == col && row <= r < row + k
    case Left =>  r == row && col - k < c <= col
    case Right => r == row && col <= c < col + k
  }

  /** Cell (r, c) lies in the 3x3 neighbourhood of one of the first k segments. */
  predicate NearShip(row: int, col: int, d: Direction, k: int, r: int, c: int) {
    k > 0 &&
    match d
    case Up =>    col - 1 <= c <= col + 1 && row - k <= r <= row + 1
    case Down =>  col - 1 <= c <= col + 1 && row - 1 <= r <= row + k
    case Left =>  row - 1 <= r <= row + 1 && col - k <= c <= col + 1
    case Right => row - 1 <= r <= row + 1 && col - 1 <= c <= col + k
  }

  /** The collision scan: every neighbourhood cell of the first k segments is water. */
  ghost predicate NeighbourhoodClear(b: Board, row: int, col: int, d: Direction, k: int) {
    forall r, c | InGrid(b, r, c) && NearShip(row, col, d, k, r, c) :: b[r][c] == Water
  }

  /** A proposal is accepted iff the guard passes and the scan finds only water. */
  ghost predicate Accepts(b: Board, row: int, col: int, d: Direction, len: int) {
    HeadFits(|b|, Width(b), row, col, d, len) && NeighbourhoodClear(b, row, col, d, len)
  }

  /** `NearShip` is the union of the segments' 3x3 neighbourhoods, in both directions. */
  lemma NearShipIsNeighbourhood(row: int, col: int, d: Direction, k: int, r: int, c: int)
    ensures NearShip(row, col, d, k, r, c)
            <==> exists i | 0 <= i < k :: -1 <= r - SegRow(row, d, i) <= 1 && -1 <= c - SegCol(col, d, i) <= 1
  {
    if NearShip(row, col, d, k, r, c) {
      var i := match d
        case Up => Clamp(row - r, k - 1)
        case Down => Clamp(r - row, k - 1)
        case Left => Clamp(col - c, k - 1)
        case Right => Clamp(c - col, k - 1);
      assert -1 <= r - SegRow(row, d, i) <= 1 && -1 <= c - SegCol(col, d, i) <= 1;
    }
  }

  function Max0(x: int): nat {
    if x < 0 then 0 else x
  }

  function Clamp(x: int, hi: nat): (y: int)
    ensures 0 <= y <= hi
    ensures 0 <= x <= hi ==> y == x
    ensures x < 0 ==> y == 0
    ensures x > hi ==> y == hi
  {
    if x < 0 then 0 else if x > hi then hi else x
  }

  /** Index safety: when the guard passes, every cell the scan reads is inside
      the grid and every segment keeps at least one cell off each border. */
  lemma GuardKeepsScanInside(rows: int, cols: int, row: int, col: int, d: Direction, len: int, r: int, c: int)
    requires HeadFits(rows, cols, row, col, d, len)
    ensures NearShip(row, col, d, len, r, c) ==> 0 <= r < rows && 0 <= c < cols
    ensures OnShip(row, col, d, len, r, c) ==> 1 <= r <= rows - 2 && 1 <= c <= cols - 2
    ensures OnShip(row, col, d, len, r, c) ==> NearShip(row, col, d, len, r, c)
  {
  }

  /** The guard in one sentence: it admits a ship exactly when its segments
      and the one cell beyond its tail all keep at least one cell off every
      border. So the head keeps a margin of one and the tail a margin of two. */
  lemma HeadFitsInterior(rows: int, cols: int, row: int, col: int, d: Direction, len: int)
    ensures 0 <= len ==>
              (HeadFits(rows, cols, row, col, d, len) <==>
               forall i | 0 <= i <= len :: 1 <= SegRow(row, d, i) <= rows - 2 && 1 <= SegCol(col, d, i) <= cols - 2)
  {
    if 0 <= len {
      if forall i | 0 <= i <= len :: 1 <= SegRow(row, d, i) <= rows - 2 && 1 <= SegCol(col, d, i) <= cols - 2 {
        assert 1 <= SegRow(row, d, 0) <= rows - 2 && 1 <= SegCol(col, d, 0) <= cols - 2;
        assert 1 <= SegRow(row, d, len) <= rows - 2 && 1 <= SegCol(col, d, len) <= cols - 2;
      }
    }
  }

  /** A guard that admits a ship admits each of its prefixes. */
  lemma HeadFitsShorter(rows: int, cols: int, row: int, col: int, d: Direction, len: int, k: int)
    requires HeadFits(rows, cols, row, col, d, len) && 0 <= k <= len
    ensures HeadFits(rows, cols, row, col, d, k)
  {
  }

  // ---------------------------------------------------------------------
  // Committing a ship
  // ---------------------------------------------------------------------

  /** The board after writing `id` on the first k segments, one at a time. */
  function PlaceSegs(b: Board, row: int, col: int, d: Direction, k: nat, id: int): (b': Board)
    requires IsGrid(b) && (k == 0 || HeadFits(|b|, Width(b), row, col, d, k))
    ensures |b'| == |b| && IsGrid(b') && Width(b') == Width(b)
    ensures forall r, c | InGrid(b, r, c) ::
              b'[r][c] == if OnShip(row, col, d, k, r, c) then id else b[r][c]
    decreases k
  {
    if k == 0 then b
    else
      var prev := PlaceSegs(b, row, col, d, k - 1, id);
      Set(prev, SegRow(row, d, k - 1), SegCol(col, d, k - 1), id)
  }

  /** What a successful `CheckAndPlaceShips` leaves: the segments carry the
      ship's id, or nothing is written when the name has no id. */
  function Commit(b: Board, row: int, col: int, d: Direction, len: int, name: string): Board
    requires IsGrid(b) && HeadFits(|b|, Width(b), row, col, d, len)
  {
    if len <= 0 || ShipIdOf(name).None? then b
    else PlaceSegs(b, row, col, d, len, ShipIdOf(name).value)
  }

  /** `CheckAndPlaceShips`: refuses an unknown direction, rejects a proposal
      that fails the guard or the scan without touching the board, and
      otherwise writes the ship's id on exactly its segments. With unbounded
      integers every head position and length is safe; the source's 32-bit
      sums are safe only while they do not wrap. */
  method CheckAndPlaceShips(sea: Board, row: int, col: int, direction: char, shipLength: int, shipName: string)
    returns (r: Result<(Board, bool)>)
    requires IsGrid(sea)
    ensures r.Err? <==> direction !in "^v<>"
    ensures r.Err? ==> r.error == InvalidDirection
    ensures r.Ok? ==> (r.value.1 <==> Accepts(sea, row, col, DirectionOf(direction).value, shipLength))
    ensures r.Ok? && !r.value.1 ==> r.value.0 == sea
    ensures r.Ok? && r.value.1 ==>
              HeadFits(|sea|, Width(sea), row, col, DirectionOf(direction).value, shipLength) &&
              r.value.0 == Commit(sea, row, col, DirectionOf(direction).value, shipLength, shipName)
    ensures r.Ok? && r.value.1 ==>
              var d := DirectionOf(direction).value;
              var id := ShipIdOf(shipName);
              && |r.value.0| == |sea| && IsGrid(r.value.0) && Width(r.value.0) == Width(sea)
              && (forall rr, cc | InGrid(sea, rr, cc) ::
                    r.value.0[rr][cc] == if id.Some? && OnShip(row, col, d, shipLength, rr, cc) then id.value else sea[rr][cc])
              && (forall rr, cc | OnShip(row, col, d, shipLength, rr, cc) ::
                    InGrid(sea, rr, cc) && 1 <= rr <= |sea| - 2 && 1 <= cc <= Width(sea) - 2 && sea[rr][cc] == Water)
  {
    var d := DirectionOf(direction);
    if d.None? {
      return Err(InvalidDirection);
    }
    var dir := d.value;
    if !HeadFits(|sea|, Width(sea), row, col, dir, shipLength) {
      return Ok((sea, false));
    }
    var clear := ScanNeighbourhoods(sea, row, col, dir, shipLength);
    if !clear {
      return Ok((sea, false));
    }
    var b := WriteSegments(sea, row, col, dir, shipLength, shipName);
    GuardFacts(sea, row, col, dir, shipLength);
    return Ok((b, true));
  }

  /** The collision scan of `CheckAndPlaceShips`: the 3x3 block around each
      segment, segment by segment, stopping at the first non-water cell. */
  method ScanNeighbourhoods(sea: Board, row: int, col: int, dir: Direction, shipLength: int)
    returns (clear: bool)
    requires IsGrid(sea) && HeadFits(|sea|, Width(sea), row, col, dir, shipLength)
    ensures clear <==> NeighbourhoodClear(sea, row, col, dir, shipLength)
  {
    var i := 0;
    while i < shipLength
      invariant 0 <= i <= Max0(shipLength)
      invariant NeighbourhoodClear(sea, row, col, dir, i)
    {
      var newRow, newCol := SegRow(row, dir, i), SegCol(col, dir, i);
      var r := newRow - 1;
      while r <= newRow + 1
        invariant newRow - 1 <= r <= newRow + 2
        invariant forall rr, cc | newRow - 1 <= rr < r && newCol - 1 <= cc <= newCol + 1 ::
                    InGrid(sea, rr, cc) && sea[rr][cc] == Water
      {
        var c := newCol - 1;
        while c <= newCol + 1
          invariant newCol - 1 <= c <= newCol + 2
          invariant forall cc | newCol - 1 <= cc < c :: InGrid(sea, r, cc) && sea[r][cc] == Water
        {
          if sea[r][c] != Water {
            assert InGrid(sea, r, c) && NearShip(row, col, dir, shipLength, r, c);
            return false;
          }
          c := c + 1;
        }
        r := r + 1;
      }
      i := i + 1;
    }
    return true;
  }

  /** The write loop of `CheckAndPlaceShips`: each segment receives the id
      that the name switch selects; an unknown name writes nothing. */
  method WriteSegments(sea: Board, row: int, col: int, dir: Direction, shipLength: int, shipName: string)
    returns (b: Board)
    requires IsGrid(sea) && HeadFits(|sea|, Width(sea), row, col, dir, shipLength)
    ensures b == Commit(sea, row, col, dir, shipLength, shipName)
  {
    var id := ShipIdOf(shipName);
    b := sea;
    var k := 0;
    while k < shipLength
      invariant 0 <= k <= Max0(shipLength)
      invariant k == 0 || HeadFits(|sea|, Width(sea), row, col, dir, k)
      invariant id.Some? ==> b == PlaceSegs(sea, row, col, dir, k, id.value)
      invariant id.None? ==> b == sea
    {
      HeadFitsShorter(|sea|, Width(sea), row, col, dir, shipLength, k + 1);
      if id.Some? {
        assert PlaceSegs(sea, row, col, dir, k + 1, id.value)
            == Set(PlaceSegs(sea, row, col, dir, k, id.value), SegRow(row, dir, k), SegCol(col, dir, k), id.value);
        b := Set(b, SegRow(row, dir, k), SegCol(col, dir, k), id.value);
      }
      k := k + 1;
    }
  }

  lemma GuardFacts(sea: Board, row: int, col: int, d: Direction, len: int)
    requires IsGrid(sea) && HeadFits(|sea|, Width(sea), row, col, d, len)
    requires NeighbourhoodClear(sea, row, col, d, len)
    ensures forall rr, cc | OnShip(row, col, d, len, rr, cc) ::
              InGrid(sea, rr, cc) && 1 <= rr <= |sea| - 2 && 1 <= cc <= Width(sea) - 2 && sea[rr][cc] == Water
  {
    forall rr, cc | OnShip(row, col, d, len, rr, cc)
      ensures InGrid(sea, rr, cc) && sea[rr][cc] == Water
    {
      GuardKeepsScanInside(|sea|, Width(sea), row, col, d, len, rr, cc);
    }
  }
}
