/** The sea: one side's rectangular grid of cell codes.

Cell codes: 0 untouched water, 1 hit ship segment, 2 miss, 3..8 intact
segment of one ship type. The C# `int[,]` is modelled as a sequence of
equally long rows; writing a cell yields the updated board.
 */
module Sea {

  type Board = seq<seq<int>>

  const Water := 0
  const HitShip := 1
  const Missed := 2

  /** Number of columns (the C# `GetLength(1)`). */
  function Width(b: Board): nat {
    if |b| == 0 then 0 else |b[0]|
  }

  /** Every row has the same length, as in a two-dimensional array. */
  predicate IsGrid(b: Board) {
    forall i | 0 <= i < |b| :: |b[i]| == Width(b)
  }

  predicate InGrid(b: Board, r: int, c: int) {
    0 <= r < |b| && 0 <= c < |b[r]|
  }

  predicate AllZero(b: Board) {
    forall r, c | 0 <= r < |b| && 0 <= c < |b[r]| :: b[r][c] == Water
  }

  /** The board with cell (r, c) overwritten by x. */
  function Set(b: Board, r: int, c: int, x: int): (b': Board)
    requires InGrid(b, r, c)
    ensures |b'| == |b| && (IsGrid(b) ==> IsGrid(b') && Width(b') == Width(b))
    ensures forall i | 0 <= i < |b| :: |b'[i]| == |b[i]|
  {
    b[r := b[r][c := x]]
  }

  // ---------------------------------------------------------------------
  // Counting cells (reference definitions, by recursion on prefixes)
  // ---------------------------------------------------------------------

  function CountRow(row: seq<int>, v: int): nat {
    if |row| == 0 then 0
    else CountRow(row[..|row| - 1], v) + (if row[|row| - 1] == v then 1 else 0)
  }

  /** Number of cells of `b` holding `v`. */
  function Count(b: Board, v: int): nat {
    if |b| == 0 then 0
    else Count(b[..|b| - 1], v) + CountRow(b[|b| - 1], v)
  }

  /** `CountSeaValues`: the nested row-major scan of the source. */
  method CountSeaValues(sea: Board, v: int) returns (count: int)
    requires IsGrid(sea)
    ensures count == Count(sea, v)
    ensures 0 <= count <= |sea| * Width(sea)
  {
    count := 0;
    var i := 0;
    while i < |sea|
      invariant 0 <= i <= |sea|
      invariant count == Count(sea[..i], v)
    {
      var j := 0;
      while j < Width(sea)
        invariant 0 <= j <= Width(sea)
        invariant count == Count(sea[..i], v) + CountRow(sea[i][..j], v)
      {
        if sea[i][j] == v {
          count := count + 1;
        }
        assert sea[i][..j + 1][..j] == sea[i][..j];
        j := j + 1;
      }
      assert sea[i][..j] == sea[i];
      assert sea[..i + 1][..i] == sea[..i];
      i := i + 1;
    }
    assert sea[..i] == sea;
    CountBound(sea, v);
  }

  /** `ResetSea`: every cell becomes water, the dimensions stay. */
  method ResetSea(sea: Board) returns (b: Board)
    requires IsGrid(sea)
    ensures |b| == |sea| && IsGrid(b) && Width(b) == Width(sea)
    ensures AllZero(b)
    ensures Count(b, Water) == |sea| * Width(sea)
    ensures forall v | v != Water :: Count(b, v) == 0
    ensures AllZero(sea) ==> b == sea
  {
    b := sea;
    var i := 0;
    while i < |sea|
      invariant 0 <= i <= |sea|
      invariant |b| == |sea| && IsGrid(b) && Width(b) == Width(sea)
      invariant forall r, c | InGrid(b, r, c) && r < i :: b[r][c] == Water
      invariant forall r, c | InGrid(b, r, c) && r >= i :: b[r][c] == sea[r][c]
    {
      var j := 0;
      while j < Width(sea)
        invariant 0 <= j <= Width(sea)
        invariant |b| == |sea| && IsGrid(b) && Width(b) == Width(sea)
        invariant forall r, c | InGrid(b, r, c) && (r < i || (r == i && c < j)) :: b[r][c] == Water
        invariant forall r, c | InGrid(b, r, c) && (r > i || (r == i && c >= j)) :: b[r][c] == sea[r][c]
      {
        b := Set(b, i, j, Water);
        j := j + 1;
      }
      i := i + 1;
    }
    forall v {
      AllZeroCount(b, v);
    }
    if AllZero(sea) {
      forall r | 0 <= r < |b|
        ensures b[r] == sea[r]
      {
        assert |b[r]| == |sea[r]|;
      }
    }
  }

  // ---------------------------------------------------------------------
  // Lemmas about counting
  // ---------------------------------------------------------------------

  lemma {:induction false} CountRowBound(row: seq<int>, v: int)
    ensures CountRow(row, v) <= |row|
  {
    if |row| > 0 {
      CountRowBound(row[..|row| - 1], v);
    }
  }

  lemma {:induction false} CountBound(b: Board, v: int)
    requires IsGrid(b)
    ensures Count(b, v) <= |b| * Width(b)
  {
    if |b| > 0 {
      var p := b[..|b| - 1];
      assert IsGrid(p) && (|p| == 0 || Width(p) == Width(b));
      CountBound(p, v);
      CountRowBound(b[|b| - 1], v);
      assert |b| * Width(b) == |p| * Width(b) + Width(b);
    }
  }

  /** A cleared board holds rows*cols water cells and nothing else. */
  lemma {:induction false} AllZeroCount(b: Board, v: int)
    requires IsGrid(b) && AllZero(b)
    ensures Count(b, v) == if v == Water then |b| * Width(b) else 0
  {
    if |b| > 0 {
      var p := b[..|b| - 1];
      assert IsGrid(p) && AllZero(p) && (|p| == 0 || Width(p) == Width(b));
      AllZeroCount(p, v);
      ZeroRowCount(b[|b| - 1], v);
    }
  }

  lemma {:induction false} ZeroRowCount(row: seq<int>, v: int)
    requires forall c | 0 <= c < |row| :: row[c] == Water
    ensures CountRow(row, v) == if v == Water then |row| else 0
  {
    if |row| > 0 {
      ZeroRowCount(row[..|row| - 1], v);
    }
  }

  lemma {:induction false} CountRowUpdate(row: seq<int>, c: int, x: int, v: int)
    requires 0 <= c < |row|
    ensures CountRow(row[c := x], v)
            == CountRow(row, v) - (if row[c] == v then 1 else 0) + (if x == v then 1 else 0)
  {
    var n := |row|;
    if c < n - 1 {
      assert row[c := x][..n - 1] == row[..n - 1][c := x];
      CountRowUpdate(row[..n - 1], c, x, v);
    } else {
      assert row[c := x][..n - 1] == row[..n - 1];
    }
  }

  /** Overwriting one cell moves exactly that cell between the counts. */
  lemma {:induction false} CountUpdate(b: Board, r: int, c: int, x: int, v: int)
    requires InGrid(b, r, c)
    ensures Count(Set(b, r, c, x), v)
            == Count(b, v) - (if b[r][c] == v then 1 else 0) + (if x == v then 1 else 0)
  {
    var n := |b|;
    var b' := Set(b, r, c, x);
    if r < n - 1 {
      assert b'[..n - 1] == Set(b[..n - 1], r, c, x);
      CountUpdate(b[..n - 1], r, c, x, v);
    } else {
      assert b'[..n - 1] == b[..n - 1];
      CountRowUpdate(b[r], c, x, v);
    }
  }
}
