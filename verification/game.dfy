/** The game loop of `Program.cs`: the end-of-game test, the player's
target parse, the enemy's target choice and the turn bookkeeping.

Console output, the countdown and `Environment.Exit` are left out: a turn
takes the lines the player types and the random numbers the enemy draws as
data, and the loop returns its final state and the reason it stopped.
 */
module Game {
  import opened Base
  import opened Sea
  import opened Catalog
  import opened Text
  import opened Resolution

  const SeaSize := 10
  const GameVersion := 2002
  const MaxTurns := 100

  // ---------------------------------------------------------------------
  // EndGame
  // ---------------------------------------------------------------------

  datatype GameEnd = Continue | PlayerWon | EnemyWon

  /** `EndGame`: the game is over once either side reaches the threshold;
      the player's count is checked first, so a tie goes to the player. */
  function EndGame(playerHits: int, enemyHits: int, maxHits: int): (r: GameEnd)
    ensures r != Continue <==> playerHits >= maxHits || enemyHits >= maxHits
    ensures r == PlayerWon <==> playerHits >= maxHits
    ensures r == EnemyWon ==> enemyHits >= maxHits
  {
    if playerHits >= maxHits then PlayerWon
    else if enemyHits >= maxHits then EnemyWon
    else Continue
  }

  /** The threshold is exact: maxHits hits end the game, maxHits - 1 do not. */
  lemma EndGameBoundary(maxHits: int, other: int)
    requires other < maxHits
    ensures EndGame(maxHits, other, maxHits) == PlayerWon
    ensures EndGame(other, maxHits, maxHits) == EnemyWon
    ensures EndGame(maxHits - 1, maxHits - 1, maxHits) == Continue
    ensures EndGame(maxHits, maxHits, maxHits) == PlayerWon
  {
  }

  // ---------------------------------------------------------------------
  // Target selection
  // ---------------------------------------------------------------------

  datatype Command = Fire(row: int, col: int) | Quit | Reprompt

  /** A two-character line, letter then digit, read as (digit - 1, letter - 'A'),
      before any range check. */
  function ReadCoordinate(input: string): (r: Option<(int, int)>)
    ensures r.Some? <==> |input| == 2 && IsLetter(input[0]) && IsDigit(input[1])
    ensures r.Some? ==> -1 <= r.value.0 <= 8 && 0 <= r.value.1 < 26
  {
    if |input| == 2 && IsLetter(input[0]) && IsDigit(input[1]) then
      Some((DigitValue(input[1]) - 1, LetterIndex(input[0])))
    else None
  }

  /** The parse of `TargetSelectionMenu` as written: a coordinate is taken only
      when both indices are strictly positive, so column A and row 1 are refused. */
  function ParseTarget(input: string, count: int): (cmd: Command)
    ensures cmd.Quit? <==> input == "exit"
    ensures cmd.Fire? <==> (ReadCoordinate(input).Some? &&
                            var (row, col) := ReadCoordinate(input).value;
                            0 < row < count && 0 < col < count)
    ensures cmd.Fire? ==> ReadCoordinate(input) == Some((cmd.row, cmd.col))
  {
    match ReadCoordinate(input)
    case Some((row, col)) =>
      if row > 0 && col > 0 && row < count && col < count then Fire(row, col) else Reprompt
    case None =>
      if input == "exit" then Quit else Reprompt
  }

  /** The parse with the lower bounds the prompt's format evidently intends:
      every index in [0, count) that one letter and one digit can name. */
  function ParseTargetFixed(input: string, count: int): (cmd: Command)
    ensures cmd.Quit? <==> input == "exit"
    ensures cmd.Fire? <==> (ReadCoordinate(input).Some? &&
                            var (row, col) := ReadCoordinate(input).value;
                            0 <= row < count && 0 <= col < count)
    ensures cmd.Fire? ==> ReadCoordinate(input) == Some((cmd.row, cmd.col))
  {
    match ReadCoordinate(input)
    case Some((row, col)) =>
      if row >= 0 && col >= 0 && row < count && col < count then Fire(row, col) else Reprompt
    case None =>
      if input == "exit" then Quit else Reprompt
  }

  /** The coordinate as the board prints it: column letter, then the row number from 1. */
  function FormatTarget(row: int, col: int): (s: string)
    requires 0 <= row <= 8 && 0 <= col < 26
    ensures |s| == 2 && 'A' <= s[0] <= 'Z' && '1' <= s[1] <= '9'
  {
    [ColumnLetter(col), (('1' as int) + row) as char]
  }

  /** Every cell of the grid with a one-digit row number can be typed and is
      read back as itself. */
  lemma ParseTargetFixedRoundTrip(row: int, col: int, count: int)
    requires 0 <= row <= 8 && 0 <= col < 26 && row < count && col < count
    ensures ParseTargetFixed(FormatTarget(row, col), count) == Fire(row, col)
  {
    var s := FormatTarget(row, col);
    assert ReadCoordinate(s) == Some((row, col));
  }

  /** Conversely, an accepted line is the printed form of the cell it names
      (up to the case of the letter). */
  lemma ParseTargetFixedNamesItsCell(input: string, count: int)
    requires ParseTargetFixed(input, count).Fire?
    ensures var cmd := ParseTargetFixed(input, count);
            0 <= cmd.row <= 8 && 0 <= cmd.col < 26 &&
            FormatTarget(cmd.row, cmd.col) == [ToUpper(input[0]), input[1]]
  {
    var cmd := ParseTargetFixed(input, count);
    assert IsLetter(input[0]);
    assert ToUpper(input[0]) == ColumnLetter(cmd.col);
  }

  /** As written, the printed name of an in-grid cell is accepted exactly when
      the cell is off the first row and the first column. */
  lemma ParseTargetRejectsFirstRowAndColumn(row: int, col: int, count: int)
    requires 0 <= row <= 8 && 0 <= col < 26 && row < count && col < count
    ensures ParseTarget(FormatTarget(row, col), count) == Fire(row, col) <==> row > 0 && col > 0
    ensures ParseTarget(FormatTarget(row, col), count).Fire? <==> row > 0 && col > 0
  {
    var s := FormatTarget(row, col);
    assert ReadCoordinate(s) == Some((row, col));
  }

  /** The concrete witness: "A5" names row 4 of column A on the 10 x 10 sea. */
  lemma ParseTargetColumnAWitness()
    ensures FormatTarget(4, 0) == "A5"
    ensures ParseTarget("A5", SeaSize) == Reprompt
    ensures ParseTargetFixed("A5", SeaSize) == Fire(4, 0)
  {
    assert ReadCoordinate("A5") == Some((4, 0));
  }

  /** Which target parse the prompt uses: `AsWritten` is `ParseTarget`,
      `Corrected` is `ParseTargetFixed`. */
  datatype Parse = AsWritten | Corrected

  function ParseWith(parse: Parse, input: string, count: int): Command {
    match parse
    case AsWritten => ParseTarget(input, count)
    case Corrected => ParseTargetFixed(input, count)
  }

  /** The `while (true)` of `TargetSelectionMenu` over the lines the player
      types: the first line that is a target or "exit" decides; every other
      line is refused and the prompt repeats. */
  function ReadCommand(parse: Parse, lines: seq<string>, count: int): (r: Option<Command>)
    ensures r.Some? ==> !r.value.Reprompt?
    ensures r.Some? && r.value.Fire? ==> 0 <= r.value.row < count && 0 <= r.value.col < count
    ensures r.None? <==> forall i | 0 <= i < |lines| :: ParseWith(parse, lines[i], count).Reprompt?
    ensures r.Some? ==> exists i | 0 <= i < |lines| ::
              ParseWith(parse, lines[i], count) == r.value &&
              forall j | 0 <= j < i :: ParseWith(parse, lines[j], count).Reprompt?
  {
    if |lines| == 0 then None
    else
      var cmd := ParseWith(parse, lines[0], count);
      if !cmd.Reprompt? then Some(cmd)
      else
        var rest := ReadCommand(parse, lines[1..], count);
        assert forall i | 1 <= i < |lines| :: lines[1..][i - 1] == lines[i];
        if rest.Some? then
          var i :| 0 <= i < |lines[1..]| && ParseWith(parse, lines[1..][i], count) == rest.value &&
                   forall j | 0 <= j < i :: ParseWith(parse, lines[1..][j], count).Reprompt?;
          assert ParseWith(parse, lines[i + 1], count) == rest.value;
          assert forall j | 0 <= j < i + 1 :: ParseWith(parse, lines[j], count).Reprompt?;
          rest
        else rest
  }

  // ---------------------------------------------------------------------
  // The enemy's choice of target
  // ---------------------------------------------------------------------

  /** How already-used enemy targets are excluded. `PerAxis` is the code as
      written: a row, and independently a column, is never drawn twice.
      `PerPair` excludes only coordinate pairs already shot at. */
  datatype Policy = PerAxis | PerPair

  /** The do-while over random draws: the first draw not already used. */
  function FirstFresh(used: seq<int>, draws: seq<int>): (r: Option<int>)
    ensures r.Some? ==> r.value !in used && r.value in draws
    ensures r.None? <==> forall j | 0 <= j < |draws| :: draws[j] in used
    // the loop exits at the first draw not used before
    ensures r.Some? ==> exists j | 0 <= j < |draws| ::
              draws[j] == r.value && forall i | 0 <= i < j :: draws[i] in used
  {
    if |draws| == 0 then None
    else if draws[0] !in used then Some(draws[0])
    else
      var r := FirstFresh(used, draws[1..]);
      assert forall j | 1 <= j < |draws| :: draws[1..][j - 1] == draws[j];
      if r.Some? then
        var j :| 0 <= j < |draws[1..]| && draws[1..][j] == r.value && forall i | 0 <= i < j :: draws[1..][i] in used;
        assert draws[j + 1] == r.value;
        assert forall i | 0 <= i < j + 1 :: draws[i] in used;
        r
      else r
  }

  /** Whether (r, c) is one of the pairs (rows[i], cols[i]) already shot at. */
  predicate PairUsed(rows: seq<int>, cols: seq<int>, r: int, c: int) {
    exists i | 0 <= i < |rows| && i < |cols| :: rows[i] == r && cols[i] == c
  }

  /** The first drawn pair (rowDraws[j], colDraws[j]) not already shot at. */
  function FirstFreshPair(rows: seq<int>, cols: seq<int>, rowDraws: seq<int>, colDraws: seq<int>): (r: Option<(int, int)>)
    ensures r.Some? ==> !PairUsed(rows, cols, r.value.0, r.value.1)
    ensures r.Some? ==> r.value.0 in rowDraws && r.value.1 in colDraws
    ensures r.None? <==> forall j | 0 <= j < |rowDraws| && j < |colDraws| :: PairUsed(rows, cols, rowDraws[j], colDraws[j])
    // the pick is the first drawn pair not shot at before
    ensures r.Some? ==> exists j | 0 <= j < |rowDraws| && j < |colDraws| ::
              rowDraws[j] == r.value.0 && colDraws[j] == r.value.1 &&
              forall i | 0 <= i < j :: PairUsed(rows, cols, rowDraws[i], colDraws[i])
  {
    if |rowDraws| == 0 || |colDraws| == 0 then None
    else if !PairUsed(rows, cols, rowDraws[0], colDraws[0]) then Some((rowDraws[0], colDraws[0]))
    else
      var r := FirstFreshPair(rows, cols, rowDraws[1..], colDraws[1..]);
      assert forall j | 1 <= j < |rowDraws| :: rowDraws[1..][j - 1] == rowDraws[j];
      assert forall j | 1 <= j < |colDraws| :: colDraws[1..][j - 1] == colDraws[j];
      if r.Some? then
        var j :| 0 <= j < |rowDraws[1..]| && j < |colDraws[1..]| &&
                 rowDraws[1..][j] == r.value.0 && colDraws[1..][j] == r.value.1 &&
                 forall i | 0 <= i < j :: PairUsed(rows, cols, rowDraws[1..][i], colDraws[1..][i]);
        assert rowDraws[j + 1] == r.value.0 && colDraws[j + 1] == r.value.1;
        assert forall i | 0 <= i < j + 1 :: PairUsed(rows, cols, rowDraws[i], colDraws[i]);
        r
      else r
  }

  /** The enemy's half-turn target under a policy; None when the supplied
      draws run out before a fresh target turns up. */
  function EnemyPick(policy: Policy, rows: seq<int>, cols: seq<int>, rowDraws: seq<int>, colDraws: seq<int>): (r: Option<(int, int)>)
    ensures r.Some? ==> r.value.0 in rowDraws && r.value.1 in colDraws
    ensures policy == PerAxis && r.Some? ==> r.value.0 !in rows && r.value.1 !in cols
    ensures policy == PerPair && r.Some? ==> !PairUsed(rows, cols, r.value.0, r.value.1)
    ensures policy == PerAxis && r.None? ==>
              (forall j | 0 <= j < |rowDraws| :: rowDraws[j] in rows) ||
              (forall j | 0 <= j < |colDraws| :: colDraws[j] in cols)
  {
    match policy
    case PerAxis =>
      (match (FirstFresh(rows, rowDraws), FirstFresh(cols, colDraws))
       case (Some(row), Some(col)) => Some((row, col))
       case _ => None)
    case PerPair => FirstFreshPair(rows, cols, rowDraws, colDraws)
  }

  // ---------------------------------------------------------------------
  // The loop
  // ---------------------------------------------------------------------

  predicate Distinct(s: seq<int>) {
    forall i, j | 0 <= i < j < |s| :: s[i] != s[j]
  }

  predicate DistinctPairs(rows: seq<int>, cols: seq<int>) {
    forall i, j | 0 <= i < j < |rows| && j < |cols| :: rows[i] != rows[j] || cols[i] != cols[j]
  }

  predicate InRange(s: seq<int>, n: int) {
    forall j | 0 <= j < |s| :: 0 <= s[j] < n
  }

  /** One turn's worth of outside input: the lines the player types at the
      target prompt and the enemy's random row and column draws. */
  datatype TurnInput = TurnInput(lines: seq<string>, rowDraws: seq<int>, colDraws: seq<int>)

  predicate DrawsInRange(inputs: seq<TurnInput>, count: int) {
    forall i | 0 <= i < |inputs| :: InRange(inputs[i].rowDraws, count) && InRange(inputs[i].colDraws, count)
  }

  datatype State = State(player: Board, enemy: Board, playerHits: int, enemyHits: int,
                         rows: seq<int>, cols: seq<int>, turn: nat)

  /** Why the loop stopped. `Over` is `EndGame` returning true; `TurnCap` is
      the `for` running out of turns; `PlayerQuit` is "exit" at the prompt;
      the two exhaustion cases stand for input the model was not given. */
  datatype Stop = Over(winner: GameEnd) | TurnCap | PlayerQuit | InputExhausted | DrawsExhausted

  datatype Run = Run(final: State, stop: Stop)

  ghost predicate Square(b: Board, count: int) {
    |b| == count && IsGrid(b) && Width(b) == count && KnownCodes(b)
  }

  /** The enemy's targets so far: one pair per turn, each inside the sea,
      none repeated under the policy. */
  predicate TargetsValid(policy: Policy, rows: seq<int>, cols: seq<int>, count: int) {
    && |rows| == |cols| && InRange(rows, count) && InRange(cols, count)
    && (policy == PerAxis ==> Distinct(rows) && Distinct(cols))
    && (policy == PerPair ==> DistinctPairs(rows, cols))
  }

  /** What holds between turns: both seas are count x count, one valid enemy
      target per completed turn, and neither side has scored more often than
      it has shot. */
  ghost predicate Valid(policy: Policy, s: State, count: int) {
    && Square(s.player, count) && Square(s.enemy, count)
    && TargetsValid(policy, s.rows, s.cols, count)
    && |s.rows| == s.turn && s.turn <= MaxTurns
    && 0 <= s.playerHits <= s.turn && 0 <= s.enemyHits <= s.turn
  }

  /** The enemy's half-turn keeps the target lists valid. */
  lemma EnemyStepValid(policy: Policy, rows: seq<int>, cols: seq<int>, p: (int, int), count: int)
    requires TargetsValid(policy, rows, cols, count)
    requires 0 <= p.0 < count && 0 <= p.1 < count
    requires policy == PerAxis ==> p.0 !in rows && p.1 !in cols
    requires policy == PerPair ==> !PairUsed(rows, cols, p.0, p.1)
    ensures TargetsValid(policy, rows + [p.0], cols + [p.1], count)
  {
    var rows', cols' := rows + [p.0], cols + [p.1];
    if policy == PerPair {
      forall i, j | 0 <= i < j < |rows'| && j < |cols'|
        ensures rows'[i] != rows'[j] || cols'[i] != cols'[j]
      {
        if j == |rows| {
          assert !(rows[i] == p.0 && cols[i] == p.1);
        }
      }
    }
  }

  /** What one shot at an in-grid cell holding a known code does to the sea:
      water becomes a miss, an intact segment becomes a hit, a resolved cell
      stays as it is. */
  function AfterShot(b: Board, r: int, c: int): Board
    requires InGrid(b, r, c)
  {
    if b[r][c] == Water then Set(b, r, c, Missed)
    else if b[r][c] >= 3 then Set(b, r, c, HitShip)
    else b
  }

  /** A shot scores exactly when it lands on an intact ship segment. */
  function ScoreOf(b: Board, r: int, c: int): int
    requires InGrid(b, r, c)
  {
    if b[r][c] >= 3 then 1 else 0
  }

  /** The player's half-turn: `EvaluateTarget` on the enemy sea, and one more
      hit on the counter exactly when it scores. */
  function PlayerShot(s: State, row: int, col: int, count: int): (s1: State)
    requires Square(s.enemy, count) && 0 <= row < count && 0 <= col < count
    ensures s1.enemy == AfterShot(s.enemy, row, col)
    ensures s1.playerHits == s.playerHits + ScoreOf(s.enemy, row, col)
    ensures Square(s1.enemy, count)
    ensures s1 == s.(enemy := s1.enemy, playerHits := s1.playerHits)
    ensures s1.playerHits - s.playerHits == Count(s1.enemy, HitShip) - Count(s.enemy, HitShip)
    ensures s.playerHits <= s1.playerHits <= s.playerHits + 1
  {
    var shot := EvaluateTarget(s.enemy, row, col).value;
    s.(enemy := shot.0, playerHits := s.playerHits + (if Scored(shot.1) then 1 else 0))
  }

  /** The enemy's half-turn: record the target, `EvaluateTarget` on the
      player's sea, count the hit, and close the turn. */
  function EnemyShot(policy: Policy, s: State, p: (int, int), count: int): (s2: State)
    requires Square(s.player, count) && TargetsValid(policy, s.rows, s.cols, count)
    requires 0 <= p.0 < count && 0 <= p.1 < count
    requires policy == PerAxis ==> p.0 !in s.rows && p.1 !in s.cols
    requires policy == PerPair ==> !PairUsed(s.rows, s.cols, p.0, p.1)
    ensures s2.player == AfterShot(s.player, p.0, p.1)
    ensures s2.enemyHits == s.enemyHits + ScoreOf(s.player, p.0, p.1)
    ensures Square(s2.player, count) && TargetsValid(policy, s2.rows, s2.cols, count)
    ensures s2 == s.(player := s2.player, enemyHits := s2.enemyHits,
                     rows := s.rows + [p.0], cols := s.cols + [p.1], turn := s.turn + 1)
    ensures s2.enemyHits - s.enemyHits == Count(s2.player, HitShip) - Count(s.player, HitShip)
    ensures s.enemyHits <= s2.enemyHits <= s.enemyHits + 1
  {
    EnemyStepValid(policy, s.rows, s.cols, p, count);
    var back := EvaluateTarget(s.player, p.0, p.1).value;
    s.(player := back.0, enemyHits := s.enemyHits + (if Scored(back.1) then 1 else 0),
       rows := s.rows + [p.0], cols := s.cols + [p.1], turn := s.turn + 1)
  }

  /** Each counter has moved in step with the hit cells on the sea it shoots at. */
  predicate HitsTrack(a: State, b: State) {
    && b.playerHits - a.playerHits == Count(b.enemy, HitShip) - Count(a.enemy, HitShip)
    && b.enemyHits - a.enemyHits == Count(b.player, HitShip) - Count(a.player, HitShip)
  }

  /** The state after the player's shot of a turn the enemy has not finished. */
  ghost predicate MidTurn(policy: Policy, s: State, count: int) {
    && Square(s.player, count) && Square(s.enemy, count)
    && TargetsValid(policy, s.rows, s.cols, count)
    && |s.rows| == s.turn < MaxTurns
    && 0 <= s.playerHits <= s.turn + 1 && 0 <= s.enemyHits <= s.turn
  }

  /** How one pass of the loop body ends: no usable line, "exit", the enemy's
      draws running out after the player's shot, or a completed turn. */
  datatype TurnOutcome = NoCommand | Quitting | NoDraws(mid: State) | Played(next: State)

  /** One pass of the loop body of `GameLoop` before the `EndGame` test. */
  function PlayTurn(policy: Policy, parse: Parse, s: State, t: TurnInput, count: int): (o: TurnOutcome)
    requires Valid(policy, s, count) && s.turn < MaxTurns
    requires InRange(t.rowDraws, count) && InRange(t.colDraws, count)
    ensures o.NoCommand? <==> ReadCommand(parse, t.lines, count).None?
    ensures o.Quitting? <==> ReadCommand(parse, t.lines, count) == Some(Quit)
    ensures o.Played? ==> Valid(policy, o.next, count) && o.next.turn == s.turn + 1 && HitsTrack(s, o.next)
    // a completed turn: the player fired at the typed cell, the enemy at its pick
    ensures o.Played? ==>
              var cmd := ReadCommand(parse, t.lines, count);
              var pick := EnemyPick(policy, s.rows, s.cols, t.rowDraws, t.colDraws);
              && cmd.Some? && cmd.value.Fire? && pick.Some?
              && o.next.enemy == AfterShot(s.enemy, cmd.value.row, cmd.value.col)
              && o.next.playerHits == s.playerHits + ScoreOf(s.enemy, cmd.value.row, cmd.value.col)
              && o.next.player == AfterShot(s.player, pick.value.0, pick.value.1)
              && o.next.enemyHits == s.enemyHits + ScoreOf(s.player, pick.value.0, pick.value.1)
              && o.next.rows == s.rows + [pick.value.0] && o.next.cols == s.cols + [pick.value.1]
    ensures o.Played? ==> o.next.rows[..s.turn] == s.rows && o.next.cols[..s.turn] == s.cols
    ensures o.NoDraws? ==> MidTurn(policy, o.mid, count) && o.mid.turn == s.turn && HitsTrack(s, o.mid)
    ensures o.NoDraws? ==> o.mid.rows == s.rows && o.mid.cols == s.cols
    ensures o.NoDraws? ==>
              var cmd := ReadCommand(parse, t.lines, count);
              && cmd.Some? && cmd.value.Fire?
              && EnemyPick(policy, s.rows, s.cols, t.rowDraws, t.colDraws).None?
              && o.mid.enemy == AfterShot(s.enemy, cmd.value.row, cmd.value.col)
              && o.mid.playerHits == s.playerHits + ScoreOf(s.enemy, cmd.value.row, cmd.value.col)
  {
    match ReadCommand(parse, t.lines, count)
    case None => NoCommand
    case Some(cmd) =>
      if cmd.Quit? then Quitting
      else
        var s1 := PlayerShot(s, cmd.row, cmd.col, count);
        match EnemyPick(policy, s.rows, s.cols, t.rowDraws, t.colDraws)
        case None => NoDraws(s1)
        case Some(p) =>
          var s2 := EnemyShot(policy, s1, p, count);
          assert s2.rows[..s.turn] == s.rows && s2.cols[..s.turn] == s.cols;
          Played(s2)
  }

  /** `GameLoop`: per turn, the player's shot at the enemy sea, then the
      enemy's shot at the player's sea, then `EndGame`, for at most
      `MaxTurns` turns. */
  function GameLoop(policy: Policy, parse: Parse, s: State, inputs: seq<TurnInput>, maxHits: int, count: int): (r: Run)
    requires Valid(policy, s, count) && DrawsInRange(inputs, count)
    ensures s.turn <= r.final.turn <= MaxTurns
    ensures r.final.turn - s.turn <= |inputs|
    ensures |r.final.rows| == |r.final.cols| == r.final.turn
    ensures r.stop.Over? ==> r.stop.winner != Continue &&
                             r.stop.winner == EndGame(r.final.playerHits, r.final.enemyHits, maxHits)
    ensures r.stop.TurnCap? ==> r.final.turn == MaxTurns
    ensures !r.stop.DrawsExhausted? ==> Valid(policy, r.final, count)
    // draws run out after the player's shot of the unfinished turn
    ensures r.stop.DrawsExhausted? ==> MidTurn(policy, r.final, count)
    decreases MaxTurns - s.turn
  {
    if s.turn == MaxTurns then Run(s, TurnCap)
    else if |inputs| == 0 then Run(s, InputExhausted)
    else
      match PlayTurn(policy, parse, s, inputs[0], count)
      case NoCommand => Run(s, InputExhausted)
      case Quitting => Run(s, PlayerQuit)
      case NoDraws(mid) => Run(mid, DrawsExhausted)
      case Played(next) =>
        var e := EndGame(next.playerHits, next.enemyHits, maxHits);
        if e != Continue then Run(next, Over(e))
        else
          DrawsInRangeTail(inputs, count);
          GameLoop(policy, parse, next, inputs[1..], maxHits, count)
  }

  lemma DrawsInRangeTail(inputs: seq<TurnInput>, count: int)
    requires DrawsInRange(inputs, count) && |inputs| > 0
    ensures DrawsInRange(inputs[1..], count)
  {
    forall i | 0 <= i < |inputs| - 1
      ensures InRange(inputs[1..][i].rowDraws, count) && InRange(inputs[1..][i].colDraws, count)
    {
      assert inputs[1..][i] == inputs[i + 1];
    }
  }

  /** Each counter of `GameLoop` moves exactly with the hit cells on the sea
      it shoots at. */
  lemma {:induction false} GameLoopTracksHits(policy: Policy, parse: Parse, s: State, inputs: seq<TurnInput>, maxHits: int, count: int)
    requires Valid(policy, s, count) && DrawsInRange(inputs, count)
    ensures HitsTrack(s, GameLoop(policy, parse, s, inputs, maxHits, count).final)
    decreases MaxTurns - s.turn
  {
    if s.turn < MaxTurns && |inputs| > 0 {
      var o := PlayTurn(policy, parse, s, inputs[0], count);
      if o.Played? && EndGame(o.next.playerHits, o.next.enemyHits, maxHits) == Continue {
        DrawsInRangeTail(inputs, count);
        GameLoopTracksHits(policy, parse, o.next, inputs[1..], maxHits, count);
      }
    }
  }

  /** The enemy's earlier targets stay recorded, in order, whatever the loop does. */
  lemma {:induction false} GameLoopKeepsTargets(policy: Policy, parse: Parse, s: State, inputs: seq<TurnInput>, maxHits: int, count: int)
    requires Valid(policy, s, count) && DrawsInRange(inputs, count)
    ensures var r := GameLoop(policy, parse, s, inputs, maxHits, count);
            r.final.rows[..s.turn] == s.rows && r.final.cols[..s.turn] == s.cols
    decreases MaxTurns - s.turn
  {
    if s.turn < MaxTurns && |inputs| > 0 {
      var o := PlayTurn(policy, parse, s, inputs[0], count);
      if o.Played? && EndGame(o.next.playerHits, o.next.enemyHits, maxHits) == Continue {
        var next := o.next;
        NextTurn(policy, parse, s, inputs, inputs[1..], maxHits, count, next);
        GameLoopKeepsTargets(policy, parse, next, inputs[1..], maxHits, count);
        var r := GameLoop(policy, parse, next, inputs[1..], maxHits, count);
        PrefixOfPrefix(r.final.rows, next.rows, s.rows, s.turn);
        PrefixOfPrefix(r.final.cols, next.cols, s.cols, s.turn);
      }
    }
  }

  /** A turn played and left undecided hands the rest of the input to the
      next pass of the loop. */
  lemma NextTurn(policy: Policy, parse: Parse, s: State, inputs: seq<TurnInput>, rest: seq<TurnInput>, maxHits: int, count: int, next: State)
    requires Valid(policy, s, count) && DrawsInRange(inputs, count)
    requires s.turn < MaxTurns && |inputs| > 0 && inputs[1..] == rest
    requires PlayTurn(policy, parse, s, inputs[0], count) == Played(next)
    requires EndGame(next.playerHits, next.enemyHits, maxHits) == Continue
    ensures DrawsInRange(rest, count)
    ensures GameLoop(policy, parse, s, inputs, maxHits, count) == GameLoop(policy, parse, next, rest, maxHits, count)
  {
    DrawsInRangeTail(inputs, count);
  }

  /** The first k inputs start with the first input and go on with the
      first k - 1 of the rest. */
  lemma PrefixSplits<T>(xs: seq<T>, k: nat)
    requires 0 < k <= |xs|
    ensures xs[..k][0] == xs[0] && xs[..k][1..] == xs[1..][..k - 1]
  {
  }

  /** A prefix of a prefix is a prefix. */
  lemma PrefixOfPrefix(a: seq<int>, b: seq<int>, c: seq<int>, n: nat)
    requires |b| <= |a| && a[..|b|] == b && n <= |b| && b[..n] == c
    ensures a[..n] == c
  {
    assert a[..n] == a[..|b|][..n];
  }

  /** The loop breaks on the first turn after which `EndGame` names a winner:
      from an undecided state, a run that ends at the turn cap, on "exit" or
      for want of input ends with the game still undecided. */
  lemma {:induction false} GameLoopStopsAtFirstWinner(policy: Policy, parse: Parse, s: State, inputs: seq<TurnInput>, maxHits: int, count: int)
    requires Valid(policy, s, count) && DrawsInRange(inputs, count)
    requires EndGame(s.playerHits, s.enemyHits, maxHits) == Continue
    ensures var r := GameLoop(policy, parse, s, inputs, maxHits, count);
            (r.stop.TurnCap? || r.stop.InputExhausted? || r.stop.PlayerQuit?) ==>
              EndGame(r.final.playerHits, r.final.enemyHits, maxHits) == Continue
    decreases MaxTurns - s.turn
  {
    if s.turn < MaxTurns && |inputs| > 0 {
      var o := PlayTurn(policy, parse, s, inputs[0], count);
      if o.Played? && EndGame(o.next.playerHits, o.next.enemyHits, maxHits) == Continue {
        DrawsInRangeTail(inputs, count);
        GameLoopStopsAtFirstWinner(policy, parse, o.next, inputs[1..], maxHits, count);
      }
    }
  }

  /** A run that ends with a winner ends on the first decided turn: given
      only the input of any k turns it played but the last, the same run
      plays those k turns, is still undecided, and stops for want of input. */
  lemma GameLoopWinnerIsFirst(policy: Policy, parse: Parse, s: State, inputs: seq<TurnInput>, maxHits: int, count: int, k: nat)
    requires Valid(policy, s, count) && DrawsInRange(inputs, count)
    requires EndGame(s.playerHits, s.enemyHits, maxHits) == Continue
    ensures var r := GameLoop(policy, parse, s, inputs, maxHits, count);
            r.stop.Over? && s.turn + k < r.final.turn ==>
              var p := GameLoop(policy, parse, s, inputs[..k], maxHits, count);
              && p.stop.InputExhausted?
              && p.final.turn == s.turn + k
              && EndGame(p.final.playerHits, p.final.enemyHits, maxHits) == Continue
  {
    var r := GameLoop(policy, parse, s, inputs, maxHits, count);
    if r.stop.Over? && s.turn + k < r.final.turn {
      UndecidedPrefix(policy, parse, s, inputs, maxHits, count, k);
    }
  }

  /** The induction on k behind GameLoopWinnerIsFirst. */
  lemma {:induction false} UndecidedPrefix(policy: Policy, parse: Parse, s: State, inputs: seq<TurnInput>, maxHits: int, count: int, k: nat)
    requires Valid(policy, s, count) && DrawsInRange(inputs, count)
    requires EndGame(s.playerHits, s.enemyHits, maxHits) == Continue
    requires GameLoop(policy, parse, s, inputs, maxHits, count).stop.Over?
    requires s.turn + k < GameLoop(policy, parse, s, inputs, maxHits, count).final.turn
    ensures var p := GameLoop(policy, parse, s, inputs[..k], maxHits, count);
            && p.stop.InputExhausted?
            && p.final.turn == s.turn + k
            && EndGame(p.final.playerHits, p.final.enemyHits, maxHits) == Continue
    decreases k
  {
    var r := GameLoop(policy, parse, s, inputs, maxHits, count);
    var next, decided := FirstTurn(policy, parse, s, inputs, maxHits, count);
    if k == 0 {
      assert inputs[..k] == [];
      NoInput(policy, parse, s, maxHits, count);
    } else {
      assert !decided;
      assert GameLoop(policy, parse, next, inputs[1..], maxHits, count) == r;
      UndecidedPrefix(policy, parse, next, inputs[1..], maxHits, count, k - 1);
      UndecidedStep(policy, parse, s, inputs, maxHits, count, k, next);
    }
  }

  /** An undecided first turn followed by k - 1 undecided turns that use up
      their input makes k undecided turns that use up theirs. */
  lemma UndecidedStep(policy: Policy, parse: Parse, s: State, inputs: seq<TurnInput>, maxHits: int, count: int, k: nat, next: State)
    requires Valid(policy, s, count) && DrawsInRange(inputs, count)
    requires s.turn < MaxTurns && 0 < k <= |inputs|
    requires PlayTurn(policy, parse, s, inputs[0], count) == Played(next)
    requires EndGame(next.playerHits, next.enemyHits, maxHits) == Continue
    requires Valid(policy, next, count) && next.turn == s.turn + 1 && DrawsInRange(inputs[1..], count)
    requires var q := GameLoop(policy, parse, next, inputs[1..][..k - 1], maxHits, count);
             && q.stop.InputExhausted?
             && q.final.turn == next.turn + (k - 1)
             && EndGame(q.final.playerHits, q.final.enemyHits, maxHits) == Continue
    ensures var p := GameLoop(policy, parse, s, inputs[..k], maxHits, count);
            && p.stop.InputExhausted?
            && p.final.turn == s.turn + k
            && EndGame(p.final.playerHits, p.final.enemyHits, maxHits) == Continue
  {
    PrefixSplits(inputs, k);
    DrawsInRangePrefix(inputs, k, count);
    NextTurn(policy, parse, s, inputs[..k], inputs[1..][..k - 1], maxHits, count, next);
  }

  /** Before the turn cap, a loop given no input stops at once. */
  lemma NoInput(policy: Policy, parse: Parse, s: State, maxHits: int, count: int)
    requires Valid(policy, s, count) && s.turn < MaxTurns
    ensures GameLoop(policy, parse, s, [], maxHits, count) == Run(s, InputExhausted)
  {
  }

  /** A run that ends with a winner played its first turn; either that turn
      decided the game, or the run goes on from the turn's state. */
  lemma FirstTurn(policy: Policy, parse: Parse, s: State, inputs: seq<TurnInput>, maxHits: int, count: int)
    returns (next: State, decided: bool)
    requires Valid(policy, s, count) && DrawsInRange(inputs, count)
    requires GameLoop(policy, parse, s, inputs, maxHits, count).stop.Over?
    ensures s.turn < MaxTurns && |inputs| > 0
    ensures PlayTurn(policy, parse, s, inputs[0], count) == Played(next)
    ensures next.turn == s.turn + 1 && Valid(policy, next, count)
    ensures decided <==> EndGame(next.playerHits, next.enemyHits, maxHits) != Continue
    ensures decided ==> GameLoop(policy, parse, s, inputs, maxHits, count).final == next
    ensures !decided ==>
              && DrawsInRange(inputs[1..], count)
              && GameLoop(policy, parse, s, inputs, maxHits, count) == GameLoop(policy, parse, next, inputs[1..], maxHits, count)
  {
    next := PlayTurn(policy, parse, s, inputs[0], count).next;
    decided := EndGame(next.playerHits, next.enemyHits, maxHits) != Continue;
    DrawsInRangeTail(inputs, count);
  }

  lemma DrawsInRangePrefix(inputs: seq<TurnInput>, k: nat, count: int)
    requires DrawsInRange(inputs, count) && k <= |inputs|
    ensures DrawsInRange(inputs[..k], count)
  {
    forall i | 0 <= i < k
      ensures InRange(inputs[..k][i].rowDraws, count) && InRange(inputs[..k][i].colDraws, count)
    {
      assert inputs[..k][i] == inputs[i];
    }
  }

  /** The start of `GameLoop`: no turn played, nothing hit yet. */
  function Start(player: Board, enemy: Board): (s: State)
    ensures s.turn == 0 && s.rows == [] && s.cols == [] && s.playerHits == 0 && s.enemyHits == 0
  {
    State(player, enemy, 0, 0, [], [], 0)
  }

  /** From a start with no hit cells on either sea, each counter equals the
      number of hit cells on the sea it shoots at, whenever the loop stops. */
  lemma HitsMatchSea(policy: Policy, parse: Parse, player: Board, enemy: Board, inputs: seq<TurnInput>, maxHits: int, count: int)
    requires Square(player, count) && Square(enemy, count) && DrawsInRange(inputs, count)
    requires Count(player, HitShip) == 0 && Count(enemy, HitShip) == 0
    ensures var r := GameLoop(policy, parse, Start(player, enemy), inputs, maxHits, count);
            r.final.playerHits == Count(r.final.enemy, HitShip) &&
            r.final.enemyHits == Count(r.final.player, HitShip)
  {
    assert Valid(policy, Start(player, enemy), count);
    GameLoopTracksHits(policy, parse, Start(player, enemy), inputs, maxHits, count);
  }

  // ---------------------------------------------------------------------
  // Running out of rows: the per-axis rule against the 10 x 10 sea
  // ---------------------------------------------------------------------

  function Elems(s: seq<int>): (e: set<int>)
    ensures forall x :: x in e <==> x in s
  {
    set x | x in s
  }

  lemma {:induction false} SubsetCard<T>(a: set<T>, b: set<T>)
    requires a <= b
    ensures |a| <= |b|
    decreases |a|
  {
    if a != {} {
      var x :| x in a;
      SubsetCard(a - {x}, b - {x});
    }
  }

  lemma {:induction false} DistinctCard(s: seq<int>)
    requires Distinct(s)
    ensures |Elems(s)| == |s|
  {
    if |s| > 0 {
      var p := s[..|s| - 1];
      var last := s[|s| - 1];
      assert s == p + [last];
      assert Distinct(p);
      DistinctCard(p);
      assert last !in p;
      assert Elems(s) == Elems(p) + {last};
    }
  }

  /** Pigeonhole: a repetition-free list of indices in [0, n) has at most n entries. */
  lemma DistinctBound(s: seq<int>, n: int)
    requires Distinct(s) && InRange(s, n) && n >= 0
    ensures |s| <= n
  {
    DistinctCard(s);
    forall x | x in Elems(s)
      ensures x in Range(n)
    {
      var j :| 0 <= j < |s| && s[j] == x;
    }
    SubsetCard(Elems(s), Range(n));
  }

  /** Once n distinct indices in [0, n) are used, every index is used. */
  lemma DistinctFull(s: seq<int>, n: int)
    requires Distinct(s) && InRange(s, n) && |s| == n && n >= 0
    ensures forall x | 0 <= x < n :: x in s
  {
    DistinctCard(s);
    var e, all := Elems(s), Range(n);
    forall x | x in e
      ensures x in all
    {
      var j :| 0 <= j < |s| && s[j] == x;
    }
    assert all == e + (all - e);
    assert |all - e| == 0;
    assert all - e == {};
  }

  /** As written, after `count` turns every row (and every column) has been
      used, so no draw in range is accepted: the enemy's do-while cannot end. */
  lemma PerAxisRunsOut(s: State, count: int, rowDraws: seq<int>, colDraws: seq<int>)
    requires Valid(PerAxis, s, count) && s.turn == count
    requires InRange(rowDraws, count) && InRange(colDraws, count)
    ensures FirstFresh(s.rows, rowDraws).None? && FirstFresh(s.cols, colDraws).None?
    ensures EnemyPick(PerAxis, s.rows, s.cols, rowDraws, colDraws).None?
  {
    DistinctFull(s.rows, count);
    DistinctFull(s.cols, count);
  }

  /** As written, with fewer rows than the hits needed to win, the loop never
      reports a winner: each side scores at most once a turn, and the turn
      count is bounded by the number of rows. */
  lemma PerAxisNeverDeclaresWinner(parse: Parse, s: State, inputs: seq<TurnInput>, maxHits: int, count: int)
    requires Valid(PerAxis, s, count) && DrawsInRange(inputs, count) && count < maxHits
    ensures var r := GameLoop(PerAxis, parse, s, inputs, maxHits, count);
            r.final.turn <= count && r.final.playerHits <= count + 1 && r.final.enemyHits <= count
    ensures var r := GameLoop(PerAxis, parse, s, inputs, maxHits, count);
            r.stop != Over(PlayerWon) && r.stop != Over(EnemyWon)
  {
    var r := GameLoop(PerAxis, parse, s, inputs, maxHits, count);
    if r.stop.DrawsExhausted? {
      assert |r.final.rows[..s.turn]| == s.turn;
      DistinctBound(s.rows, count);
      DistinctBound(r.final.rows, count);
    } else {
      DistinctBound(r.final.rows, count);
    }
  }

  /** The shipped game: 10 x 10 seas and the 2002 fleet's 17 hits. */
  lemma ShippedGameHasNoWinner(player: Board, enemy: Board, inputs: seq<TurnInput>)
    requires Square(player, SeaSize) && Square(enemy, SeaSize) && DrawsInRange(inputs, SeaSize)
    ensures var maxHits := TotalLength(MakeShipAssets(GameVersion).value);
            var r := GameLoop(PerAxis, AsWritten, Start(player, enemy), inputs, maxHits, SeaSize);
            maxHits == 17 && !r.stop.TurnCap? && r.stop != Over(PlayerWon) && r.stop != Over(EnemyWon)
  {
    var maxHits := TotalLength(MakeShipAssets(GameVersion).value);
    assert Valid(PerAxis, Start(player, enemy), SeaSize);
    PerAxisNeverDeclaresWinner(AsWritten, Start(player, enemy), inputs, maxHits, SeaSize);
  }

  // ---------------------------------------------------------------------
  // The per-pair rule: a fresh target exists on every turn
  // ---------------------------------------------------------------------

  /** The pairs shot at so far. */
  function UsedPairs(rows: seq<int>, cols: seq<int>): (u: set<(int, int)>)
    requires |rows| == |cols|
    ensures |u| <= |rows|
  {
    if |rows| == 0 then {}
    else UsedPairs(rows[..|rows| - 1], cols[..|cols| - 1]) + {(rows[|rows| - 1], cols[|cols| - 1])}
  }

  lemma {:induction false} UsedPairsHasUsed(rows: seq<int>, cols: seq<int>, r: int, c: int)
    requires |rows| == |cols| && PairUsed(rows, cols, r, c)
    ensures (r, c) in UsedPairs(rows, cols)
  {
    var i :| 0 <= i < |rows| && i < |cols| && rows[i] == r && cols[i] == c;
    if i < |rows| - 1 {
      var rp, cp := rows[..|rows| - 1], cols[..|cols| - 1];
      assert rp[i] == r && cp[i] == c;
      UsedPairsHasUsed(rp, cp, r, c);
    }
  }

  /** The cells (r, c) with 0 <= r < k and 0 <= c < m. */
  function Cells(k: nat, m: nat): (g: set<(int, int)>)
    ensures forall p :: p in g <==> 0 <= p.0 < k && 0 <= p.1 < m
    ensures |g| == k * m
  {
    if k == 0 then {}
    else
      var prev, row := Cells(k - 1, m), RowCells(k - 1, m);
      assert prev * row == {};
      assert k * m == (k - 1) * m + m;
      prev + row
  }

  function RowCells(r: int, m: nat): (g: set<(int, int)>)
    ensures forall p :: p in g <==> p.0 == r && 0 <= p.1 < m
    ensures |g| == m
  {
    if m == 0 then {} else RowCells(r, m - 1) + {(r, m - 1)}
  }

  /** With fewer pairs used than the sea has cells, some cell is untouched. */
  lemma FreshPairExists(rows: seq<int>, cols: seq<int>, count: nat)
    requires |rows| == |cols| < count * count
    ensures exists r, c | 0 <= r < count && 0 <= c < count :: !PairUsed(rows, cols, r, c)
  {
    var all, used := Cells(count, count), UsedPairs(rows, cols);
    SubsetCard(all * used, used);
    assert all == (all * used) + (all - used);
    assert |all - used| > 0;
    var x :| x in all - used;
    if PairUsed(rows, cols, x.0, x.1) {
      UsedPairsHasUsed(rows, cols, x.0, x.1);
    }
    assert !PairUsed(rows, cols, x.0, x.1);
  }

  lemma SquareAtLeast(n: nat, m: nat)
    requires n >= m
    ensures n * n >= m * m
  {
    assert n * n == m * m + (n - m) * (n + m);
  }

  /** A single drawn pair that was never shot at is the enemy's pick. */
  lemma FreshDrawIsPicked(rows: seq<int>, cols: seq<int>, r: int, c: int)
    requires !PairUsed(rows, cols, r, c)
    ensures EnemyPick(PerPair, rows, cols, [r], [c]) == Some((r, c))
  {
  }

  /** Under the per-pair rule the enemy always has a target left before the
      turn cap: on a sea of at least 10 x 10 some untouched cell exists, and
      a draw of it is accepted. */
  lemma PerPairNeverRunsOut(s: State, count: nat)
    requires Valid(PerPair, s, count) && count >= SeaSize && s.turn < MaxTurns
    ensures exists r, c | 0 <= r < count && 0 <= c < count ::
              EnemyPick(PerPair, s.rows, s.cols, [r], [c]) == Some((r, c))
  {
    SquareAtLeast(count, SeaSize);
    FreshPairExists(s.rows, s.cols, count);
    var r, c :| 0 <= r < count && 0 <= c < count && !PairUsed(s.rows, s.cols, r, c);
    FreshDrawIsPicked(s.rows, s.cols, r, c);
  }
}
