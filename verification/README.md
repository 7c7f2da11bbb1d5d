# Battleship board engine, modelled in Dafny

A model of the board engine of a console Battleship game written in C#. The game has:
- **The sea:** an N×N grid of integer codes. 0 is untouched water, 1 a hit ship segment, 2 a miss, and 3..8 an intact segment of one ship type.
- **A catalog:** the column letters, the 1990 and 2002 fleets, the ship id ↔ name table and the number of hits needed to win.
- **A placement validator/committer** with a retry loop over proposed positions.
- **Shot resolution** (`EvaluateTarget`).
- **The game loop:** the target parse, the enemy's target choice, the hit counters and the turn cap.

The board is a value (`seq<seq<int>>`). Operations that overwrite the C# array in place return the new board. Randomness and console input are supplied as data:
- placement proposals;
- the lines typed at a prompt;
- the enemy's row and column draws.

When the supplied data runs out, an explicit result stands for "the source would keep asking".

Modules, one per component:

- `Base`: `Option`, `Result` and the `Error` cases that stand for the source's exceptions.
- `Sea`: the grid, `CountSeaValues`, `ResetSea` and the count bookkeeping lemmas.
- `Catalog`: `MakeGameBoard`, `MakeShipAssets`, `MakeShipMappings`, the name → id switch and `ComputeMaxHits`.
- `Text`: ASCII letter and digit classification, and `ToUpper`.
- `Placement`: `CheckAndPlaceShips`. It covers the asymmetric per-direction guard, the 3×3 collision scan and the write loop.
- `Fleet`: the retry structure of `PlaceShips`, both branches, and the fleet invariants. The invariants are: no two ships 8-adjacent, no ship on the border, and per-id cell counts.
- `Resolution`: `EvaluateTarget` and the sinking property over a sequence of shots.
- `Game`: `EndGame`, the target parse of `TargetSelectionMenu`, the enemy's choice of target and `GameLoop`.

## Model

| member | source | states |
|---|---|---|
| Catalog.MakeGameBoard | data/Components.cs:29-42 | Refuses (`InvalidSize`) exactly the sizes outside [10, 26]. Otherwise the map's keys are exactly 0..size-1, and key i maps to the letter 'A' + i. |
| Catalog.Letters | data/Components.cs:37-40 | After k rounds of the loop, the map has keys 0..k-1 and key i holds letter 'A' + i. |
| Catalog.Range | data/Components.cs:37-40 | The loop's index set 0..n-1: membership is exactly 0 <= i < n, and it has n elements. |
| Sea.ResetSea | data/Components.cs:46-55 | The result has the same dimensions with every cell 0. So counting 0 gives rows·cols and counting any other value gives 0. Resetting an already clear sea changes nothing. |
| Sea.CountSeaValues | data/Components.cs:325-339 | The nested loop returns the number of cells equal to the value (the reference `Count`), which lies between 0 and rows·cols. |
| Sea.CountBound | data/Components.cs:325-339 | No value occurs in more than rows·cols cells. |
| Sea.AllZeroCount | data/Components.cs:46-55 | On a cleared sea, value 0 occurs rows·cols times and every other value 0 times. |
| Sea.CountUpdate | data/Components.cs:325-339 | Overwriting one cell changes the count of v by exactly +1 (new value is v), −1 (old value was v) or 0. |
| Sea.CountRowUpdate | data/Components.cs:325-339 | The same one-cell accounting for a single row. |
| Catalog.MakeShipMappings | data/Components.cs:416-433 | The id → name table has exactly the ids 3..8. |
| Catalog.ShipIdOf | data/Components.cs:294-316 | The name switch of the write loop. A known name gets an id in 3..8 whose table entry is that name. A name with no id appears nowhere in the table. |
| Catalog.ShipIdRoundTrip | data/Components.cs:294-316 | The name → id switch and the id → name table are inverse: `ShipIdOf(n) == Some(k)` exactly when the table maps k to n. |
| Catalog.FiveShipTotal | data/Components.cs:440-448 | The sum of a five-ship set is the sum of its five lengths. |
| Catalog.MakeShipAssets | data/Components.cs:350-383 | Succeeds exactly for versions 1990 and 2002 and refuses every other version with `UnsupportedVersion`. Each fleet has five ships with distinct known names and positive lengths, totalling 17; Carrier 5 and Battleship 4 come first. |
| Catalog.ComputeMaxHits | data/Components.cs:440-448 | The accumulation loop returns the sum of the ship lengths, which is at least the number of ships when every length is positive. |
| Text.ToUpper | Program.cs:360 | Moves a lower-case ASCII letter to upper case and leaves every other character alone. |
| Text.DigitValue | Program.cs:359 | A digit's value is in 0..9. |
| Text.LetterIndex | Program.cs:360 | A letter's column index is in 0..25. |
| Placement.DirectionOf | data/Components.cs:231-234 | A direction character is recognised exactly when it is one of `^ v < >`. |
| Placement.DirectionRoundTrip | data/Components.cs:238-270 | The four characters and the four directions are in bijection, both ways. |
| Placement.NearShipIsNeighbourhood | data/Components.cs:272-288 | The rectangle the model scans is exactly the union of the 3×3 blocks around the segments, both ways. |
| Placement.GuardKeepsScanInside | data/Components.cs:240-288 | For a row, column and length that pass the per-direction guard, with the guard's sums read as exact integers (so within the 32-bit range of the source): every cell the collision scan reads is inside the array, every segment lies in rows and columns [1, size-2], and every segment is in its own scanned block. |
| Placement.HeadFitsInterior | data/Components.cs:240-269 | The per-direction guard, with its asymmetric margins: for a length of 0 or more, it admits a ship exactly when every segment, and the one cell beyond the tail, lies in rows and columns [1, size-2]. So the head keeps one cell of margin and the tail two. |
| Placement.HeadFitsShorter | data/Components.cs:240-270 | A guard that admits a ship of length len admits every shorter prefix of it. |
| Placement.PlaceSegs | data/Components.cs:290-316 | Writing the first k segments changes exactly the segment cells, which now hold the id, and keeps every other cell and the dimensions. |
| Placement.CheckAndPlaceShips | data/Components.cs:229-319 | Refuses (`InvalidDirection`) exactly the direction characters outside `^ v < >`. The result is "placed" exactly when the guard passes and every scanned cell is 0; on "not placed" the sea is returned unchanged. On "placed" the changed cells are exactly the segments: each was 0, now holds the ship's id, and lies in [1, size-2]. |
| Placement.ScanNeighbourhoods | data/Components.cs:271-288 | The triple loop finds no non-zero cell exactly when every 3×3 block around a segment is all water. |
| Placement.WriteSegments | data/Components.cs:289-318 | The write loop's result is the committed placement: segments carry the id, everything else is untouched, and nothing is written for a name with no id. |
| Placement.GuardFacts | data/Components.cs:240-288 | When the guard passes and the scan is clear, every segment cell is inside the grid and holds water. |
| Fleet.CommitKeepsFleet | data/Components.cs:229-319 | An accepted placement keeps the fleet invariants: different non-zero codes are never 8-neighbours, and nothing non-zero lies on the border. |
| Fleet.PlaceSegsCount | data/Components.cs:290-316 | Writing k segments over water moves exactly k cells from water to the id; all other counts are unchanged. |
| Fleet.CommitCounts | data/Components.cs:289-318 | After a committed placement of a known ship of length len, its id's count rises by len, water's falls by len, and every other count is unchanged. |
| Fleet.IdLengthAbsent | data/Components.cs:138-165 | An id that no ship of the set maps to accounts for no cells. |
| Fleet.IdLengthOfShip | data/Components.cs:138-165 | With distinct known names, the cells expected for ship j's id are exactly ship j's length. |
| Fleet.FirstTakenIsFirst | data/Components.cs:143-162 | The reference search `FirstTaken` finds nothing exactly when no proposal from the start index on would be accepted. What it finds is an accepted proposal with every earlier one rejected. |
| Fleet.PlaceOne | data/Components.cs:140-165 | The retry loop for one ship. It fails, with `AttemptsExhausted`, exactly when none of the remaining proposals would be accepted, which is when `FirstTaken` finds nothing. Otherwise it takes the proposal `FirstTaken` finds, every earlier one being rejected, and the result is that proposal committed. It keeps the fleet invariants and moves the ship's length from water to its id; a name with no id leaves the sea as it was. |
| Fleet.PlaceFleet | data/Components.cs:138-165 | Places every ship of the set in order, with exactly the result of the reference `Placed`. Each ship takes the first accepted proposal after the one the ship before it took. The placement fails with `AttemptsExhausted` exactly when some ship finds none. From an all-water sea with distinct known names and positive lengths: each id's count equals its ship's length, the water count falls by the total length, and the fleet invariants hold. |
| Fleet.FromDraw | data/Components.cs:131-151 | A random draw always yields a proposal whose direction is one of `^ v < >`. |
| Fleet.ParsePlacement | data/Components.cs:185-191 | The custom branch accepts a line exactly when it is letter, digit, direction. The head it reads has row in [-1, 8] and column in [0, 25]. |
| Fleet.ParsePlacementRoundTrip | data/Components.cs:185-191 | Every head with a one-digit row and every direction, written upper- or lower-case, parses back to itself. |
| Fleet.PlaceShips | data/Components.cs:122-218 | Refuses (`InvalidPlacementType`) exactly the placement types other than "random" and "custom". The "random" branch is `Placed` over one proposal per draw. The "custom" branch is `Placed` over one proposal per typed line, where a line of the wrong shape gives none. Both branches give the same fleet invariants and per-id counts as `PlaceFleet`. |
| Resolution.EvaluateTarget | Program.cs:390-418 | An index outside the grid is a range error. Water becomes a miss (no score). A cell holding 1 or 2, or a negative code, leaves the whole board unchanged (no score). Ship code k becomes 1 and scores; k's count drops by exactly one, and "sunk" is reported exactly when it reaches 0, named by the id → name table. The number of 1-cells rises by one exactly on a score. |
| Resolution.RetargetIsIdempotent | Program.cs:397-406 | Shooting the same cell again scores nothing and leaves the board as the first shot left it. |
| Resolution.SetKeepsCodes | Program.cs:399-409 | Writing a miss or a hit into one in-grid cell keeps every cell a code in 0..8. |
| Resolution.ResolveAll | Program.cs:390-418 | Resolving a sequence of in-grid shots keeps the dimensions and the codes 0..8, and gives one outcome per shot. |
| Resolution.ResolvePrefix | Program.cs:390-418 | The outcomes of a prefix of the shots are the prefix of the outcomes. |
| Resolution.HitsOnCount | Program.cs:407-415 | After any sequence of shots, ship k's intact cells are its initial count minus the scoring shots against k. |
| Resolution.OutcomeAt | Program.cs:390-418 | Shot j is resolved against the board the earlier shots left, and that cell is inside it. |
| Resolution.SunkOnLastHit | Program.cs:407-415 | Sinking: a shot reports "k sunk" exactly when it is a scoring shot on k and the L-th one, where L is k's intact cell count at the start. |
| Resolution.HitsOnMonotone | Program.cs:407-415 | The number of scoring shots against k never decreases along the sequence. |
| Resolution.SunkOnce | Program.cs:407-415 | No two different shots both report "k sunk". |
| Game.EndGame | Program.cs:444-464 | The game is over exactly when either count reaches the threshold. The player is checked first, so the player wins exactly when the player's count reaches it. |
| Game.EndGameBoundary | Program.cs:444-464 | The threshold is exact: maxHits ends the game, maxHits − 1 does not, and a tie goes to the player. |
| Game.ReadCoordinate | Program.cs:357-360 | A line is read as a coordinate exactly when it is two characters, letter then digit. The row (digit − 1) is in [-1, 8] and the column in [0, 25]. |
| Game.ParseTarget | Program.cs:357-381 | As written: "exit" is the quit command. A coordinate is accepted exactly when 0 < row < count and 0 < col < count; everything else re-prompts. |
| Game.ParseTargetFixed | Program.cs:357-381 | With the lower bounds made inclusive: a coordinate is accepted exactly when 0 <= row < count and 0 <= col < count. |
| Game.FormatTarget | Program.cs:354 | The printed name of a cell is a capital letter and a digit 1..9. |
| Game.ParseTargetFixedRoundTrip | Program.cs:357-366 | Every cell with a one-digit row number, typed as printed, is read back as that cell. |
| Game.ParseTargetFixedNamesItsCell | Program.cs:357-366 | Conversely, an accepted line is the printed name of the cell it targets, up to letter case. |
| Game.ParseTargetRejectsFirstRowAndColumn | Program.cs:362 | As written, a typed in-grid cell is accepted exactly when it is off row 1 and off column A. |
| Game.ParseTargetColumnAWitness | Program.cs:362 | "A5" names row 4 of column A. The as-written parse re-prompts on it; the corrected parse fires at (4, 0). |
| Game.ReadCommand | Program.cs:344-383 | The prompt loop, with the as-written or the corrected parse as a parameter. The decision is the first typed line that is a target or "exit", every earlier line having been refused. No decision is made exactly when every line is refused, and a decided target is inside the sea. |
| Game.FirstFresh | Program.cs:309-319 | The do-while picks the first draw not used before: every earlier draw was already used. It finds none exactly when every draw is already used. |
| Game.FirstFreshPair | Program.cs:309-319 | The per-pair picker chooses the first drawn pair not shot at before: every earlier drawn pair was already shot at. It finds none exactly when every drawn pair was already shot at. |
| Game.EnemyPick | Program.cs:309-321 | The enemy's target comes from the draws. As written (per axis), its row and its column are each new. Under the per-pair rule, the pair is new. |
| Game.EnemyStepValid | Program.cs:309-319 | Recording a fresh target keeps the used rows and columns in range and free of repeats, per axis or per pair. |
| Game.PlayerShot | Program.cs:299-303 | The player's half-turn fires at the chosen cell of the enemy sea: water there becomes a miss, an intact segment becomes a hit, a resolved cell stays, and nothing else on either sea changes. The player's counter rises by 1 exactly when the cell held a ship segment, in step with the enemy sea's hit cells. |
| Game.EnemyShot | Program.cs:305-324 | The enemy's half-turn records its target, fires at that cell of the player's sea with the same cell effect, and closes the turn. The enemy's counter rises by 1 exactly when the cell held a ship segment; nothing else changes. |
| Game.PlayTurn | Program.cs:297-324 | One pass of the loop body. Missing input and "exit" are reported as such. A completed turn fires the player's shot at the cell the prompt decided and the enemy's at the picked target, records that target, and raises each counter by 1 exactly when its shot hit a segment. When the draws run out, only the player's shot has happened. A completed turn keeps the between-turns invariant. |
| Game.GameLoop | Program.cs:276-331 | At most `MaxTurns` = 100 turns, one enemy target recorded per completed turn. The enemy's targets never repeat under the chosen rule and stay inside the sea. A winner is reported only as `EndGame` decides it, after both half-turns. Neither side scores more often than it shoots; when draws run out mid-turn, the player may have one extra shot. |
| Game.GameLoopTracksHits | Program.cs:289-324 | Whenever the loop stops, each counter has moved by exactly the change in 1-cells on the sea it shoots at. |
| Game.GameLoopStopsAtFirstWinner | Program.cs:295-330 | From an undecided start, a run that ends at the turn cap, on "exit" or for want of input ends undecided. |
| Game.GameLoopWinnerIsFirst | Program.cs:295-329 | The loop breaks on the first turn after which `EndGame` names a winner. Take a run from an undecided start that ends with a winner. For every k below the number of turns it played, the same run given only the first k turns' input plays those k turns. It is still undecided after them, and it stops for want of input. |
| Game.GameLoopKeepsTargets | Program.cs:313-319 | The enemy's earlier targets stay recorded, in order: the lists only grow. |
| Game.HitsMatchSea | Program.cs:289-330 | Starting with no hit cells on either sea, each counter equals the number of 1-cells on the sea it shoots at whenever the loop stops. |
| Game.DistinctCard | Program.cs:309-319 | A list without repeats has as many distinct values as entries. |
| Game.DistinctBound | Program.cs:309-319 | Pigeonhole: a repeat-free list of indices in [0, n) has at most n entries. |
| Game.DistinctFull | Program.cs:309-319 | n repeat-free indices in [0, n) use up every index. |
| Game.PerAxisRunsOut | Program.cs:309-319 | As written, once `count` turns are played every row and column is used. No draw in range is then accepted, so the enemy's do-while cannot end. |
| Game.PerAxisNeverDeclaresWinner | Program.cs:295-330 | As written, when the sea has fewer rows than the hits needed, the loop never reports a winner. It plays at most `count` turns, and each side scores at most once a turn. |
| Game.ShippedGameHasNoWinner | Program.cs:27-29 | The shipped configuration (10×10, 2002 fleet, 17 hits, the as-written target parse and per-axis enemy rule) never reports a winner and never reaches the turn cap. |
| Game.UsedPairs | Program.cs:309-321 | The set of pairs shot at has no more elements than there were turns. |
| Game.UsedPairsHasUsed | Program.cs:309-321 | Every pair recorded as shot at is in that set. |
| Game.Cells | Program.cs:311-317 | The cells of a k × m sea: membership is exactly the index range, and there are k·m of them. |
| Game.RowCells | Program.cs:311-317 | The cells of one row: exactly the m columns of that row. |
| Game.FreshPairExists | Program.cs:309-321 | Corrected rule: when fewer pairs have been used than the sea has cells, some cell is untouched. |
| Game.FreshDrawIsPicked | Program.cs:309-321 | Corrected rule: a drawn pair never shot at is the enemy's pick. |
| Game.PerPairNeverRunsOut | Program.cs:29 | Corrected rule: on a sea of at least 10×10, before the 100-turn cap there is always a fresh cell, and a draw of it is accepted. |

## Left out

- Console output, the menus (`MainMenu`, `ShipPlacementMenu`, `ShipConfirmMenu`, `GameLoopMenu`), the splash screen, `ViewSea` and the glyph table of `MakeSeaMappings`: these are presentation only; the model keeps the values returned and the board state.
- `QuitGame` / `Environment.Exit`: "exit" at the prompt is a stop reason of the loop (`PlayerQuit`), not a process exit.
- `PrintCountDown` and `Thread.Sleep`: timing only.
- `System.Random`: placement draws and enemy draws are supplied sequences. The source retries without bound (`while (true)` and the do-whiles). The model stops with `AttemptsExhausted` or `DrawsExhausted` when the supplied sequence runs out, so the model does not claim these loops terminate.
- The prompt loops of `TargetSelectionMenu` and the custom placement branch are modelled as consuming the typed lines in order (`ReadCommand`, `ParsePlacement` over a sequence). The menus that re-enter themselves recursively are left out with the menus.
- `customShips`, `customSeaMappings`, `customShipMappings`: they only print a TODO.
- The `Array.Copy` copy-then-restore choreography in `PlaceShips`: modelled as validate-then-commit. The validator never writes before deciding.
- Dictionary iteration order: a ship set is the ordered list of (name, length) pairs in insertion order.
- `char.IsLetter` and `char.IsDigit` are modelled on ASCII only. Non-ASCII Unicode letters and digits are not modelled. A non-ASCII digit such as '٣' passes `char.IsDigit`, and `int.Parse` then throws an unhandled `FormatException` (Program.cs:359, data/Components.cs:190); the model re-prompts instead.
- Text.ToUpper: case mapping is ASCII, as in the invariant culture. C#'s `char.ToUpper` follows the current culture (Program.cs:360, data/Components.cs:191): under Turkish rules 'i' becomes 'İ', so "i5" reads a column far outside the sea and is refused, where the model fires at column I.
- 32-bit integer overflow of row, column and length arithmetic is not modelled. All integers are unbounded. With in-grid rows and columns and lengths up to 26, no intermediate value comes near the 32-bit range. A length near `int.MaxValue` would make the source's `row+shipLength+1` wrap, pass the guard and index outside the array; the model rejects such a proposal.
- Resolution.EvaluateTarget: when a ship sinks whose id has no name in the table, the source writes the hit and then throws `KeyNotFoundException`. The model returns `UnknownShipId` without the written board. On boards placed from the catalog every id 3..8 has a name, so this never arises there.
- Unknown ship names in `CheckAndPlaceShips` are modelled as the source behaves: "placed" is reported and nothing is written (`Commit` returns the sea unchanged).
- Game.GameLoop: the target parse and the enemy's rule are parameters. The parse is `AsWritten` (`ParseTarget`) or `Corrected` (`ParseTargetFixed`); the rule is `PerAxis` as written or `PerPair` as corrected (see Findings).
- The one-digit row in the target and placement parses means rows 10 and beyond cannot be typed on any sea. The model keeps the source's two- and three-character formats, and the round-trip lemmas cover rows 1..9.
- The 100-turn cap does not bound the game. With the per-axis rule on a 10×10 sea the enemy's row picker runs dry on turn 11, long before the cap (`Game.PerAxisRunsOut`), and the do-while then draws forever. The model stops there with `DrawsExhausted`.

## Findings

| source | as written | input that shows it | evidently intended | confidence | as-written member | corrected member |
|---|---|---|---|---|---|---|
| Program.cs:362 | The target is accepted only when `row > 0 && col > 0`, so column A and row 1 can never be targeted. | "A5" (row 4, column 0) on the 10×10 sea is refused; so is "C1". | Accept 0 <= row < count and 0 <= col < count, as the "letter+number" prompt and the board labels suggest. | not executed | Game.ParseTarget, with Game.ParseTargetRejectsFirstRowAndColumn and Game.ParseTargetColumnAWitness | Game.ParseTargetFixed, with Game.ParseTargetFixedRoundTrip and Game.ParseTargetFixedNamesItsCell |
| Program.cs:309-319 | The enemy never reuses a row, and independently never reuses a column. On the 10×10 sea it has no unused row on turn 11, and the do-while draws forever. By then each side has at most 11 hits, short of the 17 needed, so the game can never finish. | Any 10 completed turns on the shipped configuration (SEA_SIZE 10, 2002 fleet). | Exclude only coordinate pairs already shot at, so a fresh target exists on every turn up to the 100-turn cap. | not executed | Game.EnemyPick (policy PerAxis), with Game.PerAxisRunsOut, Game.PerAxisNeverDeclaresWinner and Game.ShippedGameHasNoWinner | Game.EnemyPick (policy PerPair), with Game.FreshPairExists and Game.PerPairNeverRunsOut |
