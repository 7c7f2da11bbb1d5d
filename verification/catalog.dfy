/** Fixed game data: the coordinate letters, the two rulesets, the
ship-id <-> ship-name table and the win threshold.
 */
module Catalog {
  import opened Base

  /** A ruleset: (ship name, length) pairs in the dictionary's insertion order. */
  type ShipSet = seq<(string, int)>

  const MinSize := 10
  const MaxSize := 26
  const Alphabet := "ABCDEFGHIJKLMNOPQRSTUVWXYZ"

  /** The letter naming column i: 'A' + i. */
  function ColumnLetter(i: int): char
    requires 0 <= i < 26
  {
    (('A' as int) + i) as char
  }

  lemma AlphabetIsConsecutive()
    ensures |Alphabet| == 26
    ensures forall i | 0 <= i < 26 :: Alphabet[i] == ColumnLetter(i)
  {
  }

  /** The map built by the loop of `MakeGameBoard` after k rounds. */
  function Letters(k: nat): (m: map<int, char>)
    requires k <= |Alphabet|
    ensures m.Keys == Range(k)
    ensures forall i | 0 <= i < k :: m[i] == ColumnLetter(i)
  {
    if k == 0 then map[]
    else
      var prev := Letters(k - 1);
      AlphabetIsConsecutive();
      assert Alphabet[k - 1] == ColumnLetter(k - 1);
      assert Range(k) == Range(k - 1) + {k - 1};
      prev[k - 1 := Alphabet[k - 1]]
  }

  /** `MakeGameBoard`: validates the size and maps each column index to its letter. */
  function MakeGameBoard(size: int): (r: Result<map<int, char>>)
    ensures r.Err? <==> !(MinSize <= size <= MaxSize)
    ensures r.Err? ==> r.error == InvalidSize
    ensures r.Ok? ==> r.value.Keys == Range(size) && |r.value| == size
    ensures r.Ok? ==> forall i | 0 <= i < size :: r.value[i] == ColumnLetter(i)
  {
    if !(MinSize <= size <= MaxSize) then Err(InvalidSize)
    else
      Ok(Letters(size))
  }

  /** The integers 0 .. n-1. */
  function Range(n: int): (s: set<int>)
    ensures forall i :: i in s <==> 0 <= i < n
    ensures n >= 0 ==> |s| == n
  {
    if n <= 0 then {} else Range(n - 1) + {n - 1}
  }

  // ---------------------------------------------------------------------
  // Ship names and ids
  // ---------------------------------------------------------------------

  const Carrier := "Carrier"
  const Battleship := "Battleship"
  const Destroyer := "Destroyer"
  const Submarine := "Submarine"
  const PatrolBoat := "Patrol Boat"
  const Cruiser := "Cruiser"

  /** `MakeShipMappings`: ship id -> ship name, used for the sunk report. */
  function MakeShipMappings(): (m: map<int, string>)
    ensures m.Keys == {3, 4, 5, 6, 7, 8}
  {
    map[3 := Carrier, 4 := Battleship, 5 := Destroyer,
        6 := Submarine, 7 := PatrolBoat, 8 := Cruiser]
  }

  /** The name switch of `CheckAndPlaceShips`: ship name -> id written on the board.
      A name outside the six gets no id (the switch has no default). */
  function ShipIdOf(name: string): (r: Option<int>)
    ensures r.Some? ==> 3 <= r.value <= 8
    ensures r.Some? ==> r.value in MakeShipMappings() && MakeShipMappings()[r.value] == name
    ensures r.None? ==> forall k | k in MakeShipMappings() :: MakeShipMappings()[k] != name
  {
    if name == Carrier then Some(3)
    else if name == Battleship then Some(4)
    else if name == Destroyer then Some(5)
    else if name == Submarine then Some(6)
    else if name == PatrolBoat then Some(7)
    else if name == Cruiser then Some(8)
    else None
  }

  /** The two tables agree in both directions: id k carries name n exactly
      when placing a ship named n writes k. */
  lemma ShipIdRoundTrip(name: string, k: int)
    ensures ShipIdOf(name) == Some(k) <==> (k in MakeShipMappings() && MakeShipMappings()[k] == name)
  {
  }

  // ---------------------------------------------------------------------
  // Rulesets
  // ---------------------------------------------------------------------

  predicate DistinctNames(ships: ShipSet) {
    forall i, j | 0 <= i < j < |ships| :: ships[i].0 != ships[j].0
  }

  predicate KnownNames(ships: ShipSet) {
    forall i | 0 <= i < |ships| :: ShipIdOf(ships[i].0).Some?
  }

  predicate PositiveLengths(ships: ShipSet) {
    forall i | 0 <= i < |ships| :: ships[i].1 > 0
  }

  /** Sum of the ship lengths (reference definition). */
  function TotalLength(ships: ShipSet): int {
    if |ships| == 0 then 0 else TotalLength(ships[..|ships| - 1]) + ships[|ships| - 1].1
  }

  lemma FiveShipTotal(ships: ShipSet)
    requires |ships| == 5
    ensures TotalLength(ships) == ships[0].1 + ships[1].1 + ships[2].1 + ships[3].1 + ships[4].1
  {
    assert ships[..1][..0] == [];
    assert TotalLength(ships[..1]) == ships[0].1;
    assert ships[..2][..1] == ships[..1];
    assert TotalLength(ships[..2]) == ships[0].1 + ships[1].1;
    assert ships[..3][..2] == ships[..2];
    assert TotalLength(ships[..3]) == ships[0].1 + ships[1].1 + ships[2].1;
    assert ships[..4][..3] == ships[..3];
    assert TotalLength(ships[..4]) == ships[0].1 + ships[1].1 + ships[2].1 + ships[3].1;
    assert ships[..5][..4] == ships[..4];
    assert ships[..5] == ships;
  }

  /** `MakeShipAssets`: the 1990 Milton Bradley and 2002 Hasbro fleets. */
  function MakeShipAssets(gameVersion: int): (r: Result<ShipSet>)
    ensures r.Ok? <==> gameVersion == 1990 || gameVersion == 2002
    ensures r.Err? ==> r.error == UnsupportedVersion
    ensures r.Ok? ==> |r.value| == 5 && TotalLength(r.value) == 17
    ensures r.Ok? ==> DistinctNames(r.value) && KnownNames(r.value) && PositiveLengths(r.value)
    ensures r.Ok? ==> r.value[0] == (Carrier, 5) && r.value[1] == (Battleship, 4)
  {
    if gameVersion == 1990 then
      var ships := [(Carrier, 5), (Battleship, 4), (Cruiser, 3), (Submarine, 3), (Destroyer, 2)];
      FiveShipTotal(ships);
      Ok(ships)
    else if gameVersion == 2002 then
      var ships := [(Carrier, 5), (Battleship, 4), (Destroyer, 3), (Submarine, 3), (PatrolBoat, 2)];
      FiveShipTotal(ships);
      Ok(ships)
    else
      Err(UnsupportedVersion)
  }

  /** `ComputeMaxHits`: the accumulation loop over the ruleset. */
  method ComputeMaxHits(ships: ShipSet) returns (maxHits: int)
    ensures maxHits == TotalLength(ships)
    ensures PositiveLengths(ships) ==> maxHits >= |ships|
  {
    maxHits := 0;
    var i := 0;
    while i < |ships|
      invariant 0 <= i <= |ships|
      invariant maxHits == TotalLength(ships[..i])
      invariant PositiveLengths(ships) ==> maxHits >= i
    {
      assert ships[..i + 1][..i] == ships[..i];
      maxHits := maxHits + ships[i].1;
      i := i + 1;
    }
    assert ships[..i] == ships;
  }
}
