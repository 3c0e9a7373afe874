/** `GameExtensions.TryPlaceShip`: one placement attempt. The three random
    draws of the source (orientation, start column, start row) are the
    fields of a `Draw`, constrained to the ranges the generator is asked
    for. */
module Placement {
  import opened Coordinates
  import opened DotNet
  import Ships
  import Games

  const BoardColumns: int := 10
  const BoardRows: int := 10
  const MinRow: int := 1
  const MinColIndex: int := 0
  const MinInclusive: int := 0
  const MaxExclusive: int := 2
  const CharA: char := 'A'

  /** The values `RandomNumberGenerator.GetInt32` returned for one attempt. */
  datatype Draw = Draw(orientation: int, colStart: int, rowStart: int)

  /** `GetInt32(MaxExclusive) is MinInclusive`: a draw of 0 means horizontal. */
  predicate IsHorizontal(d: Draw) {
    d.orientation == MinInclusive
  }

  /** The largest start column index for a ship of `length`. */
  function MaxColIndex(length: int, horizontal: bool): int {
    if horizontal then BoardColumns - length else BoardColumns - 1
  }

  /** The largest start row, computed as a 0-based bound although rows are
      numbered from 1. */
  function MaxRowIndex(length: int, horizontal: bool): int {
    if horizontal then BoardRows - 1 else BoardRows - length
  }

  /** The draws the generator can produce for a ship of type `t`:
      `GetInt32(2)`, `GetInt32(MinColIndex, maxColIndex + 1)` and
      `GetInt32(MinRow, maxRowIndex + 1)`. */
  predicate DrawInRange(t: Ships.ShipType, d: Draw) {
    var length := Ships.Length(t);
    var horizontal := IsHorizontal(d);
    && MinInclusive <= d.orientation < MaxExclusive
    && MinColIndex <= d.colStart <= MaxColIndex(length, horizontal)
    && MinRow <= d.rowStart <= MaxRowIndex(length, horizontal)
  }

  /** `(char)(CharA + index)` for a column index on the board. */
  function ColumnAt(index: int): (c: char)
    requires 0 <= index < BoardColumns
    ensures c as int == CharA as int + index && FirstColumn <= c <= LastColumn
  {
    (CharA as int + index) as char
  }

  /** A run of cells: each next cell is one column to the right (horizontal)
      or one row down (vertical) of the previous one, on the same row or
      column. */
  ghost predicate Straight(ps: seq<Coordinate>, horizontal: bool) {
    forall k :: 0 < k < |ps| ==>
      if horizontal then
        ps[k].row == ps[k - 1].row && ps[k].column as int == ps[k - 1].column as int + 1
      else
        ps[k].column == ps[k - 1].column && ps[k].row == ps[k - 1].row + 1
  }

  /** The positions computed from a draw: `Enumerable.Range(0, length)`
      mapped to the cell `i` steps from the start. The run has the ship's
      length, is straight in the drawn orientation, lies on the board, and
      never reaches row 10, because the start row is drawn below the 0-based
      bound. */
  function Run(t: Ships.ShipType, d: Draw): (ps: seq<Coordinate>)
    requires DrawInRange(t, d)
    ensures |ps| == Ships.Length(t)
    ensures Straight(ps, IsHorizontal(d))
    ensures |ps| > 0 ==> ps[0] == Create(ColumnAt(d.colStart), d.rowStart)
    ensures forall k :: 0 <= k < |ps| ==> OnBoard(ps[k]) && ps[k].row < LastRow
  {
    var ps := seq(Ships.Length(t), i requires 0 <= i < Ships.Length(t) => CellAt(t, d, i));
    assert forall k :: 0 <= k < |ps| ==> ps[k] == CellAt(t, d, k);
    ps
  }

  /** The cell `i` steps from the start of the drawn run. */
  function CellAt(t: Ships.ShipType, d: Draw, i: int): (c: Coordinate)
    requires DrawInRange(t, d) && 0 <= i < Ships.Length(t)
    ensures OnBoard(c) && c.row < LastRow
  {
    var horizontal := IsHorizontal(d);
    Create(ColumnAt(if horizontal then d.colStart + i else d.colStart),
           if horizontal then d.rowStart else d.rowStart + i)
  }

  /** The cells of a straight run are pairwise distinct. */
  lemma {:induction false} StraightDistinct(ps: seq<Coordinate>, horizontal: bool)
    requires Straight(ps, horizontal)
    ensures forall i, j :: 0 <= i < j < |ps| ==> ps[i] != ps[j]
  {
    forall i, j | 0 <= i < j < |ps| ensures ps[i] != ps[j] {
      StraightGrows(ps, horizontal, i, j);
    }
  }

  /** Along a straight run the moving coordinate strictly increases. */
  lemma {:induction false} StraightGrows(ps: seq<Coordinate>, horizontal: bool, i: nat, j: nat)
    requires Straight(ps, horizontal) && i < j < |ps|
    ensures horizontal ==> ps[i].column as int < ps[j].column as int
    ensures !horizontal ==> ps[i].row < ps[j].row
    decreases j - i
  {
    if i + 1 < j {
      StraightGrows(ps, horizontal, i, j - 1);
    }
  }

  /** `Ships.SelectMany(s => s.Positions)`: every occupied cell, ship by ship. */
  function Occupied(ships: seq<Ships.Ship>): (cells: seq<Coordinate>)
    ensures forall p :: p in cells <==> exists i :: 0 <= i < |ships| && p in ships[i].positions
  {
    if |ships| == 0 then []
    else
      var rest := Occupied(ships[1..]);
      assert forall i :: 1 <= i < |ships| ==> ships[i] == ships[1..][i - 1];
      ships[0].positions + rest
  }

  /** `.Intersect(positions, new CoordinateComparer()).Any()`: some computed
      cell is already occupied. The comparer is value equality on non-null
      coordinates. */
  predicate Collides(ships: seq<Ships.Ship>, ps: seq<Coordinate>) {
    exists k :: 0 <= k < |ps| && ps[k] in Occupied(ships)
  }

  /** The outcome of one attempt and the game afterwards. */
  datatype Placement = Placement(placed: bool, game: Games.Game)

  /** `TryPlaceShip(game, type)` with its draws as a parameter. A collision
      with any placed ship refuses the attempt and leaves the game as it
      was; otherwise exactly one ship of the type, with the computed cells
      and no hits, is appended. */
  function TryPlaceShip(g: Games.Game, t: Ships.ShipType, d: Draw): (r: Placement)
    requires DrawInRange(t, d)
    ensures r.placed <==> forall i, k :: 0 <= i < |g.ships| && 0 <= k < |Run(t, d)| ==>
      Run(t, d)[k] !in g.ships[i].positions
    ensures !r.placed ==> r.game == g
    ensures r.placed ==> r.game == Games.AddShip(g, Ships.Create(t, Run(t, d)))
  {
    var positions := Run(t, d);
    if Collides(g.ships, positions) then Placement(false, g)
    else Placement(true, Games.AddShip(g, Ships.Create(t, positions)))
  }

  /** Placement before any shot keeps the game invariant: the fleet stays
      pairwise disjoint and the new ship has no hits. */
  lemma PlacementKeepsValid(g: Games.Game, t: Ships.ShipType, d: Draw)
    requires DrawInRange(t, d)
    requires Games.Valid(g) && g.shots == {}
    ensures Games.Valid(TryPlaceShip(g, t, d).game)
    ensures TryPlaceShip(g, t, d).game.shots == {}
  {
    var r := TryPlaceShip(g, t, d);
    if r.placed {
      var ships := r.game.ships;
      var n := |g.ships|;
      forall i, j, p | 0 <= i < j < |ships| && p in ships[i].positions
        ensures p !in ships[j].positions
      {
        if j == n {
          assert ships[i] == g.ships[i];
        } else {
          assert ships[i] == g.ships[i] && ships[j] == g.ships[j];
        }
      }
    }
  }
}
