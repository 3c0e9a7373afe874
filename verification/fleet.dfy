/** The fleet composition of `GameService.CreateAsync`: one battleship, then
    two destroyers, each placed by repeated attempts until one succeeds. */
module Fleet {
  import opened Wrappers
  import opened Coordinates
  import Ships
  import Games
  import opened Placement

  const BattleshipCount: nat := 1
  const DestroyerCount: nat := 2

  /** `Enumerable.Repeat(x, n)`. */
  function Repeat<T>(x: T, n: nat): (r: seq<T>)
    ensures |r| == n && forall i :: 0 <= i < n ==> r[i] == x
  {
    if n == 0 then [] else [x] + Repeat(x, n - 1)
  }

  /** The ship types in placement order. */
  function FleetTypes(): seq<Ships.ShipType> {
    Repeat(Ships.Battleship, BattleshipCount) + Repeat(Ships.Destroyer, DestroyerCount)
  }

  /** The fleet is one battleship followed by two destroyers: 13 cells. */
  lemma FleetComposition()
    ensures FleetTypes() == [Ships.Battleship, Ships.Destroyer, Ships.Destroyer]
    ensures Ships.Length(FleetTypes()[0]) + Ships.Length(FleetTypes()[1]) + Ships.Length(FleetTypes()[2]) == 13
  {
  }

  /** A source of uniform draws: `rng(k, lo, hi)` is the `k`-th value the
      generator returns when asked for a number in `[lo, hi)`. */
  type Rng = (nat, int, int) -> int

  /** The generator's promise: every draw lies in the requested range. */
  ghost predicate WellBehaved(rng: Rng) {
    forall k: nat, lo: int, hi: int :: lo < hi ==> lo <= rng(k, lo, hi) < hi
  }

  /** The draws of one attempt for a ship of type `t`, starting at the
      generator's `k`-th value: orientation, then start column, then start
      row, with the ranges of `TryPlaceShip`. */
  function DrawFor(rng: Rng, k: nat, t: Ships.ShipType): (d: Draw)
    requires WellBehaved(rng)
    ensures DrawInRange(t, d)
  {
    var length := Ships.Length(t);
    var orientation := rng(k, MinInclusive, MaxExclusive);
    var horizontal := orientation == MinInclusive;
    var colStart := rng(k + 1, MinColIndex, MaxColIndex(length, horizontal) + 1);
    var rowStart := rng(k + 2, MinRow, MaxRowIndex(length, horizontal) + 1);
    Draw(orientation, colStart, rowStart)
  }

  /** What every created game looks like: no shots, the fleet types in
      order, each ship of its type's length, on the board and above row 10,
      each ship the run of cells of some in-range draw, with the game
      invariant holding. */
  ghost predicate WellPlaced(g: Games.Game, count: nat)
    requires count <= |FleetTypes()|
  {
    && Games.Valid(g) && g.shots == {}
    && |g.ships| == count
    && forall i :: 0 <= i < count ==>
         && g.ships[i].shipType == FleetTypes()[i]
         && |g.ships[i].positions| == Ships.Length(FleetTypes()[i])
         && g.ships[i].hits == {}
         && (forall p :: p in g.ships[i].positions ==> OnBoard(p) && p.row < LastRow)
         && exists d :: DrawInRange(FleetTypes()[i], d) && g.ships[i].positions == Run(FleetTypes()[i], d)
  }

  /** Every ship of a created game is a straight line of distinct cells,
      horizontal or vertical, and the fleet covers 13 cells, no two ships
      sharing one. */
  lemma CreatedShipsStraight(g: Games.Game)
    requires WellPlaced(g, |FleetTypes()|)
    ensures forall i :: 0 <= i < |g.ships| ==>
      (Straight(g.ships[i].positions, true) || Straight(g.ships[i].positions, false))
    ensures forall i, j, k :: 0 <= i < |g.ships| && 0 <= j < k < |g.ships[i].positions| ==>
      g.ships[i].positions[j] != g.ships[i].positions[k]
    ensures |g.ships[0].positions| + |g.ships[1].positions| + |g.ships[2].positions| == 13
    ensures Games.ShipsDisjoint(g.ships)
  {
    FleetComposition();
    forall i | 0 <= i < |g.ships|
      ensures Straight(g.ships[i].positions, true) || Straight(g.ships[i].positions, false)
      ensures forall j, k :: 0 <= j < k < |g.ships[i].positions| ==>
        g.ships[i].positions[j] != g.ships[i].positions[k]
    {
      var d :| DrawInRange(FleetTypes()[i], d) && g.ships[i].positions == Run(FleetTypes()[i], d);
      StraightDistinct(g.ships[i].positions, IsHorizontal(d));
    }
  }

  /** One placement attempt for the next fleet type: a refusal leaves the
      game as it was, and a success extends the well-placed prefix by one
      ship. */
  lemma PlacementExtends(g: Games.Game, n: nat, d: Draw)
    requires n < |FleetTypes()| && WellPlaced(g, n)
    requires DrawInRange(FleetTypes()[n], d)
    ensures var p := TryPlaceShip(g, FleetTypes()[n], d);
      (!p.placed ==> p.game == g) && (p.placed ==> WellPlaced(p.game, n + 1)) && p.game.id == g.id
  {
    var t := FleetTypes()[n];
    var p := TryPlaceShip(g, t, d);
    PlacementKeepsValid(g, t, d);
    if p.placed {
      assert p.game.ships[n].positions == Run(t, d);
      assert forall i :: 0 <= i < n ==> p.game.ships[i] == g.ships[i];
    }
  }

  /** `CreateAsync` without the repository: a new game, then for each fleet
      type placement attempts until one succeeds. The source retries without
      bound; `fuel` caps the total number of attempts, and running out of it
      yields `None`. */
  method CreateGame(id: Games.GameId, rng: Rng, fuel: nat) returns (r: Option<Games.Game>)
    requires WellBehaved(rng)
    ensures r.Some? ==> r.value.id == id && WellPlaced(r.value, |FleetTypes()|)
    ensures r.Some? ==> !Games.IsOver(r.value)
  {
    var g := Games.Create(id);
    var types := FleetTypes();
    var k: nat := 0;
    var attempts: nat := 0;
    var n := 0;
    while n < |types|
      invariant 0 <= n <= |types|
      invariant g.id == id && WellPlaced(g, n)
    {
      var t := types[n];
      var placed := false;
      while !placed
        invariant g.id == id
        invariant !placed ==> WellPlaced(g, n)
        invariant placed ==> WellPlaced(g, n + 1)
        decreases fuel - attempts, if placed then 0 else 1
      {
        if attempts >= fuel {
          return None;
        }
        var d := DrawFor(rng, k, t);
        var p := TryPlaceShip(g, t, d);
        PlacementExtends(g, n, d);
        k := k + 3;
        attempts := attempts + 1;
        placed := p.placed;
        g := p.game;
      }
      n := n + 1;
    }
    assert Ships.Length(types[0]) > 0 && g.ships[0].positions[0] !in g.ships[0].hits;
    r := Some(g);
  }
}
