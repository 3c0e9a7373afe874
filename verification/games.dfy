/** The game aggregate: its fleet, the set of every cell shot at, and shot
    registration, the one operation that changes a game in play. */
module Games {
  import opened Wrappers
  import opened Coordinates
  import Ships

  /** The game's `Guid`, an opaque value the rules only copy. */
  type GameId = nat

  /** A game: its identifier, its ships in the order they were added, and
      the set of cells shot at so far. */
  datatype Game = Game(id: GameId, ships: seq<Ships.Ship>, shots: set<Coordinate>)

  /** `Game.Create()`: a new identifier, no ships, no shots. With no ships
      it already counts as over, and it satisfies the game invariant. */
  function Create(id: GameId): (g: Game)
    ensures g.id == id && g.ships == [] && g.shots == {}
    ensures IsOver(g) && Valid(g)
  {
    Game(id, [], {})
  }

  /** `IsOver`: every ship is sunk (so a game without ships is over). */
  predicate IsOver(g: Game) {
    forall i :: 0 <= i < |g.ships| ==> Ships.IsSunk(g.ships[i])
  }

  /** `AddShip(ship)`: appends one ship; the shots are not touched. */
  function AddShip(g: Game, s: Ships.Ship): (r: Game)
    ensures r.id == g.id && r.shots == g.shots
    ensures |r.ships| == |g.ships| + 1 && r.ships[|g.ships|] == s
    ensures forall i :: 0 <= i < |g.ships| ==> r.ships[i] == g.ships[i]
  {
    g.(ships := g.ships + [s])
  }

  /** `Ships.FirstOrDefault(ship => ship.Positions.Contains(c))`, as an
      index: the first ship in collection order that occupies `c`. */
  function FirstShipAt(ships: seq<Ships.Ship>, c: Coordinate): (r: Option<nat>)
    ensures r.Some? ==> r.value < |ships| && c in ships[r.value].positions
    ensures r.Some? ==> forall j :: 0 <= j < r.value ==> c !in ships[j].positions
    ensures r.None? ==> forall j :: 0 <= j < |ships| ==> c !in ships[j].positions
  {
    if |ships| == 0 then None
    else if c in ships[0].positions then Some(0)
    else
      match FirstShipAt(ships[1..], c)
      case None => None
      case Some(i) => Some(i + 1)
  }

  /** What `TryRegisterShot` reports: whether the shot was registered, the
      index of the ship it hit (the C# `hitShip` reference, whose state after
      the call is `game.ships[index]`), and the game afterwards. */
  datatype ShotRecord = ShotRecord(registered: bool, hitShip: Option<nat>, game: Game)

  /** `TryRegisterShot(coordinate, out hitShip)`. A cell already shot is
      refused and nothing changes. Otherwise the cell joins the shots, and
      the first ship occupying it, if any, takes the hit; every other ship is
      left as it was. */
  function TryRegisterShot(g: Game, c: Coordinate): (r: ShotRecord)
    ensures c in g.shots ==> r == ShotRecord(false, None, g)
    ensures c !in g.shots ==> r.registered && r.game.shots == g.shots + {c}
    ensures r.game.id == g.id && |r.game.ships| == |g.ships|
    ensures r.hitShip.Some? ==>
      var i := r.hitShip.value;
      && r.registered && i < |g.ships|
      && c in g.ships[i].positions
      && (forall j :: 0 <= j < i ==> c !in g.ships[j].positions)
      && r.game.ships[i] == g.ships[i].(hits := g.ships[i].hits + {c})
    ensures r.registered && r.hitShip.None? ==>
      forall j :: 0 <= j < |g.ships| ==> c !in g.ships[j].positions
    ensures forall j :: 0 <= j < |g.ships| && r.hitShip != Some(j) ==> r.game.ships[j] == g.ships[j]
  {
    if c in g.shots then ShotRecord(false, None, g)
    else
      var shot := g.(shots := g.shots + {c});
      match FirstShipAt(g.ships, c)
      case None => ShotRecord(true, None, shot)
      case Some(i) =>
        ShotRecord(true, Some(i), shot.(ships := g.ships[i := Ships.TryHit(g.ships[i], c).ship]))
  }

  /** Registration only adds: shots never shrink, each ship keeps its type
      and positions, hits never shrink, a sunk ship stays sunk and a game
      that is over stays over. */
  lemma RegisterShotMonotone(g: Game, c: Coordinate)
    ensures var h := TryRegisterShot(g, c).game;
      && g.shots <= h.shots
      && (forall i :: 0 <= i < |g.ships| ==>
            && h.ships[i].shipType == g.ships[i].shipType
            && h.ships[i].positions == g.ships[i].positions
            && g.ships[i].hits <= h.ships[i].hits
            && (Ships.IsSunk(g.ships[i]) ==> Ships.IsSunk(h.ships[i])))
      && (IsOver(g) ==> IsOver(h))
  {
  }

  /** A repeated shot is refused the second time and changes nothing, even
      when the first one was accepted. */
  lemma RepeatShotRefused(g: Game, c: Coordinate)
    ensures var first := TryRegisterShot(g, c);
      TryRegisterShot(first.game, c) == ShotRecord(false, None, first.game)
  {
  }

  /** No two ships share a cell. */
  ghost predicate ShipsDisjoint(ships: seq<Ships.Ship>) {
    forall i, j, p :: 0 <= i < j < |ships| && p in ships[i].positions ==> p !in ships[j].positions
  }

  /** A ship has been hit exactly on those of its cells that were shot at. */
  ghost predicate HitsAccounted(s: Ships.Ship, shots: set<Coordinate>) {
    forall p :: p in s.hits <==> p in s.positions && p in shots
  }

  /** The game invariant: ships disjoint, every ship's hits are exactly its
      shot cells (so hits lie inside positions and inside the shots). */
  ghost predicate Valid(g: Game) {
    && ShipsDisjoint(g.ships)
    && forall i :: 0 <= i < |g.ships| ==> HitsAccounted(g.ships[i], g.shots)
  }

  /** Shot registration keeps the game invariant. */
  lemma RegisterShotKeepsValid(g: Game, c: Coordinate)
    requires Valid(g)
    ensures Valid(TryRegisterShot(g, c).game)
  {
    var r := TryRegisterShot(g, c);
    var h := r.game;
    if c !in g.shots {
      forall i | 0 <= i < |h.ships| ensures HitsAccounted(h.ships[i], h.shots) {
        if r.hitShip == Some(i) {
        } else {
          assert h.ships[i] == g.ships[i];
          if r.hitShip.Some? && r.hitShip.value < i {
            assert c in g.ships[r.hitShip.value].positions;
          }
        }
      }
    }
  }

  /** In a valid game a ship is sunk exactly when all its cells were shot,
      and the game is over exactly when every occupied cell was shot. */
  lemma OverIffFleetShot(g: Game)
    requires Valid(g)
    ensures forall i :: 0 <= i < |g.ships| ==>
      (Ships.IsSunk(g.ships[i]) <==> forall p :: p in g.ships[i].positions ==> p in g.shots)
    ensures IsOver(g) <==>
      forall i, p :: 0 <= i < |g.ships| && p in g.ships[i].positions ==> p in g.shots
  {
  }

  /** The game after a sequence of shots, each registered in turn. */
  function ShootAll(g: Game, cs: seq<Coordinate>): Game
    decreases |cs|
  {
    if |cs| == 0 then g else ShootAll(TryRegisterShot(g, cs[0]).game, cs[1..])
  }

  /** Across any sequence of shots the shots only grow, the invariant holds
      throughout, and a game over stays over. */
  lemma {:induction false} ShootAllMonotone(g: Game, cs: seq<Coordinate>)
    requires Valid(g)
    ensures var h := ShootAll(g, cs);
      && Valid(h) && h.id == g.id && |h.ships| == |g.ships|
      && g.shots <= h.shots
      && (forall k :: 0 <= k < |cs| ==> cs[k] in h.shots)
      && (IsOver(g) ==> IsOver(h))
    decreases |cs|
  {
    if |cs| > 0 {
      var first := TryRegisterShot(g, cs[0]).game;
      RegisterShotMonotone(g, cs[0]);
      RegisterShotKeepsValid(g, cs[0]);
      ShootAllMonotone(first, cs[1..]);
      forall k | 0 <= k < |cs| ensures cs[k] in ShootAll(g, cs).shots {
        if k > 0 { assert cs[k] == cs[1..][k - 1]; }
      }
    }
  }
}
