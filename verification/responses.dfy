/** The two responses the service builds from the rules: the verdict of a
    shot and the public state of a game, which reveals only cells that have
    been shot. */
module Responses {
  import opened Wrappers
  import opened DotNet
  import opened Coordinates
  import Ships
  import Games
  import opened ShotService

  /** `GameShotPostResponse(Hit, Sunk, Victory)`. */
  datatype GameShotPostResponse = GameShotPostResponse(hit: bool, sunk: bool, victory: bool)

  /** `GameShotPostResponse.Map(result)`: a miss sets no flag, a hit sets
      `hit`, a sinking sets `hit` and `sunk`, the end of the game sets all
      three. The switch's throwing arm is unreachable on the four named
      results. */
  function MapShot(result: ShotResult): (r: GameShotPostResponse)
    ensures r.victory ==> r.sunk
    ensures r.sunk ==> r.hit
    ensures r.hit <==> result != Miss
    ensures r.sunk <==> result == Sunk || result == EndGame
    ensures r.victory <==> result == EndGame
  {
    match result
    case Miss => GameShotPostResponse(false, false, false)
    case Hit => GameShotPostResponse(true, false, false)
    case Sunk => GameShotPostResponse(true, true, false)
    case EndGame => GameShotPostResponse(true, true, true)
  }

  /** Reading a response back: the flags are nested, so the deepest one set
      names the result. */
  function ResultOf(r: GameShotPostResponse): (res: Option<ShotResult>)
    ensures res.None? <==> (r.victory && !r.sunk) || (r.sunk && !r.hit)
  {
    if r.victory then (if r.sunk && r.hit then Some(EndGame) else None)
    else if r.sunk then (if r.hit then Some(Sunk) else None)
    else if r.hit then Some(Hit)
    else Some(Miss)
  }

  /** Every result can be told apart from its response, and exactly the
      responses whose flags are nested come from a result. */
  lemma MapShotRoundTrip(result: ShotResult, r: GameShotPostResponse)
    ensures ResultOf(MapShot(result)) == Some(result)
    ensures ResultOf(r).Some? ==> MapShot(ResultOf(r).value) == r
  {
  }

  /** Distinct results give distinct responses. */
  lemma MapShotInjective(a: ShotResult, b: ShotResult)
    ensures MapShot(a) == MapShot(b) ==> a == b
  {
    MapShotRoundTrip(a, MapShot(b));
    MapShotRoundTrip(b, MapShot(a));
  }

  /** `ShotResponse(Column, Row)`. */
  datatype ShotResponse = ShotResponse(column: char, row: Int32)

  /** `PositionResponse(Column, Row)`. */
  datatype PositionResponse = PositionResponse(column: char, row: Int32)

  /** `ShipResponse(Type, Positions, IsSunk)`: `positions` lists only the
      cells of the ship that have been shot. */
  datatype ShipResponse = ShipResponse(shipType: Ships.ShipType, positions: seq<PositionResponse>, isSunk: bool)

  /** `GameStateGetResponse(Id, Shots, Ships, IsOver)`. */
  datatype GameStateGetResponse = GameStateGetResponse(
    id: Games.GameId, shots: seq<ShotResponse>, ships: seq<ShipResponse>, isOver: bool)

  function Position(p: Coordinate): PositionResponse {
    PositionResponse(p.column, p.row)
  }

  function ShotOf(p: Coordinate): ShotResponse {
    ShotResponse(p.column, p.row)
  }

  /** `positions.Where(p => shots.Contains(p, comparer))`: the occupied
      cells that have been shot, in placement order. The comparer is
      value equality, so the test is set membership. */
  function Reveal(positions: seq<Coordinate>, shots: set<Coordinate>): (r: seq<Coordinate>)
    ensures |r| <= |positions|
    ensures forall p :: p in r <==> p in positions && p in shots
  {
    if |positions| == 0 then []
    else
      var rest := Reveal(positions[1..], shots);
      assert forall p :: p in positions <==> p == positions[0] || p in positions[1..];
      if positions[0] in shots then [positions[0]] + rest else rest
  }

  /** Revealing a ship's cells piecewise reveals the same cells in the same
      order: the filter keeps placement order. */
  lemma {:induction false} RevealAppend(a: seq<Coordinate>, b: seq<Coordinate>, shots: set<Coordinate>)
    ensures Reveal(a + b, shots) == Reveal(a, shots) + Reveal(b, shots)
  {
    if |a| > 0 {
      assert (a + b)[0] == a[0] && (a + b)[1..] == a[1..] + b;
      RevealAppend(a[1..], b, shots);
    } else {
      assert a + b == b;
    }
  }

  /** A ship whose every cell has been shot reveals all of its cells, in
      placement order. */
  lemma {:induction false} RevealAll(positions: seq<Coordinate>, shots: set<Coordinate>)
    requires forall k :: 0 <= k < |positions| ==> positions[k] in shots
    ensures Reveal(positions, shots) == positions
  {
    if |positions| > 0 {
      RevealAll(positions[1..], shots);
      assert [positions[0]] + positions[1..] == positions;
    }
  }

  /** A list of cells with no cell twice. */
  predicate Distinct(cs: seq<Coordinate>) {
    forall i, j :: 0 <= i < j < |cs| ==> cs[i] != cs[j]
  }

  /** The response for one ship. */
  function MapShip(s: Ships.Ship, shots: set<Coordinate>): (r: ShipResponse)
    ensures r.shipType == s.shipType && r.isSunk == Ships.IsSunk(s)
    ensures forall p :: Position(p) in r.positions <==> p in s.positions && p in shots
    ensures |r.positions| == |Reveal(s.positions, shots)|
    ensures forall k :: 0 <= k < |r.positions| ==> r.positions[k] == Position(Reveal(s.positions, shots)[k])
  {
    var shown := Reveal(s.positions, shots);
    var ps := seq(|shown|, k requires 0 <= k < |shown| => Position(shown[k]));
    assert forall p :: Position(p) in ps <==> p in shown by {
      forall p ensures Position(p) in ps <==> p in shown {
        if Position(p) in ps {
          var k :| 0 <= k < |ps| && ps[k] == Position(p);
          assert shown[k] == p;
        }
        if p in shown {
          var k :| 0 <= k < |shown| && shown[k] == p;
          assert ps[k] == Position(p);
        }
      }
    }
    ShipResponse(s.shipType, ps, Ships.IsSunk(s))
  }

  /** `GameStateGetResponse.Map(game)`, with the enumeration order of the
      shot set supplied as `shotOrder` (a hash set's order is not part of
      its meaning): the id, every shot once, every ship in fleet order with
      only its shot cells revealed, and whether the game is over. */
  function MapState(g: Games.Game, shotOrder: seq<Coordinate>): (r: GameStateGetResponse)
    requires Distinct(shotOrder) && (set c | c in shotOrder) == g.shots
    ensures r.id == g.id && r.isOver == Games.IsOver(g)
    ensures |r.shots| == |g.shots|
    ensures forall c :: ShotOf(c) in r.shots <==> c in g.shots
    ensures |r.ships| == |g.ships|
    ensures forall i :: 0 <= i < |g.ships| ==>
      r.ships[i].shipType == g.ships[i].shipType && r.ships[i].isSunk == Ships.IsSunk(g.ships[i])
    ensures forall i, p :: 0 <= i < |g.ships| ==>
      (Position(p) in r.ships[i].positions <==> p in g.ships[i].positions && p in g.shots)
    ensures r.isOver <==> forall i :: 0 <= i < |r.ships| ==> r.ships[i].isSunk
    ensures forall i :: 0 <= i < |g.ships| ==> r.ships[i] == MapShip(g.ships[i], g.shots)
  {
    var shots := seq(|shotOrder|, k requires 0 <= k < |shotOrder| => ShotOf(shotOrder[k]));
    DistinctCount(shotOrder);
    assert forall c :: ShotOf(c) in shots <==> c in g.shots by {
      forall c ensures ShotOf(c) in shots <==> c in shotOrder {
        if ShotOf(c) in shots {
          var k :| 0 <= k < |shots| && shots[k] == ShotOf(c);
          assert shotOrder[k] == c;
        }
        if c in shotOrder {
          var k :| 0 <= k < |shotOrder| && shotOrder[k] == c;
          assert shots[k] == ShotOf(c);
        }
      }
    }
    var ships := seq(|g.ships|, i requires 0 <= i < |g.ships| => MapShip(g.ships[i], g.shots));
    GameStateGetResponse(g.id, shots, ships, Games.IsOver(g))
  }

  /** A list with no repeats has as many elements as the set of its
      elements. */
  lemma {:induction false} DistinctCount(cs: seq<Coordinate>)
    requires Distinct(cs)
    ensures |set c | c in cs| == |cs|
  {
    if |cs| > 0 {
      var rest := cs[1..];
      assert Distinct(rest) by {
        forall i, j | 0 <= i < j < |rest| ensures rest[i] != rest[j] {
          assert rest[i] == cs[i + 1] && rest[j] == cs[j + 1];
        }
      }
      DistinctCount(rest);
      assert cs[0] !in rest by {
        forall k | 0 <= k < |rest| ensures rest[k] != cs[0] {
          assert rest[k] == cs[k + 1];
        }
      }
      assert (set c | c in cs) == (set c | c in rest) + {cs[0]};
    }
  }

  /** The failure of `GetStateAsync`. */
  datatype StateError = NotFound

  /** `GetStateAsync(gameId)` with the repository lookup given as `stored`. */
  function GetState(stored: Option<Games.Game>, shotOrder: seq<Coordinate>): (r: Result<GameStateGetResponse, StateError>)
    requires stored.Some? ==> Distinct(shotOrder) && (set c | c in shotOrder) == stored.value.shots
    ensures stored.None? <==> r == Failure(NotFound)
    ensures r.Success? ==> r.value.id == stored.value.id && r.value.isOver == Games.IsOver(stored.value)
    ensures stored.Some? ==> r == Success(MapState(stored.value, shotOrder))
  {
    match stored
    case None => Failure(NotFound)
    case Some(g) => Success(MapState(g, shotOrder))
  }

  /** On a valid game the state reveals, for each ship, exactly the cells
      where it has been hit, and shows a ship as sunk exactly when all of
      its cells are revealed: nothing unshot leaks. */
  lemma StateRevealsHits(g: Games.Game, shotOrder: seq<Coordinate>)
    requires Games.Valid(g)
    requires Distinct(shotOrder) && (set c | c in shotOrder) == g.shots
    ensures var r := MapState(g, shotOrder);
      forall i, p :: 0 <= i < |g.ships| ==>
        (Position(p) in r.ships[i].positions <==> p in g.ships[i].hits)
    ensures var r := MapState(g, shotOrder);
      forall i :: 0 <= i < |g.ships| ==>
        (r.ships[i].isSunk <==> forall p :: p in g.ships[i].positions ==> Position(p) in r.ships[i].positions)
  {
  }

  /** The state of the game a fresh shot saves lists that shot, and exactly
      one more shot than before. */
  lemma ShotAppearsInState(g: Games.Game, c: Coordinate, shotOrder: seq<Coordinate>)
    ensures var o := Shoot(g, c);
      o.saved.Some? && Distinct(shotOrder) && (set x | x in shotOrder) == o.saved.value.shots ==>
        var st := GetState(o.saved, shotOrder);
        st.Success? && ShotOf(c) in st.value.shots && |st.value.shots| == |g.shots| + 1
  {
  }

  /** A response announcing victory is followed by a state that reports the
      game over; a shot at a game already over says victory again and
      changes nothing. */
  lemma VictoryMatchesState(g: Games.Game, c: Coordinate, shotOrder: seq<Coordinate>)
    requires Distinct(shotOrder)
    ensures var o := Shoot(g, c);
      o.result.Success? && MapShot(o.result.value).victory && o.saved.Some? &&
      (set x | x in shotOrder) == o.saved.value.shots ==>
        MapState(o.saved.value, shotOrder).isOver
    ensures Games.IsOver(g) ==> Shoot(g, c) == ShotOutcome(Success(EndGame), None)
  {
  }
}
