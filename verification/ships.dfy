/** Ship types and ships: a ship occupies an ordered list of cells and
    collects the cells where it has been hit; it is sunk when every cell it
    occupies has been hit. */
module Ships {
  import Wrappers
  import opened Coordinates

  /** `ShipType`. The enum values double as ship lengths. */
  datatype ShipType = None | Battleship | Destroyer

  /** `(int)type`: the enum's value, used by placement as the ship's length. */
  function Length(t: ShipType): nat {
    match t
    case None => 0
    case Battleship => 5
    case Destroyer => 4
  }

  /** The cast back from an integer to the named enum member, if any. */
  function FromLength(n: int): Wrappers.Option<ShipType> {
    if n == 0 then Wrappers.Some(None)
    else if n == 5 then Wrappers.Some(Battleship)
    else if n == 4 then Wrappers.Some(Destroyer)
    else Wrappers.None
  }

  /** The declared values: `None` is 0, `Battleship` 5, `Destroyer` 4. */
  lemma ShipTypeValues()
    ensures Length(None) == 0 && Length(Battleship) == 5 && Length(Destroyer) == 4
  {
  }

  /** The values are pairwise distinct, so the integer cast identifies the
      type: casting back recovers it. */
  lemma LengthIdentifiesType(t: ShipType, u: ShipType)
    ensures FromLength(Length(t)) == Wrappers.Some(t)
    ensures Length(t) == Length(u) ==> t == u
  {
  }

  /** A ship: its type, the cells it occupies in placement order, and the
      set of cells where it has been hit. The source's per-ship `Guid` is
      never read by the rules and is not modelled. */
  datatype Ship = Ship(shipType: ShipType, positions: seq<Coordinate>, hits: set<Coordinate>)

  /** `Ship.Create(type, positions)`: type and positions verbatim, no hits. */
  function Create(t: ShipType, positions: seq<Coordinate>): Ship {
    Ship(t, positions, {})
  }

  /** `IsSunk`: every occupied cell has been hit. */
  predicate IsSunk(s: Ship) {
    forall p :: p in s.positions ==> p in s.hits
  }

  /** The ship invariant: hits lie inside the positions. */
  predicate HitsWithin(s: Ship) {
    forall p :: p in s.hits ==> p in s.positions
  }

  /** A freshly created ship keeps what it was given, has no hits (so it
      satisfies its invariant), and is sunk only when it has no cells at all. */
  lemma CreateIsFresh(t: ShipType, positions: seq<Coordinate>)
    ensures Create(t, positions).shipType == t && Create(t, positions).positions == positions
    ensures Create(t, positions).hits == {} && HitsWithin(Create(t, positions))
    ensures IsSunk(Create(t, positions)) <==> |positions| == 0
  {
    if |positions| > 0 {
      assert positions[0] in positions;
    }
  }

  /** The boolean `TryHit` returns and the ship as it stands afterwards. */
  datatype HitAttempt = HitAttempt(hit: bool, ship: Ship)

  /** `TryHit(coordinate)`: `Positions.Contains(c) && Hits.Add(c)`. The
      short circuit leaves the hits alone for a cell the ship does not
      occupy; `Hits.Add` reports whether the cell was new. */
  function TryHit(s: Ship, c: Coordinate): (r: HitAttempt)
    ensures r.hit <==> c in s.positions && c !in s.hits
    ensures r.ship.shipType == s.shipType && r.ship.positions == s.positions
    ensures c !in s.positions ==> r.ship == s
    ensures s.hits <= r.ship.hits <= s.hits + {c}
    ensures c in s.positions ==> c in r.ship.hits
    ensures HitsWithin(s) ==> HitsWithin(r.ship)
    ensures IsSunk(s) ==> IsSunk(r.ship)
  {
    if c in s.positions then HitAttempt(c !in s.hits, s.(hits := s.hits + {c}))
    else HitAttempt(false, s)
  }

  /** A hit sinks a ship exactly when the struck cell was its last unhit
      cell. */
  lemma SinkingHit(s: Ship, c: Coordinate)
    requires c in s.positions
    ensures IsSunk(TryHit(s, c).ship) <==> forall p :: p in s.positions && p !in s.hits ==> p == c
  {
  }
}
