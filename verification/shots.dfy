/** The pure part of `GameService.PostShotAsync`: payload clean-up, parsing,
    the repository lookup given as its result, and the ladder that turns a
    registered shot into an outcome. */
module ShotService {
  import opened Wrappers
  import opened DotNet
  import opened Coordinates
  import opened CoordinateParser
  import Ships
  import Games

  /** `ShotResult`, the outcome of a shot as the service reports it. */
  datatype ShotResult = Miss | Hit | Sunk | EndGame

  /** The failure messages of `PostShotAsync`, one constructor each. */
  datatype ShotError = CoordinateRequired | InvalidCoordinate | GameNotFound | AlreadyShot

  /** The service's result and the game handed to `SaveAsync`, if any. */
  datatype ShotOutcome = ShotOutcome(result: Result<ShotResult, ShotError>, saved: Option<Games.Game>)

  /** `request.Coordinate.Trim().Trim('"')`. */
  function Payload(request: string): string {
    Trim(Trim(request, WhiteSpace), Exactly('"'))
  }

  /** `PostShotAsync(gameId, request)` with the repository lookup replaced by
      its result `stored` (`None` when no game has the id): the payload is
      cleaned, parsed, and answered by `Respond`. */
  function PostShot(stored: Option<Games.Game>, request: string): ShotOutcome {
    var payload := Payload(request);
    Respond(stored, payload, TryParse(Some(payload)))
  }

  /** The checks of `PostShotAsync` in the source's order, given the cleaned
      payload and its parse: a blank payload fails with `CoordinateRequired`,
      an unparsed one with `InvalidCoordinate`, an unknown game with
      `GameNotFound`; anything else is `Shoot` at the parsed cell. */
  function Respond(stored: Option<Games.Game>, payload: string, parsed: Parsed): (r: ShotOutcome)
    ensures IsNullOrWhiteSpace(Some(payload)) ==> r == ShotOutcome(Failure(CoordinateRequired), None)
    ensures !parsed.success ==> r.result.Failure? && r.saved.None?
    ensures !IsNullOrWhiteSpace(Some(payload)) && parsed.success ==>
      (stored.None? <==> r == ShotOutcome(Failure(GameNotFound), None))
    ensures r.result.Success? || r.saved.Some? ==>
      !IsNullOrWhiteSpace(Some(payload)) && parsed.success && stored.Some?
      && r == Shoot(stored.value, parsed.coordinate)
  {
    if IsNullOrWhiteSpace(Some(payload)) then ShotOutcome(Failure(CoordinateRequired), None)
    else if !parsed.success then ShotOutcome(Failure(InvalidCoordinate), None)
    else
      match stored
      case None => ShotOutcome(Failure(GameNotFound), None)
      case Some(g) => Shoot(g, parsed.coordinate)
  }

  /** The part of `PostShotAsync` after the game is found: a game already
      over answers `EndGame` and saves nothing; a repeated shot fails with
      `AlreadyShot` and saves nothing; a registered shot saves the game with
      the shot added and is classified by `Classify`. */
  function Shoot(g: Games.Game, c: Coordinate): (r: ShotOutcome)
    ensures Games.IsOver(g) ==> r == ShotOutcome(Success(EndGame), None)
    ensures !Games.IsOver(g) ==> (c in g.shots <==> r == ShotOutcome(Failure(AlreadyShot), None))
    ensures r.result.Failure? ==> r.saved.None?
    ensures r.saved.Some? <==> !Games.IsOver(g) && c !in g.shots
    ensures r.saved.Some? ==>
      r.saved.value.id == g.id && r.saved.value.shots == g.shots + {c}
      && |r.saved.value.ships| == |g.ships| && r.result.Success?
    ensures r.saved.Some? && r.result.value == Miss ==>
      forall i :: 0 <= i < |g.ships| ==> c !in g.ships[i].positions
    ensures r.saved.Some? && r.result.value != Miss ==>
      exists i :: 0 <= i < |g.ships| && c in g.ships[i].positions
  {
    if Games.IsOver(g) then ShotOutcome(Success(EndGame), None)
    else
      var reg := Games.TryRegisterShot(g, c);
      if !reg.registered then ShotOutcome(Failure(AlreadyShot), None)
      else ShotOutcome(Success(Classify(reg)), Some(reg.game))
  }

  /** The ladder after a registered shot: miss, then end of game, then sunk
      ship, then plain hit. */
  function Classify(reg: Games.ShotRecord): ShotResult
    requires reg.hitShip.Some? ==> reg.hitShip.value < |reg.game.ships|
  {
    match reg.hitShip
    case None => Miss
    case Some(i) =>
      if Games.IsOver(reg.game) then EndGame
      else if Ships.IsSunk(reg.game.ships[i]) then Sunk
      else Hit
  }

  /** Input errors are decided before the repository is consulted: a blank
      payload fails as missing, any other unparseable payload as invalid,
      whatever game is stored, and nothing is saved. */
  lemma InputCheckedFirst(a: Option<Games.Game>, b: Option<Games.Game>, request: string)
    ensures var payload := Payload(request);
      !TryParse(Some(payload)).success ==>
        && PostShot(a, request) == PostShot(b, request)
        && PostShot(a, request).saved.None?
        && PostShot(a, request).result ==
             Failure(if IsNullOrWhiteSpace(Some(payload)) then CoordinateRequired else InvalidCoordinate)
  {
  }

  /** Every cell a ship occupies, over the whole fleet, has been shot or is
      `c`. */
  ghost predicate FleetDoneWith(g: Games.Game, c: Coordinate) {
    forall i, p :: 0 <= i < |g.ships| && p in g.ships[i].positions ==> p in g.shots || p == c
  }

  /** The expected outcome of a fresh shot at `c`, read off the game before
      the shot: no ship there is a miss; a shot that leaves no occupied cell
      unshot ends the game; one that leaves none of its ship's cells unshot
      sinks it; anything else is a hit. */
  ghost function Expected(g: Games.Game, c: Coordinate): ShotResult {
    if forall i :: 0 <= i < |g.ships| ==> c !in g.ships[i].positions then Miss
    else if FleetDoneWith(g, c) then EndGame
    else if exists i :: 0 <= i < |g.ships| && c in g.ships[i].positions &&
              forall p :: p in g.ships[i].positions ==> p in g.shots || p == c
    then Sunk
    else Hit
  }

  /** On a valid game in play, a fresh shot gets the outcome read off the
      game before the shot, and the saved game is still valid. */
  lemma ClassifyMatchesExpected(g: Games.Game, c: Coordinate)
    requires Games.Valid(g) && !Games.IsOver(g) && c !in g.shots
    ensures Classify(Games.TryRegisterShot(g, c)) == Expected(g, c)
    ensures Games.Valid(Games.TryRegisterShot(g, c).game)
  {
    var reg := Games.TryRegisterShot(g, c);
    var h := reg.game;
    Games.RegisterShotKeepsValid(g, c);
    Games.OverIffFleetShot(h);
    if reg.hitShip.Some? {
      var i := reg.hitShip.value;
      assert Games.IsOver(h) <==> FleetDoneWith(g, c) by {
        assert h.shots == g.shots + {c};
        forall j | 0 <= j < |g.ships| ensures h.ships[j].positions == g.ships[j].positions {
        }
      }
      var sunkHere := forall p :: p in g.ships[i].positions ==> p in g.shots || p == c;
      assert Ships.IsSunk(h.ships[i]) <==> sunkHere;
      if !Games.IsOver(h) && !sunkHere {
        forall j | 0 <= j < |g.ships| && c in g.ships[j].positions
          ensures !(forall p :: p in g.ships[j].positions ==> p in g.shots || p == c)
        {
        }
      }
    }
  }

  /** A payload with neither white space nor quotes is passed on as typed. */
  lemma PayloadOfBare(s: string)
    requires forall i :: 0 <= i < |s| ==> !IsWhiteSpace(s[i]) && s[i] != '"'
    ensures Payload(s) == s
  {
    assert forall i :: 0 <= i < |s| ==> !InClass(WhiteSpace, s[i]);
    assert Trim(s, WhiteSpace) == s;
    assert forall i :: 0 <= i < |s| ==> !InClass(Exactly('"'), s[i]);
  }

  /** Surrounding quotes, as a JSON client may leave on the value, are
      dropped. */
  lemma PayloadUnquotes(s: string)
    requires |s| > 0
    requires forall i :: 0 <= i < |s| ==> !IsWhiteSpace(s[i]) && s[i] != '"'
    ensures Payload(['"'] + s + ['"']) == s
  {
    var q := ['"'] + s + ['"'];
    assert forall i :: 0 <= i < |q| ==> !InClass(WhiteSpace, q[i]) by {
      forall i | 0 <= i < |q| ensures !InClass(WhiteSpace, q[i]) {
        if 0 < i < |q| - 1 {
          assert q[i] == s[i - 1];
        }
      }
    }
    assert Trim(q, WhiteSpace) == q;
    TrimDropsWrapper(s, '"');
  }

  /** The cell text of a coordinate has neither white space nor quotes. */
  lemma FormatIsBare(c: Coordinate)
    requires OnBoard(c)
    ensures forall i :: 0 <= i < |Format(c)| ==> !IsWhiteSpace(Format(c)[i]) && Format(c)[i] != '"'
  {
    var f := Format(c);
    forall i | 0 <= i < |f| ensures !IsWhiteSpace(f[i]) && f[i] != '"' {
      if i > 0 {
        assert f[i] == DecimalString(c.row)[i - 1];
      }
    }
  }

  /** A fresh shot at a well-formed cell of a valid game in play gets the
      outcome read off the game before the shot, and the game saved is the
      one with the shot registered, still valid. */
  lemma PostShotMatchesExpected(g: Games.Game, c: Coordinate)
    requires Games.Valid(g) && !Games.IsOver(g) && OnBoard(c) && c !in g.shots
    ensures var r := PostShot(Some(g), Format(c));
      r.result == Success(Expected(g, c))
      && r.saved == Some(Games.TryRegisterShot(g, c).game)
      && Games.Valid(r.saved.value)
  {
    FormatIsBare(c);
    PayloadOfBare(Format(c));
    ParseFormat(c);
    ClassifyMatchesExpected(g, c);
  }

  /** A quoted request is the same shot as the bare one. */
  lemma QuotedRequestSameShot(stored: Option<Games.Game>, c: Coordinate)
    requires OnBoard(c)
    ensures PostShot(stored, ['"'] + Format(c) + ['"']) == PostShot(stored, Format(c))
  {
    FormatIsBare(c);
    PayloadOfBare(Format(c));
    PayloadUnquotes(Format(c));
  }

  /** Once the payload names a cell and the game exists, the request is
      decided by the game and the cell alone. */
  lemma PostShotOfCell(g: Games.Game, request: string, c: Coordinate)
    ensures TryParse(Some(Payload(request))) == Parsed(true, c) ==> PostShot(Some(g), request) == Shoot(g, c)
  {
    if TryParse(Some(Payload(request))) == Parsed(true, c) {
      assert !IsNullOrWhiteSpace(Some(Payload(request)));
    }
  }

  /** The cell text of a coordinate reaches the game as that coordinate. */
  lemma FormatShot(g: Games.Game, c: Coordinate)
    requires OnBoard(c)
    ensures PostShot(Some(g), Format(c)) == Shoot(g, c)
  {
    FormatIsBare(c);
    PayloadOfBare(Format(c));
    ParseFormat(c);
    PostShotOfCell(g, Format(c), c);
  }

  /** The lower-case cell text has neither white space nor quotes either. */
  lemma LowerFormatIsBare(c: Coordinate)
    requires OnBoard(c)
    ensures forall i :: 0 <= i < |LowerFormat(c)| ==>
      !IsWhiteSpace(LowerFormat(c)[i]) && LowerFormat(c)[i] != '"'
  {
    var l := LowerFormat(c);
    forall i | 0 <= i < |l| ensures !IsWhiteSpace(l[i]) && l[i] != '"' {
      if i > 0 {
        assert l[i] == DecimalString(c.row)[i - 1];
      }
    }
  }

  /** So does its lower-case spelling. */
  lemma LowerFormatShot(g: Games.Game, c: Coordinate)
    requires OnBoard(c)
    ensures PostShot(Some(g), LowerFormat(c)) == Shoot(g, c)
  {
    var l := LowerFormat(c);
    LowerFormatIsBare(c);
    PayloadOfBare(l);
    assert Payload(l) == l;
    ParseLowerCase(c);
    assert TryParse(Some(l)) == Parsed(true, c);
    PostShotOfCell(g, l, c);
  }

  /** Shooting a cell again in the other case is refused and saves nothing,
      as long as the game is still in play: `"A1"` then `"a1"`. */
  lemma LowerCaseRepeatRefused(g: Games.Game, c: Coordinate)
    requires OnBoard(c) && !Games.IsOver(g) && c !in g.shots
    ensures var r := PostShot(Some(g), Format(c));
      r.saved.Some? &&
      (!Games.IsOver(r.saved.value) ==>
        PostShot(r.saved, LowerFormat(c)) == ShotOutcome(Failure(AlreadyShot), None))
  {
    FormatShot(g, c);
    var h := Shoot(g, c).saved.value;
    LowerFormatShot(h, c);
  }
}
