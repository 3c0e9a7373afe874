# Battleship rules engine in Dafny

A model of the rules core of a single-player Battleship web service. The
computer hides a fleet of one battleship (5 cells) and two destroyers (4
cells each) on a 10 × 10 board, with columns `A`–`J` and rows `1`–`10`. The
player fires at cells named like `"B7"`, and every shot is answered with
hit, sunk or victory flags. The state view reveals only the cells that have
been shot.

The model covers four layers:

- **Coordinates** (`coordinate.dfy`, `comparer.dfy`, `parser.dfy`, with the
  .NET primitives they use in `dotnet.dfy`). A coordinate is a column and a
  row. Value equality with null handling and a hash that respects it.
  `CoordinateParser.TryParse`, which checks the length, upper-cases, trims,
  checks the column letter, reads the row with `int.TryParse` and
  range-checks it.
- **Domain** (`ships.dfy`, `games.dfy`). Ship types whose enum values are
  the ship lengths. Ships that record hits and sink when every cell is hit.
  Games that register each shot once, credit it to the first ship occupying
  the cell, and are over when every ship is sunk.
- **Placement** (`placement.dfy`, `fleet.dfy`). One random placement
  attempt: orientation, start column, start row, a straight run of cells,
  and rejection on overlap. The fleet composition, and the create loop that
  retries each ship until it fits.
- **Service and responses** (`shots.dfy`, `responses.dfy`). The shot
  endpoint's decision ladder and the state endpoint's lookup. The mapping
  from a shot result to its three response flags. The state projection,
  which lists every shot and, per ship, only the cells already shot.

Everything is pure. A game is an immutable value, and each operation
returns the new game next to its answer. The repository becomes a parameter
(`stored: Option<Game>`) for the stored game, and a result field (`saved`)
for the game that would be written back. `null` becomes `Option`. The
cryptographic random generator becomes either explicit draws (`Placement.Draw`)
or an oracle function (`Fleet.Rng`). A hash set's enumeration order becomes
an explicit list (`shotOrder`). `Games.Valid` is the invariant that ties the
layers together:

- ships are pairwise disjoint;
- each ship's hits are exactly its cells that are in the game's shot set.

Registering a shot, placing a ship on an unshot game and creating a game all preserve it.

Placement behaves as written in the source. The start row is drawn from
`[1, maxRowIndex]`, and `maxRowIndex` is computed as a 0-based index (9, or
`10 - length`). So no ship ever occupies row 10, although row 10 can be shot
and parsed. `Placement.Run` states this bound (`row < LastRow`).

## Model

| member | source | states |
|---|---|---|
| `Coordinates.Empty` | API/Battleship.Domain/Models/Coordinate.cs:24 | the default coordinate (`'\0'`, 0) lies off the board, so a failed parse never names a playable cell |
| `Coordinates.CreateStoresFields` | API/Battleship.Domain/Models/Coordinate.cs:32-36 | `Create` stores column and row verbatim; two created coordinates are equal exactly when both fields agree (record value equality) |
| `CoordinateComparer.Equals` | API/Battleship.Application/Helpers/CoordinateComparer.cs:19-41 | the comparer is true exactly when both are null or both are non-null with equal column and row, i.e. it coincides with equality of optional coordinates |
| `CoordinateComparer.EqualsIsEquivalence` | API/Battleship.Application/Helpers/CoordinateComparer.cs:19-20 | the comparer is reflexive, symmetric and transitive |
| `CoordinateComparer.EqualsOnNull` | API/Battleship.Application/Helpers/CoordinateComparer.cs:34-35 | null equals only null |
| `CoordinateComparer.HashRespectsEquals` | API/Battleship.Application/Helpers/CoordinateComparer.cs:29-32 | equal coordinates hash alike; null hashes to 0; a coordinate hashes to the combination of its column and row |
| `DotNet.Trim` | API/Battleship.Application/Helpers/CoordinateParser.cs:26 | `Trim` returns the slice of the input that starts right after its longest prefix of trimmed characters and is followed only by trimmed characters; neither end of the result is a trimmed character, the result is non-empty when some character survives, and an input with no trimmed character comes back unchanged |
| `DotNet.TryParseInt32` | API/Battleship.Application/Helpers/CoordinateParser.cs:31 | `int.TryParse` fails on an input of number white space only; `DotNet.TryParseDecimal` and `DotNet.TryParseDecorated` state what it reads |
| `DotNet.TrimDropsWrapper` | API/Battleship.Application/Services/GameService.cs:78 | `Trim(c)` on a non-empty string wrapped in `c` and not otherwise containing `c` gives back exactly the inner string |
| `DotNet.TryParseRejectsStart` | API/Battleship.Application/Helpers/CoordinateParser.cs:31 | `int.TryParse` fails on text starting with anything but number white space, a sign or a digit |
| `DotNet.TryParseRejectsJunk` | API/Battleship.Application/Helpers/CoordinateParser.cs:31 | `int.TryParse` fails on a digit followed by a character that is neither a digit, number white space nor `'\0'` |
| `DotNet.TryParseNegative` | API/Battleship.Application/Helpers/CoordinateParser.cs:31 | `int.TryParse` reads `-n` as the negative number |
| `DotNet.TryParseSkipsSpace` | API/Battleship.Application/Helpers/CoordinateParser.cs:31 | `int.TryParse` skips a leading blank before the digits |
| `DotNet.ToUpperInvariant` | API/Battleship.Application/Helpers/CoordinateParser.cs:26 | upper-casing keeps the length and maps each character independently |
| `DotNet.UpperIdempotent` | API/Battleship.Application/Helpers/CoordinateParser.cs:26 | upper-casing twice is upper-casing once |
| `DotNet.TryParseDecimal` | API/Battleship.Application/Helpers/CoordinateParser.cs:31 | `int.TryParse` reads back the decimal rendering of every non-negative `Int32` |
| `DotNet.TryParseDecorated` | API/Battleship.Application/Helpers/CoordinateParser.cs:31 | `int.TryParse` also accepts a leading `+` or a leading `0` in front of the digits |
| `CoordinateParser.TryParse` | API/Battleship.Application/Helpers/CoordinateParser.cs:20-39 | a success comes from a non-null input of length 2–3 and yields an on-board coordinate; a failure yields the empty coordinate; a null, empty or all-white-space input and a bad length always fail |
| `CoordinateParser.ParseCell` | API/Battleship.Application/Helpers/CoordinateParser.cs:27-38 | after canonicalisation, acceptance yields a column in A–J and a row in 1–10, and rejection leaves the empty coordinate |
| `CoordinateParser.ParseFormat` | API/Battleship.Application/Helpers/CoordinateParser.cs:20-39 | parsing the text of any on-board coordinate (column letter then decimal row) gives that coordinate back |
| `CoordinateParser.ParseIgnoresCase` | API/Battleship.Application/Helpers/CoordinateParser.cs:26 | parsing an input and parsing its upper-cased form give the same answer |
| `CoordinateParser.ParseLowerCase` | API/Battleship.Application/Helpers/CoordinateParser.cs:26-28 | a lower-case column letter is accepted as its upper-case letter |
| `CoordinateParser.ParseRejectsColumn` | API/Battleship.Application/Helpers/CoordinateParser.cs:28-29 | a first character that is not A–J in either case is rejected, whatever row follows |
| `CoordinateParser.ParseRejectsRow` | API/Battleship.Application/Helpers/CoordinateParser.cs:34-35 | a row outside 1–10 (such as 0 or 11) is rejected |
| `CoordinateParser.ParseRejectsTail` | API/Battleship.Application/Helpers/CoordinateParser.cs:31-32 | a row that is not an integer is rejected: a tail starting with neither sign nor digit (`"AB"`), or a digit followed by junk (`"A1X"`) |
| `CoordinateParser.ParseRejectsNegative` | API/Battleship.Application/Helpers/CoordinateParser.cs:31-35 | a signed negative row such as `"A-1"` is read by `int.TryParse` but rejected by the range check |
| `CoordinateParser.ParseAcceptsInnerSpace` | API/Battleship.Application/Helpers/CoordinateParser.cs:31 | a blank between column and row (`"A 1"`) is accepted, because `int.TryParse` skips leading white space |
| `CoordinateParser.ParseRejectsShape` | API/Battleship.Application/Helpers/CoordinateParser.cs:23-24 | every null, all-white-space, too short or too long input is rejected with the empty coordinate |
| `CoordinateParser.ParseTrimsLeadingSpace` | API/Battleship.Application/Helpers/CoordinateParser.cs:23-26 | a leading blank is trimmed away inside the length-3 budget |
| `CoordinateParser.ParseTrimsTrailingSpace` | API/Battleship.Application/Helpers/CoordinateParser.cs:23-26 | a trailing blank is trimmed away inside the length-3 budget |
| `CoordinateParser.ParseAcceptsSign` | API/Battleship.Application/Helpers/CoordinateParser.cs:31 | a row written with a `+` sign (`"A+1"`) is accepted, because the row goes through `int.TryParse` |
| `CoordinateParser.ParseAcceptsLeadingZero` | API/Battleship.Application/Helpers/CoordinateParser.cs:31 | a row written with a leading zero (`"A01"`) is accepted |
| `Ships.ShipTypeValues` | API/Battleship.Domain/Enums/ShipType.cs:6-22 | the enum values are 0, 5 and 4 |
| `Ships.LengthIdentifiesType` | API/Battleship.Domain/Enums/ShipType.cs:11-21 | the integer value identifies the type: casting back recovers it |
| `Ships.CreateIsFresh` | API/Battleship.Domain/Models/Ship.cs:43-47 | a new ship keeps its type and cells, has no hits, and is sunk only if it has no cells |
| `Ships.TryHit` | API/Battleship.Domain/Models/Ship.cs:54-55 | a hit is reported exactly for an occupied cell not hit before; the cell joins the hits, nothing else changes, a cell the ship does not occupy leaves it untouched, and hits stay inside the cells |
| `Ships.IsSunk` | API/Battleship.Domain/Models/Ship.cs:28 | a ship is sunk when every cell it occupies is hit; `Ships.CreateIsFresh` and `Ships.SinkingHit` state how this changes, and `Games.OverIffFleetShot` relates it to the game's shots |
| `Ships.SinkingHit` | API/Battleship.Domain/Models/Ship.cs:28 | a hit sinks the ship exactly when the struck cell was its last unhit cell |
| `Games.IsOver` | API/Battleship.Domain/Models/Game.cs:34 | a game is over when every ship is sunk; `Games.OverIffFleetShot` states that on a valid game this means every occupied cell is shot |
| `Games.Create` | API/Battleship.Domain/Models/Game.cs:29-34 | a new game has its id, no ships and no shots; with no ships it is already over (vacuously), and it satisfies the game invariant |
| `Games.AddShip` | API/Battleship.Domain/Models/Game.cs:40 | the ship is appended; id, shots and earlier ships are unchanged |
| `Games.FirstShipAt` | API/Battleship.Domain/Models/Game.cs:58 | `FirstOrDefault`: the index of the first ship occupying the cell, or none exactly when no ship occupies it |
| `Games.TryRegisterShot` | API/Battleship.Domain/Models/Game.cs:52-62 | a repeated cell is refused with the game unchanged; a new cell is added to the shots, credited to the first ship occupying it (which records the hit), and every other ship is unchanged |
| `Games.RegisterShotMonotone` | API/Battleship.Domain/Models/Game.cs:52-62 | shots and each ship's hits only grow, types and cells are kept, a sunk ship stays sunk, and a game over stays over |
| `Games.RepeatShotRefused` | API/Battleship.Domain/Models/Game.cs:55-56 | shooting the same cell twice in a row: the second is refused and changes nothing |
| `Games.RegisterShotKeepsValid` | API/Battleship.Domain/Models/Game.cs:52-62 | registering a shot preserves the invariant: disjoint ships, and hits exactly the occupied shot cells |
| `Games.OverIffFleetShot` | API/Battleship.Domain/Models/Game.cs:34 | on a valid game, a ship is sunk iff all its cells are shot, and the game is over iff every occupied cell is shot |
| `Games.ShootAllMonotone` | API/Battleship.Domain/Models/Game.cs:52-62 | after any sequence of shots the game is still valid, keeps its id and ship count, has every earlier and every new shot recorded, and stays over once over |
| `Placement.ColumnAt` | API/Battleship.Application/Services/GameService.cs:173 | `(char)('A' + index)` lands in A–J for an index in 0–9 |
| `Placement.CellAt` | API/Battleship.Application/Services/GameService.cs:171-175 | every cell of an in-range draw is on the board, and above row 10 |
| `Placement.Run` | API/Battleship.Application/Services/GameService.cs:156-176 | the run has the type's length, starts at the drawn cell, is a straight line of consecutive cells in the drawn orientation, and stays on the board above row 10 |
| `Placement.StraightDistinct` | API/Battleship.Application/Services/GameService.cs:171-176 | the cells of a run are pairwise distinct |
| `Placement.StraightGrows` | API/Battleship.Application/Services/GameService.cs:171-176 | along a run the column (horizontal) or the row (vertical) strictly increases |
| `Placement.Occupied` | API/Battleship.Application/Services/GameService.cs:178-179 | `SelectMany` over the fleet lists exactly the cells some ship occupies |
| `Placement.TryPlaceShip` | API/Battleship.Application/Services/GameService.cs:154-188 | the ship is placed exactly when its run overlaps no existing ship; a refused attempt leaves the game unchanged; a placed one appends the new ship with that run |
| `Placement.PlacementKeepsValid` | API/Battleship.Application/Services/GameService.cs:178-187 | an attempt on a valid unshot game leaves it valid and unshot |
| `Fleet.Repeat` | API/Battleship.Application/Services/GameService.cs:35-36 | `Enumerable.Repeat` gives n copies of the value |
| `Fleet.FleetComposition` | API/Battleship.Application/Services/GameService.cs:25-37 | the fleet is battleship, destroyer, destroyer in that order, 13 cells in all |
| `Fleet.DrawFor` | API/Battleship.Application/Services/GameService.cs:157-169 | the random draws, taken in the source's order and ranges, always form an in-range draw |
| `Fleet.CreateGame` | API/Battleship.Application/Services/GameService.cs:29-57 | a created game has the requested id, the fleet types in order with their lengths, no hits and no shots, disjoint on-board ships each equal to the run of some in-range draw, and is not over |
| `Fleet.PlacementExtends` | API/Battleship.Application/Services/GameService.cs:39-49 | an attempt for the next fleet type leaves the game unchanged when refused and extends the well-placed prefix by one ship when it succeeds |
| `Fleet.CreatedShipsStraight` | API/Battleship.Application/Services/GameService.cs:29-57 | every ship of a created game is a horizontal or vertical line of distinct cells, the fleet covers 13 cells, and no two ships share a cell |
| `ShotService.Payload` | API/Battleship.Application/Services/GameService.cs:78 | the payload is the request with white space and then double quotes trimmed; `ShotService.PayloadOfBare` and `ShotService.PayloadUnquotes` state that bare text passes unchanged and surrounding quotes are dropped |
| `ShotService.PostShot` | API/Battleship.Application/Services/GameService.cs:75-131 | `PostShotAsync` on the trimmed payload; `ShotService.InputCheckedFirst` states its input errors, `ShotService.PostShotOfCell` that a parsed cell is `Shoot` at that cell, and `ShotService.PostShotMatchesExpected` its end-to-end result |
| `ShotService.PostShotOfCell` | API/Battleship.Application/Services/GameService.cs:85-131 | whenever the payload parses to a cell, posting the request to a stored game is the same as shooting that cell |
| `ShotService.Classify` | API/Battleship.Application/Services/GameService.cs:112-131 | the ladder after a registered shot; `ShotService.ClassifyMatchesExpected` states that it gives miss, end of game, sunk or hit exactly as read off the game before the shot |
| `ShotService.Respond` | API/Battleship.Application/Services/GameService.cs:78-96 | a blank payload fails as missing whatever else holds; an unparsed payload fails and saves nothing; a parsed payload fails as "not found" exactly when no game is stored; only a parsed, non-blank payload for a stored game can succeed or save, and then it is `Shoot` at the parsed cell |
| `ShotService.Shoot` | API/Battleship.Application/Services/GameService.cs:98-131 | a finished game answers end-of-game and saves nothing; a repeated cell fails and saves nothing; otherwise the game is saved with the shot added; a miss means no ship occupies the cell, any other result means one does |
| `ShotService.InputCheckedFirst` | API/Battleship.Application/Services/GameService.cs:78-91 | an unparseable payload fails, as missing when blank and as invalid otherwise, the same way whatever game the repository holds, and nothing is saved |
| `ShotService.ClassifyMatchesExpected` | API/Battleship.Application/Services/GameService.cs:112-131 | on a valid game in play, a fresh shot is a miss, end of game, sunk or hit exactly as read off the pre-shot game: no ship there, no occupied cell left unshot, no cell of the struck ship left unshot, or otherwise |
| `ShotService.PostShotMatchesExpected` | API/Battleship.Application/Services/GameService.cs:75-131 | end to end: the cell text of a fresh cell on a valid game in play gets that expected result, and the saved game is the registered one and still valid |
| `ShotService.PayloadUnquotes` | API/Battleship.Application/Services/GameService.cs:78 | surrounding double quotes are stripped from the payload |
| `ShotService.QuotedRequestSameShot` | API/Battleship.Application/Services/GameService.cs:78-85 | a quoted request is the same shot as the bare one, whatever the repository holds |
| `ShotService.LowerCaseRepeatRefused` | API/Battleship.Application/Services/GameService.cs:104-108 | `"A1"` then `"a1"` on a game still in play: the first is saved, the second is refused as already shot and saves nothing |
| `Responses.MapShot` | API/Battleship.Application/Responses/GameShotPostResponse.cs:27-34 | hit is set for every result but a miss, sunk for sunk and end of game, victory only for end of game; so victory implies sunk implies hit |
| `Responses.MapShotRoundTrip` | API/Battleship.Application/Responses/GameShotPostResponse.cs:27-34 | the result can be read back from its response, and exactly the responses with nested flags come from a result |
| `Responses.MapShotInjective` | API/Battleship.Application/Responses/GameShotPostResponse.cs:27-34 | distinct results give distinct responses |
| `Responses.Reveal` | API/Battleship.Application/Responses/GameStateGetResponse.cs:28-29 | a ship's listed cells are exactly its cells that have been shot |
| `Responses.RevealAppend` | API/Battleship.Application/Responses/GameStateGetResponse.cs:28-29 | the filter keeps placement order: filtering two runs and concatenating equals filtering the concatenation |
| `Responses.MapShip` | API/Battleship.Application/Responses/GameStateGetResponse.cs:25-33 | a ship response keeps the type and sunk flag and lists exactly the ship's shot cells, position by position in the ship's placement order, each once per occurrence in the ship |
| `Responses.RevealAll` | API/Battleship.Application/Responses/GameStateGetResponse.cs:28-29 | a ship whose every cell is shot reveals all its cells, in placement order |
| `Responses.MapState` | API/Battleship.Application/Responses/GameStateGetResponse.cs:22-36 | the state keeps the id, lists every shot exactly once, has one entry per ship in fleet order, each being that ship's response (so its shot cells in placement order), and reports the game over exactly when every listed ship is sunk |
| `Responses.GetState` | API/Battleship.Application/Services/GameService.cs:60-72 | a missing game fails with "not found" and only then; a stored game succeeds with its state projection, so `Responses.MapState`'s guarantees (every shot once, only shot cells revealed, the over flag) reach the caller |
| `Responses.ShotAppearsInState` | API/Battleship.Application/Services/GameService.cs:60-110 | after a fresh shot is saved, the state of the saved game lists that shot and exactly one shot more than before |
| `Responses.StateRevealsHits` | API/Battleship.Application/Responses/GameStateGetResponse.cs:25-33 | on a valid game each ship reveals exactly its hit cells, and shows as sunk exactly when all its cells are revealed |
| `Responses.VictoryMatchesState` | API/Battleship.Application/Services/GameService.cs:98-122 | a shot answered with victory leaves a saved game whose state reports it over; a shot at a finished game answers end of game and saves nothing |

## Left out

- Persistence, HTTP endpoints, JSON envelopes, dependency injection and logging are left out. The repository is modelled by its lookup result and the game it would save. Log messages have no effect on the rules.
- Game and ship `Guid`s are left out. A game id is a natural number, and ship ids are never read by the rules.
- Error message texts are left out. Each failure is a constructor (`ShotError`, `StateError`) that stands for one message.
- The `ShotResult` enum is taken from its uses. Its source file is not part of this model.
- A null `request.Coordinate` throws in the source before any check. The model takes a string.
- `HashCode.Combine` is seeded per process. `CoordinateComparer.GetHashCode` takes the combining function as a parameter.
- The enumeration order of the game's shot set is a hash-set detail. `Responses.MapState` takes it as a list, and the list must hold each shot once.
- `CoordinateParser.TryParse`: upper-casing is modelled for ASCII letters only. The only non-ASCII case mapping that could turn a 2–3 character input into an accepted cell is the dotless `ı`, and it is not modelled.
- Culture-specific signs and digits are left out. `int.TryParse` is modelled under the invariant culture, with ASCII digits and the `+`/`-` signs only.
- Strings are sequences of Unicode scalar values (Dafny's `char`), whereas a .NET string is a sequence of UTF-16 code units. The lengths differ for a character outside the Basic Multilingual Plane: `"A"` followed by U+1F600 has length 3 in .NET and 2 here. Acceptance is unaffected. Such a character is neither a digit, a sign, white space nor a column letter, so an input containing it is rejected on both sides.
- `Fleet.CreateGame`: the source retries each placement without bound. The model caps the total number of attempts with `fuel` and returns `None` when it runs out. So it states what a created game looks like, not that creation terminates.
- Randomness is left out. `RandomNumberGenerator` becomes an oracle that is only assumed to answer within the requested range, so fairness of the draws is not modelled.
- The JSON serialisation of the responses is left out. The responses are datatypes with the same fields.
