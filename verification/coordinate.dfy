/** A cell of the 10x10 board: a column letter and a row number. The record
    performs no range validation; `OnBoard` says which values are cells. */
module Coordinates {
  import opened DotNet

  const FirstColumn: char := 'A'
  const LastColumn: char := 'J'
  const FirstRow: int := 1
  const LastRow: int := 10

  /** A record with value equality: two coordinates are equal exactly when
      their columns and rows are. */
  datatype Coordinate = Coordinate(column: char, row: Int32)

  /** Whether a coordinate names a cell of the board, `A..J` x `1..10`. */
  predicate OnBoard(c: Coordinate) {
    FirstColumn <= c.column <= LastColumn && FirstRow <= c.row <= LastRow
  }

  /** `Coordinate.Empty()`: the record with its default field values. */
  function Empty(): (c: Coordinate)
    ensures !OnBoard(c)
  {
    Coordinate('\0', 0)
  }

  /** `Coordinate.Create(column, row)`: any column and any row, unchecked. */
  function Create(column: char, row: Int32): Coordinate {
    Coordinate(column, row)
  }

  /** `Create` stores its arguments verbatim: it is injective, and two
      coordinates built from the same column and row are equal. */
  lemma CreateStoresFields(column1: char, row1: Int32, column2: char, row2: Int32)
    ensures Create(column1, row1).column == column1 && Create(column1, row1).row == row1
    ensures Create(column1, row1) == Create(column2, row2) <==> column1 == column2 && row1 == row2
  {
  }
}
