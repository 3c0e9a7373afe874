/** `CoordinateComparer`: the null-safe equality on `Coordinate?` used for
    collision detection and for the reveal policy of the state read model. */
module CoordinateComparer {
  import opened Wrappers
  import opened DotNet
  import opened Coordinates

  predicate BothNull(x: Option<Coordinate>, y: Option<Coordinate>) {
    x.None? && y.None?
  }

  predicate BothNonNullAndEqual(x: Option<Coordinate>, y: Option<Coordinate>) {
    && x.Some? && y.Some?
    && x.value.column == y.value.column
    && x.value.row == y.value.row
  }

  /** `Equals(x, y)`: two nulls are equal, a null never equals a coordinate,
      and two coordinates are equal when column and row agree. This is
      exactly the record's own value equality lifted to nullable values. */
  function Equals(x: Option<Coordinate>, y: Option<Coordinate>): (r: bool)
    ensures r <==> x == y
    ensures x.Some? && y.Some? ==> (r <==> x.value.column == y.value.column && x.value.row == y.value.row)
  {
    BothNull(x, y) || BothNonNullAndEqual(x, y)
  }

  /** `GetHashCode(obj)`: 0 for null, otherwise `HashCode.Combine(column, row)`.
      The combiner is seeded per process in .NET, so it is a parameter. */
  function GetHashCode(combine: (char, Int32) -> Int32, x: Option<Coordinate>): Int32 {
    match x
    case None => 0
    case Some(c) => combine(c.column, c.row)
  }

  /** The comparer is an equivalence relation. */
  lemma EqualsIsEquivalence(x: Option<Coordinate>, y: Option<Coordinate>, z: Option<Coordinate>)
    ensures Equals(x, x)
    ensures Equals(x, y) <==> Equals(y, x)
    ensures Equals(x, y) && Equals(y, z) ==> Equals(x, z)
  {
  }

  /** Null handling: null equals only null. */
  lemma EqualsOnNull(x: Option<Coordinate>)
    ensures Equals(None, None)
    ensures x.Some? ==> !Equals(None, x) && !Equals(x, None)
  {
  }

  /** Hashing respects the comparer, whatever the combiner: equal coordinates
      hash equal, null hashes to 0, and a coordinate's hash depends only on
      its column and row. */
  lemma HashRespectsEquals(combine: (char, Int32) -> Int32, x: Option<Coordinate>, y: Option<Coordinate>)
    ensures Equals(x, y) ==> GetHashCode(combine, x) == GetHashCode(combine, y)
    ensures GetHashCode(combine, None) == 0
    ensures x.Some? ==> GetHashCode(combine, x) == combine(x.value.column, x.value.row)
  {
  }
}
