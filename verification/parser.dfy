/** `CoordinateParser.TryParse`: the text boundary that turns strings such as
    `"a1"` or `"J10"` into a board cell. */
module CoordinateParser {
  import opened Wrappers
  import opened DotNet
  import opened Coordinates

  /** The boolean result of `TryParse` together with its `out` coordinate. */
  datatype Parsed = Parsed(success: bool, coordinate: Coordinate)

  const Rejected: Parsed := Parsed(false, Empty())

  /** The column-and-row reading of an already upper-cased, trimmed string. */
  function ParseCell(s: string): (r: Parsed)
    requires |s| > 0
    ensures r.success ==> OnBoard(r.coordinate)
    ensures !r.success ==> r == Rejected
  {
    var column := s[0];
    if column < FirstColumn || column > LastColumn then Rejected
    else
      match TryParseInt32(s[1..])
      case None => Rejected
      case Some(row) =>
        if row < FirstRow || row > LastRow then Rejected
        else Parsed(true, Create(column, row))
  }

  /** The string `TryParse` reads after its length check: upper-cased, then
      trimmed of white space. */
  function Canonical(input: string): string {
    Trim(ToUpperInvariant(input), WhiteSpace)
  }

  /** `TryParse(input, out coordinate)`. The raw length (2 or 3) is checked
      before upper-casing and trimming; the first remaining character must be
      a column `A..J` and the rest must read, by `int.TryParse`, as a row
      `1..10`. A null string is `None`. */
  function TryParse(input: Option<string>): (r: Parsed)
    ensures r.success ==> input.Some? && 2 <= |input.value| <= 3 && OnBoard(r.coordinate)
    ensures !r.success ==> r.coordinate == Empty()
    ensures input.Some? && (|input.value| < 2 || |input.value| > 3) ==> !r.success
    ensures IsNullOrWhiteSpace(input) ==> !r.success
  {
    if IsNullOrWhiteSpace(input) || |input.value| < 2 || |input.value| > 3 then Rejected
    else
      CanonicalNonEmpty(input.value);
      ParseCell(Canonical(input.value))
  }

  /** The text of a cell as a player types it: the column letter followed by
      the decimal row. */
  function Format(c: Coordinate): string
    requires OnBoard(c)
  {
    [c.column] + DecimalString(c.row)
  }

  /** The same cell text with the column letter in lower case. */
  function LowerFormat(c: Coordinate): string
    requires OnBoard(c)
  {
    [(c.column as int + 32) as char] + DecimalString(c.row)
  }

  /** A string with no white space and no lower-case letter: the shape checks
      and the canonical form leave it alone. */
  predicate Plain(s: string) {
    forall i :: 0 <= i < |s| ==> !IsWhiteSpace(s[i]) && UpperChar(s[i]) == s[i]
  }

  lemma PlainConcat(a: string, b: string)
    requires Plain(a) && Plain(b)
    ensures Plain(a + b)
  {
    forall i | 0 <= i < |a + b|
      ensures !IsWhiteSpace((a + b)[i]) && UpperChar((a + b)[i]) == (a + b)[i]
    {
      if i < |a| { assert (a + b)[i] == a[i]; } else { assert (a + b)[i] == b[i - |a|]; }
    }
  }

  lemma PlainDigits(d: string)
    requires AllDigits(d)
    ensures Plain(d)
  {
  }

  /** Upper-casing keeps white space, so a string that is not blank keeps a
      character through trimming. */
  lemma CanonicalNonEmpty(s: string)
    requires !IsNullOrWhiteSpace(Some(s))
    ensures |Canonical(s)| > 0
  {
    var i :| 0 <= i < |s| && !IsWhiteSpace(s[i]);
    UpperKeepsWhiteSpace(s[i]);
    assert !IsWhiteSpace(ToUpperInvariant(s)[i]);
  }

  /** A plain string is its own canonical form. */
  lemma CanonicalOfPlain(s: string)
    requires Plain(s)
    ensures Canonical(s) == s
  {
    assert ToUpperInvariant(s) == s;
  }

  /** A string that does not start with white space keeps its upper-cased
      first character in front. */
  lemma CanonicalHead(s: string)
    requires |s| > 0 && !IsWhiteSpace(s[0])
    ensures |Canonical(s)| > 0 && Canonical(s)[0] == UpperChar(s[0])
  {
    var u := ToUpperInvariant(s);
    UpperKeepsWhiteSpace(s[0]);
    assert TrimStart(u, WhiteSpace) == u;
    assert TrimEnd(u, WhiteSpace)[0] == u[0];
  }

  /** White space in front of a plain string is trimmed away. */
  lemma CanonicalLeadingSpace(f: string, space: char)
    requires |f| > 0 && Plain(f) && IsWhiteSpace(space)
    ensures Canonical([space] + f) == f
  {
    CanonicalOfPlain(f);
    UpperKeepsWhiteSpace(space);
    var u := [UpperChar(space)] + f;
    assert ToUpperInvariant([space] + f) == u;
    assert u[1..] == f;
    assert TrimStart(u, WhiteSpace) == TrimStart(f, WhiteSpace);
  }

  /** White space after a plain string is trimmed away. */
  lemma CanonicalTrailingSpace(f: string, space: char)
    requires |f| > 0 && Plain(f) && IsWhiteSpace(space)
    ensures Canonical(f + [space]) == f
  {
    CanonicalOfPlain(f);
    UpperKeepsWhiteSpace(space);
    var u := f + [UpperChar(space)];
    assert ToUpperInvariant(f + [space]) == u;
    assert u[..|f|] == f;
    assert TrimStart(u, WhiteSpace) == u;
    assert TrimEnd(u, WhiteSpace) == TrimEnd(f, WhiteSpace);
  }

  /** `TryParse` on an input that passes the shape checks is `ParseCell` of
      its canonical form. */
  lemma TryParseShaped(input: string, i: nat)
    requires 2 <= |input| <= 3
    requires i < |input| && !IsWhiteSpace(input[i])
    ensures |Canonical(input)| > 0
    ensures TryParse(Some(input)) == ParseCell(Canonical(input))
  {
    assert !IsNullOrWhiteSpace(Some(input));
    CanonicalNonEmpty(input);
  }

  /** Two well-shaped inputs with the same canonical form parse alike. */
  lemma SameCanonical(a: string, i: nat, b: string, j: nat)
    requires 2 <= |a| <= 3 && i < |a| && !IsWhiteSpace(a[i])
    requires 2 <= |b| <= 3 && j < |b| && !IsWhiteSpace(b[j])
    requires Canonical(a) == Canonical(b)
    ensures TryParse(Some(a)) == TryParse(Some(b))
  {
    TryParseShaped(a, i);
    TryParseShaped(b, j);
  }

  /** `ParseCell` reads the column from the first character and the row from
      the rest. */
  lemma ParseCellSplit(s: string)
    requires |s| > 0
    ensures !(FirstColumn <= s[0] <= LastColumn) ==> ParseCell(s) == Rejected
    ensures FirstColumn <= s[0] <= LastColumn && TryParseInt32(s[1..]).Some? ==>
      var row := TryParseInt32(s[1..]).value;
      ParseCell(s) == if FirstRow <= row <= LastRow then Parsed(true, Create(s[0], row)) else Rejected
  {
  }

  /** A plain input of the right length is read as column plus row. */
  lemma ParsePlain(s: string, row: Int32)
    requires 2 <= |s| <= 3 && Plain(s)
    requires FirstColumn <= s[0] <= LastColumn
    requires TryParseInt32(s[1..]) == Some(row)
    ensures TryParse(Some(s)) == if FirstRow <= row <= LastRow then Parsed(true, Create(s[0], row)) else Rejected
  {
    CanonicalOfPlain(s);
    TryParseShaped(s, 0);
    ParseCellSplit(s);
  }

  /** A plain input of the right length whose tail `int.TryParse` refuses is
      rejected. */
  lemma ParsePlainRefused(s: string)
    requires 2 <= |s| <= 3 && Plain(s)
    requires TryParseInt32(s[1..]) == None
    ensures TryParse(Some(s)) == Rejected
  {
    CanonicalOfPlain(s);
    TryParseShaped(s, 0);
  }

  /** A column letter followed by a decimal number below 100 is plain and of
      the right length. */
  lemma FormatShape(column: char, row: nat)
    requires FirstColumn <= column <= LastColumn && row < 100
    ensures var s := [column] + DecimalString(row);
      2 <= |s| <= 3 && Plain(s) && s[0] == column && s[1..] == DecimalString(row)
  {
    PlainDigits(DecimalString(row));
    PlainConcat([column], DecimalString(row));
  }

  /** Round trip: every board cell, written as column then decimal row,
      parses back to that cell. */
  lemma ParseFormat(c: Coordinate)
    requires OnBoard(c)
    ensures TryParse(Some(Format(c))) == Parsed(true, c)
  {
    FormatShape(c.column, c.row);
    TryParseDecimal(c.row);
    ParsePlain(Format(c), c.row);
  }

  /** Parsing ignores case: a string and its upper-cased form parse alike. */
  lemma ParseIgnoresCase(s: string)
    ensures TryParse(Some(ToUpperInvariant(s))) == TryParse(Some(s))
  {
    UpperIdempotent(s);
    var u := ToUpperInvariant(s);
    assert Canonical(u) == Canonical(s);
    forall i | 0 <= i < |s| ensures IsWhiteSpace(u[i]) <==> IsWhiteSpace(s[i]) {
      UpperKeepsWhiteSpace(s[i]);
    }
    if IsNullOrWhiteSpace(Some(s)) {
      assert IsNullOrWhiteSpace(Some(u));
    } else if 2 <= |s| <= 3 {
      var i :| 0 <= i < |s| && !IsWhiteSpace(s[i]);
      SameCanonical(u, i, s, i);
    }
  }

  /** Upper-casing the lower-case cell text gives the cell text. */
  lemma LowerFormatUpper(c: Coordinate)
    requires OnBoard(c)
    ensures ToUpperInvariant(LowerFormat(c)) == Format(c)
  {
    var lower := LowerFormat(c);
    var u := ToUpperInvariant(lower);
    assert u[0] == c.column;
    forall k | 1 <= k < |lower| ensures u[k] == Format(c)[k] {
      assert lower[k] == DecimalString(c.row)[k - 1] == Format(c)[k];
    }
  }

  /** Lower-case columns are accepted: `"a1"` names the same cell as `"A1"`. */
  lemma ParseLowerCase(c: Coordinate)
    requires OnBoard(c)
    ensures TryParse(Some(LowerFormat(c))) == Parsed(true, c)
  {
    var lower := LowerFormat(c);
    LowerFormatUpper(c);
    ParseIgnoresCase(lower);
    ParseFormat(c);
  }

  /** A first character that is not a column letter in either case is
      rejected, whatever row follows: `"K5"`. */
  lemma ParseRejectsColumn(column: char, row: nat)
    requires !IsWhiteSpace(column) && !(FirstColumn <= UpperChar(column) <= LastColumn)
    requires row < 100
    ensures TryParse(Some([column] + DecimalString(row))) == Rejected
  {
    var s := [column] + DecimalString(row);
    TryParseShaped(s, 0);
    CanonicalHead(s);
    ParseCellSplit(Canonical(s));
  }

  /** A row outside `1..10` is rejected, whatever the column: `"A11"`, `"A0"`. */
  lemma ParseRejectsRow(column: char, row: nat)
    requires FirstColumn <= column <= LastColumn
    requires row < 100 && (row < FirstRow || row > LastRow)
    ensures TryParse(Some([column] + DecimalString(row))) == Rejected
  {
    FormatShape(column, row);
    TryParseDecimal(row);
    ParsePlain([column] + DecimalString(row), row);
  }

  /** A row that is not an integer is rejected: a tail that starts with
      neither a sign nor a digit (`"AB"`, `"AX1"`), or one digit followed by
      anything but a digit, number white space or `'\0'` (`"A1X"`). */
  lemma ParseRejectsTail(column: char, t: string)
    requires FirstColumn <= column <= LastColumn
    requires 1 <= |t| <= 2 && Plain([column] + t)
    requires || (!IsDigit(t[0]) && t[0] != '+' && t[0] != '-')
             || (|t| == 2 && IsDigit(t[0]) && !IsDigit(t[1]) && t[1] != '\0')
    ensures TryParse(Some([column] + t)) == Rejected
  {
    var s := [column] + t;
    assert s[1..] == t;
    assert !IsWhiteSpace(s[1]) && !IsWhiteSpace(s[|s| - 1]);
    if !IsDigit(t[0]) && t[0] != '+' && t[0] != '-' {
      TryParseRejectsStart(t);
    } else {
      TryParseRejectsJunk(t);
    }
    ParsePlainRefused(s);
  }

  /** A negative row is rejected although `int.TryParse` reads it:
      `"A-1"`. */
  lemma ParseRejectsNegative(column: char, n: nat)
    requires FirstColumn <= column <= LastColumn && n < 10
    ensures TryParse(Some([column, '-'] + DecimalString(n))) == Rejected
  {
    var s := [column, '-'] + DecimalString(n);
    PlainDigits(DecimalString(n));
    PlainConcat([column, '-'], DecimalString(n));
    assert s[1..] == ['-'] + DecimalString(n);
    TryParseNegative(n);
    ParsePlain(s, 0 - n);
  }

  /** `int.TryParse` skips white space in front of the row, so a blank
      between column and row is accepted: `"A 1"` names `A1`. */
  lemma ParseAcceptsInnerSpace(c: Coordinate)
    requires OnBoard(c) && c.row < 10
    ensures TryParse(Some([c.column, ' '] + DecimalString(c.row))) == Parsed(true, c)
  {
    var d := DecimalString(c.row);
    var s := [c.column, ' '] + d;
    assert s == [c.column, ' ', d[0]] && s[1..] == [' '] + d;
    CanonicalInnerSpace(c.column, d[0]);
    TryParseSkipsSpace(c.row);
    assert ParseCell(s) == Parsed(true, c);
    TryParseShaped(s, 0);
  }

  /** A column letter, a blank and a digit are already canonical. */
  lemma CanonicalInnerSpace(column: char, digit: char)
    requires FirstColumn <= column <= LastColumn && IsDigit(digit)
    ensures Canonical([column, ' ', digit]) == [column, ' ', digit]
  {
    var s := [column, ' ', digit];
    var u := ToUpperInvariant(s);
    assert u == s by {
      forall k | 0 <= k < 3 ensures u[k] == s[k] {
        assert UpperChar(s[k]) == s[k];
      }
    }
    assert !InClass(WhiteSpace, s[0]) && !InClass(WhiteSpace, s[2]);
    assert TrimStart(s, WhiteSpace) == s;
    assert TrimEnd(s, WhiteSpace) == s;
  }

  /** Null, too short, too long and blank inputs are rejected before any
      reading. */
  lemma ParseRejectsShape(input: Option<string>)
    ensures IsNullOrWhiteSpace(input) || |input.value| < 2 || |input.value| > 3 ==>
      TryParse(input) == Rejected
    ensures TryParse(None) == Rejected
    ensures TryParse(Some("A")) == Rejected
    ensures TryParse(Some("A100")) == Rejected
    ensures TryParse(Some("   ")) == Rejected
  {
    assert IsNullOrWhiteSpace(Some("   "));
  }

  /** Leading white space is trimmed after the length check: `" a1"` names
      `A1`. */
  lemma ParseTrimsLeadingSpace(c: Coordinate, space: char)
    requires OnBoard(c) && c.row < 10 && IsWhiteSpace(space)
    ensures TryParse(Some([space] + Format(c))) == Parsed(true, c)
  {
    var f := Format(c);
    FormatShape(c.column, c.row);
    assert f == [c.column] + DecimalString(c.row);
    assert |f| == 2 && Plain(f);
    CanonicalLeadingSpace(f, space);
    CanonicalOfPlain(f);
    var g := [space] + f;
    assert |g| == 3 && g[1] == f[0] && !IsWhiteSpace(f[0]);
    assert Canonical(g) == Canonical(f);
    SameCanonical(g, 1, f, 0);
    ParseFormat(c);
  }

  /** Trailing white space is trimmed after the length check: `"A1 "` names
      `A1`. */
  lemma ParseTrimsTrailingSpace(c: Coordinate, space: char)
    requires OnBoard(c) && c.row < 10 && IsWhiteSpace(space)
    ensures TryParse(Some(Format(c) + [space])) == Parsed(true, c)
  {
    var f := Format(c);
    FormatShape(c.column, c.row);
    assert f == [c.column] + DecimalString(c.row);
    assert |f| == 2 && Plain(f);
    CanonicalTrailingSpace(f, space);
    CanonicalOfPlain(f);
    var g := f + [space];
    assert |g| == 3 && g[0] == f[0] && !IsWhiteSpace(f[0]);
    assert Canonical(g) == Canonical(f);
    SameCanonical(g, 0, f, 0);
    ParseFormat(c);
  }

  /** `int.TryParse` accepts a leading plus sign: `"A+1"` names `A1`. */
  lemma ParseAcceptsSign(c: Coordinate)
    requires OnBoard(c) && c.row < 10
    ensures TryParse(Some([c.column, '+'] + DecimalString(c.row))) == Parsed(true, c)
  {
    var d := ['+'] + DecimalString(c.row);
    FormatShape(c.column, c.row);
    PlainConcat([c.column, '+'], DecimalString(c.row));
    var s := [c.column, '+'] + DecimalString(c.row);
    assert s[1..] == d;
    TryParseDecorated(c.row);
    ParsePlain(s, c.row);
  }

  /** `int.TryParse` accepts a leading zero: `"A01"` names `A1`. */
  lemma ParseAcceptsLeadingZero(c: Coordinate)
    requires OnBoard(c) && c.row < 10
    ensures TryParse(Some([c.column, '0'] + DecimalString(c.row))) == Parsed(true, c)
  {
    var d := ['0'] + DecimalString(c.row);
    FormatShape(c.column, c.row);
    PlainConcat([c.column, '0'], DecimalString(c.row));
    var s := [c.column, '0'] + DecimalString(c.row);
    assert s[1..] == d;
    TryParseDecorated(c.row);
    ParsePlain(s, c.row);
  }
}
