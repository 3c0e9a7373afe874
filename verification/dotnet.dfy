/** The few pieces of the .NET base library whose behaviour the rules engine
    depends on: the 32-bit `int`, `char.IsWhiteSpace`, `string.Trim`,
    `string.ToUpperInvariant` and `int.TryParse`. */
module DotNet {
  import opened Wrappers

  /** The range of a .NET `int`. */
  type Int32 = x: int | -0x8000_0000 <= x < 0x8000_0000

  /** `char.IsWhiteSpace`: the Unicode space, line and paragraph separators,
      plus U+0009..U+000D and U+0085. */
  predicate IsWhiteSpace(c: char) {
    var n := c as int;
    || 0x09 <= n <= 0x0D
    || n == 0x20 || n == 0x85 || n == 0xA0 || n == 0x1680
    || 0x2000 <= n <= 0x200A
    || n == 0x2028 || n == 0x2029 || n == 0x202F || n == 0x205F || n == 0x3000
  }

  /** `string.IsNullOrWhiteSpace`: null, empty, or white space only. */
  predicate IsNullOrWhiteSpace(s: Option<string>) {
    s.None? || forall i :: 0 <= i < |s.value| ==> IsWhiteSpace(s.value[i])
  }

  /** The sets of characters the trimming operations drop: `char.IsWhiteSpace`
      for `string.Trim()`, the number white space for `int.TryParse`, and a
      single character for `string.Trim(char)`. */
  datatype CharClass = WhiteSpace | NumberWhite | Exactly(c: char)

  predicate InClass(k: CharClass, c: char) {
    match k
    case WhiteSpace => IsWhiteSpace(c)
    case NumberWhite => IsNumberWhite(c)
    case Exactly(d) => c == d
  }

  /** Drops the leading characters that satisfy `drop`. */
  function TrimStart(s: string, drop: CharClass): (r: string)
    ensures |r| <= |s| && r == s[|s| - |r|..]
    ensures forall i :: 0 <= i < |s| - |r| ==> InClass(drop, s[i])
    ensures |r| > 0 ==> !InClass(drop, r[0])
    ensures |s| > 0 && !InClass(drop, s[0]) ==> r == s
  {
    s[LeadingCount(s, drop)..]
  }

  /** Drops the trailing characters that satisfy `drop`. */
  function TrimEnd(s: string, drop: CharClass): (r: string)
    ensures |r| <= |s| && r == s[..|r|]
    ensures forall i :: |r| <= i < |s| ==> InClass(drop, s[i])
    ensures |r| > 0 ==> !InClass(drop, r[|r| - 1])
    ensures |s| > 0 && !InClass(drop, s[|s| - 1]) ==> r == s
  {
    s[..|s| - TrailingCount(s, drop)]
  }

  /** `string.Trim()` (with `drop` = `WhiteSpace`) and `string.Trim(char)`
      (with `drop` = `Exactly` that character). The result is the slice of
      `s` left after cutting the longest class prefix and then a run of
      class characters at the end. */
  function Trim(s: string, drop: CharClass): (r: string)
    ensures |r| > 0 ==> !InClass(drop, r[0]) && !InClass(drop, r[|r| - 1])
    ensures (exists i :: 0 <= i < |s| && !InClass(drop, s[i])) ==> |r| > 0
    ensures (forall i :: 0 <= i < |s| ==> !InClass(drop, s[i])) ==> r == s
    ensures LeadingCount(s, drop) + |r| <= |s|
    ensures r == s[LeadingCount(s, drop)..LeadingCount(s, drop) + |r|]
    ensures forall i :: LeadingCount(s, drop) + |r| <= i < |s| ==> InClass(drop, s[i])
  {
    TrimBothEnds(s, drop);
    TrimKeepsSurvivor(s, drop);
    TrimClean(s, drop);
    TrimEnd(TrimStart(s, drop), drop)
  }

  /** The number of leading characters in the class: the longest prefix of
      class characters. */
  function LeadingCount(s: string, drop: CharClass): (n: nat)
    ensures n <= |s|
    ensures forall i :: 0 <= i < n ==> InClass(drop, s[i])
    ensures n < |s| ==> !InClass(drop, s[n])
  {
    if |s| > 0 && InClass(drop, s[0]) then
      var n := 1 + LeadingCount(s[1..], drop);
      assert forall i :: 1 <= i < n ==> s[i] == s[1..][i - 1];
      n
    else 0
  }

  /** The number of trailing characters in the class: the longest suffix of
      class characters. */
  function TrailingCount(s: string, drop: CharClass): (n: nat)
    ensures n <= |s|
    ensures forall i :: |s| - n <= i < |s| ==> InClass(drop, s[i])
    ensures n < |s| ==> !InClass(drop, s[|s| - n - 1])
  {
    if |s| > 0 && InClass(drop, s[|s| - 1]) then
      var n := 1 + TrailingCount(s[..|s| - 1], drop);
      assert forall i :: |s| - n <= i < |s| - 1 ==> s[i] == s[..|s| - 1][i];
      n
    else 0
  }

  /** Neither end of the trimmed string is in the class. */
  lemma {:induction false} TrimBothEnds(s: string, drop: CharClass)
    ensures var r := TrimEnd(TrimStart(s, drop), drop);
      |r| > 0 ==> !InClass(drop, r[0]) && !InClass(drop, r[|r| - 1])
  {
    var t := TrimStart(s, drop);
    var r := TrimEnd(t, drop);
    if |r| > 0 {
      assert r[0] == t[0];
    }
  }

  /** A character outside the class survives trimming, so the result is
      non-empty. */
  lemma {:induction false} TrimKeepsSurvivor(s: string, drop: CharClass)
    ensures (exists i :: 0 <= i < |s| && !InClass(drop, s[i])) ==>
      |TrimEnd(TrimStart(s, drop), drop)| > 0
  {
    var t := TrimStart(s, drop);
    var r := TrimEnd(t, drop);
    if i :| 0 <= i < |s| && !InClass(drop, s[i]) {
      assert |s| - |t| <= i;
      assert t[i - (|s| - |t|)] == s[i];
    }
  }

  /** A string with no character in the class is its own trimming. */
  lemma {:induction false} TrimClean(s: string, drop: CharClass)
    ensures (forall i :: 0 <= i < |s| ==> !InClass(drop, s[i])) ==>
      TrimEnd(TrimStart(s, drop), drop) == s
  {
    if |s| > 0 && forall i :: 0 <= i < |s| ==> !InClass(drop, s[i]) {
      assert !InClass(drop, s[0]) && !InClass(drop, s[|s| - 1]);
    }
  }

  /** Trimming a character off both ends of a non-empty string that does not
      contain it leaves exactly that string. */
  lemma TrimDropsWrapper(s: string, c: char)
    requires |s| > 0
    requires forall i :: 0 <= i < |s| ==> s[i] != c
    ensures Trim([c] + s + [c], Exactly(c)) == s
  {
    var q := [c] + s + [c];
    assert q[0] == c && q[1] == s[0] && q[1..] == s + [c];
    assert LeadingCount(q, Exactly(c)) == 1;
    var t := s + [c];
    assert t[|t| - 1] == c && t[|t| - 2] == s[|s| - 1] && t[..|t| - 1] == s;
    assert TrailingCount(t, Exactly(c)) == 1;
  }

  /** Invariant-culture upper-casing of one character, on the ASCII letters. */
  function UpperChar(c: char): char {
    if 'a' <= c <= 'z' then (c as int - 32) as char else c
  }

  /** `string.ToUpperInvariant`: a character-by-character mapping that keeps
      the length. */
  function ToUpperInvariant(s: string): (r: string)
    ensures |r| == |s|
    ensures forall i :: 0 <= i < |s| ==> r[i] == UpperChar(s[i])
  {
    seq(|s|, i requires 0 <= i < |s| => UpperChar(s[i]))
  }

  /** Upper-casing never turns white space into something else or back. */
  lemma UpperKeepsWhiteSpace(c: char)
    ensures IsWhiteSpace(UpperChar(c)) <==> IsWhiteSpace(c)
  {
  }

  /** Upper-casing twice is upper-casing once. */
  lemma {:induction false} UpperIdempotent(s: string)
    ensures ToUpperInvariant(ToUpperInvariant(s)) == ToUpperInvariant(s)
  {
    var u := ToUpperInvariant(s);
    var uu := ToUpperInvariant(u);
    forall i | 0 <= i < |s| ensures uu[i] == u[i] {
      assert u[i] == UpperChar(s[i]);
    }
  }

  /** The white space `int.TryParse` skips around a number (narrower than
      `char.IsWhiteSpace`). */
  predicate IsNumberWhite(c: char) {
    0x09 <= c as int <= 0x0D || c == ' '
  }

  predicate IsDigit(c: char) {
    '0' <= c <= '9'
  }

  predicate AllDigits(s: string) {
    forall i :: 0 <= i < |s| ==> IsDigit(s[i])
  }

  /** The length of the longest prefix of `s` made of ASCII digits. */
  function DigitRun(s: string): (n: nat)
    ensures n <= |s| && AllDigits(s[..n])
    ensures n < |s| ==> !IsDigit(s[n])
  {
    if |s| > 0 && IsDigit(s[0]) then
      var n := 1 + DigitRun(s[1..]);
      assert forall i :: 1 <= i < n ==> s[..n][i] == s[1..][..n - 1][i - 1];
      n
    else 0
  }

  /** The decimal value of a digit string, most significant digit first. */
  function DigitsValue(d: string): nat
    requires AllDigits(d)
  {
    if |d| == 0 then 0 else 10 * DigitsValue(d[..|d| - 1]) + (d[|d| - 1] as int - '0' as int)
  }

  /** Everything after the digits: number white space, then only `'\0'`s. */
  predicate IsNumberTail(t: string) {
    var rest := TrimStart(t, NumberWhite);
    forall i :: 0 <= i < |rest| ==> rest[i] == '\0'
  }

  /** The value of an optionally signed digit string, or `None` when `b` does
      not start with a digit or has anything but a number tail after the
      digits. */
  function UnsignedValue(b: string): (r: Option<nat>)
    ensures r.Some? ==> |b| > 0 && IsDigit(b[0])
  {
    var n := DigitRun(b);
    if n == 0 || !IsNumberTail(b[n..]) then None else Some(DigitsValue(b[..n]))
  }

  /** An optional value kept only when it fits in `Int32`. */
  function InInt32(v: Option<int>): Option<Int32> {
    match v
    case Some(x) => if -0x8000_0000 <= x < 0x8000_0000 then Some(x) else None
    case None => None
  }

  /** The reading after leading white space: an optional sign, then digits. */
  function SignedValue(a: string): Option<Int32> {
    if |a| > 0 && a[0] == '-' then
      match UnsignedValue(a[1..])
      case Some(m) => InInt32(Some(0 - (m as int)))
      case None => None
    else if |a| > 0 && a[0] == '+' then
      match UnsignedValue(a[1..])
      case Some(m) => InInt32(Some(m))
      case None => None
    else
      match UnsignedValue(a)
      case Some(m) => InInt32(Some(m))
      case None => None
  }

  /** `int.TryParse(s, out n)` with `NumberStyles.Integer` under the invariant
      culture: optional number white space, an optional `+` or `-`, one or more
      ASCII digits, optional number white space, and then only `'\0'`s (which
      .NET accepts as trailing padding); a value outside `Int32` fails. */
  function TryParseInt32(s: string): (r: Option<Int32>)
    ensures (forall i :: 0 <= i < |s| ==> IsNumberWhite(s[i])) ==> r.None?
  {
    SignedValue(TrimStart(s, NumberWhite))
  }

  function DigitChar(d: nat): (c: char)
    requires d < 10
    ensures IsDigit(c)
  {
    ('0' as int + d) as char
  }

  /** The invariant-culture decimal rendering of a natural number, as
      `int.ToString()` writes it. */
  function DecimalString(n: nat): (s: string)
    ensures 1 <= |s| && AllDigits(s)
    ensures n < 10 <==> |s| == 1
    ensures 10 <= n < 100 ==> |s| == 2
  {
    if n < 10 then [DigitChar(n)] else DecimalString(n / 10) + [DigitChar(n % 10)]
  }

  /** Reading back a rendered number gives the number. */
  lemma {:induction false} DigitsValueOfDecimal(n: nat)
    ensures DigitsValue(DecimalString(n)) == n
  {
    if n >= 10 {
      var s := DecimalString(n);
      assert s[..|s| - 1] == DecimalString(n / 10);
      DigitsValueOfDecimal(n / 10);
    }
  }

  /** The unsigned reading of a rendered number is the number. */
  lemma UnsignedDecimal(n: nat)
    ensures UnsignedValue(DecimalString(n)) == Some(n)
  {
    var d := DecimalString(n);
    assert DigitRun(d) == |d|;
    assert d[..|d|] == d;
    assert IsNumberTail(d[|d|..]);
    DigitsValueOfDecimal(n);
  }

  /** On a string that starts with a digit, `int.TryParse` is the unsigned
      reading, bounded by `Int32`. */
  lemma TryParseUnsigned(b: string, n: nat)
    requires |b| > 0 && IsDigit(b[0])
    requires UnsignedValue(b) == Some(n) && n < 0x8000_0000
    ensures TryParseInt32(b) == Some(n)
    ensures TryParseInt32(['+'] + b) == Some(n)
  {
    assert !InClass(NumberWhite, b[0]);
    assert TrimStart(b, NumberWhite) == b;
    assert SignedValue(b) == InInt32(Some(n));
    PlusSignIgnored(b);
  }

  /** A plus sign in front of a digit changes nothing. */
  lemma PlusSignIgnored(b: string)
    requires |b| > 0 && IsDigit(b[0])
    ensures TryParseInt32(['+'] + b) == TryParseInt32(b)
  {
    var p := ['+'] + b;
    assert p[0] == '+' && p[1..] == b;
  }

  /** `int.TryParse` rejects text that starts with neither number white
      space, a sign nor a digit: `"B"`, `"x1"`. */
  lemma TryParseRejectsStart(t: string)
    requires |t| > 0 && !IsNumberWhite(t[0]) && !IsDigit(t[0]) && t[0] != '+' && t[0] != '-'
    ensures TryParseInt32(t) == None
  {
    assert TrimStart(t, NumberWhite) == t;
    assert DigitRun(t) == 0;
  }

  /** `int.TryParse` rejects a digit followed by anything but number white
      space, a digit or `'\0'`: `"1X"`. */
  lemma TryParseRejectsJunk(t: string)
    requires |t| == 2 && IsDigit(t[0]) && !IsDigit(t[1]) && !IsNumberWhite(t[1]) && t[1] != '\0'
    ensures TryParseInt32(t) == None
  {
    assert TrimStart(t, NumberWhite) == t;
    assert DigitRun(t) == 1;
    var tail := t[1..];
    assert TrimStart(tail, NumberWhite) == tail && tail[0] == t[1];
    assert !IsNumberTail(t[1..]);
  }

  /** `int.TryParse` reads a minus sign: `"-n"` is `-n`. */
  lemma TryParseNegative(n: nat)
    requires n < 0x8000_0000
    ensures TryParseInt32(['-'] + DecimalString(n)) == Some(0 - n)
  {
    UnsignedDecimal(n);
    MinusSign(DecimalString(n), n);
  }

  /** A minus sign in front of an unsigned reading negates it. */
  lemma MinusSign(b: string, m: nat)
    requires UnsignedValue(b) == Some(m) && m < 0x8000_0000
    ensures TryParseInt32(['-'] + b) == Some(0 - m)
  {
    var a := ['-'] + b;
    assert a[0] == '-' && a[1..] == b;
    assert !InClass(NumberWhite, a[0]);
    assert TrimStart(a, NumberWhite) == a;
    var neg: Int32 := 0 - m;
    assert InInt32(Some(0 - m)) == Some(neg);
    assert SignedValue(a) == Some(neg);
  }

  /** `int.TryParse` skips number white space in front of the digits:
      `" 1"` is 1. */
  lemma TryParseSkipsSpace(n: nat)
    requires n < 0x8000_0000
    ensures TryParseInt32([' '] + DecimalString(n)) == Some(n)
  {
    var d := DecimalString(n);
    var a := [' '] + d;
    assert a[0] == ' ' && a[1] == d[0] && a[1..] == d;
    assert LeadingCount(a, NumberWhite) == 1;
    assert TrimStart(a, NumberWhite) == d;
    assert TrimStart(d, NumberWhite) == d;
    TryParseDecimal(n);
  }

  /** `int.TryParse` is a left inverse of the decimal rendering on `Int32`. */
  lemma TryParseDecimal(n: nat)
    requires n < 0x8000_0000
    ensures TryParseInt32(DecimalString(n)) == Some(n)
  {
    UnsignedDecimal(n);
    TryParseUnsigned(DecimalString(n), n);
  }

  /** A leading zero does not change a digit string's value. */
  lemma {:induction false} LeadingZeroValue(d: string)
    requires AllDigits(d)
    ensures AllDigits(['0'] + d) && DigitsValue(['0'] + d) == DigitsValue(d)
  {
    var z := ['0'] + d;
    if |d| > 0 {
      assert z[..|z| - 1] == ['0'] + d[..|d| - 1];
      LeadingZeroValue(d[..|d| - 1]);
    } else {
      assert z[..0] == [];
    }
  }

  /** The unsigned reading ignores a leading zero. */
  lemma UnsignedLeadingZero(n: nat)
    ensures UnsignedValue(['0'] + DecimalString(n)) == Some(n)
  {
    var z := ['0'] + DecimalString(n);
    LeadingZeroValue(DecimalString(n));
    DigitsValueOfDecimal(n);
    assert DigitRun(z) == |z|;
    assert z[..|z|] == z;
    assert IsNumberTail(z[|z|..]);
  }

  /** `int.TryParse` accepts a leading plus sign or a leading zero. */
  lemma TryParseDecorated(n: nat)
    requires n < 0x8000_0000
    ensures TryParseInt32(['+'] + DecimalString(n)) == Some(n)
    ensures TryParseInt32(['0'] + DecimalString(n)) == Some(n)
  {
    UnsignedDecimal(n);
    TryParseUnsigned(DecimalString(n), n);
    UnsignedLeadingZero(n);
    TryParseUnsigned(['0'] + DecimalString(n), n);
  }
}
