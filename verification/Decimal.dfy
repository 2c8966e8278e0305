/** Decimal text as the C library prints and reads it: `%d`, `atoi` and the `%d`
    directive of `fscanf`. Shared by the calculator, the cipher pipeline and the shop. */
module Decimal {

  predicate IsDigit(c: char) {
    '0' <= c <= '9'
  }

  predicate IsSpace(c: char) {
    c == ' ' || '\t' <= c <= '\r'
  }

  predicate AllDigits(s: string) {
    forall i :: 0 <= i < |s| ==> IsDigit(s[i])
  }

  function DigitChar(d: nat): char
    requires d < 10
  {
    ('0' as int + d) as char
  }

  /** Decimal text of a natural number, most significant digit first, no leading zero. */
  function Digits(n: nat): string {
    if n < 10 then [DigitChar(n)] else Digits(n / 10) + [DigitChar(n % 10)]
  }

  /** What `sprintf("%d")` writes. */
  function Printed(n: int): string {
    if n < 0 then "-" + Digits(-n) else Digits(n)
  }

  /** Positional value of a digit string; the empty string counts as zero. */
  function Value(s: string): nat
    requires AllDigits(s)
  {
    if s == "" then 0 else 10 * Value(s[..|s| - 1]) + (s[|s| - 1] as int - '0' as int)
  }

  /** Length of the longest prefix of digits. */
  function DigitRun(s: string): (n: nat)
    ensures n <= |s| && AllDigits(s[..n])
    ensures n < |s| ==> !IsDigit(s[n])
  {
    if s == "" || !IsDigit(s[0]) then 0 else 1 + DigitRun(s[1..])
  }

  function SkipSpaces(s: string): (r: string)
    ensures |r| <= |s|
    ensures r != "" ==> !IsSpace(r[0])
  {
    if s == "" || !IsSpace(s[0]) then s else SkipSpaces(s[1..])
  }

  datatype Scan = NoMatch | Match(value: int, rest: string)

  /** Unsigned part of an integer directive: at least one digit is needed. */
  function ScanDigits(s: string, sign: int): (r: Scan)
    ensures r.Match? ==> |r.rest| < |s|
  {
    var n := DigitRun(s);
    if n == 0 then NoMatch else Match(sign * Value(s[..n]), s[n..])
  }

  /** The `%d` directive: white space, an optional sign, digits. */
  function ScanInt(s: string): (r: Scan)
    ensures r.Match? ==> |r.rest| < |s|
  {
    var t := SkipSpaces(s);
    if t != "" && t[0] == '-' then ScanDigits(t[1..], -1)
    else if t != "" && t[0] == '+' then ScanDigits(t[1..], 1)
    else ScanDigits(t, 1)
  }

  /** `atoi`: zero when there is no number to read. */
  function Atoi(s: string): int {
    match ScanInt(s)
    case NoMatch => 0
    case Match(v, _) => v
  }

  /** Printing then evaluating is the identity, and the text is a non-empty digit string. */
  lemma {:induction false} DigitsValue(n: nat)
    ensures Digits(n) != "" && AllDigits(Digits(n))
    ensures Value(Digits(n)) == n
  {
    if n >= 10 {
      DigitsValue(n / 10);
      var s := Digits(n);
      assert s[..|s| - 1] == Digits(n / 10);
    } else {
      assert Digits(n)[..0] == "";
    }
  }

  lemma {:induction false} RunOfDigits(d: string, rest: string)
    requires AllDigits(d)
    requires rest == "" || !IsDigit(rest[0])
    ensures DigitRun(d + rest) == |d|
  {
    if d == "" {
      assert d + rest == rest;
    } else {
      assert (d + rest)[1..] == d[1..] + rest;
      RunOfDigits(d[1..], rest);
    }
  }

  lemma ScanPrintedDigits(n: nat, rest: string, sign: int)
    requires rest == "" || !IsDigit(rest[0])
    ensures ScanDigits(Digits(n) + rest, sign) == Match(sign * n, rest)
    ensures Digits(n) != "" && IsDigit((Digits(n) + rest)[0])
  {
    var d := Digits(n);
    DigitsValue(n);
    RunOfDigits(d, rest);
    assert (d + rest)[..|d|] == d && (d + rest)[|d|..] == rest;
  }

  lemma Regroup(x: string, y: string, z: string)
    ensures (x + y) + z == x + (y + z)
  {
  }

  lemma ScanSigned(u: string)
    ensures ScanInt("-" + u) == ScanDigits(u, -1)
  {
    var t := "-" + u;
    assert SkipSpaces(t) == t && t[1..] == u;
  }

  lemma ScanUnsigned(u: string)
    requires u != "" && IsDigit(u[0])
    ensures ScanInt(u) == ScanDigits(u, 1)
  {
    assert SkipSpaces(u) == u;
  }

  lemma ScanPrintedNegative(n: int, rest: string)
    requires n < 0 && (rest == "" || !IsDigit(rest[0]))
    ensures ScanInt(("-" + Digits(-n)) + rest) == Match(n, rest)
  {
    Regroup("-", Digits(-n), rest);
    ScanPrintedDigits(-n, rest, -1);
    ScanSigned(Digits(-n) + rest);
  }

  /** Reading back a printed integer recovers it and leaves exactly the text after it. */
  lemma ScanPrinted(n: int, rest: string)
    requires rest == "" || !IsDigit(rest[0])
    ensures ScanInt(Printed(n) + rest) == Match(n, rest)
  {
    if n < 0 {
      ScanPrintedNegative(n, rest);
    } else {
      ScanPrintedDigits(n, rest, 1);
      ScanUnsigned(Digits(n) + rest);
    }
  }

  lemma AtoiPrinted(n: int)
    ensures Atoi(Printed(n)) == n
  {
    assert Printed(n) + "" == Printed(n);
    ScanPrinted(n, "");
  }

  /** `atoi` and `%d` pass over blanks and line ends, accept a plus sign, and find nothing in a text
      that begins with anything else. */
  lemma ScanPlus(n: nat, rest: string)
    requires rest == "" || !IsDigit(rest[0])
    ensures ScanInt("+" + (Digits(n) + rest)) == Match(n, rest)
  {
    var u := Digits(n) + rest;
    ScanPrintedDigits(n, rest, 1);
    assert SkipSpaces("+" + u) == "+" + u && ("+" + u)[1..] == u;
  }

  lemma ScanBlank(c: char, s: string)
    requires c == ' ' || c == '\t' || c == '\n' || c == '\r'
    ensures ScanInt([c] + s) == ScanInt(s)
  {
    assert ([c] + s)[1..] == s;
  }

  lemma ScanNothing(s: string)
    requires s == "" || !(s[0] == ' ' || '\t' <= s[0] <= '\r' || '0' <= s[0] <= '9' || s[0] == '-' || s[0] == '+')
    ensures ScanInt(s) == NoMatch && Atoi(s) == 0
  {
  }

  /** Two digit strings closed off by the same non-digit split a text in only one way. */
  lemma SplitAtMark(d1: string, d2: string, mark: char, r1: string, r2: string)
    requires AllDigits(d1) && AllDigits(d2) && !IsDigit(mark)
    requires d1 + [mark] + r1 == d2 + [mark] + r2
    ensures d1 == d2 && r1 == r2
  {
    assert d1 + ([mark] + r1) == d1 + [mark] + r1;
    assert d2 + ([mark] + r2) == d2 + [mark] + r2;
    RunOfDigits(d1, [mark] + r1);
    RunOfDigits(d2, [mark] + r2);
    assert d1 == (d1 + [mark] + r1)[..|d1|];
    assert d2 == (d2 + [mark] + r2)[..|d2|];
    assert r1 == (d1 + [mark] + r1)[|d1| + 1..];
    assert r2 == (d2 + [mark] + r2)[|d2| + 1..];
  }
}
