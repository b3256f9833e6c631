/**
 * One city record: a line read from the road file and scanned with the
 * pattern "%d %[^\n]" (an integer position, optional white space, then a
 * non-empty name running to the end of the line).
 */
module Records {
  import opened Wrappers
  import opened Cities

  /** The characters C's `isspace` accepts in the "C" locale. */
  predicate IsSpace(c: char) {
    c == ' ' || '\t' <= c <= '\r'
  }

  predicate IsDigit(c: char) {
    '0' <= c <= '9'
  }

  predicate AllDigits(s: string) {
    forall i :: 0 <= i < |s| ==> IsDigit(s[i])
  }

  /** Drops the leading white space of `s`, as a scanf directive does. */
  function SkipSpaces(s: string): (r: string)
    ensures |r| <= |s|
    ensures r == [] || !IsSpace(r[0])
  {
    if s != [] && IsSpace(s[0]) then SkipSpaces(s[1..]) else s
  }

  /** The length of the run of decimal digits that starts `s`. */
  function DigitRun(s: string): (k: nat)
    ensures k <= |s|
  {
    if s != [] && IsDigit(s[0]) then 1 + DigitRun(s[1..]) else 0
  }

  function DigitValue(c: char): int {
    c as int - '0' as int
  }

  /** The value of a string of decimal digits, most significant first. */
  function DigitsValue(ds: string): int {
    if ds == [] then 0 else 10 * DigitsValue(ds[..|ds| - 1]) + DigitValue(ds[|ds| - 1])
  }

  /** At least one decimal digit: their value and the unread rest of `s`. */
  function ScanDigits(s: string): (r: Option<(int, string)>)
    ensures r.Some? ==> |r.value.1| < |s|
  {
    var k := DigitRun(s);
    if k == 0 then None else Some((DigitsValue(s[..k]), s[k..]))
  }

  /**
   * The "%d" conversion: skips white space, accepts one optional sign and
   * then at least one digit. Gives the value and the unread rest of `s`.
   */
  function ScanInt(s: string): (r: Option<(int, string)>)
    ensures r.Some? ==> |r.value.1| < |s|
  {
    var u := SkipSpaces(s);
    if u != [] && (u[0] == '-' || u[0] == '+') then
      match ScanDigits(u[1..])
      case None => None
      case Some((magnitude, rest)) => Some((if u[0] == '-' then 0 - magnitude else magnitude, rest))
    else
      match ScanDigits(u)
      case None => None
      case Some((magnitude, rest)) => Some((magnitude, rest))
  }

  /** The "%[^\n]" scan set without its non-emptiness test: `s` up to its first newline. */
  function LineText(s: string): (r: string)
    ensures |r| <= |s| && r == s[..|r|]
    ensures '\n' !in r
    ensures |r| == |s| || s[|r|] == '\n'
  {
    if s == [] || s[0] == '\n' then [] else [s[0]] + LineText(s[1..])
  }

  /** What a name read by "%[^\n]" after a white-space directive looks like. */
  predicate ValidName(name: string) {
    name != [] && !IsSpace(name[0]) && '\n' !in name
  }

  /**
   * Scans one record line. `None` is the case where sscanf does not
   * report two conversions: no integer, or nothing but white space after it.
   */
  function ParseRecord(line: string): (r: Option<City>)
    ensures r.Some? ==> ValidName(r.value.name)
  {
    match ScanInt(line)
    case None => None
    case Some((position, rest)) =>
      var name := LineText(SkipSpaces(rest));
      if name == [] then None else Some(City(position, name))
  }

  function Digit(d: nat): (c: char)
    requires d < 10
    ensures IsDigit(c) && DigitValue(c) == d
  {
    ('0' as int + d) as char
  }

  /** The decimal digits of `v`, without leading zeros. */
  function NatDigits(v: nat): (ds: string)
    ensures ds != [] && AllDigits(ds)
  {
    if v < 10 then [Digit(v)] else NatDigits(v / 10) + [Digit(v % 10)]
  }

  /** `v` written the way "%d" reads it back. */
  function IntText(v: int): string {
    if v < 0 then "-" + NatDigits(-v) else NatDigits(v)
  }

  /** A record line that describes the city `c`. */
  function FormatRecord(c: City): string {
    IntText(c.position) + " " + c.name
  }

  lemma {:induction false} NatDigitsValue(v: nat)
    ensures DigitsValue(NatDigits(v)) == v
  {
    if v >= 10 {
      var ds := NatDigits(v);
      assert ds[..|ds| - 1] == NatDigits(v / 10);
      NatDigitsValue(v / 10);
    }
  }

  lemma {:induction false} DigitRunOfDigits(ds: string, rest: string)
    requires AllDigits(ds)
    requires rest == [] || !IsDigit(rest[0])
    ensures DigitRun(ds + rest) == |ds|
  {
    if ds != [] {
      assert (ds + rest)[1..] == ds[1..] + rest;
      DigitRunOfDigits(ds[1..], rest);
    }
  }

  lemma {:induction false} LineTextOfLine(s: string)
    requires '\n' !in s
    ensures LineText(s) == s
  {
    if s != [] {
      LineTextOfLine(s[1..]);
    }
  }

  lemma SkipSpacesNone(s: string)
    requires s != [] && !IsSpace(s[0])
    ensures SkipSpaces(s) == s
  {
  }

  lemma ScanDigitsOf(ds: string, rest: string)
    requires ds != [] && AllDigits(ds)
    requires rest == [] || !IsDigit(rest[0])
    ensures ScanDigits(ds + rest) == Some((DigitsValue(ds), rest))
  {
    DigitRunOfDigits(ds, rest);
    assert (ds + rest)[..|ds|] == ds && (ds + rest)[|ds|..] == rest;
  }

  lemma ScanIntUnsigned(ds: string, rest: string)
    requires ds != [] && AllDigits(ds)
    requires rest != [] && IsSpace(rest[0])
    ensures ScanInt(ds + rest) == Some((DigitsValue(ds), rest))
  {
    SkipSpacesNone(ds + rest);
    ScanDigitsOf(ds, rest);
  }

  lemma ScanIntNegative(ds: string, rest: string)
    requires ds != [] && AllDigits(ds)
    requires rest != [] && IsSpace(rest[0])
    ensures ScanInt("-" + ds + rest) == Some((0 - DigitsValue(ds), rest))
  {
    var s := "-" + ds + rest;
    SkipSpacesNone(s);
    assert s[1..] == ds + rest;
    ScanDigitsOf(ds, rest);
  }

  lemma ScanIntText(v: int, rest: string)
    requires rest != [] && IsSpace(rest[0])
    ensures ScanInt(IntText(v) + rest) == Some((v, rest))
  {
    if v < 0 {
      NatDigitsValue(-v);
      ScanIntNegative(NatDigits(-v), rest);
    } else {
      NatDigitsValue(v);
      ScanIntUnsigned(NatDigits(v), rest);
    }
  }

  /** Reading back a formatted record gives the city that was written. */
  lemma ParseFormatRecord(c: City)
    requires ValidName(c.name)
    ensures ParseRecord(FormatRecord(c)) == Some(c)
  {
    ScanIntText(c.position, " " + c.name);
    assert IntText(c.position) + (" " + c.name) == FormatRecord(c);
    assert SkipSpaces(" " + c.name) == c.name by {
      assert (" " + c.name)[1..] == c.name;
    }
    LineTextOfLine(c.name);
  }
}
