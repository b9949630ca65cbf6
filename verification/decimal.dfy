/** Decimal text for the numeric CSV fields. Integers are written in plain
    decimal with a leading '-' when negative; prices are kept in whole cents
    and written with exactly two decimals. The parsers accept at least what
    the writers produce: also leading zeros, "-0", and prices with no or one
    decimal. */
module Decimal {
  import opened Wrappers
  import Text

  predicate IsDigit(c: char) {
    '0' <= c <= '9'
  }

  predicate AllDigits(s: string) {
    forall k :: 0 <= k < |s| ==> IsDigit(s[k])
  }

  function DigitChar(d: nat): (c: char)
    requires d < 10
    ensures IsDigit(c) && c as int - '0' as int == d
  {
    ('0' as int + d) as char
  }

  /** The value of a string of decimal digits. */
  function ValueOf(s: string): nat
    requires AllDigits(s)
  {
    if s == [] then 0 else 10 * ValueOf(s[..|s| - 1]) + (s[|s| - 1] as int - '0' as int)
  }

  /** The decimal digits of n, most significant first, without leading zeros. */
  function DigitsOf(n: nat): (r: string)
    ensures r != [] && AllDigits(r)
    ensures ValueOf(r) == n
  {
    if n < 10 then [DigitChar(n)]
    else
      var r := DigitsOf(n / 10) + [DigitChar(n % 10)];
      assert r[..|r| - 1] == DigitsOf(n / 10);
      r
  }

  /** No digit is a comma, a decimal point or whitespace. */
  lemma DigitsAreNotSeparators(s: string)
    requires AllDigits(s)
    ensures ',' !in s && '.' !in s
    ensures s != [] ==> !Text.IsSpace(s[0])
  {
  }

  /** Integer field text: the written form of i. */
  function IntToString(i: int): (r: string)
    ensures r != [] && ',' !in r && !Text.IsSpace(r[0])
  {
    var d := DigitsOf(if i < 0 then -i else i);
    DigitsAreNotSeparators(d);
    if i < 0 then "-" + d else d
  }

  /** Integer field parsing: an optional '-' followed by one or more digits,
      nothing else. */
  function ParseInt(s: string): Option<int> {
    if |s| >= 2 && s[0] == '-' && AllDigits(s[1..]) then Some(-(ValueOf(s[1..]) as int))
    else if s != [] && AllDigits(s) then Some(ValueOf(s))
    else None
  }

  /** Reading an integer field gives back the integer written. */
  lemma ParseIntOfIntToString(i: int)
    ensures ParseInt(IntToString(i)) == Some(i)
  {
    var s := IntToString(i);
    if i < 0 {
      assert s[1..] == DigitsOf(-i);
    } else {
      assert !IsDigit('-');
    }
  }

  /** The two decimals of c cents, c below 100. */
  function TwoDigits(c: nat): (r: string)
    requires c < 100
    ensures |r| == 2 && AllDigits(r)
  {
    [DigitChar(c / 10), DigitChar(c % 10)]
  }

  /** A non-negative amount in cents: whole units, a point and two decimals. */
  function CentsText(m: nat): (r: string)
    ensures r != [] && ',' !in r && !Text.IsSpace(r[0])
  {
    var units := DigitsOf(m / 100);
    DigitsAreNotSeparators(units);
    units + "." + TwoDigits(m % 100)
  }

  /** Price field text for an amount in cents, with a leading '-' when
      negative. */
  function PriceToString(cents: int): (r: string)
    ensures r != [] && ',' !in r && !Text.IsSpace(r[0])
  {
    if cents < 0 then "-" + CentsText(-cents) else CentsText(cents)
  }

  /** An unsigned price in cents: digits, optionally followed by a point and
      one or two more digits. */
  function ParseUnsignedPrice(s: string): Option<nat> {
    var d := Text.Find(s, '.');
    PriceOfParts(s[..d], if d == |s| then None else Some(s[d + 1..]))
  }

  /** The cents of the units before the point and of the decimals after it,
      if there is a point. */
  function PriceOfParts(units: string, frac: Option<string>): Option<nat> {
    if units == [] || !AllDigits(units) then None
    else
      match frac
      case None => Some(100 * ValueOf(units))
      case Some(f) =>
        if |f| == 1 && AllDigits(f) then Some(100 * ValueOf(units) + 10 * ValueOf(f))
        else if |f| == 2 && AllDigits(f) then Some(100 * ValueOf(units) + ValueOf(f))
        else None
  }

  /** Price field parsing: an optional '-' before an unsigned price. */
  function ParsePrice(s: string): Option<int> {
    if s != [] && s[0] == '-' then
      match ParseUnsignedPrice(s[1..])
      case Some(v) => Some(-(v as int))
      case None => None
    else ParseUnsignedPrice(s)
  }

  lemma TwoDigitsValue(c: nat)
    requires c < 100
    ensures ValueOf(TwoDigits(c)) == c
  {
    var t := TwoDigits(c);
    var u := [DigitChar(c / 10)];
    assert u[..0] == [];
    assert ValueOf(u) == c / 10;
    assert t[..1] == u;
  }

  /** Units, a point and two decimals read as that many cents. */
  lemma ParseUnsignedPriceOfParts(units: string, frac: string)
    requires units != [] && AllDigits(units)
    requires |frac| == 2 && AllDigits(frac)
    ensures ParseUnsignedPrice(units + "." + frac) == Some(100 * ValueOf(units) + ValueOf(frac))
  {
    var s := units + "." + frac;
    DigitsAreNotSeparators(units);
    Text.FindAfter(units, '.', frac);
    assert s[..|units|] == units;
    assert s[|units| + 1..] == frac;
    assert ParseUnsignedPrice(s) == PriceOfParts(units, Some(frac));
  }

  lemma ParseUnsignedPriceOfText(m: nat)
    ensures ParseUnsignedPrice(CentsText(m)) == Some(m)
  {
    var u, c := m / 100, m % 100;
    ParseUnsignedPriceOfParts(DigitsOf(u), TwoDigits(c));
    TwoDigitsValue(c);
  }

  /** Reading a price field gives back the amount written. */
  lemma ParsePriceOfPriceToString(cents: int)
    ensures ParsePrice(PriceToString(cents)) == Some(cents)
  {
    var m: nat := if cents < 0 then -cents else cents;
    ParseUnsignedPriceOfText(m);
    var body := CentsText(m);
    var s := PriceToString(cents);
    if cents < 0 {
      assert s[1..] == body;
    } else {
      assert IsDigit(s[0]);
    }
  }
}
