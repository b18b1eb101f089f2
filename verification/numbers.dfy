/** Decimal formatting and the two JavaScript number coercions the application uses:
    `Number(x) || 0` (stock reconciliation) and `parseInt(x, 10) || 0` (settings inputs).
    Only integer inputs are modelled; fractions, exponents and hexadecimal literals are not. */
module Numbers {
  import opened Wrappers
  import opened Text

  predicate IsDigit(c: char) {
    '0' <= c <= '9'
  }

  predicate AllDigits(s: string) {
    forall i :: 0 <= i < |s| ==> IsDigit(s[i])
  }

  function DigitValue(c: char): nat
    requires IsDigit(c)
  {
    c as int - '0' as int
  }

  function DigitChar(d: nat): (c: char)
    requires d < 10
    ensures IsDigit(c) && DigitValue(c) == d
  {
    ('0' as int + d) as char
  }

  /** The value of a run of decimal digits, most significant first. */
  function DigitsValue(s: string): nat
    requires AllDigits(s)
  {
    if |s| == 0 then 0 else DigitsValue(s[..|s| - 1]) * 10 + DigitValue(s[|s| - 1])
  }

  /** Decimal rendering of a natural number, as JavaScript's template literals print it. */
  function NatToString(n: nat): (r: string)
    ensures |r| > 0 && AllDigits(r)
  {
    if n < 10 then [DigitChar(n)] else NatToString(n / 10) + [DigitChar(n % 10)]
  }

  /** Decimal rendering of an integer, with a leading minus sign when negative. */
  function IntToString(n: int): (r: string)
    ensures |r| > 0 && !IsSpace(r[0]) && !IsSpace(r[|r| - 1])
  {
    if n < 0 then "-" + NatToString(-n) else NatToString(n)
  }

  lemma {:induction false} NatToStringRoundTrip(n: nat)
    ensures DigitsValue(NatToString(n)) == n
  {
    if n >= 10 {
      NatToStringRoundTrip(n / 10);
      var s := NatToString(n);
      assert s[..|s| - 1] == NatToString(n / 10);
    }
  }

  /** An optional sign followed by at least one digit, and nothing else. */
  function ParseSignedDigits(s: string): (r: Option<int>)
    ensures r.Some? ==> |s| > 0
  {
    if |s| > 0 && (s[0] == '-' || s[0] == '+') then
      if |s| > 1 && AllDigits(s[1..]) then
        var v: int := DigitsValue(s[1..]);
        Some(if s[0] == '-' then -v else v)
      else None
    else if |s| > 0 && AllDigits(s) then Some(DigitsValue(s))
    else None
  }

  /** `Number(text) || 0` for integer text: surrounding whitespace is ignored, the empty
      string is 0, and anything that is not a signed decimal integer is NaN, hence 0. */
  function NumberOfText(s: string): int {
    ParseSignedDigits(Trim(s)).GetOr(0)
  }

  /** A number written out in decimal and read back with `Number` is the same number. */
  lemma NumberOfIntToString(n: int)
    ensures NumberOfText(IntToString(n)) == n
  {
    var s := IntToString(n);
    TrimKeeps(s);
    if n < 0 {
      NatToStringRoundTrip(-n);
      assert s[1..] == NatToString(-n);
    } else {
      NatToStringRoundTrip(n);
    }
  }

  /** The longest run of digits at the start of `s`. */
  function LeadingDigits(s: string): (r: string)
    ensures AllDigits(r) && IsPrefix(r, s)
    ensures |r| < |s| ==> !IsDigit(s[|r|])
  {
    if |s| > 0 && IsDigit(s[0]) then [s[0]] + LeadingDigits(s[1..]) else []
  }

  /** `parseInt(text, 10) || 0`: leading whitespace is skipped, an optional sign is read,
      then the longest run of digits; without any digit the result is NaN, hence 0. */
  function ParseIntOrZero(s: string): (r: int)
    ensures var t := TrimStart(s);
      |t| == 0 || (!IsDigit(t[0]) && t[0] != '-' && t[0] != '+') ==> r == 0
    ensures var t := TrimStart(s); |t| > 0 && t[0] == '-' ==> r <= 0
    ensures var t := TrimStart(s); |t| == 0 || t[0] != '-' ==> r >= 0
  {
    var t := TrimStart(s);
    if |t| > 0 && (t[0] == '-' || t[0] == '+') then
      var d := LeadingDigits(t[1..]);
      var v: int := if |d| == 0 then 0 else DigitsValue(d);
      if t[0] == '-' then -v else v
    else
      var d := LeadingDigits(t);
      if |d| == 0 then 0 else DigitsValue(d)
  }

  lemma {:induction false} LeadingDigitsOfDigits(d: string, rest: string)
    requires AllDigits(d)
    requires |rest| > 0 ==> !IsDigit(rest[0])
    ensures LeadingDigits(d + rest) == d
  {
    if |d| > 0 {
      assert (d + rest)[1..] == d[1..] + rest;
      LeadingDigitsOfDigits(d[1..], rest);
    } else {
      assert d + rest == rest;
    }
  }

  /** Text that does not start with whitespace, a sign or a digit reads as 0. */
  lemma ParseIntOfNonNumeric(s: string)
    requires |s| > 0 && !IsSpace(s[0]) && !IsDigit(s[0]) && s[0] != '-' && s[0] != '+'
    ensures ParseIntOrZero(s) == 0
  {
    assert TrimStart(s) == s;
    assert LeadingDigits(s) == [];
  }

  /** `parseInt` reads back a decimal integer and ignores whatever non-digit text follows
      it, such as the fraction of "12.5". */
  lemma ParseIntOfIntToString(n: int, rest: string)
    requires |rest| > 0 ==> !IsDigit(rest[0])
    ensures ParseIntOrZero(IntToString(n) + rest) == n
  {
    if n < 0 {
      var ns := NatToString(-n);
      NatToStringRoundTrip(-n);
      assert IntToString(n) + rest == "-" + ns + rest;
      ParseIntOfNegatedDigits(ns, rest);
    } else {
      NatToStringRoundTrip(n);
      ParseIntOfDigits(NatToString(n), rest);
    }
  }

  /** A run of digits reads as its value when no further digit follows. */
  lemma ParseIntOfDigits(d: string, rest: string)
    requires |d| > 0 && AllDigits(d)
    requires |rest| > 0 ==> !IsDigit(rest[0])
    ensures ParseIntOrZero(d + rest) == DigitsValue(d)
  {
    var u := d + rest;
    assert u[0] == d[0] && u[0] != '-' && u[0] != '+';
    assert TrimStart(u) == u by {
      NoSpaceTrimStart(u);
    }
    LeadingDigitsOfDigits(d, rest);
  }

  /** So does a minus sign followed by such a run, negated. */
  lemma ParseIntOfNegatedDigits(d: string, rest: string)
    requires |d| > 0 && AllDigits(d)
    requires |rest| > 0 ==> !IsDigit(rest[0])
    ensures ParseIntOrZero("-" + d + rest) + DigitsValue(d) == 0
  {
    var m := "-" + d + rest;
    assert TrimStart(m) == m && m[0] == '-' by {
      NoSpaceTrimStart(m);
    }
    assert m[1..] == d + rest;
    LeadingDigitsOfDigits(d, rest);
  }

  lemma NoSpaceTrimStart(s: string)
    requires |s| > 0 && !IsSpace(s[0])
    ensures TrimStart(s) == s
  {
  }

  /** Two decimal digits, zero padded. */
  function TwoDigits(n: nat): (r: string)
    requires n < 100
    ensures |r| == 2 && AllDigits(r)
  {
    [DigitChar(n / 10), DigitChar(n % 10)]
  }

  /** `value.toFixed(2)` for an amount held exactly as a whole number of cents. */
  function FormatCents(cents: int): (r: string)
    ensures |r| >= 4 && r[|r| - 3] == '.'
  {
    var a: nat := if cents < 0 then -cents else cents;
    (if cents < 0 then "-" else "") + NatToString(a / 100) + "." + TwoDigits(a % 100)
  }
}
