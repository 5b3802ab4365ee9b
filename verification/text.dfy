/**
 * Strings as PHP treats them in this program: trim(), the (int) cast of a
 * string, the decimal rendering of an int ("$n", (string)$n, %d), sprintf
 * padding, implode, and the byte-wise ordering used for ORDER BY on text.
 */
module Text {
  import opened Util

  // ---------------------------------------------------------------------
  // trim()
  // ---------------------------------------------------------------------

  /** The characters PHP's trim() removes by default: space, \t, \n, \r, NUL and vertical tab. */
  predicate IsTrimChar(c: char)
  {
    c == ' ' || c == '\t' || c == '\n' || c == '\r' || c == '\0' || c == '\U{000B}'
  }

  /** Number of trim characters at the front of `s`. */
  function LeadingTrim(s: string): (k: nat)
    ensures k <= |s|
    ensures forall i :: 0 <= i < k ==> IsTrimChar(s[i])
    ensures k < |s| ==> !IsTrimChar(s[k])
  {
    if s == [] || !IsTrimChar(s[0]) then 0 else 1 + LeadingTrim(s[1..])
  }

  /** Number of trim characters at the back of `s`. */
  function TrailingTrim(s: string): (k: nat)
    ensures k <= |s|
    ensures forall i :: |s| - k <= i < |s| ==> IsTrimChar(s[i])
    ensures k < |s| ==> !IsTrimChar(s[|s| - 1 - k])
  {
    if s == [] || !IsTrimChar(s[|s| - 1]) then 0 else 1 + TrailingTrim(s[..|s| - 1])
  }

  /** ltrim($s): drop trim characters from the front, one at a time. */
  function TrimLeft(s: string): string
  {
    if s != [] && IsTrimChar(s[0]) then TrimLeft(s[1..]) else s
  }

  /** rtrim($s): drop trim characters from the back, one at a time. */
  function TrimRight(s: string): string
  {
    if s != [] && IsTrimChar(s[|s| - 1]) then TrimRight(s[..|s| - 1]) else s
  }

  /** PHP trim($s): the trim characters at both ends removed. */
  function Trim(s: string): string
  {
    TrimRight(TrimLeft(s))
  }

  /** ltrim removes exactly the leading run of trim characters. */
  lemma {:induction false} TrimLeftDrops(s: string)
    ensures TrimLeft(s) == s[LeadingTrim(s)..]
  {
    if s != [] && IsTrimChar(s[0]) {
      TrimLeftDrops(s[1..]);
      assert s[1..][LeadingTrim(s[1..])..] == s[LeadingTrim(s)..];
    }
  }

  /** rtrim removes exactly the trailing run of trim characters. */
  lemma {:induction false} TrimRightTakes(s: string)
    ensures TrimRight(s) == s[..|s| - TrailingTrim(s)]
  {
    if s != [] && IsTrimChar(s[|s| - 1]) {
      TrimRightTakes(s[..|s| - 1]);
      assert s[..|s| - 1][..|s| - 1 - TrailingTrim(s[..|s| - 1])] == s[..|s| - TrailingTrim(s)];
    }
  }

  /**
   * The trimmed string is a slice of `s` that starts after the leading trim
   * characters, is followed only by trim characters, and neither starts nor
   * ends with one.
   */
  lemma TrimShape(s: string)
    ensures LeadingTrim(s) + |Trim(s)| <= |s|
    ensures Trim(s) == s[LeadingTrim(s)..LeadingTrim(s) + |Trim(s)|]
    ensures forall i :: LeadingTrim(s) + |Trim(s)| <= i < |s| ==> IsTrimChar(s[i])
    ensures Trim(s) != [] ==> !IsTrimChar(Trim(s)[0]) && !IsTrimChar(Trim(s)[|Trim(s)| - 1])
  {
    var t := s[LeadingTrim(s)..];
    TrimLeftDrops(s);
    TrimRightTakes(t);
  }

  /** A string with no trim character at either end is its own trim. */
  lemma TrimOfTrimmed(s: string)
    requires s != [] ==> !IsTrimChar(s[0]) && !IsTrimChar(s[|s| - 1])
    ensures Trim(s) == s
  {
  }

  /** Trimming twice is trimming once. */
  lemma TrimIdempotent(s: string)
    ensures Trim(Trim(s)) == Trim(s)
  {
    TrimShape(s);
    TrimOfTrimmed(Trim(s));
  }

  // ---------------------------------------------------------------------
  // Decimal rendering and the (int) cast
  // ---------------------------------------------------------------------

  predicate IsDigit(c: char)
  {
    '0' as int <= c as int <= '9' as int
  }

  function DigitChar(d: nat): (c: char)
    requires d < 10
    ensures IsDigit(c) && c as int - '0' as int == d
  {
    "0123456789"[d]
  }

  /** The decimal digits of `n`, most significant first, no leading zeros. */
  function NatToString(n: nat): (r: string)
    ensures |r| >= 1
    ensures forall i :: 0 <= i < |r| ==> IsDigit(r[i])
    decreases n
  {
    if n < 10 then [DigitChar(n)] else NatToString(n / 10) + [DigitChar(n % 10)]
  }

  /** PHP's rendering of an int in "$n", (string)$n and sprintf('%d'). */
  function IntToString(n: int): (r: string)
    ensures r != []
  {
    if n < 0 then "-" + NatToString(-n) else NatToString(n)
  }

  /** A rendering is digits, with a leading '-' for a negative number. */
  lemma IntToStringDigits(n: int)
    ensures forall i :: 0 <= i < |IntToString(n)| ==> IsDigit(IntToString(n)[i]) || (i == 0 && IntToString(n)[i] == '-')
    ensures IntToString(n)[0] == '-' <==> n < 0
  {
  }

  /** Every character of `s` is a decimal digit. */
  predicate AllDigits(s: string)
  {
    s == [] || (IsDigit(s[0]) && AllDigits(s[1..]))
  }

  lemma {:induction false} AllDigitsOf(s: string)
    requires forall i :: 0 <= i < |s| ==> IsDigit(s[i])
    ensures AllDigits(s)
  {
    if s != [] {
      AllDigitsOf(s[1..]);
    }
  }

  /** The value of a digit character; anything else counts as 0. */
  function DigitValue(c: char): nat
  {
    if IsDigit(c) then c as int - '0' as int else 0
  }

  /** Value of a string of decimal digits. */
  function DigitsValue(s: string): nat
  {
    if s == [] then 0 else 10 * DigitsValue(s[..|s| - 1]) + DigitValue(s[|s| - 1])
  }

  /** The run of digits `s` starts with. */
  function DigitRun(s: string): string
  {
    if s != [] && IsDigit(s[0]) then [s[0]] + DigitRun(s[1..]) else ""
  }

  /** Leading white space a numeric string may carry: space, \t, \n, \r, vertical tab, form feed. */
  predicate IsNumericSpace(c: char)
  {
    c == ' ' || c == '\t' || c == '\n' || c == '\r' || c == '\U{000B}' || c == '\U{000C}'
  }

  /** PHP_INT_MIN and PHP_INT_MAX: ints are 64-bit two's complement. */
  const IntMin: int := -0x8000_0000_0000_0000
  const IntMax: int := 0x7FFF_FFFF_FFFF_FFFF

  predicate InIntRange(n: int)
  {
    IntMin <= n <= IntMax
  }

  /** A value cast to int is clamped to PHP_INT_MIN .. PHP_INT_MAX. */
  function Saturate(v: int): (r: int)
    ensures InIntRange(r)
    ensures InIntRange(v) ==> r == v
    ensures v > IntMax ==> r == IntMax
    ensures v < IntMin ==> r == IntMin
  {
    if v < IntMin then IntMin else if v > IntMax then IntMax else v
  }

  function Pow10(k: nat): (p: nat)
    ensures p >= 1
  {
    if k == 0 then 1 else 10 * Pow10(k - 1)
  }

  /**
   * The value of the digits `ds` with the decimal point moved k places
   * right: times 10 for each place, or, when k is negative, the last -k
   * digits dropped (which truncates toward zero).
   */
  function Scaled(ds: string, k: int): nat
    decreases if k >= 0 then k else -k
  {
    if k == 0 then DigitsValue(ds)
    else if k > 0 then 10 * Scaled(ds, k - 1)
    else if ds == [] then 0
    else Scaled(ds[..|ds| - 1], k + 1)
  }

  /** The exponent `u` starts with: 'e' or 'E', an optional sign and digits; 0 when there is none. */
  function ExponentOf(u: string): int
  {
    if |u| >= 2 && (u[0] == 'e' || u[0] == 'E') then
      if u[1] == '-' then -(DigitsValue(DigitRun(u[2..])) as int)
      else if u[1] == '+' then DigitsValue(DigitRun(u[2..]))
      else DigitsValue(DigitRun(u[1..]))
    else 0
  }

  /** The parts of an unsigned numeric prefix: digits, digits after '.', and the exponent. */
  datatype NumericPrefix = NumericPrefix(whole: string, fraction: string, exponent: int)

  /** After '.': the digits of the fraction, then the exponent. */
  function ParseFraction(u: string): NumericPrefix
  {
    if u != [] && IsDigit(u[0]) then
      var p := ParseFraction(u[1..]);
      p.(fraction := [u[0]] + p.fraction)
    else
      NumericPrefix("", "", ExponentOf(u))
  }

  /**
   * The longest unsigned numeric prefix of `u`, scanned one character at
   * a time: digits, optionally '.' and more digits, optionally an
   * exponent; whatever follows is ignored.
   */
  function ParseNumericPrefix(u: string): NumericPrefix
  {
    if u != [] && IsDigit(u[0]) then
      var p := ParseNumericPrefix(u[1..]);
      p.(whole := [u[0]] + p.whole)
    else if u != [] && u[0] == '.' then
      ParseFraction(u[1..])
    else
      NumericPrefix("", "", ExponentOf(u))
  }

  /** The value a numeric prefix denotes, truncated toward zero. */
  function Magnitude(n: NumericPrefix): nat
  {
    Scaled(n.whole + n.fraction, n.exponent - |n.fraction|)
  }

  /**
   * PHP's (int)$s for a string: leading white space skipped, an optional
   * sign, then the longest numeric prefix (digits with an optional
   * fraction and exponent), its exact value truncated toward zero and
   * clamped to the int range; no numeric prefix gives 0.
   */
  function StrToInt(s: string): int
  {
    var t := SkipSpace(s);
    if t != [] && t[0] == '-' then Saturate(-(Magnitude(ParseNumericPrefix(t[1..])) as int))
    else if t != [] && t[0] == '+' then Saturate(Magnitude(ParseNumericPrefix(t[1..])))
    else Saturate(Magnitude(ParseNumericPrefix(t)))
  }

  /** `s` without its leading white space. */
  function SkipSpace(s: string): string
  {
    if s != [] && IsNumericSpace(s[0]) then SkipSpace(s[1..]) else s
  }

  /** Leading white space does not change the cast. */
  lemma StrToIntSkipsSpace(c: char, s: string)
    requires IsNumericSpace(c)
    ensures StrToInt([c] + s) == StrToInt(s)
  {
    assert ([c] + s)[1..] == s;
  }

  lemma {:induction false} NatToStringValue(n: nat)
    ensures DigitsValue(NatToString(n)) == n
    decreases n
  {
    var r := NatToString(n);
    if n >= 10 {
      NatToStringValue(n / 10);
      assert r[..|r| - 1] == NatToString(n / 10);
    }
  }

  lemma {:induction false} DigitRunOfDigits(d: string)
    requires AllDigits(d)
    ensures DigitRun(d) == d
  {
    if d != [] {
      DigitRunOfDigits(d[1..]);
      assert d == [d[0]] + d[1..];
    }
  }

  /** Leading digits join the whole part of what follows them. */
  lemma {:induction false} ParseWholeThen(d: string, rest: string)
    requires AllDigits(d)
    ensures var p := ParseNumericPrefix(rest); ParseNumericPrefix(d + rest) == p.(whole := d + p.whole)
  {
    if d == [] {
      assert d + rest == rest;
    } else {
      var p := ParseNumericPrefix(rest);
      var u := d + rest;
      assert u[0] == d[0] && u[1..] == d[1..] + rest;
      ParseWholeThen(d[1..], rest);
      WholeDigit(u);
      assert [d[0]] + (d[1..] + p.whole) == d + p.whole;
    }
  }

  lemma WholeDigit(u: string)
    requires u != [] && IsDigit(u[0])
    ensures ParseNumericPrefix(u).whole == [u[0]] + ParseNumericPrefix(u[1..]).whole
    ensures ParseNumericPrefix(u).fraction == ParseNumericPrefix(u[1..]).fraction
    ensures ParseNumericPrefix(u).exponent == ParseNumericPrefix(u[1..]).exponent
  {
  }

  /** Digits after '.' join the fraction of what follows them. */
  lemma {:induction false} ParseFractionThen(f: string, rest: string)
    requires AllDigits(f)
    ensures var p := ParseFraction(rest); ParseFraction(f + rest) == p.(fraction := f + p.fraction)
  {
    if f == [] {
      assert f + rest == rest;
    } else {
      var p := ParseFraction(rest);
      var u := f + rest;
      assert u[0] == f[0] && u[1..] == f[1..] + rest;
      ParseFractionThen(f[1..], rest);
      FractionDigit(u);
      assert [f[0]] + (f[1..] + p.fraction) == f + p.fraction;
    }
  }

  lemma FractionDigit(u: string)
    requires u != [] && IsDigit(u[0])
    ensures ParseFraction(u).fraction == [u[0]] + ParseFraction(u[1..]).fraction
    ensures ParseFraction(u).whole == ParseFraction(u[1..]).whole
    ensures ParseFraction(u).exponent == ParseFraction(u[1..]).exponent
  {
  }

  /** The exponent 'e' followed by digits is the value of the digits. */
  lemma ExponentOfDigits(e: string)
    requires AllDigits(e)
    ensures ExponentOf("e" + e) == DigitsValue(e)
  {
    var u := "e" + e;
    if e != [] {
      assert u[1] == e[0] && u[1..] == e;
      DigitRunOfDigits(e);
    }
  }

  /** A run of digits alone is the whole part, with exponent 0. */
  lemma ParseDigits(d: string)
    requires AllDigits(d)
    ensures ParseNumericPrefix(d) == NumericPrefix(d, "", 0)
  {
    ParseWholeThen(d, "");
    assert d + "" == d;
  }

  /** A run of digits before an exponent is the whole part. */
  lemma ParseScientific(d: string, e: string)
    requires AllDigits(d) && AllDigits(e)
    ensures ParseNumericPrefix(d + "e" + e) == NumericPrefix(d, "", DigitsValue(e))
  {
    AppendAssoc(d, "e", e);
    ParseWholeThen(d, "e" + e);
    ExponentOfDigits(e);
    assert d + "" == d;
  }

  lemma DotFractionExponent(d: string, f: string, e: string)
    ensures d + "." + f + "e" + e == d + ("." + (f + ("e" + e)))
  {
    AppendAssoc(d + "." + f, "e", e);
    AppendAssoc(d + ".", f, "e" + e);
    AppendAssoc(d, ".", f + ("e" + e));
  }

  /** Digits, '.', digits and an exponent split into whole part, fraction and exponent. */
  lemma ParseDecimalScientific(d: string, f: string, e: string)
    requires AllDigits(d) && AllDigits(f) && AllDigits(e)
    ensures ParseNumericPrefix(d + "." + f + "e" + e) == NumericPrefix(d, f, DigitsValue(e))
  {
    DotFractionExponent(d, f, e);
    var rest := f + ("e" + e);
    ParseWholeThen(d, "." + rest);
    assert ("." + rest)[1..] == rest;
    ParseFractionThen(f, "e" + e);
    ExponentOfDigits(e);
    assert d + "" == d && f + "" == f;
  }

  /** Whole digits with exponent 0 denote their own value. */
  lemma MagnitudeOfWhole(d: string)
    ensures Magnitude(NumericPrefix(d, "", 0)) == DigitsValue(d)
  {
    assert d + "" == d;
  }

  /** A run of digits denotes its own value. */
  lemma MagnitudeOfDigits(d: string)
    requires AllDigits(d)
    ensures Magnitude(ParseNumericPrefix(d)) == DigitsValue(d)
  {
    ParseDigits(d);
    MagnitudeOfWhole(d);
  }

  /** Digits before an exponent denote the digits times 10^e. */
  lemma MagnitudeScientific(d: string, e: string)
    requires AllDigits(d) && AllDigits(e)
    ensures Magnitude(ParseNumericPrefix(d + "e" + e)) == DigitsValue(d) * Pow10(DigitsValue(e))
  {
    ParseScientific(d, e);
    MagnitudeWholeExp(d, DigitsValue(e));
  }

  /** Whole digits with exponent k denote the digits times 10^k. */
  lemma MagnitudeWholeExp(d: string, k: nat)
    ensures Magnitude(NumericPrefix(d, "", k)) == DigitsValue(d) * Pow10(k)
  {
    assert d + "" == d;
    ScaledValue(d, k);
  }

  lemma TimesTen(a: nat, p: nat)
    ensures 10 * (a * p) == a * (10 * p)
  {
  }

  lemma {:induction false} Pow10Add(a: nat, b: nat)
    ensures Pow10(a + b) == Pow10(a) * Pow10(b)
  {
    if a > 0 {
      Pow10Add(a - 1, b);
      assert Pow10(a + b) == 10 * Pow10(a - 1 + b);
      TimesTen(Pow10(b), Pow10(a - 1));
    }
  }

  /** Moving the point k places right multiplies by 10^k. */
  lemma {:induction false} ScaledValue(ds: string, k: nat)
    ensures Scaled(ds, k) == DigitsValue(ds) * Pow10(k)
  {
    if k > 0 {
      ScaledValue(ds, k - 1);
      TimesTen(DigitsValue(ds), Pow10(k - 1));
    }
  }

  /** A string starting with neither white space nor a sign is cast through its numeric prefix. */
  lemma StrToIntUnsigned(s: string)
    requires s == [] || (!IsNumericSpace(s[0]) && s[0] != '-' && s[0] != '+')
    ensures StrToInt(s) == Saturate(Magnitude(ParseNumericPrefix(s)))
  {
  }

  /** A leading '-' negates the magnitude after it. */
  lemma StrToIntNegated(u: string)
    ensures StrToInt("-" + u) == Saturate(-(Magnitude(ParseNumericPrefix(u)) as int))
  {
    var s := "-" + u;
    assert s[0] == '-' && s[1..] == u;
    StrToIntMinus(s);
  }

  lemma StrToIntMinus(s: string)
    requires s != [] && s[0] == '-'
    ensures StrToInt(s) == Saturate(-(Magnitude(ParseNumericPrefix(s[1..])) as int))
  {
  }

  /** Casting a nonempty run of digits gives its value, clamped to PHP_INT_MAX. */
  lemma StrToIntOfDigits(s: string)
    requires s != [] && AllDigits(s)
    ensures StrToInt(s) == Saturate(DigitsValue(s))
  {
    StrToIntUnsigned(s);
    MagnitudeOfDigits(s);
  }

  /** Casting '-' followed by a nonempty run of digits gives minus its value, clamped to PHP_INT_MIN. */
  lemma StrToIntOfNegative(u: string)
    requires u != [] && AllDigits(u)
    ensures StrToInt("-" + u) == Saturate(-(DigitsValue(u) as int))
  {
    StrToIntNegated(u);
    MagnitudeOfDigits(u);
  }

  /** Exponent notation: (int)"<d>e<e>" is d * 10^e, clamped; so (int)"1e3" is 1000. */
  lemma StrToIntScientific(d: string, e: string)
    requires AllDigits(d) && AllDigits(e)
    ensures StrToInt(d + "e" + e) == Saturate(DigitsValue(d) * Pow10(DigitsValue(e)))
  {
    var s := d + "e" + e;
    assert s[0] == if d == [] then 'e' else d[0];
    StrToIntUnsigned(s);
    MagnitudeScientific(d, e);
  }

  /**
   * A fraction before the exponent: (int)"<d>.<f>e<e>" takes all the
   * digits with the point moved e places right, truncated toward zero,
   * clamped.
   */
  lemma StrToIntDecimalScientific(d: string, f: string, e: string)
    requires AllDigits(d) && AllDigits(f) && AllDigits(e)
    ensures StrToInt(d + "." + f + "e" + e) == Saturate(Magnitude(NumericPrefix(d, f, DigitsValue(e))))
  {
    var s := d + "." + f + "e" + e;
    assert s[0] == if d == [] then '.' else d[0];
    StrToIntUnsigned(s);
    ParseDecimalScientific(d, f, e);
  }

  /** (int)"1e3" is 1000. */
  lemma StrToIntThousand()
    ensures StrToInt("1e3") == 1000
  {
    StrToIntScientific("1", "3");
    assert "1" + "e" + "3" == "1e3";
  }

  /** (int)"2.5e2" is 250. */
  lemma StrToIntTwoFifty()
    ensures StrToInt("2.5e2") == 250
  {
    StrToIntDecimalScientific("2", "5", "2");
    assert "2" + "." + "5" + "e" + "2" == "2.5e2";
    assert DigitsValue("2") == 2;
    assert DigitsValue("2" + "5") == 25;
  }

  /** (int)"1e<e>" is clamped to PHP_INT_MAX once e is 19 or more. */
  lemma StrToIntClamps(e: string)
    requires AllDigits(e) && DigitsValue(e) >= 19
    ensures StrToInt("1e" + e) == IntMax
  {
    StrToIntScientific("1", e);
    assert "1" + "e" + e == "1e" + e;
    assert DigitsValue("1") == 1;
    Pow10AtLeast(DigitsValue(e));
  }

  /** 10^k for k >= 19 exceeds PHP_INT_MAX. */
  lemma Pow10AtLeast(k: nat)
    requires k >= 19
    ensures Pow10(k) > IntMax
  {
    Pow10Add(19, k - 19);
    Pow10Nineteen();
    var p := Pow10(k - 19);
    assert p >= 1;
  }

  lemma Pow10Nineteen()
    ensures Pow10(19) == 10_000_000_000_000_000_000
  {
    Pow10Add(10, 9);
    assert Pow10(10) == 10_000_000_000 && Pow10(9) == 1_000_000_000;
  }

  /** (int)(string)$n == $n: rendering an int and casting it back is the identity. */
  lemma IntToStringRoundTrip(n: int)
    requires InIntRange(n)
    ensures StrToInt(IntToString(n)) == n
  {
    if n < 0 {
      assert IntToString(n) == "-" + NatToString(-n);
      NegativeRoundTrip(-n);
    } else {
      assert IntToString(n) == NatToString(n);
      NatRoundTrip(n);
    }
  }

  lemma NatRoundTrip(n: nat)
    requires n <= IntMax
    ensures StrToInt(NatToString(n)) == n
  {
    AllDigitsOf(NatToString(n));
    NatToStringValue(n);
    CastDigits(NatToString(n), n);
  }

  lemma NegativeRoundTrip(n: nat)
    requires -(n as int) >= IntMin
    ensures StrToInt("-" + NatToString(n)) == -(n as int)
  {
    AllDigitsOf(NatToString(n));
    NatToStringValue(n);
    CastNegative(NatToString(n), n);
  }

  lemma CastDigits(x: string, m: nat)
    requires x != [] && AllDigits(x) && DigitsValue(x) == m && m <= IntMax
    ensures StrToInt(x) == m
  {
    StrToIntOfDigits(x);
  }

  lemma CastNegative(x: string, m: nat)
    requires x != [] && AllDigits(x) && DigitsValue(x) == m && -(m as int) >= IntMin
    ensures StrToInt("-" + x) == -(m as int)
  {
    StrToIntOfNegative(x);
  }

  /** Different ints render differently. */
  lemma IntToStringInjective(a: int, b: int)
    requires IntToString(a) == IntToString(b)
    ensures a == b
  {
    IntToStringDecodes(a);
    IntToStringDecodes(b);
  }

  /** A rendering read back digit by digit, '-' negating. */
  function SignedValue(s: string): int
  {
    if s != [] && s[0] == '-' then -(DigitsValue(s[1..]) as int) else DigitsValue(s)
  }

  lemma IntToStringDecodes(n: int)
    ensures SignedValue(IntToString(n)) == n
  {
    if n < 0 {
      NatToStringValue(-n);
      DecodesNegative(NatToString(-n), -n);
    } else {
      NatToStringValue(n);
      DecodesUnsigned(NatToString(n), n);
    }
  }

  lemma DecodesNegative(x: string, m: nat)
    requires DigitsValue(x) == m
    ensures SignedValue("-" + x) == -(m as int)
  {
    assert ("-" + x)[1..] == x;
  }

  lemma DecodesUnsigned(x: string, m: nat)
    requires x != [] && IsDigit(x[0]) && DigitsValue(x) == m
    ensures SignedValue(x) == m
  {
  }


  // ---------------------------------------------------------------------
  // sprintf padding, str_repeat, implode
  // ---------------------------------------------------------------------

  /** str_repeat($c, $n). */
  function Repeat(c: char, n: nat): (r: string)
    ensures |r| == n
    ensures forall i :: 0 <= i < n ==> r[i] == c
  {
    seq(n, _ => c)
  }

  /** sprintf('%-{w}s', $s): left-justified in a field of width w, never truncated. */
  function PadRight(s: string, w: nat): (r: string)
    ensures |r| == if |s| >= w then |s| else w
  {
    if |s| >= w then s else s + Repeat(' ', w - |s|)
  }

  /** The string comes first, then only spaces. */
  lemma PadRightContents(s: string, w: nat)
    ensures PadRight(s, w)[..|s|] == s
    ensures forall i :: |s| <= i < |PadRight(s, w)| ==> PadRight(s, w)[i] == ' '
  {
  }

  /** sprintf('%{w}s', $s): right-justified in a field of width w, never truncated. */
  function PadLeft(s: string, w: nat): (r: string)
    ensures |r| == if |s| >= w then |s| else w
  {
    if |s| >= w then s else Repeat(' ', w - |s|) + s
  }

  /** Only spaces come first, then the string. */
  lemma PadLeftContents(s: string, w: nat)
    ensures PadLeft(s, w)[|PadLeft(s, w)| - |s|..] == s
    ensures forall i :: 0 <= i < |PadLeft(s, w)| - |s| ==> PadLeft(s, w)[i] == ' '
  {
  }

  /** implode($sep, $parts). */
  function Join(parts: seq<string>, sep: string): string
  {
    if |parts| == 0 then ""
    else if |parts| == 1 then parts[0]
    else parts[0] + sep + Join(parts[1..], sep)
  }

  /** Lines each followed by a newline, as written one fwrite($line . "\n") at a time. */
  function Unlines(lines: seq<string>): string
  {
    if lines == [] then "" else lines[0] + "\n" + Unlines(lines[1..])
  }

  lemma UnlinesSingle(line: string)
    ensures Unlines([line]) == line + "\n"
  {
    assert [line][1..] == [];
  }

  lemma {:induction false} UnlinesAppend(a: seq<string>, b: seq<string>)
    ensures Unlines(a + b) == Unlines(a) + Unlines(b)
  {
    if a == [] {
      assert a + b == b;
    } else {
      assert (a + b)[0] == a[0];
      assert (a + b)[1..] == a[1..] + b;
      UnlinesAppend(a[1..], b);
    }
  }

  /** The number of newlines in a text. */
  function NewlineCount(s: string): nat
  {
    if s == [] then 0 else (if s[0] == '\n' then 1 else 0) + NewlineCount(s[1..])
  }

  lemma {:induction false} NewlineCountAppend(a: string, b: string)
    ensures NewlineCount(a + b) == NewlineCount(a) + NewlineCount(b)
  {
    if a == [] {
      assert a + b == b;
    } else {
      assert (a + b)[0] == a[0];
      assert (a + b)[1..] == a[1..] + b;
      NewlineCountAppend(a[1..], b);
    }
  }

  /** Lines free of newlines give a text with exactly one newline per line. */
  lemma {:induction false} UnlinesNewlines(lines: seq<string>)
    requires forall i :: 0 <= i < |lines| ==> NewlineCount(lines[i]) == 0
    ensures NewlineCount(Unlines(lines)) == |lines|
  {
    if lines != [] {
      UnlinesNewlines(lines[1..]);
      NewlineCountAppend(lines[0], "\n");
      NewlineCountAppend(lines[0] + "\n", Unlines(lines[1..]));
    }
  }

  /** implode("\n", $lines) . "\n" is the same text for any non-empty list of lines. */
  lemma {:induction false} JoinNewlineIsUnlines(lines: seq<string>)
    requires lines != []
    ensures Join(lines, "\n") + "\n" == Unlines(lines)
  {
    if |lines| == 1 {
      assert lines[1..] == [];
    } else {
      JoinNewlineIsUnlines(lines[1..]);
      AppendThree(lines[0], "\n", Join(lines[1..], "\n"), "\n");
    }
  }

  // ---------------------------------------------------------------------
  // Ordering of text columns
  // ---------------------------------------------------------------------

  /** a <= b in character-code lexicographic order. */
  predicate LexLe(a: string, b: string)
  {
    |a| == 0 || (|b| > 0 && (a[0] < b[0] || (a[0] == b[0] && LexLe(a[1..], b[1..]))))
  }

  lemma {:induction false} LexLeTotal(a: string, b: string)
    ensures LexLe(a, b) || LexLe(b, a)
  {
    if |a| > 0 && |b| > 0 && a[0] == b[0] {
      LexLeTotal(a[1..], b[1..]);
    }
  }

  lemma {:induction false} LexLeTransitive(a: string, b: string, c: string)
    requires LexLe(a, b) && LexLe(b, c)
    ensures LexLe(a, c)
  {
    if |a| > 0 && |b| > 0 && |c| > 0 && a[0] == b[0] && b[0] == c[0] {
      LexLeTransitive(a[1..], b[1..], c[1..]);
    }
  }

  lemma {:induction false} LexLeAntisymmetric(a: string, b: string)
    requires LexLe(a, b) && LexLe(b, a)
    ensures a == b
  {
    if |a| > 0 && |b| > 0 {
      LexLeAntisymmetric(a[1..], b[1..]);
      assert a == [a[0]] + a[1..];
      assert b == [b[0]] + b[1..];
    }
  }

  /** A colon never occurs in a rendered int. */
  lemma NoColonInInt(n: int)
    ensures ':' !in IntToString(n)
  {
    IntToStringDigits(n);
  }

  /**
   * Joining two colon-free heads with ':' can be undone: if
   * a + ":" + x == b + ":" + y and neither a nor b contains ':', then a == b and x == y.
   */
  lemma ColonSplit(a: string, x: string, b: string, y: string)
    requires ':' !in a && ':' !in b
    requires a + ":" + x == b + ":" + y
    ensures a == b && x == y
  {
    var s := a + ":" + x;
    assert s[|a|] == ':';
    assert s[|b|] == ':';
    assert a == s[..|a|] == b;
    assert x == s[|a| + 1..] == y;
  }
}
