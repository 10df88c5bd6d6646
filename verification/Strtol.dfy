/**
  Decimal integers as strings: strtol in base 10 (section 7.22.1.4 of ISO C11, with a 64-bit long,
  in the "C" locale), the strict parse_int_range of monitor_config.c on top of it, and printing.
  A string is the contents of a C string, without its terminator.
*/
module Strtol {
  import opened Common

  const LONG_MAX := 0x7fff_ffff_ffff_ffff
  const LONG_MIN := -0x8000_0000_0000_0000

  predicate IsDigit(c: char) {
    '0' <= c <= '9'
  }

  predicate IsSign(c: char) {
    c == '+' || c == '-'
  }

  function DigitValue(c: char): (d: nat)
    requires IsDigit(c)
    ensures d < 10
  {
    c as int - '0' as int
  }

  function SkipSpaces(s: string, i: nat): (j: nat)
    requires i <= |s|
    ensures i <= j <= |s| && (forall k :: i <= k < j ==> IsSpace(s[k])) && (j < |s| ==> !IsSpace(s[j]))
    decreases |s| - i
  {
    if i < |s| && IsSpace(s[i]) then SkipSpaces(s, i + 1) else i
  }

  function SkipDigits(s: string, i: nat): (j: nat)
    requires i <= |s|
    ensures i <= j <= |s| && (forall k :: i <= k < j ==> IsDigit(s[k])) && (j < |s| ==> !IsDigit(s[j]))
    decreases |s| - i
  {
    if i < |s| && IsDigit(s[i]) then SkipDigits(s, i + 1) else i
  }

  /** The number written by the digits s[i], ..., s[j - 1]. */
  function DecimalValue(s: string, i: nat, j: nat): nat
    requires i <= j <= |s| && forall k :: i <= k < j ==> IsDigit(s[k])
  {
    if i == j then 0 else 10 * DecimalValue(s, i, j - 1) + DigitValue(s[j - 1])
  }

  function Signed(sign: char, magnitude: int): int {
    if sign == '-' then -magnitude else magnitude
  }

  datatype Conversion = Conversion(value: int, end: nat, erange: bool)

  function Strtol(s: string): (r: Conversion)
    ensures r.end <= |s| && LONG_MIN <= r.value <= LONG_MAX
  {
    var w := SkipSpaces(s, 0);
    var d := if w < |s| && IsSign(s[w]) then w + 1 else w;
    var e := SkipDigits(s, d);
    if e == d then Conversion(0, 0, false)
    else
      var v := Signed(s[w], DecimalValue(s, d, e));
      if v > LONG_MAX then Conversion(LONG_MAX, e, true)
      else if v < LONG_MIN then Conversion(LONG_MIN, e, true)
      else Conversion(v, e, false)
  }

  datatype Parse = Parse(status: Status, value: int)

  /** parse_int_range for a non-null string; value matters only if status is Ok. */
  function ParseInt(s: string, min: int, max: int): Parse {
    var r := Strtol(s);
    if r.erange || r.end == 0 || r.end != |s| then Parse(ParseError, 0)
    else if r.value < min || r.value > max then Parse(RangeError, 0)
    else Parse(Ok, r.value)
  }

  method ParseIntRange(value: string, min: int, max: int, out: Cell<int>) returns (status: Status)
    modifies out
    ensures status == ParseInt(value, min, max).status
    ensures out.value == if status == Ok then ParseInt(value, min, max).value else old(out.value)
  {
    var r := Strtol(value);
    if r.erange || r.end == 0 || r.end != |value| {
      return ParseError;
    }
    if r.value < min || r.value > max {
      return RangeError;
    }
    out.value := r.value;
    return Ok;
  }

  // ---------------------------------------------------------------------------------------------
  // What is accepted

  /** s is whitespace up to w, then possibly a sign, then from d on one or more digits; v is the
      number it denotes. */
  ghost predicate DenotesAt(s: string, w: nat, d: nat, v: int) {
    && w <= d < |s|
    && (forall k :: 0 <= k < w ==> IsSpace(s[k]))
    && (d == w || (d == w + 1 && IsSign(s[w])))
    && (forall k :: d <= k < |s| ==> IsDigit(s[k]))
    && v == Signed(s[w], DecimalValue(s, d, |s|))
  }

  ghost predicate Denotes(s: string, v: int) {
    exists w: nat, d: nat :: DenotesAt(s, w, d, v)
  }

  /** The scan finds the only way to read s as a number, if there is one. */
  lemma ScanFindsNumeral(s: string, w: nat, d: nat, v: int)
    requires DenotesAt(s, w, d, v)
    ensures SkipSpaces(s, 0) == w
    ensures d == (if IsSign(s[w]) then w + 1 else w)
    ensures SkipDigits(s, d) == |s|
  {
    assert !IsSpace(s[w]);
  }

  lemma ConversionOfNumeral(s: string, v: int)
    requires Denotes(s, v)
    ensures Strtol(s) == if v > 0x7fff_ffff_ffff_ffff then Conversion(0x7fff_ffff_ffff_ffff, |s|, true)
                         else if v < -0x8000_0000_0000_0000 then Conversion(-0x8000_0000_0000_0000, |s|, true)
                         else Conversion(v, |s|, false)
    ensures |s| > 0
  {
    var w: nat, d: nat :| DenotesAt(s, w, d, v);
    ScanFindsNumeral(s, w, d, v);
  }

  lemma FullConversionIsNumeral(s: string)
    requires Strtol(s).end == |s| && Strtol(s).end != 0
    ensures exists v :: Denotes(s, v)
  {
    var w := SkipSpaces(s, 0);
    var d := if w < |s| && IsSign(s[w]) then w + 1 else w;
    var v := Signed(s[w], DecimalValue(s, d, |s|));
    assert DenotesAt(s, w, d, v);
    assert Denotes(s, v);
  }

  /** A string denotes at most one number. */
  lemma NumeralIsUnique(s: string, v: int, v': int)
    requires Denotes(s, v) && Denotes(s, v')
    ensures v == v'
  {
    var w: nat, d: nat :| DenotesAt(s, w, d, v);
    var w': nat, d': nat :| DenotesAt(s, w', d', v');
    ScanFindsNumeral(s, w, d, v);
    ScanFindsNumeral(s, w', d', v');
  }

  ghost predicate DenotesLong(s: string, v: int) {
    Denotes(s, v) && -0x8000_0000_0000_0000 <= v <= 0x7fff_ffff_ffff_ffff
  }

  /** Exactly what parse_int_range accepts, and how it rejects the rest. */
  lemma ParseIntCharacterised(s: string, min: int, max: int, v: int)
    requires LONG_MIN <= min && max <= LONG_MAX
    ensures ParseInt(s, min, max) == Parse(Ok, v) <==> Denotes(s, v) && min <= v <= max
    ensures ParseInt(s, min, max).status == RangeError <==> exists u :: DenotesLong(s, u) && !(min <= u <= max)
    ensures ParseInt(s, min, max).status == ParseError <==> forall u :: !DenotesLong(s, u)
    ensures ParseInt(s, min, max).status in {Ok, RangeError, ParseError}
  {
    if u :| Denotes(s, u) {
      ConversionOfNumeral(s, u);
      forall x | Denotes(s, x) ensures x == u { NumeralIsUnique(s, x, u); }
      assert LONG_MIN <= u <= LONG_MAX ==> DenotesLong(s, u);
    } else if Strtol(s).end == |s| && Strtol(s).end != 0 {
      FullConversionIsNumeral(s);
    }
  }

  /** The text is a number within the limits. */
  ghost predicate IsNumber(s: string, min: int, max: int) {
    exists v :: Denotes(s, v) && min <= v <= max
  }

  lemma NumberIsParsed(s: string, min: int, max: int)
    requires LONG_MIN <= min && max <= LONG_MAX
    ensures IsNumber(s, min, max) <==> ParseInt(s, min, max).status == Ok
    ensures IsNumber(s, min, max) ==> Denotes(s, ParseInt(s, min, max).value)
    ensures IsNumber(s, min, max) ==> min <= ParseInt(s, min, max).value <= max
  {
    var p := ParseInt(s, min, max);
    if p.status == Ok {
      ParseIntCharacterised(s, min, max, p.value);
    }
    if v :| Denotes(s, v) && min <= v <= max {
      ParseIntCharacterised(s, min, max, v);
    }
  }

  // ---------------------------------------------------------------------------------------------
  // Printing and parsing back

  function DigitChar(d: nat): (c: char)
    requires d < 10
    ensures IsDigit(c) && DigitValue(c) == d
  {
    '0' + d as char
  }

  function Digits(n: nat): string {
    if n < 10 then [DigitChar(n)] else Digits(n / 10) + [DigitChar(n % 10)]
  }

  /** printf("%d"). */
  function Decimal(n: int): string {
    if n < 0 then "-" + Digits(-n) else Digits(n)
  }

  lemma {:induction false} ValueOfPart(s: string, s': string, i: nat, j: nat, shift: nat)
    requires i <= j <= |s| && j + shift <= |s'|
    requires forall k :: i <= k < j ==> IsDigit(s[k]) && s'[k + shift] == s[k]
    requires forall k :: i + shift <= k < j + shift ==> IsDigit(s'[k])
    ensures DecimalValue(s', i + shift, j + shift) == DecimalValue(s, i, j)
  {
    if i < j {
      ValueOfPart(s, s', i, j - 1, shift);
      assert s'[j - 1 + shift] == s[j - 1];
    }
  }

  lemma {:induction false} DigitsDenote(n: nat)
    ensures |Digits(n)| > 0 && forall k :: 0 <= k < |Digits(n)| ==> IsDigit(Digits(n)[k])
    ensures DecimalValue(Digits(n), 0, |Digits(n)|) == n
  {
    if n < 10 {
      assert DecimalValue(Digits(n), 0, 0) == 0;
    } else {
      DigitsDenote(n / 10);
      var s := Digits(n / 10);
      ValueOfPart(s, Digits(n), 0, |s|, 0);
    }
  }

  lemma MinusDenotes(s: string, t: string, v: int)
    requires s != "" && (forall k :: 0 <= k < |s| ==> IsDigit(s[k])) && DecimalValue(s, 0, |s|) == -v
    requires |t| == |s| + 1 && t[0] == '-' && forall k :: 0 <= k < |s| ==> t[k + 1] == s[k]
    ensures Denotes(t, v)
  {
    forall k | 1 <= k < |t|
      ensures IsDigit(t[k])
    {
      assert t[(k - 1) + 1] == s[k - 1];
    }
    ValueOfPart(s, t, 0, |s|, 1);
    assert DenotesAt(t, 0, 1, v);
  }

  lemma DecimalDenotes(n: int)
    ensures Denotes(Decimal(n), n)
  {
    if n < 0 {
      DigitsDenote(-n);
      MinusDenotes(Digits(-n), Decimal(n), n);
    } else {
      DigitsDenote(n);
      assert DenotesAt(Decimal(n), 0, 0, n);
    }
  }

  /** Every number in range is parsed back from its decimal form. */
  lemma ParseDecimal(n: int, min: int, max: int)
    requires LONG_MIN <= min <= n <= max <= LONG_MAX
    ensures ParseInt(Decimal(n), min, max) == Parse(Ok, n)
  {
    DecimalDenotes(n);
    ParseIntCharacterised(Decimal(n), min, max, n);
  }

  // ---------------------------------------------------------------------------------------------
  // In the notation of every day

  /** A digit behind a decimal form stands for ten times as much and the digit. */
  lemma DecimalByDigits(n: int, d: int)
    requires 0 <= d <= 9
    ensures Decimal(d) == ["0123456789"[d]]
    ensures n > 0 ==> Decimal(10 * n + d) == Decimal(n) + ["0123456789"[d]]
    ensures n > 0 ==> Decimal(-n) == "-" + Decimal(n)
  {
    assert DigitChar(d) == "0123456789"[d];
  }

  lemma PlusDenotes(s: string, t: string, w: nat, v: nat)
    requires s != "" && (forall k :: 0 <= k < |s| ==> IsDigit(s[k])) && DecimalValue(s, 0, |s|) == v
    requires |t| == w + 1 + |s| && t[w] == '+' && forall k :: 0 <= k < w ==> IsSpace(t[k])
    requires forall k :: 0 <= k < |s| ==> t[k + (w + 1)] == s[k]
    ensures Denotes(t, v)
  {
    forall k | w + 1 <= k < |t|
      ensures IsDigit(t[k])
    {
      assert t[(k - (w + 1)) + (w + 1)] == s[k - (w + 1)];
    }
    ValueOfPart(s, t, 0, |s|, w + 1);
    assert DenotesAt(t, w, w + 1, v);
  }

  /** Spaces in front of a number and a plus sign do not matter to it. */
  lemma SpacesAndSign(spaces: string, n: nat, min: int, max: int)
    requires forall k :: 0 <= k < |spaces| ==> IsSpace(spaces[k])
    requires LONG_MIN <= min <= n <= max <= LONG_MAX
    ensures ParseInt(spaces + "+" + Decimal(n), min, max) == Parse(Ok, n)
  {
    DigitsDenote(n);
    PlusDenotes(Digits(n), spaces + "+" + Decimal(n), |spaces|, n);
    ParseIntCharacterised(spaces + "+" + Decimal(n), min, max, n);
  }
}
