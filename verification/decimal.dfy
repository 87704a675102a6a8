/**
  Decimal text of numbers as the Go runtime produces and reads it:
  `%d` / strconv.Itoa for printing, strconv.Atoi for parsing, and the
  64-bit two's-complement `int` that Atoi returns and `+ 1` wraps.
 */
module Decimal {

  const MaxInt64: int := 0x7FFF_FFFF_FFFF_FFFF
  const MinInt64: int := -0x8000_0000_0000_0000
  const MaxUint64: int := 0xFFFF_FFFF_FFFF_FFFF
  /** 2^64, the modulus of Go's 64-bit integer arithmetic. */
  const Modulus: int := 0x1_0000_0000_0000_0000

  predicate IsInt64(x: int) {
    MinInt64 <= x <= MaxInt64
  }

  predicate IsDigit(c: char) {
    '0' <= c <= '9'
  }

  predicate IsDigits(s: string) {
    forall i :: 0 <= i < |s| ==> IsDigit(s[i])
  }

  /** A SemVer 2.0.0 numeric identifier: digits, and no leading zero unless it is "0". */
  predicate IsNumeric(s: string) {
    |s| > 0 && IsDigits(s) && (s[0] == '0' ==> |s| == 1)
  }

  function DigitValue(c: char): nat
    requires IsDigit(c)
  {
    c as int - '0' as int
  }

  function DigitChar(d: nat): (c: char)
    requires d < 10
    ensures IsDigit(c) && DigitValue(c) == d
  {
    (48 + d) as char
  }

  /** The number a string of decimal digits denotes. */
  function DigitsValue(s: string): nat
    requires IsDigits(s)
  {
    if |s| == 0 then 0
    else DigitsValue(s[..|s| - 1]) * 10 + DigitValue(s[|s| - 1])
  }

  function Pow10(k: nat): nat {
    if k == 0 then 1 else 10 * Pow10(k - 1)
  }

  /** The decimal text of `n`, as `%d` or strconv.Itoa print it. */
  function NatToString(n: nat): (r: string)
    ensures IsNumeric(r)
    ensures DigitsValue(r) == n
  {
    if n < 10 then
      [DigitChar(n)]
    else
      var head := NatToString(n / 10);
      var r := head + [DigitChar(n % 10)];
      assert r[..|r| - 1] == head;
      r
  }

  /** strconv.Itoa on a signed integer. */
  function Itoa(n: int): string {
    if n < 0 then "-" + NatToString(-n) else NatToString(n)
  }

  /** A numeric identifier denotes a number whose text is the identifier again. */
  lemma {:induction false} NumericRoundTrip(s: string)
    requires IsNumeric(s)
    ensures NatToString(DigitsValue(s)) == s
    decreases |s|
  {
    if |s| > 1 {
      var head := s[..|s| - 1];
      LeadingNonZero(head);
      NumericRoundTrip(head);
      var n := DigitsValue(s);
      assert n / 10 == DigitsValue(head);
      assert n % 10 == DigitValue(s[|s| - 1]);
      assert DigitChar(n % 10) == s[|s| - 1];
      assert s == head + [s[|s| - 1]];
    }
  }

  /** Digits that do not start with '0' denote a positive number. */
  lemma {:induction false} LeadingNonZero(s: string)
    requires |s| > 0 && IsDigits(s) && s[0] != '0'
    ensures DigitsValue(s) >= 1
    decreases |s|
  {
    if |s| > 1 {
      LeadingNonZero(s[..|s| - 1]);
    }
  }

  /** k digits denote less than 10^k. */
  lemma {:induction false} DigitsBound(s: string)
    requires IsDigits(s)
    ensures DigitsValue(s) < Pow10(|s|)
    decreases |s|
  {
    if |s| > 0 {
      DigitsBound(s[..|s| - 1]);
    }
  }

  /** Appending digits never makes the denoted number smaller. */
  lemma {:induction false} DigitsMonotone(s: string, k: nat)
    requires IsDigits(s) && k <= |s|
    ensures DigitsValue(s[..k]) <= DigitsValue(s)
    decreases |s|
  {
    if k < |s| {
      var head := s[..|s| - 1];
      assert s[..k] == head[..k];
      DigitsMonotone(head, k);
      assert DigitsValue(s) == DigitsValue(head) * 10 + DigitValue(s[|s| - 1]);
    } else {
      assert s[..k] == s;
    }
  }

  /** The length of the run of digits that starts `s`. */
  function LeadingDigits(s: string): (k: nat)
    ensures k <= |s|
    ensures IsDigits(s[..k])
    ensures k < |s| ==> !IsDigit(s[k])
    decreases |s|
  {
    if |s| == 0 || !IsDigit(s[0]) then 0
    else
      var k := 1 + LeadingDigits(s[1..]);
      assert s[..k] == [s[0]] + s[1..][..k - 1];
      k
  }

  /** `s` without the one sign Atoi allows in front of the digits. */
  function Unsigned(s: string): string {
    if |s| > 0 && (s[0] == '+' || s[0] == '-') then s[1..] else s
  }

  /** The digits `s` starts with, after its sign, fit in an unsigned 64-bit integer. */
  predicate LeadFits(s: string) {
    var body := Unsigned(s);
    DigitsValue(body[..LeadingDigits(body)]) <= MaxUint64
  }

  /** The value and the error flag that Go's strconv.Atoi returns. */
  datatype Parsed = Parsed(value: int, ok: bool)

  /**
    strconv.Atoi on a 64-bit platform. An optional sign, then digits; the
    value is clamped to the int64 range with an error when it does not fit,
    and any other text gives 0 with an error. ParseUint stops with a range
    error as soon as the digits read so far exceed 2^64 - 1, before it looks
    at any later character, so a long run of digits followed by a letter
    reads as an overflow rather than as a syntax error.
   */
  function Atoi(s: string): (r: Parsed)
    ensures IsInt64(r.value)
    ensures !r.ok ==> r.value in {0, MaxInt64, MinInt64}
  {
    if |s| == 0 then Parsed(0, false)
    else
      var negative := s[0] == '-';
      var body := Unsigned(s);
      if |body| == 0 then Parsed(0, false)
      else
        var k := LeadingDigits(body);
        if !LeadFits(s) then
          Parsed(if negative then MinInt64 else MaxInt64, false)
        else if k < |body| then
          Parsed(0, false)
        else
          assert body[..k] == body;
          var n := DigitsValue(body);
          if !negative && n > MaxInt64 then Parsed(MaxInt64, false)
          else if negative && n > -MinInt64 then Parsed(MinInt64, false)
          else Parsed(if negative then -(n as int) else n, true)
  }

  /** `n + 1` on Go's 64-bit `int`: the sum modulo 2^64, read back as signed. */
  function Inc64(n: int): (r: int)
    requires IsInt64(n)
    ensures IsInt64(r)
    ensures (r - (n + 1)) % Modulus == 0
  {
    if n == MaxInt64 then MinInt64 else n + 1
  }

  /** Atoi reads back the decimal text of every number that fits in int64. */
  lemma AtoiNat(n: nat)
    requires n <= MaxInt64
    ensures Atoi(NatToString(n)) == Parsed(n, true)
  {
    var s := NatToString(n);
    var k := LeadingDigits(s);
    assert s[..k] == s;
  }

  /** Digits denoting MaxInt64 or more read as MaxInt64, with an error beyond it. */
  lemma AtoiTooLarge(s: string)
    requires |s| > 0 && IsDigits(s) && DigitsValue(s) >= MaxInt64
    ensures Atoi(s) == Parsed(MaxInt64, DigitsValue(s) == MaxInt64)
  {
    var k := LeadingDigits(s);
    assert s[..k] == s;
  }

  /** An optional sign followed by at least one digit: the text Atoi accepts. */
  predicate IsInteger(s: string) {
    |s| > 0 && (IsDigits(s) || ((s[0] == '+' || s[0] == '-') && |s| > 1 && IsDigits(s[1..])))
  }

  /**
    Atoi gives 0 with an error exactly on text that is not an optional sign
    followed by digits and whose leading digits do not already overflow.
   */
  lemma AtoiSyntax(s: string)
    ensures Atoi(s) == Parsed(0, false) <==> !IsInteger(s) && LeadFits(s)
  {
    var body := Unsigned(s);
    var k := LeadingDigits(body);
    if IsInteger(s) {
      assert IsDigits(body) && |body| > 0;
      assert body[..k] == body;
    }
  }

  /** Fewer than 20 leading digits can not overflow. */
  lemma FewDigitsFit(s: string)
    requires LeadingDigits(Unsigned(s)) < 20
    ensures LeadFits(s)
  {
    var body := Unsigned(s);
    ShortDigitsFit(body[..LeadingDigits(body)]);
  }

  /** Fewer than 20 digits always fit in an unsigned 64-bit integer. */
  lemma ShortDigitsFit(t: string)
    requires IsDigits(t) && |t| < 20
    ensures DigitsValue(t) <= MaxUint64
  {
    DigitsBound(t);
    Pow10Bound(|t|);
    Pow10Of19();
  }

  /** Pow10(a + b) is Pow10(a) * Pow10(b). */
  lemma {:induction false} Pow10Add(a: nat, b: nat)
    ensures Pow10(a + b) == Pow10(a) * Pow10(b)
    decreases a
  {
    if a > 0 {
      Pow10Add(a - 1, b);
    }
  }

  lemma Pow10Of19()
    ensures Pow10(19) == 10_000_000_000_000_000_000
  {
    assert Pow10(3) == 1000;
    assert Pow10(4) == 10000;
    Pow10Add(4, 4);
    Pow10Add(8, 8);
    Pow10Add(16, 3);
  }

  lemma {:induction false} Pow10Bound(k: nat)
    requires k <= 19
    ensures Pow10(k) <= Pow10(19)
    decreases 19 - k
  {
    if k < 19 {
      Pow10Bound(k + 1);
    }
  }
}
