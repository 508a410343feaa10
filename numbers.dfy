/** Decimal text and numbers: Python's `int(token)`, `str(n)` for integers and the
    literal forms `float(token)` accepts, over ASCII digits. */
module Numbers {
  import opened Wrappers

  predicate IsDigit(c: char) {
    '0' <= c <= '9'
  }

  predicate AllDigits(s: string) {
    forall k :: 0 <= k < |s| ==> IsDigit(s[k])
  }

  /** `s.isdigit()`: non-empty and made of digits only. */
  predicate IsDigitString(s: string) {
    |s| > 0 && AllDigits(s)
  }

  /** The form `str(n)` gives a non-negative integer: no leading zero except "0" itself. */
  predicate Canonical(s: string) {
    IsDigitString(s) && (s[0] == '0' ==> |s| == 1)
  }

  function DigitValue(c: char): nat
    requires IsDigit(c)
  {
    c as int - '0' as int
  }

  function DigitChar(d: nat): (c: char)
    requires d < 10
    ensures IsDigit(c) && DigitValue(c) == d
  {
    ('0' as int + d) as char
  }

  /** The value of a big-endian digit string, leading zeros allowed. */
  function DigitsValue(s: string): nat
    requires AllDigits(s)
    decreases |s|
  {
    if |s| == 0 then 0 else DigitsValue(s[..|s| - 1]) * 10 + DigitValue(s[|s| - 1])
  }

  /** `str(n)` for a non-negative integer. */
  function NatToString(n: nat): (r: string)
    ensures Canonical(r)
    ensures r[0] == '0' <==> n == 0
    decreases n
  {
    if n < 10 then [DigitChar(n)] else NatToString(n / 10) + [DigitChar(n % 10)]
  }

  /** `str(n)` for any integer: a minus sign exactly when n is negative, then the digits of
      its magnitude. */
  function IntToString(n: int): (r: string)
    ensures |r| > 0 && (r[0] == '-' <==> n < 0)
  {
    if n < 0 then "-" + NatToString(-n) else NatToString(n)
  }

  /** `int(token)` on a trimmed token: an optional sign, then one or more digits. */
  function ParseInt(s: string): (r: Option<int>)
    ensures r.Some? ==> |s| > 0 && AllDigits(s[1..]) && (IsDigit(s[0]) || ((s[0] == '+' || s[0] == '-') && |s| > 1))
    ensures r.Some? && r.value < 0 ==> s[0] == '-'
    ensures IsDigitString(s) ==> r == Some(DigitsValue(s))
    ensures Canonical(s) ==> r.Some? && IntToString(r.value) == s
  {
    if |s| > 0 && (s[0] == '+' || s[0] == '-') then
      if IsDigitString(s[1..]) then
        Some(if s[0] == '-' then -(DigitsValue(s[1..]) as int) else DigitsValue(s[1..]))
      else None
    else if IsDigitString(s) then
      assert forall k :: 0 <= k < |s[1..]| ==> s[1..][k] == s[k + 1];
      if Canonical(s) then CanonicalRoundTrip(s); Some(DigitsValue(s))
      else Some(DigitsValue(s))
    else None
  }

  lemma {:induction false} NatToStringValue(n: nat)
    ensures DigitsValue(NatToString(n)) == n
    decreases n
  {
    if n >= 10 {
      var a := NatToString(n / 10);
      var s := a + [DigitChar(n % 10)];
      assert s[..|s| - 1] == a;
      NatToStringValue(n / 10);
    }
  }

  /** Every integer printed by `str` reads back as itself. */
  lemma ParseIntToString(n: int)
    ensures ParseInt(IntToString(n)) == Some(n)
  {
    NatToStringValue(if n < 0 then -n else n);
    if n < 0 {
      assert IntToString(n)[1..] == NatToString(-n);
    }
  }

  lemma {:induction false} LeadingNonzeroPositive(s: string)
    requires IsDigitString(s) && s[0] != '0'
    ensures DigitsValue(s) >= 1
    decreases |s|
  {
    if |s| > 1 {
      LeadingNonzeroPositive(s[..|s| - 1]);
    }
  }

  /** A digit string in printed form is exactly what `str` prints for its value. */
  lemma {:induction false} CanonicalRoundTrip(s: string)
    requires Canonical(s)
    ensures NatToString(DigitsValue(s)) == s
    decreases |s|
  {
    if |s| == 1 {
      assert DigitChar(DigitValue(s[0])) == s[0];
      assert [s[0]] == s;
    } else {
      var p := s[..|s| - 1];
      LeadingNonzeroPositive(p);
      CanonicalRoundTrip(p);
      var v := DigitsValue(s);
      assert v / 10 == DigitsValue(p) && v % 10 == DigitValue(s[|s| - 1]);
      assert DigitChar(DigitValue(s[|s| - 1])) == s[|s| - 1];
      assert p + [s[|s| - 1]] == s;
    }
  }

  /** A decimal floating-point literal kept exactly: (-1)^negative * mantissa * 10^exponent.
      The binary rounding `float()` applies afterwards is not modelled. */
  datatype Decimal = Decimal(negative: bool, mantissa: nat, exponent: int)

  /** 10 raised to any integer power, as a real number. */
  ghost function Pow10Real(e: int): (p: real)
    ensures p > 0.0
    decreases if e >= 0 then e else -e
  {
    if e == 0 then 1.0 else if e > 0 then 10.0 * Pow10Real(e - 1) else Pow10Real(e + 1) / 10.0
  }

  /** The real number a decimal literal denotes. */
  ghost function RealValue(d: Decimal): real {
    (if d.negative then -1.0 else 1.0) * (d.mantissa as real) * Pow10Real(d.exponent)
  }

  /** `x == 0` for the float a literal denotes: decided on the digits alone, so `-0.0` and
      `0e5` are zero and no other literal is. */
  predicate IsZero(d: Decimal)
    ensures IsZero(d) <==> RealValue(d) == 0.0
  {
    var p := Pow10Real(d.exponent);
    var m := d.mantissa as real;
    assert m * p == 0.0 <==> m == 0.0;
    d.mantissa == 0
  }

  /** Index of the first exponent marker `e`/`E`, or the length. */
  function ExponentStart(s: string): (i: nat)
    ensures i <= |s|
    ensures forall k :: 0 <= k < i ==> s[k] != 'e' && s[k] != 'E'
    ensures i < |s| ==> s[i] == 'e' || s[i] == 'E'
    decreases |s|
  {
    if |s| == 0 || s[0] == 'e' || s[0] == 'E' then 0 else 1 + ExponentStart(s[1..])
  }

  /** Index of the first `.`, if any. */
  function DotIndex(s: string): (r: Option<nat>)
    ensures r.Some? ==> r.value < |s| && s[r.value] == '.' && '.' !in s[..r.value]
    ensures r.None? ==> '.' !in s
    decreases |s|
  {
    if |s| == 0 then None
    else if s[0] == '.' then Some(0)
    else match DotIndex(s[1..])
      case None => None
      case Some(k) => assert s[..k + 1] == [s[0]] + s[1..][..k]; Some(k + 1)
  }

  /** `float(token)` on a trimmed token: optional sign, digits with at most one `.` and at
      least one digit, then optionally `e`/`E` and a signed integer exponent. */
  function ParseFloat(s: string): (r: Option<Decimal>)
    ensures r.Some? ==> r.value.negative == (|s| > 0 && s[0] == '-')
    ensures IsDigitString(s) ==> r == Some(Decimal(false, DigitsValue(s), 0))
  {
    PlainDigitsParts(s);
    var negative := |s| > 0 && s[0] == '-';
    var body := if |s| > 0 && (s[0] == '+' || s[0] == '-') then s[1..] else s;
    var e := ExponentStart(body);
    var mant := body[..e];
    var exp := if e == |body| then Some(0) else ParseInt(body[e + 1..]);
    var (whole, frac) :=
      match DotIndex(mant)
      case None => (mant, "")
      case Some(k) => (mant[..k], mant[k + 1..]);
    if AllDigits(whole) && AllDigits(frac) && |whole| + |frac| > 0 && exp.Some? then
      assert AllDigits(whole + frac);
      Some(Decimal(negative, DigitsValue(whole + frac), exp.value - |frac|))
    else None
  }

  /** A plain digit string has no exponent marker and no dot. */
  lemma PlainDigitsParts(s: string)
    ensures IsDigitString(s) ==> ExponentStart(s) == |s| && DotIndex(s).None? && s[..|s|] == s && s + "" == s
  {
    if IsDigitString(s) {
      assert forall k :: 0 <= k < |s| ==> s[k] != 'e' && s[k] != 'E' && s[k] != '.';
      assert '.' !in s;
    }
  }

  /** A token `int()` accepts is also a float literal, with the same magnitude. */
  lemma IntegerTokenIsFloat(s: string)
    requires ParseInt(s).Some?
    ensures ParseFloat(s).Some?
    ensures IsZero(ParseFloat(s).value) <==> ParseInt(s).value == 0
    ensures ParseFloat(s).value.exponent == 0
  {
    var body := if s[0] == '+' || s[0] == '-' then s[1..] else s;
    assert ExponentStart(body) == |body|;
    assert body[..|body|] == body && body + "" == body;
  }
}
