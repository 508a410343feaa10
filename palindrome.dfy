/** The palindrome archetype: the first token as an integer `n`, its decimal digits reversed
    by a `while n > 0` loop, and one line "1" when the reversal equals `n`, else "0". */
module PalindromeProgram {
  import opened Wrappers
  import opened Numbers

  const ErrorMessage := "Invalid input for palindrome check. Need an integer."

  function Pow10(k: nat): nat {
    if k == 0 then 1 else 10 * Pow10(k - 1)
  }

  /** The characters of `s` in reverse order. */
  function Reverse(s: string): (r: string)
    ensures |r| == |s| && forall i :: 0 <= i < |s| ==> r[i] == s[|s| - 1 - i]
    decreases |s|
  {
    if |s| == 0 then [] else [s[|s| - 1]] + Reverse(s[..|s| - 1])
  }

  predicate IsPalindromeText(s: string) {
    Reverse(s) == s
  }

  /** What the loop leaves in `reversed_num`, stated on the decimal text of `n`: its digits
      read backwards, leading zeros then vanishing; 0 when n <= 0, where the loop never runs.
      The reversal has no more digits than `n`, and a single digit is its own reversal. */
  function DigitReversal(n: int): (r: nat)
    ensures n > 0 ==> r < Pow10(|NatToString(n)|)
    ensures 0 < n < 10 ==> r == n
  {
    if n > 0 then
      var t := NatToString(n);
      assert AllDigits(Reverse(t));
      ValueBelowPow(Reverse(t));
      OneDigitReversal(n);
      DigitsValue(Reverse(t))
    else 0
  }

  lemma OneDigitReversal(n: nat)
    ensures 0 < n < 10 ==> DigitsValue(Reverse(NatToString(n))) == n
  {
    if 0 < n < 10 {
      assert Reverse(NatToString(n)) == NatToString(n);
      NatToStringValue(n);
    }
  }

  /** The loop itself as a recursion on (n, reversed_num). */
  function ReverseLoop(m: int, acc: int): int
    decreases if m > 0 then m else 0
  {
    if m <= 0 then acc else ReverseLoop(m / 10, acc * 10 + m % 10)
  }

  lemma {:induction false} ValuePrepend(c: char, t: string)
    requires IsDigit(c) && AllDigits(t)
    ensures DigitsValue([c] + t) == DigitValue(c) * Pow10(|t|) + DigitsValue(t)
    decreases |t|
  {
    var u := [c] + t;
    if |t| == 0 {
      assert u[..0] == [];
    } else {
      var t' := t[..|t| - 1];
      var last := t[|t| - 1];
      assert u[..|u| - 1] == [c] + t' && u[|u| - 1] == last;
      ValuePrepend(c, t');
      var p := Pow10(|t'|);
      assert Pow10(|t|) == 10 * p;
      Shift(DigitValue(c), p, DigitsValue(t'), DigitValue(last));
    }
  }

  lemma Shift(d: int, p: int, v: int, l: int)
    ensures (d * p + v) * 10 + l == d * (10 * p) + (v * 10 + l)
  {
  }

  lemma {:induction false} ReverseLoopValue(m: int, acc: int)
    requires m > 0
    ensures ReverseLoop(m, acc) == acc * Pow10(|NatToString(m)|) + DigitsValue(Reverse(NatToString(m)))
    decreases m
  {
    if m < 10 {
      OneDigitLoop(m, acc);
    } else {
      ReverseLoopValue(m / 10, acc * 10 + m % 10);
      LoopStep(m, acc);
    }
  }

  /** One turn of the loop: the claim for `m / 10` with the digit `m % 10` moved into the
      accumulator gives the claim for `m`. */
  lemma LoopStep(m: int, acc: int)
    requires m >= 10
    requires ReverseLoop(m / 10, acc * 10 + m % 10) ==
      (acc * 10 + m % 10) * Pow10(|NatToString(m / 10)|) + DigitsValue(Reverse(NatToString(m / 10)))
    ensures ReverseLoop(m, acc) == acc * Pow10(|NatToString(m)|) + DigitsValue(Reverse(NatToString(m)))
  {
    ReversedDigitsSplit(m);
    Combine(acc, m % 10, Pow10(|NatToString(m / 10)|), DigitsValue(Reverse(NatToString(m / 10))),
      ReverseLoop(m, acc), Pow10(|NatToString(m)|), DigitsValue(Reverse(NatToString(m))));
  }

  lemma OneDigitLoop(m: int, acc: int)
    requires 0 < m < 10
    ensures ReverseLoop(m, acc) == acc * Pow10(|NatToString(m)|) + DigitsValue(Reverse(NatToString(m)))
  {
    var s := NatToString(m);
    assert s == [DigitChar(m)] && Reverse(s) == s;
    assert DigitsValue(s) == m by {
      assert s[..0] == [];
    }
    assert Pow10(1) == 10;
  }

  /** Reversing the digits of `m` puts its last digit first. */
  lemma ReversedDigitsSplit(m: int)
    requires m >= 10
    ensures |NatToString(m)| == |NatToString(m / 10)| + 1
    ensures Pow10(|NatToString(m)|) == 10 * Pow10(|NatToString(m / 10)|)
    ensures DigitsValue(Reverse(NatToString(m))) ==
      (m % 10) * Pow10(|NatToString(m / 10)|) + DigitsValue(Reverse(NatToString(m / 10)))
  {
    var s, s' := NatToString(m), NatToString(m / 10);
    var ch := DigitChar(m % 10);
    assert s == s' + [ch] && s[..|s| - 1] == s';
    var rs' := Reverse(s');
    assert Reverse(s) == [ch] + rs';
    ValuePrepend(ch, rs');
  }

  lemma Combine(acc: int, d: int, p: int, r: int, loop: int, pow: int, value: int)
    requires loop == (acc * 10 + d) * p + r
    requires pow == 10 * p
    requires value == d * p + r
    ensures loop == acc * pow + value
  {
  }

  /** The reversal loop: while n is positive, its last digit is appended to the reversal and
      removed from n. */
  method ReverseDigits(n: int) returns (reversed: int)
    ensures reversed == DigitReversal(n)
  {
    var m := n;
    reversed := 0;
    while m > 0
      invariant ReverseLoop(m, reversed) == ReverseLoop(n, 0)
      decreases m
    {
      var digit := m % 10;
      reversed := reversed * 10 + digit;
      m := m / 10;
    }
    if n > 0 {
      ReverseLoopValue(n, 0);
    }
  }

  lemma {:induction false} ValueBelowPow(t: string)
    requires AllDigits(t)
    ensures DigitsValue(t) < Pow10(|t|)
    decreases |t|
  {
    if |t| > 0 {
      ValueBelowPow(t[..|t| - 1]);
    }
  }

  lemma {:induction false} ValueAtLeastPow(t: string)
    requires IsDigitString(t) && t[0] != '0'
    ensures DigitsValue(t) >= Pow10(|t| - 1)
    decreases |t|
  {
    if |t| > 1 {
      ValueAtLeastPow(t[..|t| - 1]);
    }
  }

  /** The loop's test `original == reversed_num` holds exactly when the decimal text of `n`
      is a palindrome: 0 gives "1", 10 gives "0", and every negative number gives "0". */
  lemma PalindromeIff(n: int)
    ensures n == DigitReversal(n) <==> IsPalindromeText(IntToString(n))
  {
    var s := IntToString(n);
    if n < 0 {
      assert Reverse(s)[0] == s[|s| - 1] && s[|s| - 1] == NatToString(-n)[|NatToString(-n)| - 1];
    } else if n == 0 {
      assert s == "0";
    } else if Reverse(s)[0] == '0' {
      LeadingZeroReversal(n);
    } else {
      NatToStringValue(n);
      CanonicalRoundTrip(Reverse(s));
    }
  }

  /** A positive number ending in 0 reverses to a shorter, smaller number. */
  lemma LeadingZeroReversal(n: int)
    requires n > 0 && Reverse(NatToString(n))[0] == '0'
    ensures DigitReversal(n) < n
    ensures !IsPalindromeText(IntToString(n))
  {
    var s := NatToString(n);
    var r := Reverse(s);
    NatToStringValue(n);
    assert |s| >= 2;
    ValuePrepend(r[0], r[1..]);
    assert r == [r[0]] + r[1..];
    ValueBelowPow(r[1..]);
    ValueAtLeastPow(s);
  }

  /** What the executor returns for a first token. */
  function Spec(tokens: seq<string>): Result<seq<string>>
    requires |tokens| > 0
  {
    match ParseInt(tokens[0])
    case None => Err(ErrorMessage)
    case Some(n) => Ok([if n == DigitReversal(n) then "1" else "0"])
  }

  method Run(tokens: seq<string>) returns (r: Result<seq<string>>)
    requires |tokens| > 0
    ensures r == Spec(tokens)
  {
    match ParseInt(tokens[0]) {
      case None =>
        r := Err(ErrorMessage);
      case Some(n) =>
        var original := n;
        var reversed := ReverseDigits(n);
        r := Ok([if original == reversed then "1" else "0"]);
    }
  }

  /** One line, "1" exactly when the integer's decimal text reads the same backwards,
      "0" otherwise; a non-integer token is the error. */
  lemma OutputIsPalindromeTest(tokens: seq<string>)
    requires |tokens| > 0
    ensures Spec(tokens).Err? <==> ParseInt(tokens[0]).None?
    ensures Spec(tokens).Ok? ==>
      |Spec(tokens).value| == 1
      && (Spec(tokens).value[0] == "1" <==> IsPalindromeText(IntToString(ParseInt(tokens[0]).value)))
      && (Spec(tokens).value[0] == "1" || Spec(tokens).value[0] == "0")
  {
    if ParseInt(tokens[0]).Some? {
      PalindromeIff(ParseInt(tokens[0]).value);
    }
  }
}
