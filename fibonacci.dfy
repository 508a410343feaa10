/** The Fibonacci archetype: the first token as an integer `n`, then one line per term
    fib(1) .. fib(n), each computed by the source's memoised recursive `fib`. */
module FibonacciProgram {
  import opened Wrappers
  import opened Numbers

  const ErrorMessage := "Invalid input for fibonacci program. Need an integer value."

  /** The sequence `fib` denotes: 0 for every argument up to 0, fib(1) = 1, then sums. */
  function Fib(n: int): nat
    decreases if n > 0 then n else 0
  {
    if n <= 0 then 0 else if n == 1 then 1 else Fib(n - 1) + Fib(n - 2)
  }

  /** Every entry of the memo table holds the term of its index. */
  predicate MemoSound(memo: map<int, nat>) {
    forall k :: k in memo ==> memo[k] == Fib(k)
  }

  /** The nested `fib(num)`: answers from the memo when it can, otherwise recurses on
      num - 1 and num - 2 and records the sum. The memo only grows and stays sound. */
  method FibMemo(num: int, memo: map<int, nat>) returns (v: nat, memo': map<int, nat>)
    requires MemoSound(memo)
    ensures v == Fib(num)
    ensures MemoSound(memo') && memo.Keys <= memo'.Keys
    decreases if num > 0 then num else 0
  {
    if num in memo {
      return memo[num], memo;
    }
    if num <= 0 {
      return 0, memo;
    }
    if num == 1 {
      return 1, memo;
    }
    var a, m1 := FibMemo(num - 1, memo);
    var b, m2 := FibMemo(num - 2, m1);
    memo' := m2[num := a + b];
    v := memo'[num];
  }

  /** The lines the executor prints for `n`: "fib(1)" .. "fib(n)", none when n <= 0. */
  function Lines(n: int): seq<string> {
    seq(if n > 0 then n else 0, i => IntToString(Fib(i + 1)))
  }

  /** The printing loop: for each i from 1 to n, one line with the i-th term, all terms
      computed against one memo table shared by every call. */
  method SequenceLines(n: int) returns (lines: seq<string>)
    ensures |lines| == if n > 0 then n else 0
    ensures forall i :: 0 <= i < |lines| ==> lines[i] == IntToString(Fib(i + 1))
  {
    var memo: map<int, nat> := map[];
    lines := [];
    var i := 1;
    while i < n + 1
      invariant 1 <= i && (n > 0 ==> i <= n + 1) && (n <= 0 ==> i == 1)
      invariant |lines| == i - 1
      invariant forall k :: 0 <= k < |lines| ==> lines[k] == IntToString(Fib(k + 1))
      invariant MemoSound(memo)
    {
      var v;
      v, memo := FibMemo(i, memo);
      lines := lines + [IntToString(v)];
      i := i + 1;
    }
  }

  /** What the executor returns for a first token. */
  function Spec(tokens: seq<string>): Result<seq<string>>
    requires |tokens| > 0
  {
    match ParseInt(tokens[0])
    case None => Err(ErrorMessage)
    case Some(n) => Ok(Lines(n))
  }

  method Run(tokens: seq<string>) returns (r: Result<seq<string>>)
    requires |tokens| > 0
    ensures r == Spec(tokens)
  {
    match ParseInt(tokens[0]) {
      case None =>
        r := Err(ErrorMessage);
      case Some(n) =>
        var lines := SequenceLines(n);
        LinesAre(lines, n);
        r := Ok(lines);
    }
  }

  /** The executor's answer: the error message exactly when the first token is not an
      integer; otherwise max(n, 0) lines, line i reading back as fib(i + 1), and a successful
      empty output when n <= 0. */
  lemma OutputIsSequence(tokens: seq<string>)
    requires |tokens| > 0
    ensures Spec(tokens).Err? <==> ParseInt(tokens[0]).None?
    ensures Spec(tokens).Err? ==> Spec(tokens).message == ErrorMessage
    ensures Spec(tokens).Ok? ==>
      var n := ParseInt(tokens[0]).value;
      |Spec(tokens).value| == (if n > 0 then n else 0)
      && forall i :: 0 <= i < |Spec(tokens).value| ==> ParseInt(Spec(tokens).value[i]) == Some(Fib(i + 1) as int)
    ensures Spec(tokens).Ok? && ParseInt(tokens[0]).value <= 0 ==> Spec(tokens).value == []
  {
    if ParseInt(tokens[0]).Some? {
      LinesReadBack(ParseInt(tokens[0]).value);
    }
  }

  /** The printed sequence read back: max(n, 0) positive numbers starting "1", "1", each
      later one the sum of the two before it. */
  lemma LinesAreFibonacci(n: int)
    ensures |Lines(n)| == if n > 0 then n else 0
    ensures forall i :: 0 <= i < |Lines(n)| ==> ParseInt(Lines(n)[i]).Some? && ParseInt(Lines(n)[i]).value > 0
    ensures |Lines(n)| > 1 ==> Lines(n)[0] == "1" && Lines(n)[1] == "1"
    ensures forall i :: 2 <= i < |Lines(n)| ==>
      ParseInt(Lines(n)[i]).value == ParseInt(Lines(n)[i - 1]).value + ParseInt(Lines(n)[i - 2]).value
  {
    LinesReadBack(n);
    LinesStart(n);
    LinesRecurrence(n);
  }

  lemma LinesReadBack(n: int)
    ensures forall i :: 0 <= i < |Lines(n)| ==> ParseInt(Lines(n)[i]) == Some(Fib(i + 1) as int) && Fib(i + 1) > 0
  {
    var lines := Lines(n);
    forall i | 0 <= i < |lines|
      ensures ParseInt(lines[i]) == Some(Fib(i + 1) as int) && Fib(i + 1) > 0
    {
      LineAt(n, i);
      PrintedTerm(lines[i], i + 1);
    }
  }

  lemma LinesStart(n: int)
    ensures |Lines(n)| > 1 ==> Lines(n)[0] == "1" && Lines(n)[1] == "1"
  {
    if |Lines(n)| > 1 {
      LineAt(n, 0);
      LineAt(n, 1);
      FirstTerms(Lines(n)[0], Lines(n)[1]);
    }
  }

  lemma LinesRecurrence(n: int)
    ensures forall i :: 2 <= i < |Lines(n)| ==> RecurrenceHolds(Lines(n), i)
  {
    forall i | 2 <= i < |Lines(n)|
      ensures RecurrenceHolds(Lines(n), i)
    {
      RecurrenceAt(n, i);
    }
  }

  /** Line `i` and the two before it read back as integers, the first the sum of the others. */
  predicate RecurrenceHolds(lines: seq<string>, i: int)
    requires 2 <= i < |lines|
  {
    ParseInt(lines[i]).Some? && ParseInt(lines[i - 1]).Some? && ParseInt(lines[i - 2]).Some?
    && ParseInt(lines[i]).value == ParseInt(lines[i - 1]).value + ParseInt(lines[i - 2]).value
  }

  lemma LineAt(n: int, j: int)
    requires 0 <= j < |Lines(n)|
    ensures Lines(n)[j] == IntToString(Fib(j + 1))
  {
  }

  lemma RecurrenceAt(n: int, i: int)
    requires 2 <= i < |Lines(n)|
    ensures ParseInt(Lines(n)[i]).Some? && ParseInt(Lines(n)[i - 1]).Some? && ParseInt(Lines(n)[i - 2]).Some?
    ensures ParseInt(Lines(n)[i]).value == ParseInt(Lines(n)[i - 1]).value + ParseInt(Lines(n)[i - 2]).value
  {
    var j1, j2 := i - 1, i - 2;
    var l0, l1, l2 := Lines(n)[i], Lines(n)[j1], Lines(n)[j2];
    LineAt(n, i);
    LineAt(n, j1);
    LineAt(n, j2);
    PrintedTerm(l0, i + 1);
    PrintedTerm(l1, j1 + 1);
    PrintedTerm(l2, j2 + 1);
    assert Fib(i + 1) == Fib(j1 + 1) + Fib(j2 + 1);
  }

  lemma FirstTerms(first: string, second: string)
    requires first == IntToString(Fib(1)) && second == IntToString(Fib(2))
    ensures first == "1" && second == "1"
  {
    assert Fib(2) == 1;
    assert NatToString(1) == "1";
  }

  /** The loop's lines, once known term by term, are the specification's lines. */
  lemma LinesAre(lines: seq<string>, n: int)
    requires |lines| == (if n > 0 then n else 0)
    requires forall i :: 0 <= i < |lines| ==> lines[i] == IntToString(Fib(i + 1))
    ensures lines == Lines(n)
  {
  }

  /** A printed term reads back as itself and is positive. */
  lemma PrintedTerm(line: string, k: int)
    requires k >= 1 && line == IntToString(Fib(k))
    ensures ParseInt(line) == Some(Fib(k) as int) && Fib(k) > 0
  {
    ParseIntToString(Fib(k));
    FibPositive(k);
  }

  lemma {:induction false} FibPositive(k: int)
    requires k >= 1
    ensures Fib(k) > 0
    decreases k
  {
    if k > 2 {
      FibPositive(k - 1);
    }
  }
}
