/** The bubble-sort archetype: integers are read until the first token equal to 0, sorted
    in place by adjacent swaps, and printed one per line. */
module BubbleSortProgram {
  import opened Wrappers
  import opened Numbers

  const ErrorMessage := "Invalid input for bubble sort. Need integers ending with 0."

  predicate Sorted(s: seq<int>) {
    forall i, j :: 0 <= i < j < |s| ==> s[i] <= s[j]
  }

  /** The first k tokens all parse as non-zero integers. */
  predicate NonZeroRun(tokens: seq<string>, k: nat)
    requires k <= |tokens|
  {
    forall i :: 0 <= i < k ==> ParseInt(tokens[i]).Some? && ParseInt(tokens[i]).value != 0
  }

  /** The integers before the first token equal to 0 (or all of them); None when a token up
      to that point is not an integer. */
  function Collect(tokens: seq<string>): (r: Option<seq<int>>)
    ensures r.Some? ==> |r.value| <= |tokens|
    decreases |tokens|
  {
    if |tokens| == 0 then Some([])
    else match ParseInt(tokens[0])
      case None => None
      case Some(v) =>
        if v == 0 then Some([])
        else match Collect(tokens[1..])
          case None => None
          case Some(rest) => Some([v] + rest)
  }

  /** What Collect finds: on success the integers of a non-zero prefix, stopped by a 0 or
      by the end; on failure a token that is not an integer after only non-zero integers. */
  lemma {:induction false} CollectMeaning(tokens: seq<string>)
    ensures var r := Collect(tokens);
      r.Some? ==>
        NonZeroRun(tokens, |r.value|)
        && (forall i :: 0 <= i < |r.value| ==> ParseInt(tokens[i]) == Some(r.value[i]))
        && (|r.value| == |tokens| || ParseInt(tokens[|r.value|]) == Some(0))
    ensures Collect(tokens).None? ==>
      exists k :: 0 <= k < |tokens| && NonZeroRun(tokens, k) && ParseInt(tokens[k]).None?
    decreases |tokens|
  {
    if |tokens| > 0 && ParseInt(tokens[0]).Some? && ParseInt(tokens[0]).value != 0 {
      var tail := tokens[1..];
      CollectMeaning(tail);
      assert forall i :: 0 <= i < |tail| ==> tail[i] == tokens[i + 1];
      match Collect(tail) {
        case None =>
          var k :| 0 <= k < |tail| && NonZeroRun(tail, k) && ParseInt(tail[k]).None?;
          assert NonZeroRun(tokens, k + 1);
          assert ParseInt(tokens[k + 1]).None?;
        case Some(rest) =>
          var r := [ParseInt(tokens[0]).value] + rest;
          assert Collect(tokens) == Some(r);
          assert forall i :: 1 <= i < |r| ==> r[i] == rest[i - 1];
      }
    } else if |tokens| > 0 && ParseInt(tokens[0]).None? {
      assert NonZeroRun(tokens, 0);
    }
  }

  /** Tokens after a token equal to 0 are never parsed. */
  lemma {:induction false} CollectStopsAtZero(tokens: seq<string>, k: nat)
    requires k < |tokens| && ParseInt(tokens[k]) == Some(0)
    ensures Collect(tokens) == Collect(tokens[..k + 1])
    decreases k
  {
    if k > 0 {
      assert tokens[..k + 1][0] == tokens[0];
      assert tokens[..k + 1][1..] == tokens[1..][..k];
      CollectStopsAtZero(tokens[1..], k - 1);
    }
  }

  /** The reading loop: each token in turn is converted to an integer, and a zero ends the list. */
  method CollectNumbers(tokens: seq<string>) returns (r: Option<seq<int>>)
    ensures r == Collect(tokens)
  {
    var numbers: seq<int> := [];
    var i := 0;
    assert tokens[0..] == tokens;
    PrependEmpty(Collect(tokens));
    while i < |tokens|
      invariant 0 <= i <= |tokens|
      invariant Collect(tokens) == Prepend(numbers, Collect(tokens[i..]))
    {
      var num := ParseInt(tokens[i]);
      assert tokens[i..][0] == tokens[i];
      if num.None? {
        return None;
      }
      if num.value == 0 {
        assert Collect(tokens[i..]) == Some([]);
        break;
      }
      assert tokens[i..][1..] == tokens[i + 1..];
      assert Collect(tokens[i..]) == Prepend([num.value], Collect(tokens[i + 1..]));
      PrependAppend(numbers, num.value, Collect(tokens[i + 1..]));
      numbers := numbers + [num.value];
      i := i + 1;
    }
    assert numbers + [] == numbers;
    r := Some(numbers);
  }

  function Prepend(p: seq<int>, r: Option<seq<int>>): Option<seq<int>> {
    match r
    case None => None
    case Some(s) => Some(p + s)
  }

  lemma PrependEmpty(r: Option<seq<int>>)
    ensures Prepend([], r) == r
  {
    if r.Some? {
      assert [] + r.value == r.value;
    }
  }

  lemma PrependAppend(p: seq<int>, x: int, r: Option<seq<int>>)
    ensures Prepend(p, Prepend([x], r)) == Prepend(p + [x], r)
  {
    if r.Some? {
      assert p + ([x] + r.value) == (p + [x]) + r.value;
    }
  }

  /** Exchanges the neighbours at `j` and `j + 1`. */
  method Swap(a: array<int>, j: nat)
    requires j + 1 < a.Length
    modifies a
    ensures a[j] == old(a[j + 1]) && a[j + 1] == old(a[j])
    ensures forall k :: 0 <= k < a.Length && k != j && k != j + 1 ==> a[k] == old(a[k])
    ensures multiset(a[..]) == multiset(old(a[..]))
  {
    a[j], a[j + 1] := a[j + 1], a[j];
  }

  /** One pass of the inner loop over the first m elements: it leaves their maximum at
      position m - 1, touches nothing from m on, and keeps every element of the first m
      no larger than every element after them. */
  method Pass(a: array<int>, m: nat)
    requires 1 <= m <= a.Length
    requires forall p, q :: 0 <= p < m <= q < a.Length ==> a[p] <= a[q]
    modifies a
    ensures multiset(a[..]) == multiset(old(a[..]))
    ensures forall k :: m <= k < a.Length ==> a[k] == old(a[k])
    ensures forall p, q :: 0 <= p < m <= q < a.Length ==> a[p] <= a[q]
    ensures forall p :: 0 <= p < m ==> a[p] <= a[m - 1]
  {
    for j := 0 to m - 1
      invariant multiset(a[..]) == multiset(old(a[..]))
      invariant forall k :: m <= k < a.Length ==> a[k] == old(a[k])
      invariant forall p, q :: 0 <= p < m <= q < a.Length ==> a[p] <= a[q]
      invariant forall p :: 0 <= p <= j ==> a[p] <= a[j]
    {
      if a[j] > a[j + 1] {
        Swap(a, j);
      }
    }
  }

  /** `numbers` sorted in place: n passes of adjacent compare-and-swap, pass i over the
      first n - i elements. */
  method BubbleSort(a: array<int>)
    modifies a
    ensures Sorted(a[..])
    ensures multiset(a[..]) == multiset(old(a[..]))
  {
    var n := a.Length;
    for i := 0 to n
      invariant multiset(a[..]) == multiset(old(a[..]))
      invariant forall p, q :: n - i <= p < q < n ==> a[p] <= a[q]
      invariant forall p, q :: 0 <= p < n - i <= q < n ==> a[p] <= a[q]
    {
      Pass(a, n - i);
    }
  }

  /** Insertion into a sorted sequence: the reference sort below is built from it. */
  function Insert(x: int, s: seq<int>): (r: seq<int>)
    ensures multiset(r) == multiset(s) + multiset{x}
    decreases |s|
  {
    if |s| == 0 then [x]
    else if x <= s[0] then [x] + s
    else
      assert s == [s[0]] + s[1..];
      [s[0]] + Insert(x, s[1..])
  }

  /** Insertion keeps a sorted sequence sorted. */
  lemma {:induction false} InsertSorted(x: int, s: seq<int>)
    requires Sorted(s)
    ensures Sorted(Insert(x, s))
    decreases |s|
  {
    if |s| > 0 && x > s[0] {
      var r' := Insert(x, s[1..]);
      InsertSorted(x, s[1..]);
      BoundedBelow(s[0], s, x, r');
      assert Insert(x, s) == [s[0]] + r';
    }
  }

  /** Every element of `r` is at least `s[0]` when `r` holds the tail of sorted `s` and `x`. */
  lemma BoundedBelow(b: int, s: seq<int>, x: int, r: seq<int>)
    requires |s| > 0 && b == s[0] && b < x
    requires multiset(r) == multiset(s[1..]) + multiset{x}
    ensures Sorted(s) ==> forall k :: 0 <= k < |r| ==> b <= r[k]
  {
    if Sorted(s) {
      forall k | 0 <= k < |r|
        ensures b <= r[k]
      {
        assert r[k] in multiset(r);
        if r[k] != x {
          assert r[k] in multiset(s[1..]);
          assert r[k] in s[1..];
        }
      }
    }
  }

  /** An insertion sort, independent of the array algorithm: a sorted permutation. */
  function SortSeq(s: seq<int>): (r: seq<int>)
    ensures Sorted(r)
    ensures multiset(r) == multiset(s)
    decreases |s|
  {
    if |s| == 0 then []
    else
      assert s == [s[0]] + s[1..];
      InsertSorted(s[0], SortSeq(s[1..]));
      Insert(s[0], SortSeq(s[1..]))
  }

  lemma HeadIsLeast(s: seq<int>, x: int)
    requires Sorted(s) && x in multiset(s)
    ensures |s| > 0 && s[0] <= x
  {
    assert x in s;
    var k :| 0 <= k < |s| && s[k] == x;
  }

  lemma TailMultiset(s: seq<int>)
    requires |s| > 0
    ensures multiset(s[1..]) == multiset(s) - multiset{s[0]}
  {
    assert s == [s[0]] + s[1..];
    assert multiset(s) == multiset{s[0]} + multiset(s[1..]);
  }

  lemma SortedTail(s: seq<int>)
    requires Sorted(s) && |s| > 0
    ensures Sorted(s[1..])
  {
  }

  /** A multiset has only one sorted arrangement. */
  lemma {:induction false} SortedUnique(a: seq<int>, b: seq<int>)
    requires Sorted(a) && Sorted(b) && multiset(a) == multiset(b)
    ensures a == b
    decreases |a|
  {
    assert |a| == |multiset(a)| && |b| == |multiset(b)|;
    if |a| > 0 {
      var x, y := a[0], b[0];
      assert x in multiset(b) by { assert x in a; }
      assert y in multiset(a) by { assert y in b; }
      HeadIsLeast(a, y);
      HeadIsLeast(b, x);
      assert x == y;
      TailMultiset(a);
      TailMultiset(b);
      SortedTail(a);
      SortedTail(b);
      SortedUnique(a[1..], b[1..]);
      assert a == [x] + a[1..];
      assert b == [y] + b[1..];
    }
  }

  /** Re-sorting sorted output changes nothing. */
  lemma SortIdempotent(s: seq<int>)
    ensures SortSeq(SortSeq(s)) == SortSeq(s)
  {
    SortedUnique(SortSeq(SortSeq(s)), SortSeq(s));
  }

  /** Each number printed by `str`, in order. */
  function Printed(s: seq<int>): (lines: seq<string>)
    ensures |lines| == |s|
  {
    seq(|s|, i requires 0 <= i < |s| => IntToString(s[i]))
  }

  /** Every printed line reads back as its number. */
  lemma PrintedReadsBack(s: seq<int>)
    ensures forall i :: 0 <= i < |s| ==> ParseInt(Printed(s)[i]) == Some(s[i])
  {
    forall i | 0 <= i < |s|
      ensures ParseInt(Printed(s)[i]) == Some(s[i])
    {
      ReadsBack(Printed(s)[i], s[i]);
    }
  }

  lemma ReadsBack(line: string, n: int)
    requires line == IntToString(n)
    ensures ParseInt(line) == Some(n)
  {
    ParseIntToString(n);
  }

  /** What the executor returns. */
  function Spec(tokens: seq<string>): Result<seq<string>> {
    match Collect(tokens)
    case None => Err(ErrorMessage)
    case Some(numbers) => Ok(Printed(SortSeq(numbers)))
  }

  /** The executor: read, sort in place, print. */
  method Run(tokens: seq<string>) returns (r: Result<seq<string>>)
    ensures r == Spec(tokens)
  {
    var collected := CollectNumbers(tokens);
    if collected.None? {
      return Err(ErrorMessage);
    }
    var numbers := collected.value;
    var a := new int[|numbers|](k requires 0 <= k < |numbers| => numbers[k]);
    assert a[..] == numbers;
    BubbleSort(a);
    SortedUnique(a[..], SortSeq(numbers));
    var lines := PrintLines(a[..]);
    r := Ok(lines);
  }

  /** The printing loop: one line per number, in order. */
  method PrintLines(numbers: seq<int>) returns (lines: seq<string>)
    ensures lines == Printed(numbers)
  {
    lines := [];
    for k := 0 to |numbers|
      invariant |lines| == k
      invariant forall t :: 0 <= t < k ==> lines[t] == IntToString(numbers[t])
    {
      lines := lines + [IntToString(numbers[k])];
    }
    PrintedIs(lines, numbers);
  }

  lemma PrintedIs(lines: seq<string>, s: seq<int>)
    requires |lines| == |s| && forall t :: 0 <= t < |s| ==> lines[t] == IntToString(s[t])
    ensures lines == Printed(s)
  {
  }

  /** The output read back is a sorted permutation of the integers before the first 0 and
      holds no 0; a non-integer token before that 0 is the error. */
  lemma OutputSortedPermutation(tokens: seq<string>)
    ensures Spec(tokens).Err? <==> Collect(tokens).None?
    ensures Spec(tokens).Ok? ==>
      var numbers := Collect(tokens).value;
      var sorted := SortSeq(numbers);
      var lines := Spec(tokens).value;
      |lines| == |numbers|
      && (forall i :: 0 <= i < |lines| ==> ParseInt(lines[i]) == Some(sorted[i]))
      && Sorted(sorted) && multiset(sorted) == multiset(numbers) && 0 !in sorted
  {
    if Collect(tokens).Some? {
      CollectMeaning(tokens);
      var numbers := Collect(tokens).value;
      var sorted := SortSeq(numbers);
      PrintedReadsBack(sorted);
      assert forall i :: 0 <= i < |numbers| ==> numbers[i] != 0 by {
        forall i | 0 <= i < |numbers|
          ensures numbers[i] != 0
        {
          assert ParseInt(tokens[i]) == Some(numbers[i]);
        }
      }
      assert 0 !in multiset(numbers);
    }
  }

  /** Reading integers up to a 0 recovers them exactly. */
  lemma {:induction false} CollectOfPrinted(s: seq<int>, rest: seq<string>)
    requires 0 !in s
    ensures Collect(Printed(s) + ["0"] + rest) == Some(s)
    decreases |s|
  {
    var t := Printed(s) + ["0"] + rest;
    if |s| == 0 {
      CollectAtZero(t);
    } else {
      PrintedCons(s, rest);
      ReadsBack(t[0], s[0]);
      CollectOfPrinted(s[1..], rest);
      CollectCons(t, s[0]);
      assert s == [s[0]] + s[1..];
    }
  }

  lemma PrintedCons(s: seq<int>, rest: seq<string>)
    requires |s| > 0
    ensures var t := Printed(s) + ["0"] + rest;
      |t| > 0 && t[0] == IntToString(s[0]) && t[1..] == Printed(s[1..]) + ["0"] + rest
  {
    assert Printed(s)[1..] == Printed(s[1..]);
  }

  lemma CollectAtZero(t: seq<string>)
    requires |t| > 0 && t[0] == "0"
    ensures Collect(t) == Some([])
  {
    assert "0"[..0] == "";
    assert DigitsValue("0") == 0;
    assert ParseInt("0") == Some(0);
  }

  lemma CollectCons(t: seq<string>, v: int)
    requires |t| > 0 && ParseInt(t[0]) == Some(v) && v != 0 && Collect(t[1..]).Some?
    ensures Collect(t) == Some([v] + Collect(t[1..]).value)
  {
  }

  /** Feeding the output back in, terminated by 0, prints the same lines again. */
  lemma ResortIsIdempotent(tokens: seq<string>)
    requires Spec(tokens).Ok?
    ensures Spec(Spec(tokens).value + ["0"]) == Spec(tokens)
  {
    OutputSortedPermutation(tokens);
    var sorted := SortSeq(Collect(tokens).value);
    assert 0 !in sorted;
    CollectOfPrinted(sorted, []);
    assert Printed(sorted) + ["0"] + [] == Spec(tokens).value + ["0"];
    SortIdempotent(Collect(tokens).value);
  }
}
