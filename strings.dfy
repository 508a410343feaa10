/** Character classes and substring tests used by the interpreter's text processing
    (Python's `str.strip`, `in` on strings and the regular-expression class `\s`). */
module Strings {

  /** Whitespace as `str.strip()` and `\s` see it, restricted to ASCII: the space and control
      characters only, and never a letter, a digit or a bracket the statement patterns use. */
  predicate IsSpace(c: char)
    ensures IsSpace(c) ==> c as int <= 32 && c != '('
  {
    c == ' ' || c == '\t' || c == '\n' || c == '\r' || c == '\U{B}' || c == '\U{C}'
    || c == '\U{1C}' || c == '\U{1D}' || c == '\U{1E}' || c == '\U{1F}'
  }

  predicate StartsWith(s: string, p: string) {
    |p| <= |s| && s[..|p|] == p
  }

  /** A prefix fixes every character it covers. */
  lemma StartsWithAt(s: string, p: string, k: nat)
    requires k < |p|
    ensures StartsWith(s, p) ==> k < |s| && s[k] == p[k]
  {
    if StartsWith(s, p) {
      assert s[..|p|][k] == s[k];
    }
  }

  /** `p in s` for strings: `p` occurs at some position of `s`. */
  predicate Contains(s: string, p: string)
    ensures Contains(s, p) ==> |p| <= |s|
    decreases |s|
  {
    StartsWith(s, p) || (|s| > 0 && Contains(s[1..], p))
  }

  /** `p in s` holds exactly when `p` starts at some index of `s`. */
  lemma {:induction false} ContainsAt(s: string, p: string)
    ensures Contains(s, p) <==> exists i :: 0 <= i <= |s| - |p| && StartsWith(s[i..], p)
    decreases |s|
  {
    if StartsWith(s, p) {
      assert s[0..] == s;
    } else if |s| > 0 {
      ContainsAt(s[1..], p);
      if Contains(s[1..], p) {
        var i :| 0 <= i <= |s| - 1 - |p| && StartsWith(s[1..][i..], p);
        assert s[1..][i..] == s[i + 1..];
      } else {
        forall i | 0 <= i <= |s| - |p|
          ensures !StartsWith(s[i..], p)
        {
          if i > 0 {
            assert s[1..][i - 1..] == s[i..];
          }
        }
      }
    }
  }

  /** Number of occurrences of the character `c` in `s`. */
  function Count(s: string, c: char): nat
    decreases |s|
  {
    if |s| == 0 then 0 else (if s[0] == c then 1 else 0) + Count(s[1..], c)
  }

  lemma {:induction false} CountAppend(a: string, b: string, c: char)
    ensures Count(a + b, c) == Count(a, c) + Count(b, c)
    decreases |a|
  {
    if |a| > 0 {
      assert (a + b)[0] == a[0] && (a + b)[1..] == a[1..] + b;
      CountAppend(a[1..], b, c);
    } else {
      assert a + b == b;
    }
  }

  /** A pattern absent from a text is absent from every suffix of it. */
  lemma {:induction false} NotContainsSuffix(s: string, p: string, k: nat)
    requires k <= |s| && !Contains(s, p)
    ensures !Contains(s[k..], p)
    decreases k
  {
    if k > 0 {
      assert s[1..][k - 1..] == s[k..];
      NotContainsSuffix(s[1..], p, k - 1);
    }
  }

  /** Length of the longest whitespace prefix: what `lstrip()` drops and a greedy `\s*`
      takes. */
  function SpaceRun(s: string): (n: nat)
    ensures n <= |s| && forall k :: 0 <= k < n ==> IsSpace(s[k])
    ensures n < |s| ==> !IsSpace(s[n])
    decreases |s|
  {
    if |s| > 0 && IsSpace(s[0]) then 1 + SpaceRun(s[1..]) else 0
  }

  /** Length of the longest whitespace suffix: what `rstrip()` drops. */
  function TrailingSpace(s: string): (n: nat)
    ensures n <= |s| && forall k :: |s| - n <= k < |s| ==> IsSpace(s[k])
    ensures n < |s| ==> !IsSpace(s[|s| - n - 1])
    decreases |s|
  {
    if |s| > 0 && IsSpace(s[|s| - 1]) then 1 + TrailingSpace(s[..|s| - 1]) else 0
  }

  /** No whitespace at either end. */
  predicate Trimmed(s: string) {
    |s| == 0 || (!IsSpace(s[0]) && !IsSpace(s[|s| - 1]))
  }

  /** `s.strip()`: the text between its leading blank run and a blank run at its end,
      itself without blanks at either end; a trimmed text is its own trim. */
  function Trim(s: string): (r: string)
    ensures Trimmed(r)
    ensures forall k :: 0 <= k < |r| ==> r[k] in s
    ensures Trimmed(s) ==> r == s
    ensures SpaceRun(s) + |r| <= |s| && r == s[SpaceRun(s)..][..|r|]
    ensures forall k :: SpaceRun(s) + |r| <= k < |s| ==> IsSpace(s[k])
  {
    var i := SpaceRun(s);
    var t := s[i..];
    var n := TrailingSpace(t);
    var r := t[..|t| - n];
    TrimCut(s, i, t, n, r);
    r
  }

  lemma TrimCut(s: string, i: nat, t: string, n: nat, r: string)
    requires i <= |s| && (forall k :: 0 <= k < i ==> IsSpace(s[k])) && (i < |s| ==> !IsSpace(s[i]))
    requires t == s[i..] && n <= |t| && forall k :: |t| - n <= k < |t| ==> IsSpace(t[k])
    requires n < |t| ==> !IsSpace(t[|t| - n - 1])
    requires r == t[..|t| - n]
    ensures Trimmed(r)
    ensures forall k :: 0 <= k < |r| ==> r[k] in s
    ensures Trimmed(s) ==> r == s
    ensures i + |r| <= |s| && r == s[i..][..|r|]
    ensures forall k :: i + |r| <= k < |s| ==> IsSpace(s[k])
  {
    forall k | 0 <= k < |r|
      ensures r[k] in s
    {
      assert r[k] == t[k] == s[i + k];
    }
    if |r| > 0 {
      assert r[0] == s[i] && r[|r| - 1] == t[|t| - n - 1];
    }
    forall k | i + |r| <= k < |s|
      ensures IsSpace(s[k])
    {
      assert s[k] == t[k - i];
    }
    if Trimmed(s) && |s| > 0 {
      assert i == 0 && t == s;
      assert n == 0;
    }
  }

  /** The blank run of `s` ends at `j`. */
  lemma SpaceRunIs(s: string, j: nat)
    requires j <= |s| && forall k :: 0 <= k < j ==> IsSpace(s[k])
    requires j < |s| ==> !IsSpace(s[j])
    ensures SpaceRun(s) == j
  {
  }

  /** A blank character in front does not change what `strip()` keeps. */
  lemma TrimSpaceFront(c: char, x: string)
    requires IsSpace(c)
    ensures Trim([c] + x) == Trim(x)
  {
    var s := [c] + x;
    var i := SpaceRun(x);
    assert s[1..] == x;
    assert SpaceRun(s) == i + 1;
    assert s[i + 1..] == x[i..];
  }

  /** A blank character at the end does not change what `strip()` keeps. */
  lemma TrimSpaceBack(x: string, c: char)
    requires IsSpace(c)
    ensures Trim(x + [c]) == Trim(x)
  {
    var s := x + [c];
    var i := SpaceRun(x);
    if i < |x| {
      SpaceRunIs(s, i);
      var t := x[i..];
      assert s[i..] == t + [c];
      assert (t + [c])[..|t|] == t;
      assert TrailingSpace(t + [c]) == 1 + TrailingSpace(t);
    } else {
      SpaceRunIs(s, |s|);
      assert x[i..] == "" && s[|s|..] == "";
    }
  }

  /** Index of the first newline, or the length. */
  function LineBreak(s: string): (i: nat)
    ensures i <= |s| && forall k :: 0 <= k < i ==> s[k] != '\n'
    ensures i < |s| ==> s[i] == '\n'
    decreases |s|
  {
    if |s| == 0 || s[0] == '\n' then 0 else LineBreak(s[1..]) + 1
  }

  lemma {:induction false} CountAbsent(s: string, c: char)
    requires forall k :: 0 <= k < |s| ==> s[k] != c
    ensures Count(s, c) == 0
    decreases |s|
  {
    if |s| > 0 {
      CountAbsent(s[1..], c);
    }
  }
}
