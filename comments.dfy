// The comment stripper: first every line comment is deleted up to the end of its line, then
// every block comment is deleted, across lines, from its opener to the first closer after it.
module Comments {
  import opened Wrappers
  import opened Strings

  // First pass: each `//` and the rest of its line go; the newline itself stays.
  function StripLineComments(s: string): (r: string)
    ensures |r| <= |s|
    decreases |s|
  {
    if |s| < 2 then s
    else if s[0] == '/' && s[1] == '/' then StripLineComments(s[LineBreak(s)..])
    else [s[0]] + StripLineComments(s[1..])
  }

  // Position of the first `*/` in `t`, if any: where the non-greedy `.*?` stops.
  function CloseAt(t: string): (r: Option<nat>)
    ensures r.Some? ==> r.value + 2 <= |t| && StartsWith(t[r.value..], "*/")
    ensures r.Some? ==> forall j :: 0 <= j < r.value ==> !StartsWith(t[j..], "*/")
    ensures r.None? <==> !Contains(t, "*/")
    decreases |t|
  {
    if |t| < 2 then
      ShortHasNoCloser(t);
      None
    else if t[0] == '*' && t[1] == '/' then
      StartsCloser(t);
      Some(0)
    else
      StartsCloser(t);
      match CloseAt(t[1..])
      case None => None
      case Some(k) =>
        CloserShift(t, k);
        Some(k + 1)
  }

  lemma ShortHasNoCloser(t: string)
    requires |t| < 2
    ensures !Contains(t, "*/")
  {
    if |t| == 1 {
      assert !StartsWith(t[1..], "*/");
    }
  }

  lemma StartsCloser(t: string)
    requires |t| >= 2
    ensures StartsWith(t, "*/") <==> t[0] == '*' && t[1] == '/'
  {
    if t[0] == '*' && t[1] == '/' {
      assert t[..2] == "*/";
    }
  }

  // A first `*/` at `k` in `t[1..]` is a first `*/` at `k + 1` in `t` when `t` does not
  // start with one.
  lemma CloserShift(t: string, k: nat)
    requires |t| >= 2 && !StartsWith(t, "*/")
    requires k + 2 <= |t[1..]| && StartsWith(t[1..][k..], "*/")
    requires forall j :: 0 <= j < k ==> !StartsWith(t[1..][j..], "*/")
    ensures k + 1 + 2 <= |t| && StartsWith(t[k + 1..], "*/")
    ensures forall j :: 0 <= j < k + 1 ==> !StartsWith(t[j..], "*/")
  {
    assert t[1..][k..] == t[k + 1..];
    forall j | 0 <= j < k + 1
      ensures !StartsWith(t[j..], "*/")
    {
      if j > 0 {
        assert t[1..][j - 1..] == t[j..];
      }
    }
  }

  // Second pass: from the leftmost `/*` to the first `*/` after it, across lines.
  // A `/*` with no `*/` after it does not match and stays, and scanning goes on.
  function StripBlockComments(s: string): (r: string)
    ensures |r| <= |s|
    decreases |s|
  {
    if |s| < 2 then s
    else if s[0] == '/' && s[1] == '*' then
      match CloseAt(s[2..])
      case Some(k) => StripBlockComments(s[k + 4..])
      case None => [s[0]] + StripBlockComments(s[1..])
    else [s[0]] + StripBlockComments(s[1..])
  }

  /** Both passes, in the source's order. The result is never longer than the code, holds
      no `//` and no closed block comment. */
  function StripComments(code: string): (r: string)
    ensures |r| <= |code|
    ensures !Contains(r, "//") && !Terminated(r)
  {
    var l := StripLineComments(code);
    NoLineCommentLeft(code);
    BlockStripKeepsNoLineComment(l);
    BlockStripLeavesNoTerminated(l);
    StripBlockComments(l)
  }

  // Some `/*` is followed, from two characters after it on, by a `*/`.
  predicate Terminated(s: string)
    decreases |s|
  {
    |s| >= 2 && ((StartsWith(s, "/*") && Contains(s[2..], "*/")) || Terminated(s[1..]))
  }

  lemma ContainsTail(s: string, p: string)
    requires |s| > 0
    ensures Contains(s, p) == (StartsWith(s, p) || Contains(s[1..], p))
  {
  }

  lemma ShortHasNoPair(s: string, p: string)
    requires |s| < 2 && |p| == 2
    ensures !Contains(s, p)
  {
    if |s| == 1 {
      assert !StartsWith(s[1..], p);
    }
  }

  lemma StartsWithPair(s: string, a: char, b: char)
    ensures StartsWith(s, [a, b]) <==> |s| >= 2 && s[0] == a && s[1] == b
  {
    if |s| >= 2 && s[0] == a && s[1] == b {
      assert s[..2] == [a, b];
    }
  }

  lemma LineStripFront(s: string)
    requires |s| > 0 && !StartsWith(s, "//")
    ensures |StripLineComments(s)| > 0 && StripLineComments(s)[0] == s[0]
  {
  }

  // After the first pass no `//` is left anywhere.
  lemma {:induction false} NoLineCommentLeft(s: string)
    ensures !Contains(StripLineComments(s), "//")
    decreases |s|
  {
    var r := StripLineComments(s);
    if |s| < 2 {
      ShortHasNoPair(s, "//");
    } else if s[0] == '/' && s[1] == '/' {
      NoLineCommentLeft(s[LineBreak(s)..]);
    } else {
      var r' := StripLineComments(s[1..]);
      NoLineCommentLeft(s[1..]);
      assert r == [s[0]] + r' && r[1..] == r';
      if s[0] == '/' {
        LineStripFront(s[1..]);
      }
      StartsWithPair(r, '/', '/');
      ContainsTail(r, "//");
    }
  }

  // The first pass keeps every newline, so line numbers do not move.
  lemma {:induction false} LineStripKeepsNewlines(s: string)
    ensures Count(StripLineComments(s), '\n') == Count(s, '\n')
    decreases |s|
  {
    if |s| >= 2 {
      if s[0] == '/' && s[1] == '/' {
        var i := LineBreak(s);
        LineStripKeepsNewlines(s[i..]);
        assert s == s[..i] + s[i..];
        CountAppend(s[..i], s[i..], '\n');
        CountAbsent(s[..i], '\n');
      } else {
        LineStripKeepsNewlines(s[1..]);
        CountAppend([s[0]], StripLineComments(s[1..]), '\n');
        assert s == [s[0]] + s[1..];
        CountAppend([s[0]], s[1..], '\n');
      }
    }
  }

  // The first pass changes the text exactly when it holds a `//`.
  lemma {:induction false} LineStripIdentity(s: string)
    ensures StripLineComments(s) == s <==> !Contains(s, "//")
    decreases |s|
  {
    NoLineCommentLeft(s);
    if |s| >= 2 && !Contains(s, "//") {
      ContainsTail(s, "//");
      LineStripIdentity(s[1..]);
      assert s == [s[0]] + s[1..];
    }
  }

  lemma BlockStripFront(s: string)
    requires |s| > 0 && !StartsWith(s, "/*")
    ensures |StripBlockComments(s)| > 0 && StripBlockComments(s)[0] == s[0]
  {
  }

  // The second pass cannot create a `//` in text that has none.
  lemma {:induction false} BlockStripKeepsNoLineComment(s: string)
    requires !Contains(s, "//")
    ensures !Contains(StripBlockComments(s), "//")
    decreases |s|
  {
    var r := StripBlockComments(s);
    if |s| >= 2 {
      ContainsTail(s, "//");
      if s[0] == '/' && s[1] == '*' && CloseAt(s[2..]).Some? {
        var k := CloseAt(s[2..]).value;
        NotContainsSuffix(s, "//", k + 4);
        BlockStripKeepsNoLineComment(s[k + 4..]);
      } else {
        var r' := StripBlockComments(s[1..]);
        BlockStripKeepsNoLineComment(s[1..]);
        assert r == [s[0]] + r' && r[1..] == r';
        if s[0] == '/' {
          BlockStripFront(s[1..]);
        }
        StartsWithPair(r, '/', '/');
        ContainsTail(r, "//");
      }
    }
  }

  lemma {:induction false} TerminatedHasCloser(s: string)
    requires Terminated(s)
    ensures Contains(s, "*/")
    decreases |s|
  {
    if StartsWith(s, "/*") && Contains(s[2..], "*/") {
      assert s[1..][1..] == s[2..];
      ContainsTail(s[1..], "*/");
      ContainsTail(s, "*/");
    } else {
      TerminatedHasCloser(s[1..]);
      ContainsTail(s, "*/");
    }
  }

  lemma {:induction false} TerminatedHasOpener(s: string)
    requires Terminated(s)
    ensures Contains(s, "/*")
    decreases |s|
  {
    if !(StartsWith(s, "/*") && Contains(s[2..], "*/")) {
      TerminatedHasOpener(s[1..]);
    }
    ContainsTail(s, "/*");
  }

  // Text with no terminated block comment passes the second pass unchanged.
  lemma {:induction false} BlockStripUnchanged(s: string)
    requires !Terminated(s)
    ensures StripBlockComments(s) == s
    decreases |s|
  {
    if |s| >= 2 {
      BlockStripUnchanged(s[1..]);
      assert s == [s[0]] + s[1..];
    }
  }

  // Text with a terminated block comment gets strictly shorter.
  lemma {:induction false} BlockStripShrinks(s: string)
    requires Terminated(s)
    ensures |StripBlockComments(s)| < |s|
    decreases |s|
  {
    if !(StartsWith(s, "/*") && Contains(s[2..], "*/")) {
      BlockStripShrinks(s[1..]);
    }
  }

  // The second pass changes the text exactly when it holds a `/*` closed by a later `*/`;
  // in particular a `/*` without a closing `*/` is left in place.
  lemma BlockStripIdentity(s: string)
    ensures StripBlockComments(s) == s <==> !Terminated(s)
  {
    if Terminated(s) {
      BlockStripShrinks(s);
    } else {
      BlockStripUnchanged(s);
    }
  }

  // In text without `//`, the second pass leaves no terminated block comment.
  lemma {:induction false} BlockStripLeavesNoTerminated(s: string)
    requires !Contains(s, "//")
    ensures !Terminated(StripBlockComments(s))
    decreases |s|
  {
    var r := StripBlockComments(s);
    if |s| >= 2 {
      ContainsTail(s, "//");
      if s[0] == '/' && s[1] == '*' {
        match CloseAt(s[2..])
        case Some(k) =>
          NotContainsSuffix(s, "//", k + 4);
          BlockStripLeavesNoTerminated(s[k + 4..]);
        case None =>
          assert s[1..][1..] == s[2..];
          assert !Terminated(s[2..]) by {
            if Terminated(s[2..]) { TerminatedHasCloser(s[2..]); }
          }
          assert !Terminated(s[1..]);
          BlockStripUnchanged(s[1..]);
          assert r == s;
      } else {
        var r' := StripBlockComments(s[1..]);
        BlockStripLeavesNoTerminated(s[1..]);
        assert r == [s[0]] + r' && r[1..] == r';
        if s[0] == '/' {
          BlockStripFront(s[1..]);
        }
        StartsWithPair(r, '/', '*');
        assert !StartsWith(r, "/*");
      }
    }
  }

  // Stripping is idempotent: stripped text has no comment left to strip.
  lemma StripIdempotent(code: string)
    ensures StripComments(StripComments(code)) == StripComments(code)
  {
    var t := StripLineComments(code);
    var u := StripBlockComments(t);
    NoLineCommentLeft(code);
    BlockStripKeepsNoLineComment(t);
    LineStripIdentity(u);
    BlockStripLeavesNoTerminated(t);
    BlockStripUnchanged(u);
  }

  // Text with neither `//` nor `/*` passes both passes unchanged.
  lemma PlainTextUnchanged(code: string)
    requires !Contains(code, "//") && !Contains(code, "/*")
    ensures StripComments(code) == code
  {
    LineStripIdentity(code);
    if Terminated(code) {
      TerminatedHasOpener(code);
    }
    BlockStripUnchanged(code);
  }

  // The second pass on its own is not idempotent: removing a comment can bring a `/`
  // next to a `*`, so the first pass is what makes stripping idempotent.
  lemma BlockPassAloneNotIdempotent()
    ensures StripBlockComments("//*a*/*x*/") == "/*x*/"
    ensures StripBlockComments("/*x*/") == ""
  {
    OpenedExample();
    var s := "//*a*/*x*/";
    assert s[0] == '/' && s[1] == '/' && s[1..] == "/*a*/*x*/";
    assert StripBlockComments(s) == ['/'] + StripBlockComments(s[1..]);
    SlashThenTail();
    ClosedExample();
  }

  lemma SlashThenTail()
    ensures ['/'] + "*x*/" == "/*x*/"
  {
    var r := ['/'] + "*x*/";
    assert r[0] == '/' && r[1] == '*' && r[2] == 'x' && r[3] == '*' && r[4] == '/';
  }

  lemma OpenedExample()
    ensures StripBlockComments("/*a*/*x*/") == "*x*/"
  {
    ClosersOfExample();
    TailOfExample();
    var t := "/*a*/*x*/";
    assert t[2..] == "a*/*x*/" && t[5..] == "*x*/";
  }

  lemma ClosedExample()
    ensures StripBlockComments("/*x*/") == ""
  {
    ClosersOfExample();
    var u := "/*x*/";
    assert u[2..] == "x*/" && u[5..] == "";
  }

  lemma ClosersOfExample()
    ensures CloseAt("a*/*x*/") == Some(1) && CloseAt("x*/") == Some(1)
  {
    assert "a*/*x*/"[1..] == "*/*x*/";
    assert "x*/"[1..] == "*/";
  }

  lemma TailOfExample()
    ensures StripBlockComments("*x*/") == "*x*/"
  {
    assert "*x*/"[1..] == "x*/" && "x*/"[1..] == "*/" && "*/"[1..] == "/";
    assert StripBlockComments("/") == "/";
    assert StripBlockComments("*/") == "*/";
    assert StripBlockComments("x*/") == "x*/";
  }
}
