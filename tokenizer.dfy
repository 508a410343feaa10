/** The input tokenizer: the input is trimmed, split at each newline, every piece is trimmed
    and the blank pieces are dropped; and the newline join used to build the result text. */
module Tokenizer {
  import opened Strings

  /** `s.split('\n')`: always at least one piece, none holding a newline. */
  function SplitLines(s: string): (r: seq<string>)
    ensures |r| > 0
    ensures forall k :: 0 <= k < |r| ==> '\n' !in r[k]
    decreases |s|
  {
    var i := LineBreak(s);
    assert forall k :: 0 <= k < |s[..i]| ==> s[..i][k] != '\n';
    if i == |s| then [s] else [s[..i]] + SplitLines(s[i + 1..])
  }

  /** `"\n".join(lines)`: the first line comes first, and a newline follows it when there
      is a second. */
  function JoinLines(lines: seq<string>): (r: string)
    ensures |lines| > 0 ==> StartsWith(r, lines[0])
    ensures |lines| > 1 ==> |lines[0]| < |r| && r[|lines[0]|] == '\n'
    decreases |lines|
  {
    if |lines| == 0 then ""
    else if |lines| == 1 then lines[0]
    else
      var r := lines[0] + "\n" + JoinLines(lines[1..]);
      assert r[..|lines[0]|] == lines[0];
      r
  }

  /** Joining newline-free lines puts exactly one newline between neighbours. */
  lemma {:induction false} JoinLinesCount(lines: seq<string>)
    requires |lines| > 0
    requires forall k :: 0 <= k < |lines| ==> '\n' !in lines[k]
    ensures Count(JoinLines(lines), '\n') == |lines| - 1
    decreases |lines|
  {
    var x := lines[0];
    assert forall k :: 0 <= k < |x| ==> x[k] != '\n' by {
      forall k | 0 <= k < |x| ensures x[k] != '\n' { assert x[k] in x; }
    }
    CountAbsent(x, '\n');
    if |lines| > 1 {
      var rest := JoinLines(lines[1..]);
      assert forall k :: 0 <= k < |lines[1..]| ==> lines[1..][k] == lines[k + 1];
      JoinLinesCount(lines[1..]);
      CountAppend(x, "\n" + rest, '\n');
      CountAppend("\n", rest, '\n');
      assert x + "\n" + rest == x + ("\n" + rest);
    }
  }

  /** What one line contributes to the tokens: its trim, unless that is empty. */
  function Kept(line: string): seq<string> {
    if Trim(line) == "" then [] else [Trim(line)]
  }

  /** Trims each line and keeps the non-empty results, in order. */
  function NonEmptyTrimmed(lines: seq<string>): (r: seq<string>)
    ensures |r| <= |lines|
    decreases |lines|
  {
    if |lines| == 0 then [] else Kept(lines[0]) + NonEmptyTrimmed(lines[1..])
  }

  /** Every kept token is the non-empty trim of some line. */
  lemma {:induction false} KeptAreTrims(lines: seq<string>)
    ensures forall k :: 0 <= k < |NonEmptyTrimmed(lines)| ==> (NonEmptyTrimmed(lines)[k] != "" &&
      exists j :: 0 <= j < |lines| && NonEmptyTrimmed(lines)[k] == Trim(lines[j]))
    decreases |lines|
  {
    if |lines| > 0 {
      var h, tail := Kept(lines[0]), lines[1..];
      var rest := NonEmptyTrimmed(tail);
      KeptAreTrims(tail);
      var r := NonEmptyTrimmed(lines);
      assert r == h + rest;
      assert |h| <= 1 && (|h| == 1 ==> h[0] == Trim(lines[0]) != "");
      forall k | 0 <= k < |r|
        ensures r[k] != "" && exists j :: 0 <= j < |lines| && r[k] == Trim(lines[j])
      {
        if k < |h| {
          assert r[k] == h[0];
        } else {
          assert r[k] == rest[k - |h|];
          var j :| 0 <= j < |tail| && rest[k - |h|] == Trim(tail[j]);
          assert tail[j] == lines[j + 1];
        }
      }
    }
  }

  /** The trim of every line that is not blank is kept. */
  lemma {:induction false} NonBlankLinesKept(lines: seq<string>)
    ensures forall j :: 0 <= j < |lines| && Trim(lines[j]) != "" ==> Trim(lines[j]) in NonEmptyTrimmed(lines)
    decreases |lines|
  {
    if |lines| > 0 {
      var h, tail := Kept(lines[0]), lines[1..];
      var rest := NonEmptyTrimmed(tail);
      NonBlankLinesKept(tail);
      var r := NonEmptyTrimmed(lines);
      assert r == h + rest;
      forall j | 0 <= j < |lines| && Trim(lines[j]) != ""
        ensures Trim(lines[j]) in r
      {
        if j > 0 {
          assert tail[j - 1] == lines[j];
          assert Trim(lines[j]) in rest;
        } else {
          assert h == [Trim(lines[0])];
          assert r[0] == Trim(lines[0]);
        }
      }
    }
  }

  lemma NonEmptyTrimmedCons(x: string, lines: seq<string>)
    ensures NonEmptyTrimmed([x] + lines) == Kept(x) + NonEmptyTrimmed(lines)
  {
    assert ([x] + lines)[0] == x && ([x] + lines)[1..] == lines;
  }

  /** The kept tokens come in the order of their lines: tokenizing two blocks of lines is
      tokenizing each block in turn. */
  lemma {:induction false} NonEmptyTrimmedAppend(a: seq<string>, b: seq<string>)
    ensures NonEmptyTrimmed(a + b) == NonEmptyTrimmed(a) + NonEmptyTrimmed(b)
    decreases |a|
  {
    if |a| == 0 {
      assert a + b == b;
    } else {
      var ab := a + b;
      assert ab[0] == a[0] && ab[1..] == a[1..] + b;
      NonEmptyTrimmedAppend(a[1..], b);
      var h, x, y := Kept(a[0]), NonEmptyTrimmed(a[1..]), NonEmptyTrimmed(b);
      assert NonEmptyTrimmed(ab) == h + (x + y);
      assert h + (x + y) == (h + x) + y;
    }
  }

  /** A well-formed token: non-empty, trimmed, and without a newline. */
  predicate IsToken(t: string) {
    |t| > 0 && Trimmed(t) && '\n' !in t
  }

  /** The input token sequence. */
  function Tokenize(input: string): (tokens: seq<string>)
    ensures forall k :: 0 <= k < |tokens| ==> IsToken(tokens[k])
  {
    var lines := SplitLines(Trim(input));
    NonEmptyTrimmedTokens(lines);
    NonEmptyTrimmed(lines)
  }

  /** The first line break of `s` is at `j`. */
  lemma LineBreakAt(s: string, j: nat)
    requires j <= |s| && forall k :: 0 <= k < j ==> s[k] != '\n'
    requires j < |s| ==> s[j] == '\n'
    ensures LineBreak(s) == j
  {
  }

  /** How `split('\n')` sees one more character in front of a text. */
  lemma SplitCons(c: char, t: string)
    ensures c == '\n' ==> SplitLines([c] + t) == [""] + SplitLines(t)
    ensures c != '\n' ==> SplitLines([c] + t) == [[c] + SplitLines(t)[0]] + SplitLines(t)[1..]
  {
    var s := [c] + t;
    var i := LineBreak(t);
    assert s[1..] == t;
    if c == '\n' {
      LineBreakAt(s, 0);
      assert s[..0] == "";
    } else {
      LineBreakAt(s, i + 1);
      if i < |t| {
        assert s[..i + 1] == [c] + t[..i] && s[i + 2..] == t[i + 1..];
      }
    }
  }

  /** `split('\n')` gives one more piece than there are newlines. */
  lemma {:induction false} SplitLinesCount(s: string)
    ensures |SplitLines(s)| == Count(s, '\n') + 1
    decreases |s|
  {
    var i := LineBreak(s);
    if i == |s| {
      assert s[..i] == s;
      CountAbsent(s, '\n');
    } else {
      assert s == s[..i] + ([s[i]] + s[i + 1..]);
      CountAppend(s[..i], [s[i]] + s[i + 1..], '\n');
      CountAppend([s[i]], s[i + 1..], '\n');
      CountAbsent(s[..i], '\n');
      SplitLinesCount(s[i + 1..]);
    }
  }

  /** A newline after a text adds one empty piece. */
  lemma {:induction false} SplitSnocNewline(t: string)
    ensures SplitLines(t + "\n") == SplitLines(t) + [""]
    decreases |t|
  {
    var s := t + "\n";
    var i := LineBreak(t);
    if i < |t| {
      var m := t[i + 1..];
      calc {
        SplitLines(s);
        == { LineBreakAt(s, i); }
        [s[..i]] + SplitLines(s[i + 1..]);
        == { assert s[..i] == t[..i] && s[i + 1..] == m + "\n"; }
        [t[..i]] + SplitLines(m + "\n");
        == { SplitSnocNewline(m); }
        [t[..i]] + (SplitLines(m) + [""]);
        ==
        ([t[..i]] + SplitLines(m)) + [""];
      }
    } else {
      calc {
        SplitLines(s);
        == { LineBreakAt(s, |t|); }
        [s[..|t|]] + SplitLines(s[|t| + 1..]);
        == { assert s[..|t|] == t && s[|t| + 1..] == ""; }
        [t] + SplitLines("");
        == { SplitEmpty(); }
        [t] + [""];
      }
    }
  }

  /** Extending the last piece commutes with putting a piece in front. */
  lemma ExtendLast(x: string, m: seq<string>, c: char)
    requires |m| > 0
    ensures var l := [x] + m;
      l[..|l| - 1] + [l[|l| - 1] + [c]] == [x] + (m[..|m| - 1] + [m[|m| - 1] + [c]])
  {
    var l := [x] + m;
    assert l[..|l| - 1] == [x] + m[..|m| - 1];
  }

  /** Any other character after a text extends its last piece. */
  lemma {:induction false} SplitSnocOther(t: string, c: char)
    requires c != '\n'
    ensures var l := SplitLines(t);
      SplitLines(t + [c]) == l[..|l| - 1] + [l[|l| - 1] + [c]]
    decreases |t|
  {
    var s := t + [c];
    var i := LineBreak(t);
    if i < |t| {
      LineBreakAt(s, i);
      assert s[..i] == t[..i] && s[i + 1..] == t[i + 1..] + [c];
      SplitSnocOther(t[i + 1..], c);
      ExtendLast(t[..i], SplitLines(t[i + 1..]), c);
    } else {
      LineBreakAt(s, |s|);
    }
  }

  /** A blank character in front of a text never changes its tokens. */
  lemma SplitConsSpace(c: char, t: string)
    requires IsSpace(c)
    ensures NonEmptyTrimmed(SplitLines([c] + t)) == NonEmptyTrimmed(SplitLines(t))
  {
    SplitCons(c, t);
    var l := SplitLines(t);
    if c == '\n' {
      NonEmptyTrimmedCons("", l);
    } else {
      assert l == [l[0]] + l[1..];
      TrimSpaceFront(c, l[0]);
      NonEmptyTrimmedCons([c] + l[0], l[1..]);
      NonEmptyTrimmedCons(l[0], l[1..]);
    }
  }

  /** A blank character after a text never changes its tokens. */
  lemma SplitSnocSpace(t: string, c: char)
    requires IsSpace(c)
    ensures NonEmptyTrimmed(SplitLines(t + [c])) == NonEmptyTrimmed(SplitLines(t))
  {
    var l := SplitLines(t);
    if c == '\n' {
      SplitSnocNewline(t);
      NonEmptyTrimmedAppend(l, [""]);
      NonEmptyTrimmedCons("", []);
    } else {
      SplitSnocOther(t, c);
      var front, last := l[..|l| - 1], l[|l| - 1];
      assert l == front + [last];
      BlankAfterLast(front, last, c);
    }
  }

  lemma BlankAfterLast(front: seq<string>, last: string, c: char)
    requires IsSpace(c)
    ensures NonEmptyTrimmed(front + [last + [c]]) == NonEmptyTrimmed(front + [last])
  {
    NonEmptyTrimmedAppend(front, [last + [c]]);
    NonEmptyTrimmedAppend(front, [last]);
    TrimSpaceBack(last, c);
    NonEmptyTrimmedCons(last + [c], []);
    NonEmptyTrimmedCons(last, []);
  }

  /** A run of blanks at the front of a text never changes its tokens. */
  lemma {:induction false} BlankPrefix(s: string, i: nat)
    requires i <= |s| && forall k :: 0 <= k < i ==> IsSpace(s[k])
    ensures NonEmptyTrimmed(SplitLines(s)) == NonEmptyTrimmed(SplitLines(s[i..]))
    decreases i
  {
    if i > 0 {
      var t := s[i - 1..];
      calc {
        NonEmptyTrimmed(SplitLines(s));
        == { BlankPrefix(s, i - 1); }
        NonEmptyTrimmed(SplitLines(t));
        == { DropFirstBlank(t); }
        NonEmptyTrimmed(SplitLines(t[1..]));
        == { assert t[1..] == s[i..]; }
        NonEmptyTrimmed(SplitLines(s[i..]));
      }
    }
  }

  lemma DropFirstBlank(s: string)
    requires |s| > 0 && IsSpace(s[0])
    ensures NonEmptyTrimmed(SplitLines(s)) == NonEmptyTrimmed(SplitLines(s[1..]))
  {
    assert s == [s[0]] + s[1..];
    SplitConsSpace(s[0], s[1..]);
  }

  lemma DropLastBlank(s: string)
    requires |s| > 0 && IsSpace(s[|s| - 1])
    ensures NonEmptyTrimmed(SplitLines(s)) == NonEmptyTrimmed(SplitLines(s[..|s| - 1]))
  {
    assert s == s[..|s| - 1] + [s[|s| - 1]];
    SplitSnocSpace(s[..|s| - 1], s[|s| - 1]);
  }

  /** A run of blanks at the end of a text never changes its tokens. */
  lemma {:induction false} BlankSuffix(s: string, j: nat)
    requires j <= |s| && forall k :: j <= k < |s| ==> IsSpace(s[k])
    ensures NonEmptyTrimmed(SplitLines(s)) == NonEmptyTrimmed(SplitLines(s[..j]))
    decreases |s| - j
  {
    if j < |s| {
      var t := s[..|s| - 1];
      assert forall k :: j <= k < |t| ==> t[k] == s[k];
      calc {
        NonEmptyTrimmed(SplitLines(s));
        == { DropLastBlank(s); }
        NonEmptyTrimmed(SplitLines(t));
        == { BlankSuffix(t, j); }
        NonEmptyTrimmed(SplitLines(t[..j]));
        == { assert t[..j] == s[..j]; }
        NonEmptyTrimmed(SplitLines(s[..j]));
      }
    } else {
      assert s[..j] == s;
    }
  }

  /** The outer `strip()` is redundant: for every input, the tokens are the trimmed
      non-blank lines of the input itself. */
  lemma TokenizeIsLinesOfInput(input: string)
    ensures Tokenize(input) == NonEmptyTrimmed(SplitLines(input))
  {
    var i := SpaceRun(input);
    var u := input[i..];
    var r := Trim(input);
    TrimBlankTail(input);
    calc {
      NonEmptyTrimmed(SplitLines(input));
      == { BlankPrefix(input, i); }
      NonEmptyTrimmed(SplitLines(u));
      == { BlankSuffix(u, |r|); }
      NonEmptyTrimmed(SplitLines(u[..|r|]));
      ==
      NonEmptyTrimmed(SplitLines(r));
    }
  }

  /** What `strip()` keeps is a prefix of the text after its leading blanks, and only
      blanks follow it there. */
  lemma TrimBlankTail(s: string)
    ensures var u, r := s[SpaceRun(s)..], Trim(s);
      |r| <= |u| && (forall k :: |r| <= k < |u| ==> IsSpace(u[k])) && u[..|r|] == r
  {
    var i, r := SpaceRun(s), Trim(s);
    var u := s[i..];
    assert forall k :: |r| <= k < |u| ==> u[k] == s[i + k];
  }

  /** Text written as lines, padded and blank ones included, tokenizes into the trim of
      each line that is not blank. */
  lemma TokenizeLines(lines: seq<string>)
    requires forall k :: 0 <= k < |lines| ==> '\n' !in lines[k]
    ensures Tokenize(JoinLines(lines)) == NonEmptyTrimmed(lines)
  {
    if |lines| == 0 {
      TokenizeEmpty();
    } else {
      TokenizeSomeLines(lines);
    }
  }

  lemma TokenizeEmpty()
    ensures Tokenize(JoinLines([])) == []
  {
    calc {
      Tokenize(JoinLines([]));
      == { assert JoinLines([]) == ""; }
      Tokenize("");
      == { TokenizeIsLinesOfInput(""); }
      NonEmptyTrimmed(SplitLines(""));
      == { SplitEmpty(); }
      [];
    }
  }

  lemma TokenizeSomeLines(lines: seq<string>)
    requires |lines| > 0
    requires forall k :: 0 <= k < |lines| ==> '\n' !in lines[k]
    ensures Tokenize(JoinLines(lines)) == NonEmptyTrimmed(lines)
  {
    var s := JoinLines(lines);
    calc {
      Tokenize(s);
      == { TokenizeIsLinesOfInput(s); }
      NonEmptyTrimmed(SplitLines(s));
      == { SplitJoin(lines); }
      NonEmptyTrimmed(lines);
    }
  }

  /** The empty text is one empty line, and yields no tokens. */
  lemma SplitEmpty()
    ensures SplitLines("") == [""] && NonEmptyTrimmed(SplitLines("")) == []
  {
    assert LineBreak("") == 0;
    assert SplitLines("") == [""];
    assert Trimmed("");
    assert Kept("") == [];
    assert [""][1..] == [];
  }

  lemma {:induction false} NonEmptyTrimmedTokens(lines: seq<string>)
    requires forall k :: 0 <= k < |lines| ==> '\n' !in lines[k]
    ensures forall k :: 0 <= k < |NonEmptyTrimmed(lines)| ==> IsToken(NonEmptyTrimmed(lines)[k])
    decreases |lines|
  {
    if |lines| > 0 {
      assert forall k :: 0 <= k < |lines[1..]| ==> lines[1..][k] == lines[k + 1];
      NonEmptyTrimmedTokens(lines[1..]);
      TrimKeepsNoNewline(lines[0]);
      var t := Trim(lines[0]);
      var rest := NonEmptyTrimmed(lines[1..]);
      if t != "" {
        assert IsToken(t);
        assert NonEmptyTrimmed(lines) == [t] + rest;
        forall k | 0 <= k < |[t] + rest|
          ensures IsToken(([t] + rest)[k])
        {
          if k > 0 {
            assert ([t] + rest)[k] == rest[k - 1];
          }
        }
      }
    }
  }

  lemma TrimKeepsNoNewline(s: string)
    requires '\n' !in s
    ensures '\n' !in Trim(s)
  {
    var t := Trim(s);
    forall k | 0 <= k < |t|
      ensures t[k] != '\n'
    {
      assert t[k] in s;
    }
  }

  lemma {:induction false} SplitJoin(lines: seq<string>)
    requires |lines| > 0
    requires forall k :: 0 <= k < |lines| ==> '\n' !in lines[k]
    ensures SplitLines(JoinLines(lines)) == lines
    decreases |lines|
  {
    var s, x := JoinLines(lines), lines[0];
    assert forall k :: 0 <= k < |x| ==> x[k] in x;
    if |lines| == 1 {
      LineBreakAt(s, |s|);
      assert s[..|s|] == s;
    } else {
      var rest := JoinLines(lines[1..]);
      assert s == x + "\n" + rest;
      assert forall k :: 0 <= k < |x| ==> s[k] == x[k];
      assert forall k :: 0 <= k < |lines[1..]| ==> lines[1..][k] == lines[k + 1];
      calc {
        SplitLines(s);
        == { LineBreakAt(s, |x|); }
        [s[..|x|]] + SplitLines(s[|x| + 1..]);
        == { assert s[..|x|] == x && s[|x| + 1..] == rest; }
        [x] + SplitLines(rest);
        == { SplitJoin(lines[1..]); }
        [x] + lines[1..];
        ==
        lines;
      }
    }
  }

  lemma {:induction false} JoinTrimmed(tokens: seq<string>)
    requires forall k :: 0 <= k < |tokens| ==> IsToken(tokens[k])
    ensures Trimmed(JoinLines(tokens))
    ensures |tokens| > 0 ==> |JoinLines(tokens)| > 0 && JoinLines(tokens)[0] == tokens[0][0]
    decreases |tokens|
  {
    if |tokens| > 1 {
      JoinTrimmed(tokens[1..]);
      var rest := JoinLines(tokens[1..]);
      var s := tokens[0] + "\n" + rest;
      assert s[|s| - 1] == rest[|rest| - 1];
    }
  }

  lemma {:induction false} NonEmptyTrimmedOfTokens(tokens: seq<string>)
    requires forall k :: 0 <= k < |tokens| ==> IsToken(tokens[k])
    ensures NonEmptyTrimmed(tokens) == tokens
    decreases |tokens|
  {
    if |tokens| > 0 {
      NonEmptyTrimmedOfTokens(tokens[1..]);
      assert tokens == [tokens[0]] + tokens[1..];
    }
  }

  /** Round trip: joining well-formed tokens with newlines and tokenizing the text gives them
      back, so every token reaches the executors exactly as written. */
  lemma TokenizeJoin(tokens: seq<string>)
    requires forall k :: 0 <= k < |tokens| ==> IsToken(tokens[k])
    ensures Tokenize(JoinLines(tokens)) == tokens
  {
    var s := JoinLines(tokens);
    JoinTrimmed(tokens);
    if |tokens| == 0 {
      assert SplitLines("") == [""];
    } else {
      SplitJoin(tokens);
      NonEmptyTrimmedOfTokens(tokens);
    }
  }
}
