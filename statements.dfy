/** The statement scanner of the generic path. A read statement is the word `read`, blanks,
    `(`, blanks, an identifier (letters, digits, underscores), blanks and `)`; a write
    statement is the word `write`, blanks, `(`, blanks, then everything up to the next `)`.
    Matches are collected from the left, resuming after each match and one character
    further after each failed attempt. */
module Statements {
  import opened Wrappers
  import opened Strings

  predicate IsIdentChar(c: char) {
    'a' <= c <= 'z' || 'A' <= c <= 'Z' || '0' <= c <= '9' || c == '_'
  }

  /** What `[a-zA-Z0-9_]+` matches in full. */
  predicate IsIdentifier(s: string) {
    |s| > 0 && forall k :: 0 <= k < |s| ==> IsIdentChar(s[k])
  }

  /** Length of the longest identifier-character prefix. */
  function IdentRun(s: string): (n: nat)
    ensures n <= |s| && forall k :: 0 <= k < n ==> IsIdentChar(s[k])
    ensures n < |s| ==> !IsIdentChar(s[n])
    decreases |s|
  {
    if |s| > 0 && IsIdentChar(s[0]) then 1 + IdentRun(s[1..]) else 0
  }

  /** Length of the longest prefix without `)`: what a greedy `[^)]*` takes. */
  function OpenRun(s: string): (n: nat)
    ensures n <= |s| && forall k :: 0 <= k < n ==> s[k] != ')'
    ensures n < |s| ==> s[n] == ')'
    decreases |s|
  {
    if |s| > 0 && s[0] != ')' then 1 + OpenRun(s[1..]) else 0
  }

  /** One attempt of the read pattern at the start of `s`: the captured variable name and
      the length of the match. The classes `\s`, `(`, the identifier class and `)` are
      disjoint, so backtracking never changes the outcome of the greedy scan. */
  function MatchRead(s: string): (r: Option<(string, nat)>)
    ensures r.Some? ==> IsIdentifier(r.value.0) && 0 < r.value.1 <= |s|
  {
    if !StartsWith(s, "read") then None
    else
      var a := 4 + SpaceRun(s[4..]);
      if a == |s| || s[a] != '(' then None
      else
        var b := a + 1 + SpaceRun(s[a + 1..]);
        var c := b + IdentRun(s[b..]);
        var d := c + SpaceRun(s[c..]);
        if c == b || d == |s| || s[d] != ')' then None
        else
          assert forall k :: 0 <= k < c - b ==> s[b..c][k] == s[b..][k];
          Some((s[b..c], d + 1))
  }

  /** One attempt of the write pattern at the start of `s`. The group runs from the first
      non-blank character after `(` up to the first `)`; when only blanks stand between the
      parentheses, the leading `\s*` gives back its last blank, which becomes the group;
      `write()` does not match. */
  function MatchWrite(s: string): (r: Option<(string, nat)>)
    ensures r.Some? ==> |r.value.0| > 0 && ')' !in r.value.0 && 0 < r.value.1 <= |s|
  {
    if !StartsWith(s, "write") then None
    else
      var a := 5 + SpaceRun(s[5..]);
      if a == |s| || s[a] != '(' then None
      else
        var w := SpaceRun(s[a + 1..]);
        var b := a + 1 + w;
        if b == |s| then None
        else if s[b] != ')' then
          var c := b + OpenRun(s[b..]);
          if c == |s| then None
          else
            NoCloserIn(s, b, c);
            Some((s[b..c], c + 1))
        else if w > 0 then
          assert s[a + 1..][w - 1] == s[b - 1];
          BlankGroup(s, b - 1);
          Some((s[b - 1..b], b + 1))
        else None
  }

  lemma NoCloserIn(s: string, b: nat, c: nat)
    requires b < c <= |s| && forall k :: 0 <= k < c - b ==> s[b..][k] != ')'
    ensures |s[b..c]| > 0 && ')' !in s[b..c]
  {
    forall k | 0 <= k < c - b
      ensures s[b..c][k] != ')'
    {
      assert s[b..c][k] == s[b..][k];
    }
  }

  lemma BlankGroup(s: string, i: nat)
    requires i < |s| && IsSpace(s[i])
    ensures |s[i..i + 1]| > 0 && ')' !in s[i..i + 1]
  {
    assert s[i..i + 1] == [s[i]];
  }

  /** All read statements of the code: the captured names, left to right. */
  function FindReads(s: string): (r: seq<string>)
    ensures forall k :: 0 <= k < |r| ==> IsIdentifier(r[k])
    decreases |s|
  {
    if |s| == 0 then []
    else match MatchRead(s)
      case Some((name, len)) => [name] + FindReads(s[len..])
      case None => FindReads(s[1..])
  }

  /** All write statements of the code: the captured expressions, left to right; each is
      non-empty and free of `)`, and may carry trailing blanks. */
  function FindWrites(s: string): (r: seq<string>)
    ensures forall k :: 0 <= k < |r| ==> |r[k]| > 0 && ')' !in r[k]
    decreases |s|
  {
    if |s| == 0 then []
    else match MatchWrite(s)
      case Some((expr, len)) => [expr] + FindWrites(s[len..])
      case None => FindWrites(s[1..])
  }

  function ReadStatement(x: string): string {
    "read(" + x + ")"
  }

  /** An argument the write pattern captures verbatim. */
  predicate IsWriteArgument(e: string) {
    |e| > 0 && ')' !in e && !IsSpace(e[0])
  }

  function WriteStatement(e: string): string {
    "write(" + e + ")"
  }

  /** Statements written one after another. */
  function ReadProgram(xs: seq<string>): string
    decreases |xs|
  {
    if |xs| == 0 then "" else ReadStatement(xs[0]) + ReadProgram(xs[1..])
  }

  function WriteProgram(es: seq<string>): string
    decreases |es|
  {
    if |es| == 0 then "" else WriteStatement(es[0]) + WriteProgram(es[1..])
  }

  lemma {:induction false} IdentRunExact(t: string, m: nat)
    requires m < |t| && !IsIdentChar(t[m])
    requires forall k :: 0 <= k < m ==> IsIdentChar(t[k])
    ensures IdentRun(t) == m
    decreases m
  {
    if m > 0 {
      IdentRunExact(t[1..], m - 1);
    }
  }

  lemma {:induction false} OpenRunExact(t: string, m: nat)
    requires m < |t| && t[m] == ')'
    requires forall k :: 0 <= k < m ==> t[k] != ')'
    ensures OpenRun(t) == m
    decreases m
  {
    if m > 0 {
      OpenRunExact(t[1..], m - 1);
    }
  }

  /** A whitespace run ends at once before a non-blank character. */
  lemma SpaceRunAt(t: string)
    requires |t| > 0 && !IsSpace(t[0])
    ensures SpaceRun(t) == 0
  {
  }

  lemma MatchReadStatement(x: string, rest: string)
    requires IsIdentifier(x)
    ensures MatchRead(ReadStatement(x) + rest) == Some((x, |x| + 6))
  {
    var t := x + ")" + rest;
    var s := ReadStatement(x) + rest;
    ReadStatementShape(x, rest);
    IdentRunExact(t, |x|);
    SpaceRunAt(s[4..]);
    SpaceRunAt(t);
    SpaceRunAt(t[|x|..]);
    MatchReadAt(s, 5, 5 + |x|);
  }

  /** The read pattern at the start of `s` when `read(` is followed at once by an
      identifier run from `b` to `c` and then by `)`. */
  lemma MatchReadAt(s: string, b: nat, c: nat)
    requires b == 5 && b < c < |s|
    requires StartsWith(s, "read") && SpaceRun(s[4..]) == 0 && s[4] == '('
    requires SpaceRun(s[5..]) == 0 && IdentRun(s[b..]) == c - b
    requires SpaceRun(s[c..]) == 0 && s[c] == ')'
    ensures MatchRead(s) == Some((s[b..c], c + 1))
  {
  }

  lemma ReadStatementShape(x: string, rest: string)
    requires |x| > 0
    ensures var t := x + ")" + rest; var s := ReadStatement(x) + rest;
      s[..4] == "read" && s[4] == '(' && |s[4..]| > 0 && s[4..][0] == '(' && s[5..] == t
      && t[..|x|] == x && t[|x|] == ')' && t[0] == x[0]
      && s[5 + |x|..] == t[|x|..] && |t[|x|..]| > 0 && t[|x|..][0] == ')'
      && s[5 + |x|] == ')' && s[5..5 + |x|] == x
  {
    var t := x + ")" + rest;
    var s := "read(" + t;
    assert s == ReadStatement(x) + rest;
    assert s[5..] == t;
  }

  lemma MatchWriteStatement(e: string, rest: string)
    requires IsWriteArgument(e)
    ensures MatchWrite(WriteStatement(e) + rest) == Some((e, |e| + 7))
  {
    var t := e + ")" + rest;
    var s := WriteStatement(e) + rest;
    WriteStatementShape(e, rest);
    forall k | 0 <= k < |e|
      ensures t[k] != ')'
    {
      assert t[k] == e[k];
    }
    OpenRunExact(t, |e|);
    SpaceRunAt(s[5..]);
    SpaceRunAt(t);
    MatchWriteAt(s, 6 + |e|);
  }

  lemma WriteStatementShape(e: string, rest: string)
    requires |e| > 0
    ensures var t := e + ")" + rest; var s := WriteStatement(e) + rest;
      s[..5] == "write" && s[5] == '(' && |s[5..]| > 0 && s[5..][0] == '(' && s[6..] == t
      && t[0] == e[0] && t[|e|] == ')' && (forall k :: 0 <= k < |e| ==> t[k] == e[k])
      && s[6] == e[0] && s[6..6 + |e|] == e
  {
    var t := e + ")" + rest;
    var s := "write(" + t;
    assert s == WriteStatement(e) + rest;
    assert s[6..] == t;
  }

  /** The write pattern at the start of `s` when `write(` is followed at once by a
      character other than `)`, and the first `)` after it is at `c`. */
  lemma MatchWriteAt(s: string, c: nat)
    requires 6 < c < |s|
    requires StartsWith(s, "write") && SpaceRun(s[5..]) == 0 && s[5] == '('
    requires SpaceRun(s[6..]) == 0 && s[6] != ')' && OpenRun(s[6..]) == c - 6
    ensures MatchWrite(s) == Some((s[6..c], c + 1))
  {
  }

  lemma ReadStep(x: string, rest: string)
    requires IsIdentifier(x)
    ensures FindReads(ReadStatement(x) + rest) == [x] + FindReads(rest)
  {
    MatchReadStatement(x, rest);
    var s := ReadStatement(x) + rest;
    assert s[|x| + 6..] == rest;
  }

  lemma WriteStep(e: string, rest: string)
    requires IsWriteArgument(e)
    ensures FindWrites(WriteStatement(e) + rest) == [e] + FindWrites(rest)
  {
    MatchWriteStatement(e, rest);
    var s := WriteStatement(e) + rest;
    assert s[|e| + 7..] == rest;
  }

  /** Names written as read statements are found again, in order. */
  lemma {:induction false} ReadsRoundTrip(xs: seq<string>)
    requires forall k :: 0 <= k < |xs| ==> IsIdentifier(xs[k])
    ensures FindReads(ReadProgram(xs)) == xs
    decreases |xs|
  {
    if |xs| > 0 {
      ReadStep(xs[0], ReadProgram(xs[1..]));
      ReadsRoundTrip(xs[1..]);
      assert xs == [xs[0]] + xs[1..];
    }
  }

  /** Arguments written as write statements are found again, in order. */
  lemma {:induction false} WritesRoundTrip(es: seq<string>)
    requires forall k :: 0 <= k < |es| ==> IsWriteArgument(es[k])
    ensures FindWrites(WriteProgram(es)) == es
    decreases |es|
  {
    if |es| > 0 {
      WriteStep(es[0], WriteProgram(es[1..]));
      WritesRoundTrip(es[1..]);
      assert es == [es[0]] + es[1..];
    }
  }

  /** Positions where the read pattern cannot start are skipped one character at a time. */
  lemma {:induction false} SkipReads(s: string, n: nat)
    requires n <= |s| && forall i :: 0 <= i < n ==> !StartsWith(s[i..], "read")
    ensures FindReads(s) == FindReads(s[n..])
    decreases n
  {
    if n > 0 {
      assert s[0..] == s;
      assert FindReads(s) == FindReads(s[1..]);
      forall i | 0 <= i < n - 1
        ensures !StartsWith(s[1..][i..], "read")
      {
        assert s[1..][i..] == s[i + 1..];
      }
      SkipReads(s[1..], n - 1);
      assert s[1..][n - 1..] == s[n..];
    }
  }

  /** The write pattern cannot start where `write` is followed by an identifier character
      or `)`: neither is blank, and neither is `(`. */
  predicate WriteBlocked(u: string) {
    !StartsWith(u, "write") || (|u| > 5 && (IsIdentChar(u[5]) || u[5] == ')'))
  }

  lemma NoWriteOpen(u: string)
    requires |u| > 0 && WriteBlocked(u)
    ensures MatchWrite(u) == None
  {
    if StartsWith(u, "write") {
      assert u[5..][0] == u[5];
      SpaceRunAt(u[5..]);
    }
  }

  /** Positions where the write pattern cannot start are skipped one character at a time. */
  lemma {:induction false} SkipWrites(s: string, n: nat)
    requires n <= |s| && forall i :: 0 <= i < n ==> WriteBlocked(s[i..])
    ensures FindWrites(s) == FindWrites(s[n..])
    decreases n
  {
    if n > 0 {
      assert s[0..] == s;
      NoWriteOpen(s);
      assert FindWrites(s) == FindWrites(s[1..]);
      forall i | 0 <= i < n - 1
        ensures WriteBlocked(s[1..][i..])
      {
        assert s[1..][i..] == s[i + 1..];
      }
      SkipWrites(s[1..], n - 1);
      assert s[1..][n - 1..] == s[n..];
    }
  }

  /** Text without the word `read`, closed by `)`, does not start with the word. */
  lemma NoReadAtHead(e: string, t: string)
    requires !Contains(e, "read") && |t| > 0 && t[0] == ')'
    ensures !StartsWith(e + t, "read")
  {
    var u := e + t;
    if |e| >= 4 {
      assert u[..4] == e[..4];
    } else {
      StartsWithAt(u, "read", |e|);
      assert u[|e|] == ')';
    }
  }

  /** Text without the word `read`, closed by `)`, starts the word at none of its positions:
      a `)` never completes it. */
  lemma {:induction false} NoReadIn(e: string, t: string)
    requires !Contains(e, "read") && |t| > 0 && t[0] == ')'
    ensures forall j :: 0 <= j <= |e| ==> !StartsWith((e + t)[j..], "read")
    decreases |e|
  {
    var u := e + t;
    NoReadAtHead(e, t);
    assert u[0..] == u;
    if |e| > 0 {
      NoReadIn(e[1..], t);
      forall j | 1 <= j <= |e|
        ensures !StartsWith(u[j..], "read")
      {
        assert u[j..] == (e[1..] + t)[j - 1..];
      }
    }
  }

  /** No position of `write(` starts the word `read`. */
  lemma NoReadInWriteOpen(u: string)
    ensures forall i :: 0 <= i < 6 ==> !StartsWith(("write(" + u)[i..], "read")
  {
    var s := "write(" + u;
    assert s[0] == 'w' && s[1] == 'r' && s[2] == 'i' && s[3] == 't' && s[4] == 'e' && s[5] == '(';
    forall i | 0 <= i < 6
      ensures !StartsWith(s[i..], "read")
    {
      StartsWithAt(s[i..], "read", 0);
      StartsWithAt(s[i..], "read", 1);
      assert s[i..][0] == s[i];
      if i == 1 {
        assert s[i..][1] == s[2];
      }
    }
  }

  /** No position of a write statement, up to its `)`, starts the word `read` when its
      argument does not mention it. */
  lemma NoReadInWrite(e: string, rest: string)
    requires !Contains(e, "read")
    ensures var s := WriteStatement(e) + rest;
      forall i :: 0 <= i < |e| + 7 ==> !StartsWith(s[i..], "read")
  {
    var t := ")" + rest;
    var s := WriteStatement(e) + rest;
    assert s == "write(" + (e + t);
    NoReadInWriteOpen(e + t);
    NoReadIn(e, t);
    forall i | 6 <= i < |e| + 7
      ensures !StartsWith(s[i..], "read")
    {
      assert s[i..] == (e + t)[i - 6..];
    }
  }

  /** A write statement whose argument does not mention `read` adds no read statement. */
  lemma WriteSkipsReads(e: string, rest: string)
    requires !Contains(e, "read")
    ensures FindReads(WriteStatement(e) + rest) == FindReads(rest)
  {
    var s := WriteStatement(e) + rest;
    NoReadInWrite(e, rest);
    SkipReads(s, |e| + 7);
    assert s[|e| + 7..] == rest;
  }

  /** Identifier characters closed by `)` block the write pattern at their head. */
  lemma WriteBlockedAtHead(x: string, t: string)
    requires (forall k :: 0 <= k < |x| ==> IsIdentChar(x[k])) && |t| > 0 && t[0] == ')'
    ensures WriteBlocked(x + t)
  {
    var u := x + t;
    if |x| < 5 {
      StartsWithAt(u, "write", |x|);
      assert u[|x|] == ')';
    } else {
      assert u[5] == if |x| == 5 then t[0] else x[5];
    }
  }

  /** Identifier characters closed by `)` block the write pattern at every position. */
  lemma {:induction false} NoWriteIn(x: string, t: string)
    requires (forall k :: 0 <= k < |x| ==> IsIdentChar(x[k])) && |t| > 0 && t[0] == ')'
    ensures forall j :: 0 <= j <= |x| ==> WriteBlocked((x + t)[j..])
    decreases |x|
  {
    var u := x + t;
    WriteBlockedAtHead(x, t);
    assert u[0..] == u;
    if |x| > 0 {
      NoWriteIn(x[1..], t);
      forall j | 1 <= j <= |x|
        ensures WriteBlocked(u[j..])
      {
        assert u[j..] == (x[1..] + t)[j - 1..];
      }
    }
  }

  /** No position of a read statement, up to its `)`, starts a write statement. */
  lemma NoWriteInRead(x: string, rest: string)
    requires IsIdentifier(x)
    ensures var s := ReadStatement(x) + rest;
      forall i :: 0 <= i < |x| + 6 ==> WriteBlocked(s[i..])
  {
    var t := ")" + rest;
    var s := ReadStatement(x) + rest;
    assert s == "read(" + (x + t);
    NoWriteIn(x, t);
    forall i | 0 <= i < |x| + 6
      ensures WriteBlocked(s[i..])
    {
      if i < 5 {
        StartsWithAt(s[i..], "write", 0);
        assert s[i..][0] == s[i] != 'w';
      } else {
        assert s[i..] == (x + t)[i - 5..];
      }
    }
  }

  /** A read statement adds no write expression. */
  lemma ReadSkipsWrites(x: string, rest: string)
    requires IsIdentifier(x)
    ensures FindWrites(ReadStatement(x) + rest) == FindWrites(rest)
  {
    var s := ReadStatement(x) + rest;
    NoWriteInRead(x, rest);
    SkipWrites(s, |x| + 6);
    assert s[|x| + 6..] == rest;
  }

  /** A statement of a generated program. */
  datatype Statement = Read(name: string) | Write(arg: string)

  /** A statement the scanner finds again as written: a read of an identifier, or a write
      whose argument the pattern captures whole and which does not mention `read`. */
  predicate WellFormed(st: Statement) {
    match st
    case Read(x) => IsIdentifier(x)
    case Write(e) => IsWriteArgument(e) && !Contains(e, "read")
  }

  function Text(st: Statement): string {
    match st
    case Read(x) => ReadStatement(x)
    case Write(e) => WriteStatement(e)
  }

  /** Statements written one after another. */
  function Program(ss: seq<Statement>): string
    decreases |ss|
  {
    if |ss| == 0 then "" else Text(ss[0]) + Program(ss[1..])
  }

  /** The name one statement reads, if any. */
  function ReadOf(st: Statement): seq<string> {
    if st.Read? then [st.name] else []
  }

  /** The argument one statement writes, if any. */
  function WriteOf(st: Statement): seq<string> {
    if st.Write? then [st.arg] else []
  }

  /** The names read, in order. */
  function ReadsOf(ss: seq<Statement>): seq<string>
    decreases |ss|
  {
    if |ss| == 0 then [] else ReadOf(ss[0]) + ReadsOf(ss[1..])
  }

  /** The arguments written, in order. */
  function WritesOf(ss: seq<Statement>): seq<string>
    decreases |ss|
  {
    if |ss| == 0 then [] else WriteOf(ss[0]) + WritesOf(ss[1..])
  }

  /** One statement in front adds exactly its own read name. */
  lemma StatementReads(st: Statement, rest: string)
    requires WellFormed(st)
    ensures FindReads(Text(st) + rest) == ReadOf(st) + FindReads(rest)
  {
    if st.Read? {
      ReadStep(st.name, rest);
    } else {
      WriteSkipsReads(st.arg, rest);
    }
  }

  /** One statement in front adds exactly its own write argument. */
  lemma StatementWrites(st: Statement, rest: string)
    requires WellFormed(st)
    ensures FindWrites(Text(st) + rest) == WriteOf(st) + FindWrites(rest)
  {
    if st.Read? {
      ReadSkipsWrites(st.name, rest);
    } else {
      WriteStep(st.arg, rest);
    }
  }

  /** Reads and writes interleaved in any order are all found again, each kind in order. */
  lemma MixedRoundTrip(ss: seq<Statement>)
    requires forall k :: 0 <= k < |ss| ==> WellFormed(ss[k])
    ensures FindReads(Program(ss)) == ReadsOf(ss)
    ensures FindWrites(Program(ss)) == WritesOf(ss)
  {
    MixedReads(ss);
    MixedWrites(ss);
  }

  lemma {:induction false} MixedReads(ss: seq<Statement>)
    requires forall k :: 0 <= k < |ss| ==> WellFormed(ss[k])
    ensures FindReads(Program(ss)) == ReadsOf(ss)
    decreases |ss|
  {
    if |ss| > 0 {
      StatementReads(ss[0], Program(ss[1..]));
      MixedReads(ss[1..]);
    }
  }

  lemma {:induction false} MixedWrites(ss: seq<Statement>)
    requires forall k :: 0 <= k < |ss| ==> WellFormed(ss[k])
    ensures FindWrites(Program(ss)) == WritesOf(ss)
    decreases |ss|
  {
    if |ss| > 0 {
      StatementWrites(ss[0], Program(ss[1..]));
      MixedWrites(ss[1..]);
    }
  }

  /** Code in which the word `read` never occurs has no read statements. */
  lemma {:induction false} NoReadWord(s: string)
    requires !Contains(s, "read")
    ensures FindReads(s) == []
    decreases |s|
  {
    if |s| > 0 {
      NoReadWord(s[1..]);
    }
  }

  /** Code in which the word `write` never occurs produces no write expressions. */
  lemma {:induction false} NoWriteWord(s: string)
    requires !Contains(s, "write")
    ensures FindWrites(s) == []
    decreases |s|
  {
    if |s| > 0 {
      NoWriteWord(s[1..]);
    }
  }

  /** `write()` with nothing between the parentheses is not a write statement, while
      `write( )` captures the blank. */
  lemma EmptyWriteArgument()
    ensures MatchWrite("write()") == None
    ensures MatchWrite("write( )") == Some((" ", 8))
  {
    var s := "write( )";
    assert s[..5] == "write" && s[5..][0] == '(' && s[6..][0] == ' ' && s[7..][0] == ')';
    assert s[6..7] == " ";
    var u := "write()";
    assert u[..5] == "write" && u[5..][0] == '(' && u[6..][0] == ')';
  }
}
