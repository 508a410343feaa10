/** The generic path: bind the variables of the read statements to the input tokens in
    order, then emit one line per write statement. */
module GenericProgram {
  import opened Wrappers
  import opened Strings
  import opened Numbers
  import opened Runtime
  import opened Statements

  const NoOutputMessage := "No output generated. Check your program logic."

  function NotEnoughMessage(expected: nat, got: nat): string {
    "Not enough input values. Expected " + IntToString(expected) + ", got " + IntToString(got) + "."
  }

  /** A bound value: an `int`, a `float` (kept as its decimal literal) or the raw token. */
  datatype Value = IntVal(n: int) | FloatVal(d: Decimal) | StrVal(s: string)

  /** A token with a `.` is tried as a float, any other as an int; a token that does not
      convert is kept as the string itself. */
  function ValueOf(token: string): (v: Value)
    ensures v.IntVal? <==> '.' !in token && ParseInt(token).Some?
    ensures v.IntVal? ==> ParseInt(token) == Some(v.n)
    ensures v.FloatVal? <==> '.' in token && ParseFloat(token).Some?
    ensures v.FloatVal? ==> ParseFloat(token) == Some(v.d)
    ensures v.StrVal? ==> v.s == token
  {
    if '.' in token then
      match ParseFloat(token)
      case Some(d) => FloatVal(d)
      case None => StrVal(token)
    else
      match ParseInt(token)
      case Some(n) => IntVal(n)
      case None => StrVal(token)
  }

  /** `str(value)`: an integer prints so that `int()` reads it back, a raw string prints as
      itself, and a float is printed by the host. */
  function Render(v: Value, host: Host): (r: string)
    ensures v.IntVal? ==> ParseInt(r) == Some(v.n)
    ensures v.StrVal? ==> r == v.s
  {
    if v.IntVal? then ParseIntToString(v.n); IntToString(v.n)
    else match v
    case IntVal(n) => IntToString(n)
    case FloatVal(d) => host.floatText(d)
    case StrVal(s) => s
  }

  /** The `var_values` dictionary: its entries and its insertion order. */
  datatype Env = Env(values: map<string, Value>, order: seq<string>)

  /** The order lists every key exactly once. */
  ghost predicate Wf(env: Env) {
    (forall i, j :: 0 <= i < j < |env.order| ==> env.order[i] != env.order[j])
    && (forall x :: x in env.values <==> x in env.order)
  }

  /** `var_values[name] = v`: a new key goes to the end of the order, an existing key keeps
      its place and takes the new value. */
  function Assign(env: Env, name: string, v: Value): (r: Env)
    requires Wf(env)
    ensures Wf(r)
    ensures r.values == env.values[name := v]
  {
    if name in env.values then Env(env.values[name := v], env.order)
    else Env(env.values[name := v], env.order + [name])
  }

  /** The dictionary after binding `names[i]` to `tokens[i]` for every i, left to right. */
  function Bindings(names: seq<string>, tokens: seq<string>): (env: Env)
    requires |names| <= |tokens|
    ensures Wf(env)
    ensures forall x :: x in env.values <==> x in names
    decreases |names|
  {
    if |names| == 0 then Env(map[], [])
    else
      var n := |names| - 1;
      assert names == names[..n] + [names[n]];
      Assign(Bindings(names[..n], tokens), names[n], ValueOf(tokens[n]))
  }

  /** The binding loop: the i-th name read gets the i-th token; its "Missing input"
      branch is unreachable once `|names| <= |tokens|` has been checked, so the loop body
      is the conversion and the assignment. */
  method BindReads(names: seq<string>, tokens: seq<string>) returns (env: Env)
    requires |names| <= |tokens|
    ensures env == Bindings(names, tokens)
  {
    env := Env(map[], []);
    var i := 0;
    while i < |names|
      invariant i <= |names|
      invariant env == Bindings(names[..i], tokens)
    {
      assert names[..i + 1][..i] == names[..i];
      env := Assign(env, names[i], ValueOf(tokens[i]));
      i := i + 1;
    }
    assert names[..|names|] == names;
  }

  /** A digit string, or a minus sign followed by a digit string. */
  predicate IsIntLiteral(e: string)
    ensures IsIntLiteral(e) ==> ParseInt(e).Some?
  {
    IsDigitString(e) || (StartsWith(e, "-") && IsDigitString(e[1..]))
  }

  /** Whether an expression holds one of the four operator characters. The only operator an
      integer literal can hold is its leading minus sign. */
  predicate HasOperator(e: string)
    ensures IsIntLiteral(e) && HasOperator(e) ==> e[0] == '-'
  {
    var b := '+' in e || '-' in e || '*' in e || '/' in e;
    if IsIntLiteral(e) && !StartsWith(e, "-") then
      assert forall k :: 0 <= k < |e| ==> IsDigit(e[k]);
      b
    else b
  }

  /** The (name, `str(value)`) pairs in dictionary order, as `eval` substitution sees them. */
  function Substitutions(env: Env, host: Host): (r: seq<(string, string)>)
    requires Wf(env)
    ensures |r| == |env.order|
    ensures forall i :: 0 <= i < |r| ==> r[i].0 == env.order[i]
    ensures forall i :: 0 <= i < |r| ==> r[i].0 in env.values && r[i].1 == Render(env.values[r[i].0], host)
  {
    seq(|env.order|, i requires 0 <= i < |env.order| => (env.order[i], Render(env.values[env.order[i]], host)))
  }

  /** The line one write expression produces. */
  function WriteLine(expr: string, env: Env, host: Host): (r: string)
    requires Wf(env)
    ensures var e := Trim(expr);
      e in env.values && env.values[e].IntVal? ==> ParseInt(r) == Some(env.values[e].n)
    ensures var e := Trim(expr);
      e !in env.values && IsIntLiteral(e) ==> r == e && ParseInt(r).Some?
    ensures var e := Trim(expr);
      e !in env.values && !IsIntLiteral(e) && !HasOperator(e) ==> r == "Unknown value: " + e
  {
    var e := Trim(expr);
    if e in env.values then Render(env.values[e], host)
    else if IsIntLiteral(e) then e
    else if HasOperator(e) then host.evalText(e, Substitutions(env, host))
    else "Unknown value: " + e
  }

  /** One line per write expression, in order. */
  function Lines(writes: seq<string>, env: Env, host: Host): (r: seq<string>)
    requires Wf(env)
    ensures |r| == |writes|
    decreases |writes|
  {
    if |writes| == 0 then []
    else Lines(writes[..|writes| - 1], env, host) + [WriteLine(writes[|writes| - 1], env, host)]
  }

  /** The output loop: one line per write expression, in order. */
  method EmitWrites(writes: seq<string>, env: Env, host: Host) returns (lines: seq<string>)
    requires Wf(env)
    ensures lines == Lines(writes, env, host)
  {
    lines := [];
    for i := 0 to |writes|
      invariant lines == Lines(writes[..i], env, host)
    {
      var line := WriteLine(writes[i], env, host);
      assert writes[..i + 1][..i] == writes[..i];
      lines := lines + [line];
    }
    assert writes[..|writes|] == writes;
  }

  lemma {:induction false} LinesAt(writes: seq<string>, env: Env, host: Host, i: nat)
    requires Wf(env) && i < |writes|
    ensures Lines(writes, env, host)[i] == WriteLine(writes[i], env, host)
    decreases |writes|
  {
    var front := writes[..|writes| - 1];
    var last := WriteLine(writes[|writes| - 1], env, host);
    assert Lines(writes, env, host) == Lines(front, env, host) + [last];
    if i < |writes| - 1 {
      LinesAt(front, env, host, i);
      assert front[i] == writes[i];
    }
  }

  /** An integer literal as the write branch recognises it is one `int()` accepts. */
  lemma IntLiteralParses(e: string)
    requires IsIntLiteral(e)
    ensures ParseInt(e).Some?
  {
    if !IsDigitString(e) {
      assert e[0] == '-';
    }
  }

  /** What the generic path returns for the stripped code and the tokens. */
  function Spec(code: string, tokens: seq<string>, host: Host): Result<seq<string>> {
    var names := FindReads(code);
    if |names| > |tokens| then Err(NotEnoughMessage(|names|, |tokens|))
    else
      var lines := Lines(FindWrites(code), Bindings(names, tokens), host);
      if |lines| == 0 then Err(NoOutputMessage) else Ok(lines)
  }

  /** A failed run reports either the shortage of input or the absence of output. */
  lemma FailureMessages(code: string, tokens: seq<string>, host: Host)
    ensures var r := Spec(code, tokens, host);
      r.Err? ==> r.message == NotEnoughMessage(|FindReads(code)|, |tokens|) || r.message == NoOutputMessage
  {
  }

  method Run(code: string, tokens: seq<string>, host: Host) returns (r: Result<seq<string>>)
    ensures r == Spec(code, tokens, host)
  {
    var names := FindReads(code);
    var writes := FindWrites(code);
    if |names| > |tokens| {
      return Err(NotEnoughMessage(|names|, |tokens|));
    }
    var env := BindReads(names, tokens);
    var lines := EmitWrites(writes, env, host);
    if |lines| > 0 {
      r := Ok(lines);
    } else {
      r := Err(NoOutputMessage);
    }
  }

  /** The position of the first occurrence of `x` in `s`. */
  function FirstIndex(s: seq<string>, x: string): (i: nat)
    requires x in s
    ensures i < |s| && s[i] == x && x !in s[..i]
    decreases |s|
  {
    if s[0] == x then 0
    else
      var j := FirstIndex(s[1..], x);
      assert s[..j + 1] == [s[0]] + s[1..][..j];
      j + 1
  }

  lemma {:induction false} FirstIndexExtend(p: seq<string>, y: string, z: string)
    requires z in p
    ensures FirstIndex(p + [y], z) == FirstIndex(p, z)
    decreases |p|
  {
    if p[0] != z {
      assert (p + [y])[1..] == p[1..] + [y];
      FirstIndexExtend(p[1..], y, z);
    }
  }

  /** When a name is read several times, the last read decides its value. */
  lemma {:induction false} LastReadWins(names: seq<string>, tokens: seq<string>, k: nat)
    requires |names| <= |tokens| && k < |names|
    requires forall j :: k < j < |names| ==> names[j] != names[k]
    ensures Bindings(names, tokens).values[names[k]] == ValueOf(tokens[k])
    decreases |names|
  {
    var n := |names| - 1;
    var p := names[..n];
    BindingsLast(names, tokens);
    if k < n {
      LastReadWins(p, tokens, k);
    }
  }

  lemma BindingsLast(names: seq<string>, tokens: seq<string>)
    requires 0 < |names| <= |tokens|
    ensures Bindings(names, tokens).values ==
      Bindings(names[..|names| - 1], tokens).values[names[|names| - 1] := ValueOf(tokens[|names| - 1])]
  {
  }

  /** `order` lists names of `names` by increasing position of first occurrence. */
  ghost predicate InFirstReadOrder(names: seq<string>, order: seq<string>) {
    (forall i :: 0 <= i < |order| ==> order[i] in names)
    && forall i, j :: 0 <= i < j < |order| ==>
      order[i] in names && order[j] in names && FirstIndex(names, order[i]) < FirstIndex(names, order[j])
  }

  lemma ExtendOrder(p: seq<string>, y: string, before: seq<string>)
    requires InFirstReadOrder(p, before)
    ensures InFirstReadOrder(p + [y], before)
    ensures y !in p ==> InFirstReadOrder(p + [y], before + [y])
  {
    var names := p + [y];
    forall i | 0 <= i < |before|
      ensures before[i] in names && FirstIndex(names, before[i]) == FirstIndex(p, before[i])
    {
      FirstIndexExtend(p, y, before[i]);
    }
    if y !in p {
      assert names[..|p|] == p;
      assert FirstIndex(names, y) == |p|;
      var order := before + [y];
      forall i, j | 0 <= i < j < |order|
        ensures order[i] in names && order[j] in names && FirstIndex(names, order[i]) < FirstIndex(names, order[j])
      {
        if j == |before| {
          assert order[j] == y;
        }
      }
    }
  }

  /** The dictionary order is the order in which names are first read. */
  lemma {:induction false} OrderOfFirstReads(names: seq<string>, tokens: seq<string>)
    requires |names| <= |tokens|
    ensures InFirstReadOrder(names, Bindings(names, tokens).order)
    decreases |names|
  {
    if |names| > 0 {
      var n := |names| - 1;
      var p, y := names[..n], names[n];
      assert names == p + [y];
      OrderOfFirstReads(p, tokens);
      ExtendOrder(p, y, Bindings(p, tokens).order);
    }
  }

  /** The generic path succeeds exactly when there are enough tokens for the read
      statements and at least one write statement, with one line per write. */
  lemma Outcome(code: string, tokens: seq<string>, host: Host)
    ensures Spec(code, tokens, host).Ok? <==> |FindReads(code)| <= |tokens| && |FindWrites(code)| > 0
    ensures Spec(code, tokens, host).Ok? ==> |Spec(code, tokens, host).value| == |FindWrites(code)|
    ensures Spec(code, tokens, host) == Err(NotEnoughMessage(|FindReads(code)|, |tokens|)) <==>
      |FindReads(code)| > |tokens|
    ensures Spec(code, tokens, host) == Err(NoOutputMessage) <==>
      |FindReads(code)| <= |tokens| && |FindWrites(code)| == 0
  {
    var names, writes := FindReads(code), FindWrites(code);
    var notEnough := NotEnoughMessage(|names|, |tokens|);
    MessagesDiffer(|names|, |tokens|);
    if |names| <= |tokens| {
      var lines := Lines(writes, Bindings(names, tokens), host);
      assert |lines| == |writes|;
    }
  }

  /** Each output line of a successful run answers its write expression, trimmed: a name
      some read statement bound prints that binding, otherwise a signed integer literal is
      echoed (and `int()` accepts it), and a text with no operator prints
      `Unknown value: ` before it. */
  lemma WriteLines(code: string, tokens: seq<string>, host: Host)
    requires Spec(code, tokens, host).Ok?
    ensures var writes, env := FindWrites(code), Bindings(FindReads(code), tokens);
      var lines := Spec(code, tokens, host).value;
      |lines| == |writes|
      && forall i :: 0 <= i < |lines| ==>
        var e := Trim(writes[i]);
        (e in FindReads(code) ==> lines[i] == Render(env.values[e], host))
        && (e !in FindReads(code) && IsIntLiteral(e) ==> lines[i] == e && ParseInt(e).Some?)
        && (e !in FindReads(code) && !IsIntLiteral(e) && !HasOperator(e) ==> lines[i] == "Unknown value: " + e)
  {
    var writes, env := FindWrites(code), Bindings(FindReads(code), tokens);
    forall i | 0 <= i < |writes|
      ensures var e := Trim(writes[i]);
        var line := Lines(writes, env, host)[i];
        (e in FindReads(code) ==> line == Render(env.values[e], host))
        && (e !in FindReads(code) && IsIntLiteral(e) ==> line == e && ParseInt(e).Some?)
        && (e !in FindReads(code) && !IsIntLiteral(e) && !HasOperator(e) ==> line == "Unknown value: " + e)
    {
      LinesAt(writes, env, host, i);
      if IsIntLiteral(Trim(writes[i])) {
        IntLiteralParses(Trim(writes[i]));
      }
    }
  }

  lemma MessagesDiffer(expected: nat, got: nat)
    ensures NotEnoughMessage(expected, got) != NoOutputMessage
  {
    var m := NotEnoughMessage(expected, got);
    assert m[2] == 't';
    assert NoOutputMessage[2] == ' ';
  }

  /** A program that reads one variable and writes it back prints the value read: an
      integer token as `str(int(token))`, which reads back as the same integer. */
  lemma EchoesInput(code: string, tokens: seq<string>, host: Host)
    requires |tokens| > 0
    requires |FindReads(code)| == 1 && FindWrites(code) == FindReads(code)
    ensures Spec(code, tokens, host) == Ok([Render(ValueOf(tokens[0]), host)])
    ensures '.' !in tokens[0] && ParseInt(tokens[0]).Some? ==>
      ParseInt(Spec(code, tokens, host).value[0]) == ParseInt(tokens[0])
  {
    var x := FindReads(code)[0];
    assert FindReads(code) == [x];
    assert IsIdentifier(x);
    assert !IsSpace(x[0]) && !IsSpace(x[|x| - 1]);
    assert Trim(x) == x;
    var env := Bindings([x], tokens);
    var none: seq<string> := [];
    assert [x][..0] == none;
    assert env.values[x] == ValueOf(tokens[0]);
    assert Lines([x], env, host) == [WriteLine(x, env, host)];
    if '.' !in tokens[0] && ParseInt(tokens[0]).Some? {
      ParseIntToString(ParseInt(tokens[0]).value);
    }
  }

  /** A digit string is also a valid variable name for the read pattern, so reading into
      `5` makes `write(5)` print the value read rather than the literal. */
  lemma DigitNameShadowsLiteral(code: string, host: Host)
    requires FindReads(code) == ["5"] && FindWrites(code) == ["5"]
    ensures Spec(code, ["7"], host) == Ok(["7"])
  {
    EchoesInput(code, ["7"], host);
    SevenIsInteger();
  }

  lemma SevenIsInteger()
    ensures ValueOf("7") == IntVal(7) && IntToString(7) == "7"
  {
    assert "7"[..0] == "";
    assert DigitsValue("7") == 7;
    assert ParseInt("7") == Some(7);
    assert NatToString(7) == "7";
  }
}
