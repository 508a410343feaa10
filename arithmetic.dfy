/** The arithmetic archetype: the first two tokens as floats, then four lines: their sum,
    difference, product and quotient, the quotient replaced by a fixed message when the
    second value is zero. */
module ArithmeticProgram {
  import opened Wrappers
  import opened Numbers
  import opened Runtime

  const ErrorMessage := "Invalid input for arithmetic. Need numeric values."
  const DivisionByZero := "Division by zero error"

  /** The executor, for at least two tokens (the classifier demands two). */
  function Run(tokens: seq<string>, host: Host): (r: Result<seq<string>>)
    requires |tokens| >= 2
    ensures r.Err? <==> ParseFloat(tokens[0]).None? || ParseFloat(tokens[1]).None?
    ensures r.Err? ==> r.message == ErrorMessage
    ensures r.Ok? ==> |r.value| == 4
  {
    match (ParseFloat(tokens[0]), ParseFloat(tokens[1]))
    case (Some(a), Some(b)) =>
      var quotient := if IsZero(b) then DivisionByZero else host.arithText(Div, a, b);
      Ok([host.arithText(Add, a, b), host.arithText(Sub, a, b), host.arithText(Mul, a, b), quotient])
    case _ => Err(ErrorMessage)
  }

  /** Tokens after the second are ignored. */
  lemma OnlyFirstTwoTokens(tokens: seq<string>, host: Host)
    requires |tokens| >= 2
    ensures Run(tokens, host) == Run(tokens[..2], host)
  {
    assert tokens[..2][0] == tokens[0] && tokens[..2][1] == tokens[1];
  }

  /** The lines come in the order sum, difference, product, quotient, and the host's
      division is consulted exactly when the divisor is not zero. */
  lemma LinesInOrder(tokens: seq<string>, host: Host)
    requires |tokens| >= 2
    requires Run(tokens, host).Ok?
    ensures var a, b := ParseFloat(tokens[0]).value, ParseFloat(tokens[1]).value;
      var lines := Run(tokens, host).value;
      lines[0] == host.arithText(Add, a, b)
      && lines[1] == host.arithText(Sub, a, b)
      && lines[2] == host.arithText(Mul, a, b)
      && (IsZero(b) ==> lines[3] == DivisionByZero)
      && (!IsZero(b) ==> lines[3] == host.arithText(Div, a, b))
  {
  }

  /** Two integer tokens are always accepted, and the quotient line is the division-by-zero
      message whenever the second integer is 0, whatever the host prints. */
  lemma IntegerOperands(tokens: seq<string>, host: Host)
    requires |tokens| >= 2
    requires ParseInt(tokens[0]).Some? && ParseInt(tokens[1]).Some?
    ensures Run(tokens, host).Ok?
    ensures ParseInt(tokens[1]).value == 0 ==> Run(tokens, host).value[3] == DivisionByZero
  {
    IntegerTokenIsFloat(tokens[0]);
    IntegerTokenIsFloat(tokens[1]);
  }
}
