/** The interpreter's entry point: tokenize the input, strip the comments, pick
    the archetype and run its executor; the answer is a success flag with either the output
    lines joined by newlines or an error message. */
module Engine {
  import opened Wrappers
  import opened Strings
  import opened Numbers
  import opened Tokenizer
  import opened Comments
  import opened Classifier
  import opened Runtime
  import FactorialProgram
  import FibonacciProgram
  import BubbleSortProgram
  import PalindromeProgram
  import ArithmeticProgram
  import GenericProgram
  import Statements

  /** A success flag with the output lines joined by newlines, or a failure flag with the
      message: the flag says whether the executor succeeded, a failure passes its message on
      unchanged, and a success's text starts with its first line. */
  function Outcome(r: Result<seq<string>>): (o: (bool, string))
    ensures o.0 <==> r.Ok?
    ensures r.Err? ==> o.1 == r.message
    ensures r.Ok? && |r.value| > 0 ==> StartsWith(o.1, r.value[0])
  {
    match r
    case Ok(lines) => (true, JoinLines(lines))
    case Err(message) => (false, message)
  }

  /** The invalid-input message of each canned program. */
  function CannedError(a: Archetype): string {
    match a
    case Factorial => FactorialProgram.ErrorMessage
    case Fibonacci => FibonacciProgram.ErrorMessage
    case BubbleSort => BubbleSortProgram.ErrorMessage
    case Palindrome => PalindromeProgram.ErrorMessage
    case Arithmetic => ArithmeticProgram.ErrorMessage
    case Generic => GenericProgram.NoOutputMessage
  }

  /** The messages the interpreter can fail with. */
  ghost predicate IsErrorMessage(m: string) {
    (exists a :: m == CannedError(a))
    || exists expected: nat, got: nat :: m == GenericProgram.NotEnoughMessage(expected, got)
  }

  /** The executor of one archetype, on the stripped code and the tokens. A canned program
      fails only with its own invalid-input message; the generic path succeeds exactly when
      the tokens cover its reads and it has a write. */
  function Dispatch(a: Archetype, code: string, tokens: seq<string>, host: Host): (r: Result<seq<string>>)
    requires a != Generic ==> HasEnoughInput(a, |tokens|)
    ensures a != Generic && r.Err? ==> r.message == CannedError(a)
    ensures a == Generic ==>
      (r.Ok? <==> |Statements.FindReads(code)| <= |tokens| && |Statements.FindWrites(code)| > 0)
  {
    match a
    case Factorial => FactorialProgram.Run(tokens)
    case Fibonacci => FibonacciProgram.OutputIsSequence(tokens); FibonacciProgram.Spec(tokens)
    case BubbleSort => BubbleSortProgram.Spec(tokens)
    case Palindrome => PalindromeProgram.Spec(tokens)
    case Arithmetic => ArithmeticProgram.Run(tokens, host)
    case Generic => GenericProgram.Outcome(code, tokens, host); GenericProgram.Spec(code, tokens, host)
  }

  /** The interpreter as a function of the code, the raw input text and the host runtime.
      A failure always reports one of the known messages. */
  function Execute(code: string, input: string, host: Host): (r: (bool, string))
    ensures !r.0 ==> IsErrorMessage(r.1)
  {
    var tokens := Tokenize(input);
    var stripped := StripComments(code);
    var a := Classify(stripped, |tokens|);
    var d := Dispatch(a, stripped, tokens, host);
    if a == Generic then GenericFailure(stripped, tokens, host); Outcome(d)
    else Outcome(d)
  }

  /** The generic path fails only by lacking input or output. */
  lemma GenericFailure(code: string, tokens: seq<string>, host: Host)
    ensures var r := GenericProgram.Spec(code, tokens, host);
      r.Err? ==> IsErrorMessage(r.message)
  {
    GenericProgram.FailureMessages(code, tokens, host);
    NotEnoughIsError(|Statements.FindReads(code)|, |tokens|);
    NoOutputIsError();
  }

  lemma NotEnoughIsError(expected: nat, got: nat)
    ensures IsErrorMessage(GenericProgram.NotEnoughMessage(expected, got))
  {
  }

  lemma NoOutputIsError()
    ensures IsErrorMessage(GenericProgram.NoOutputMessage)
  {
    assert GenericProgram.NoOutputMessage == CannedError(Generic);
  }

  method ParseAndExecute(code: string, input: string, host: Host) returns (ok: bool, text: string)
    ensures (ok, text) == Execute(code, input, host)
  {
    var tokens := Tokenize(input);
    var stripped := StripComments(code);
    var r: Result<seq<string>>;
    var a := Classify(stripped, |tokens|);
    match a {
      case Factorial => r := FactorialProgram.Run(tokens);
      case Fibonacci => r := FibonacciProgram.Run(tokens);
      case BubbleSort => r := BubbleSortProgram.Run(tokens);
      case Palindrome => r := PalindromeProgram.Run(tokens);
      case Arithmetic => r := ArithmeticProgram.Run(tokens, host);
      case Generic => r := GenericProgram.Run(stripped, tokens, host);
    }
    assert r == Dispatch(a, stripped, tokens, host);
    ok, text := Outcome(r).0, Outcome(r).1;
  }

  /** Comments never change the interpreter's answer: running the stripped code gives the
      same result as running the original. */
  lemma CommentsAreIgnored(code: string, input: string, host: Host)
    ensures Execute(StripComments(code), input, host) == Execute(code, input, host)
  {
    StripIdempotent(code);
  }

  /** With blank input every marker falls through, so the generic path decides; a program
      with a read statement then fails for lack of input. */
  lemma BlankInput(code: string, host: Host)
    ensures Execute(code, "", host) == Outcome(GenericProgram.Spec(StripComments(code), [], host))
    ensures |Statements.FindReads(StripComments(code))| > 0 ==>
      Execute(code, "", host) ==
        (false, GenericProgram.NotEnoughMessage(|Statements.FindReads(StripComments(code))|, 0))
  {
    var stripped := StripComments(code);
    TokenizeBlank();
    NoInputIsGeneric(stripped);
    assert Execute(code, "", host) == Outcome(Dispatch(Generic, stripped, [], host));
  }

  lemma TokenizeBlank()
    ensures Tokenize("") == []
  {
    assert SplitLines("") == [""];
  }

  /** A successful run's text splits back into exactly the lines the executor produced,
      as long as those lines hold no newline. */
  lemma OutputSplitsIntoLines(r: Result<seq<string>>)
    requires r.Ok? && |r.value| > 0
    requires forall k :: 0 <= k < |r.value| ==> '\n' !in r.value[k]
    ensures Outcome(r).0 && Tokenizer.SplitLines(Outcome(r).1) == r.value
  {
    SplitJoin(r.value);
  }
}
