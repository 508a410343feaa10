/** The archetype classifier: marker substrings in the stripped code, each gated by how
    many input tokens there are, tried in a fixed priority order. */
module Classifier {
  import opened Strings

  datatype Archetype = Factorial | Fibonacci | BubbleSort | Palindrome | Arithmetic | Generic

  /** The five canned archetypes, highest priority first. */
  const Priority: seq<Archetype> := [Factorial, Fibonacci, BubbleSort, Palindrome, Arithmetic]

  /** The lexical marker test of each canned archetype. */
  predicate HasMarker(a: Archetype, code: string)
    ensures a != Generic && HasMarker(a, code) ==> |code| >= 3
  {
    match a
    case Factorial => Contains(code, "factorial")
    case Fibonacci => Contains(code, "fib")
    case BubbleSort => Contains(code, "bubble") && Contains(code, "[") && Contains(code, "]")
    case Palindrome => Contains(code, "palindrome") || (Contains(code, "n % 10") && Contains(code, "reversed"))
    case Arithmetic => Contains(code, "sum = num1 + num2")
    case Generic => true
  }

  /** The input guard of each branch: one token for the first four, two for arithmetic.
      Every branch needs a token, and two tokens satisfy every guard. */
  predicate HasEnoughInput(a: Archetype, tokenCount: nat)
    ensures HasEnoughInput(a, tokenCount) ==> tokenCount >= 1
    ensures tokenCount >= 2 ==> HasEnoughInput(a, tokenCount)
  {
    if a == Arithmetic then tokenCount >= 2 else tokenCount > 0
  }

  predicate Applies(a: Archetype, code: string, tokenCount: nat) {
    HasMarker(a, code) && HasEnoughInput(a, tokenCount)
  }

  /** The `if`/`elif` chain that picks the branch to run. */
  function Classify(code: string, tokenCount: nat): (a: Archetype)
    ensures a != Generic ==> HasEnoughInput(a, tokenCount)
  {
    var isFactorial := Contains(code, "factorial");
    var isFibonacci := Contains(code, "fib");
    var isBubbleSort := Contains(code, "bubble") && Contains(code, "[") && Contains(code, "]");
    var isPalindrome := Contains(code, "palindrome") || (Contains(code, "n % 10") && Contains(code, "reversed"));
    var isArithmetic := Contains(code, "sum = num1 + num2");
    if isFactorial && tokenCount > 0 then Factorial
    else if isFibonacci && tokenCount > 0 then Fibonacci
    else if isBubbleSort && tokenCount > 0 then BubbleSort
    else if isPalindrome && tokenCount > 0 then Palindrome
    else if isArithmetic && tokenCount >= 2 then Arithmetic
    else Generic
  }

  /** Exactly one branch runs: the first canned archetype in priority order whose marker
      and input guard both hold, and the generic path exactly when none does. */
  lemma ClassifyIsFirstApplicable(code: string, tokenCount: nat)
    ensures forall i :: 0 <= i < |Priority| ==>
      (Classify(code, tokenCount) == Priority[i] <==>
        Applies(Priority[i], code, tokenCount) && forall j :: 0 <= j < i ==> !Applies(Priority[j], code, tokenCount))
    ensures Classify(code, tokenCount) == Generic <==>
      forall i :: 0 <= i < |Priority| ==> !Applies(Priority[i], code, tokenCount)
  {
    var a := Classify(code, tokenCount);
    var n := tokenCount;
    assert Priority[0] == Factorial && Priority[1] == Fibonacci && Priority[2] == BubbleSort;
    assert Priority[3] == Palindrome && Priority[4] == Arithmetic;
    forall i | 0 <= i < |Priority|
      ensures a == Priority[i] <==>
        Applies(Priority[i], code, n) && forall j :: 0 <= j < i ==> !Applies(Priority[j], code, n)
    {
      EarlierNotApplying(i, code, n);
    }
    assert (forall i :: 0 <= i < |Priority| ==> !Applies(Priority[i], code, n)) <==>
      !Applies(Priority[0], code, n) && !Applies(Priority[1], code, n) && !Applies(Priority[2], code, n) &&
      !Applies(Priority[3], code, n) && !Applies(Priority[4], code, n);
  }

  lemma EarlierNotApplying(i: nat, code: string, n: nat)
    requires i < |Priority|
    ensures (forall j :: 0 <= j < i ==> !Applies(Priority[j], code, n)) <==>
      (i > 0 ==> !Applies(Priority[0], code, n)) && (i > 1 ==> !Applies(Priority[1], code, n)) &&
      (i > 2 ==> !Applies(Priority[2], code, n)) && (i > 3 ==> !Applies(Priority[3], code, n))
  {
  }

  /** With no input tokens every marker falls through and the generic path runs. */
  lemma NoInputIsGeneric(code: string)
    ensures Classify(code, 0) == Generic
  {
  }

  /** The arithmetic branch needs two tokens: with only one, its marker falls through to
      the generic path. */
  lemma ArithmeticNeedsTwoTokens(code: string)
    requires !Contains(code, "factorial") && !Contains(code, "fib") && !Contains(code, "bubble")
    requires !Contains(code, "palindrome") && !Contains(code, "reversed")
    ensures Classify(code, 1) == Generic
    ensures Classify(code, 2) == Arithmetic <==> Contains(code, "sum = num1 + num2")
  {
  }
}
