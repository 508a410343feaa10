# MiniC fallback interpreter, modelled in Dafny

This project models `parse_and_execute(code, input_values)`, the interpreter the MiniC
web front end falls back on when no compiler is available. It does not execute the MiniC
program. It works as a pipeline:

1. It splits the input text into trimmed, non-empty lines (the tokens).
2. It strips `//` and `/* … */` comments from the code.
3. It tests the code for marker substrings to pick one of five canned programs:
   factorial, Fibonacci, bubble sort, palindrome test, or four-function arithmetic.
4. It runs the chosen program on the tokens. When no marker applies, or when the input is
   too short for the picked program, a generic path runs instead. The generic path binds
   `read(x)` statements to tokens and answers each `write(e)` statement.
5. The answer is a success flag with the output lines joined by newlines, or `False` with
   an error message.

Each stage is one module:

- `Tokenizer`, `Comments` and `Classifier` are the first three stages.
- `FactorialProgram`, `FibonacciProgram`, `BubbleSortProgram`, `PalindromeProgram`,
  `ArithmeticProgram` and `GenericProgram` are the executors.
- `Statements` is the pair of statement-extracting regular expressions.
- `Engine` is the whole interpreter.
- `Numbers` and `Strings` model Python's `int()`, `float()` and `str()` on integers, and
  `strip`, `in` and `\s` on text.

The source's form is kept:

- Tokenizing, comment stripping, classification, `factorial` and the arithmetic branch are
  pure functions.
- The memoised `fib` is a method that threads its memo table.
- The bubble-sort executor reads numbers in a loop. It then sorts an `array` in place with
  the source's nested loops, and prints in a loop.
- The palindrome executor is the source's `while n > 0` digit-reversal loop.
- The generic path fills its dictionary and its output list in loops. The dictionary is a
  `map` plus its insertion order, because the order decides the order of `eval`
  substitution.
- Each method is proved equal to a specification function. The lemmas are stated about
  those functions.

Three parts of the Python runtime stay uninterpreted. They are fields of a `Host` value
passed in, and every lemma holds for every host:

- how a float is printed;
- float arithmetic together with `format_num`;
- the `eval` of a write expression that holds an operator, after variable substitution.

Two facts about comment stripping follow from the code's regular expressions:

- An unterminated `/*` is kept. The non-greedy `/\*.*?\*/` needs a closing `*/`, so the
  text after an unclosed `/*` stays as it is (`Comments.BlockStripIdentity`).
- Stripping comments twice gives the same code as stripping once
  (`Comments.StripIdempotent`). This holds because the `//` pass runs first: a block
  comment whose removal could bring `/` next to `*` or `/` already contains a `//`, which
  the first pass removed. The block pass on its own is not idempotent
  (`Comments.BlockPassAloneNotIdempotent`).

## Model

| member | source | states |
|---|---|---|
| Strings.Trim | frontend/simple_backend.py:9 | `strip()`: the result is the text with its leading whitespace run and its trailing whitespace run removed: it starts where the leading run ends, everything after it is whitespace, and it has no whitespace at either end; it holds only characters of the text, and is the text itself when that is already trimmed |
| Strings.IsSpace | frontend/simple_backend.py:9 | every character `strip()` and `\s` treat as whitespace is an ASCII space or control character, and never `(` |
| Strings.Contains | frontend/simple_backend.py:20-24 | `p in s` can hold only when `p` is no longer than `s` |
| Strings.ContainsAt | frontend/simple_backend.py:20-24 | `p in s` holds if and only if `p` starts at some index of `s` |
| Tokenizer.SplitLinesCount | frontend/simple_backend.py:9 | `split('\n')` gives one more piece than there are newlines |
| Tokenizer.SplitLines | frontend/simple_backend.py:9 | `split('\n')` gives at least one piece, and no piece holds a newline |
| Tokenizer.Tokenize | frontend/simple_backend.py:9 | every token is non-empty, trimmed and free of newlines |
| Tokenizer.NonEmptyTrimmed | frontend/simple_backend.py:9 | the filter keeps at most one token per line |
| Tokenizer.KeptAreTrims | frontend/simple_backend.py:9 | every kept piece is non-empty and is the trim of some line |
| Tokenizer.NonBlankLinesKept | frontend/simple_backend.py:9 | the trim of every line that is not blank is kept |
| Tokenizer.NonEmptyTrimmedAppend | frontend/simple_backend.py:9 | the filter works line by line: filtering two runs of lines one after the other gives the two results one after the other, so the order of the lines is kept |
| Tokenizer.BlankPrefix | frontend/simple_backend.py:9 | whitespace at the front of the input never changes the tokens, newlines included |
| Tokenizer.BlankSuffix | frontend/simple_backend.py:9 | whitespace at the end of the input never changes the tokens, newlines included |
| Tokenizer.TokenizeIsLinesOfInput | frontend/simple_backend.py:9 | for every input, the tokens are the trimmed non-blank lines of the input in order: the outer `strip()` before the split changes nothing |
| Tokenizer.TokenizeLines | frontend/simple_backend.py:9 | for any lines without a newline, tokenizing their newline-join gives the trims of the non-blank lines, in order |
| Tokenizer.SplitJoin | frontend/simple_backend.py:9 | splitting newline-joined lines that hold no newline gives the lines back |
| Tokenizer.TokenizeJoin | frontend/simple_backend.py:9 | tokenizing well-formed tokens joined by newlines gives exactly those tokens back |
| Tokenizer.JoinLines | frontend/simple_backend.py:205 | the joined text starts with the first line, and a newline follows the first line when there is a second |
| Tokenizer.JoinLinesCount | frontend/simple_backend.py:205 | joining k ≥ 1 lines that hold no newline puts exactly k − 1 newlines into the text |
| Comments.StripLineComments | frontend/simple_backend.py:16 | the `//` pass never lengthens the text |
| Comments.NoLineCommentLeft | frontend/simple_backend.py:16 | after the `//` pass no `//` is left anywhere |
| Comments.LineStripKeepsNewlines | frontend/simple_backend.py:16 | the `//` pass keeps the number of newlines |
| Comments.LineStripIdentity | frontend/simple_backend.py:16 | the `//` pass changes the text if and only if the text contains `//` |
| Comments.CloseAt | frontend/simple_backend.py:17 | the non-greedy `.*?` stops at the first `*/`, and finds none exactly when the text has no `*/` |
| Comments.StripBlockComments | frontend/simple_backend.py:17 | the block pass never lengthens the text |
| Comments.BlockStripIdentity | frontend/simple_backend.py:17 | the block pass changes the text if and only if some `/*` is closed by a later `*/`, so an unterminated `/*` stays |
| Comments.BlockStripShrinks | frontend/simple_backend.py:17 | text with a closed block comment gets strictly shorter |
| Comments.BlockStripKeepsNoLineComment | frontend/simple_backend.py:17 | the block pass cannot create a `//` in text that has none |
| Comments.BlockStripLeavesNoTerminated | frontend/simple_backend.py:17 | on text without `//`, the block pass leaves no closed block comment |
| Comments.StripIdempotent | frontend/simple_backend.py:16-17 | stripping already-stripped code changes nothing |
| Comments.PlainTextUnchanged | frontend/simple_backend.py:16-17 | code with neither `//` nor `/*` passes both passes unchanged |
| Comments.StripComments | frontend/simple_backend.py:16-17 | the stripped code is no longer than the original and holds neither a `//` nor a closed block comment |
| Comments.BlockPassAloneNotIdempotent | frontend/simple_backend.py:17 | the block pass alone is not idempotent: it maps `//*a*/*x*/` to `/*x*/`, which a second pass empties |
| Classifier.Classify | frontend/simple_backend.py:20-27 | a canned program is picked only when its input guard holds |
| Classifier.HasMarker | frontend/simple_backend.py:20-24 | every marker test looks for a substring of at least three characters, so shorter code never turns on a canned program |
| Classifier.HasEnoughInput | frontend/simple_backend.py:27-114 | every canned program needs at least one token, and two tokens are enough for any of them |
| Classifier.ClassifyIsFirstApplicable | frontend/simple_backend.py:20-147 | exactly one branch runs: a canned program if and only if its marker and guard hold and no earlier one's do; the generic path if and only if none applies |
| Classifier.NoInputIsGeneric | frontend/simple_backend.py:27-147 | with no tokens every marker falls through to the generic path |
| Classifier.ArithmeticNeedsTwoTokens | frontend/simple_backend.py:114 | with no other marker present, one token gives the generic path, and two tokens give arithmetic if and only if `sum = num1 + num2` occurs |
| Numbers.ParseIntToString | frontend/simple_backend.py:38 | `int(str(n)) == n` for every integer |
| Numbers.NatToString | frontend/simple_backend.py:38 | `str(n)` for n ≥ 0 is a digit string without a leading zero, starting with `0` exactly when n is 0 |
| Numbers.IntToString | frontend/simple_backend.py:38 | `str(n)` is non-empty and starts with `-` exactly when n is negative |
| Numbers.ParseInt | frontend/simple_backend.py:29 | `int()` accepts only an optional sign followed by at least one digit; a negative result needs a leading `-`; a digit string reads as its value, and one without a leading zero is exactly `str` of that value |
| Numbers.ParseFloat | frontend/simple_backend.py:116-117 | an accepted literal is negative exactly when it starts with `-`, and a digit string reads as its integer with exponent 0 |
| Numbers.IsZero | frontend/simple_backend.py:123 | `num2 == 0` holds for a literal exactly when the real number it denotes is 0 |
| Numbers.CanonicalRoundTrip | frontend/simple_backend.py:38 | a digit string without a leading zero is exactly what `str` prints for its value |
| Numbers.IntegerTokenIsFloat | frontend/simple_backend.py:116-117 | every token `int()` accepts is also a float literal, with exponent 0, and is zero exactly when its integer is 0 |
| FactorialProgram.Fact | frontend/simple_backend.py:32-35 | `factorial` is at least 1 for every argument |
| FactorialProgram.FactIsProduct | frontend/simple_backend.py:32-35 | `factorial(n)` is the product 1 · 2 · … · n, and 1 for every n ≤ 1, negatives included |
| FactorialProgram.Run | frontend/simple_backend.py:29-42 | fails with the factorial message exactly when the first token is not an integer; otherwise the two lines are `str(n)` and `str(n!)`, they read back as n and n!, and the second is "1" when n ≤ 1 |
| FibonacciProgram.FibMemo | frontend/simple_backend.py:50-59 | the memoised `fib` returns the Fibonacci term, and its memo only grows and stays correct |
| FibonacciProgram.FibPositive | frontend/simple_backend.py:51-59 | the term `fib` denotes is positive for every argument from 1 on |
| FibonacciProgram.SequenceLines | frontend/simple_backend.py:62-63 | the loop prints max(n, 0) lines, line i being `str(fib(i + 1))` |
| FibonacciProgram.Run | frontend/simple_backend.py:46-66 | the executor equals its specification function |
| FibonacciProgram.OutputIsSequence | frontend/simple_backend.py:46-66 | fails with the Fibonacci message exactly when the first token is not an integer; otherwise max(n, 0) lines, line i reading back as fib(i + 1), and a successful empty output when n ≤ 0 |
| FibonacciProgram.LinesAreFibonacci | frontend/simple_backend.py:51-63 | the printed lines are positive integers, start "1", "1", and each later one is the sum of the two before it |
| BubbleSortProgram.CollectNumbers | frontend/simple_backend.py:72-77 | the reading loop equals `Collect` |
| BubbleSortProgram.CollectMeaning | frontend/simple_backend.py:72-77 | on success, the integers of a prefix of non-zero integer tokens that ends at a 0 or at the end; on failure, some token is not an integer and every token before it is a non-zero integer |
| BubbleSortProgram.CollectStopsAtZero | frontend/simple_backend.py:75-76 | tokens after the first token equal to 0 are never parsed |
| BubbleSortProgram.Swap | frontend/simple_backend.py:84 | exchanges two neighbours and leaves the rest of the array as it was |
| BubbleSortProgram.Pass | frontend/simple_backend.py:82-84 | one inner pass moves the maximum of the unsorted prefix to its end, keeps the sorted suffix, and permutes the array |
| BubbleSortProgram.BubbleSort | frontend/simple_backend.py:80-84 | the array ends sorted and is a permutation of what it was |
| BubbleSortProgram.SortSeq | frontend/simple_backend.py:80-84 | an independent insertion sort: a sorted permutation of its input |
| BubbleSortProgram.SortedUnique | frontend/simple_backend.py:80-84 | two sorted permutations of one multiset are equal, so the array result is the reference result |
| BubbleSortProgram.PrintLines | frontend/simple_backend.py:87-88 | the printing loop gives `str(num)` for each number in order |
| BubbleSortProgram.PrintedReadsBack | frontend/simple_backend.py:87-88 | every printed line reads back as its number |
| BubbleSortProgram.Run | frontend/simple_backend.py:69-91 | the executor equals its specification function |
| BubbleSortProgram.OutputSortedPermutation | frontend/simple_backend.py:69-91 | fails exactly when reading fails; otherwise the lines read back as a sorted permutation of the integers before the first 0, with no 0 among them |
| BubbleSortProgram.CollectOfPrinted | frontend/simple_backend.py:72-88 | printed non-zero integers followed by "0" are read back exactly |
| BubbleSortProgram.ResortIsIdempotent | frontend/simple_backend.py:69-91 | feeding the output back in, ended by 0, prints the same lines again |
| PalindromeProgram.Reverse | frontend/simple_backend.py:105 | the reversed text has the same length, with character i taken from position length − 1 − i |
| PalindromeProgram.DigitReversal | frontend/simple_backend.py:100-103 | for n > 0 the reversal has no more digits than n, and a single digit is its own reversal |
| PalindromeProgram.ReverseLoopValue | frontend/simple_backend.py:100-103 | for n > 0 the loop leaves `reversed * 10^digits + the value of n's digits read backwards` |
| PalindromeProgram.ReverseDigits | frontend/simple_backend.py:97-103 | the `while` loop computes the digit reversal of n, and 0 when n ≤ 0 |
| PalindromeProgram.PalindromeIff | frontend/simple_backend.py:105 | `original == reversed_num` holds exactly when the decimal text of n is a palindrome, so 0 passes, 10 fails and every negative fails |
| PalindromeProgram.LeadingZeroReversal | frontend/simple_backend.py:100-106 | a positive number ending in 0 reverses to a smaller number and is not a palindrome |
| PalindromeProgram.Run | frontend/simple_backend.py:95-111 | the executor equals its specification function |
| PalindromeProgram.OutputIsPalindromeTest | frontend/simple_backend.py:95-111 | fails exactly when the first token is not an integer; otherwise one line, "1" exactly when the integer's text is a palindrome and "0" otherwise |
| ArithmeticProgram.Run | frontend/simple_backend.py:114-144 | fails with the arithmetic message exactly when one of the first two tokens is not a float literal; otherwise four lines |
| ArithmeticProgram.OnlyFirstTwoTokens | frontend/simple_backend.py:116-117 | tokens after the second are ignored |
| ArithmeticProgram.LinesInOrder | frontend/simple_backend.py:119-140 | the lines are the host's sum, difference, product and quotient of the two values, in that order, except that the quotient line is "Division by zero error" when the second value is zero |
| ArithmeticProgram.IntegerOperands | frontend/simple_backend.py:116-126 | two integer tokens are always accepted, and a second integer 0 gives the division-by-zero line whatever the host prints |
| Statements.MatchRead | frontend/simple_backend.py:150 | a read-pattern match captures an identifier |
| Statements.MatchWrite | frontend/simple_backend.py:154 | a write-pattern match captures a non-empty text without `)` |
| Statements.FindReads | frontend/simple_backend.py:150-151 | every captured read name is an identifier |
| Statements.FindWrites | frontend/simple_backend.py:154-155 | every captured write expression is non-empty and contains no `)` |
| Statements.ReadsRoundTrip | frontend/simple_backend.py:150-151 | the names of consecutive `read(x)` statements are found again, in order |
| Statements.WritesRoundTrip | frontend/simple_backend.py:154-155 | the arguments of consecutive `write(e)` statements are found again, in order |
| Statements.NoReadWord | frontend/simple_backend.py:150-151 | code without the word `read` has no read statements |
| Statements.NoWriteWord | frontend/simple_backend.py:154-155 | code without the word `write` has no write expressions |
| Statements.EmptyWriteArgument | frontend/simple_backend.py:154 | `write()` is not matched, while `write( )` captures the blank |
| Statements.SkipReads | frontend/simple_backend.py:151 | positions where the read pattern cannot start change nothing that is found |
| Statements.SkipWrites | frontend/simple_backend.py:155 | positions where the write pattern cannot start change nothing that is found |
| Statements.WriteSkipsReads | frontend/simple_backend.py:150-155 | a write statement whose argument does not mention `read` contributes no read name |
| Statements.ReadSkipsWrites | frontend/simple_backend.py:150-155 | a read statement contributes no write expression, even when its name contains `write` |
| Statements.MixedRoundTrip | frontend/simple_backend.py:150-155 | in any order of read statements and write statements whose arguments do not mention `read`, the read names and the write arguments are each found again, in order |
| GenericProgram.ValueOf | frontend/simple_backend.py:166-172 | a token with `.` becomes a float if `float()` accepts it, one without `.` becomes an int if `int()` accepts it, and any other token stays the raw string |
| GenericProgram.Render | frontend/simple_backend.py:181 | an integer prints so that `int()` reads it back as itself, and a raw string prints as itself |
| GenericProgram.Assign | frontend/simple_backend.py:168-172 | assigning updates exactly that entry and keeps the order listing every key exactly once |
| GenericProgram.Bindings | frontend/simple_backend.py:162-172 | the dictionary's keys are exactly the names read |
| GenericProgram.BindReads | frontend/simple_backend.py:162-172 | the binding loop equals `Bindings` |
| GenericProgram.LastReadWins | frontend/simple_backend.py:163-172 | a name read more than once holds the value of the token of its last read |
| GenericProgram.OrderOfFirstReads | frontend/simple_backend.py:162-172 | the dictionary order is the order in which names are first read |
| GenericProgram.Substitutions | frontend/simple_backend.py:190-191 | substitution sees every bound name once, in dictionary order, each paired with its value printed by `str()` |
| GenericProgram.Lines | frontend/simple_backend.py:177-202 | one output line per write expression |
| GenericProgram.WriteLine | frontend/simple_backend.py:178-202 | a bound integer prints so that it reads back as its value; an unbound integer literal is echoed as written and `int()` accepts it; an unbound text that is no literal and holds no operator prints `Unknown value: ` before it |
| GenericProgram.IsIntLiteral | frontend/simple_backend.py:182 | every text the literal test accepts is accepted by `int()` |
| GenericProgram.HasOperator | frontend/simple_backend.py:185 | an integer literal passes the operator test only through its leading minus sign |
| GenericProgram.EmitWrites | frontend/simple_backend.py:177-202 | the write loop equals `Lines` |
| GenericProgram.Run | frontend/simple_backend.py:147-207 | the generic path equals its specification function |
| GenericProgram.Outcome | frontend/simple_backend.py:158-207 | success exactly when the tokens cover the reads and there is a write, with one line per write; "Not enough input values" exactly when reads outnumber tokens; "No output generated" exactly when the tokens suffice but there is no write |
| GenericProgram.FailureMessages | frontend/simple_backend.py:158-207 | a failure reports either the not-enough message with both counts or the no-output message |
| GenericProgram.WriteLines | frontend/simple_backend.py:177-202 | each line answers its trimmed write expression: a read name prints its binding, otherwise a signed integer literal is echoed and `int()` accepts it, and a text with no operator prints `Unknown value: ` before it |
| GenericProgram.EchoesInput | frontend/simple_backend.py:147-207 | reading one variable and writing it prints the value read, and an integer token comes back as the same integer |
| GenericProgram.DigitNameShadowsLiteral | frontend/simple_backend.py:179-184 | after `read(5)` on input 7, `write(5)` prints 7, not the literal 5 |
| Engine.ParseAndExecute | frontend/simple_backend.py:7-207 | the interpreter equals `Execute`: tokenize, strip, classify, run the picked executor |
| Engine.Outcome | frontend/simple_backend.py:204-207 | the flag is true exactly on success, a failure passes its message on unchanged, and a success's text starts with its first line |
| Engine.Dispatch | frontend/simple_backend.py:27-207 | a canned program fails only with its own message; the generic path succeeds exactly when the tokens cover the reads and there is a write |
| Engine.Execute | frontend/simple_backend.py:7-207 | every failure reports a known message: a canned program's message, the no-output message, or the not-enough message with the counts |
| Engine.GenericFailure | frontend/simple_backend.py:158-207 | the generic path fails only with one of those messages |
| Engine.CommentsAreIgnored | frontend/simple_backend.py:16-17 | running already-stripped code gives the same answer as running the original |
| Engine.BlankInput | frontend/simple_backend.py:27-159 | with blank input the generic path decides, and a program with a read statement fails with "Not enough input values" |
| Engine.OutputSplitsIntoLines | frontend/simple_backend.py:205 | a successful answer's text splits back into exactly the lines produced, when no line holds a newline |

## Left out

- Input and output are not modelled: the web layer and `update_flask_app`, which writes a
  file to disk. The interpreter is a function of its two strings.
- Float printing, float arithmetic and `format_num` are host functions. Nothing is proved
  about the numbers the arithmetic branch prints, only which host results appear and in
  which order. The model does not decide when `float.is_integer` holds.
- `eval` of a write expression with an operator is a host function. It covers the word-boundary
  substitution of bound values, the float-to-int step and the `Error: …` text. The model
  only fixes the substitution pairs and their order.
- `float()` is modelled as an exact decimal literal: sign, digits with at most one `.`,
  and an optional exponent. `inf`, `nan`, underscores and rounding to binary are left out.
  The zero test is exact, so a literal that would underflow to 0.0 counts as non-zero.
- `int()`, `strip()`, `\s` and `isdigit()` are modelled on ASCII only. Unicode digits and
  spaces are left out.
- Numbers.ParseInt: does not accept the underscore digit separators that Python's `int()`
  allows, so a token such as `1_000` counts as not an integer here, while the source reads
  it as 1000 (frontend/simple_backend.py:29, 47, 74, 96, 170). Underscores are seldom
  typed as program input, and leaving them out keeps the digit grammar one rule.
- Statements.MixedRoundTrip: covers only write arguments that do not mention `read`. An
  argument such as `read(x`, closed by the write's own `)`, really does form a read
  statement that the read pattern finds (frontend/simple_backend.py:150-151).
- Python's limit on the length of integer-to-string conversions is not modelled. Integers are
  unbounded.
- Python's recursion limit is not modelled. In the source a large `n` makes `factorial`
  raise `RecursionError`, which its handler does not catch.
- The outer `except Exception` (frontend/simple_backend.py:209-210) is not modelled. No
  modelled step raises an exception.
- The "Missing input for variable" branch (frontend/simple_backend.py:173-174) is not
  modelled. It cannot run once the check at line 158 has passed.
