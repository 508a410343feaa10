/** The factorial archetype: the first token as an integer `n`, then the lines `n` and `n!`. */
module FactorialProgram {
  import opened Wrappers
  import opened Numbers

  const ErrorMessage := "Invalid input for factorial program. Need an integer value."

  /** The source's recursive `factorial`, which answers 1 for every argument up to 1. */
  function Fact(n: int): (r: int)
    ensures r >= 1
    decreases if n > 1 then n else 0
  {
    if n <= 1 then 1 else n * Fact(n - 1)
  }

  /** The product lo * (lo + 1) * ... * hi, empty (1) when lo > hi: a reference for Fact. */
  function Product(lo: int, hi: int): int
    decreases if hi >= lo then hi - lo + 1 else 0
  {
    if lo > hi then 1 else lo * Product(lo + 1, hi)
  }

  lemma {:induction false} ProductTop(lo: int, hi: int)
    requires lo <= hi
    ensures Product(lo, hi) == Product(lo, hi - 1) * hi
    decreases hi - lo
  {
    if lo < hi {
      ProductTop(lo + 1, hi);
      assert Product(lo, hi) == lo * (Product(lo + 1, hi - 1) * hi);
    }
  }

  /** Fact(n) is the product of 1..n, and 1 for every n <= 1, negatives included. */
  lemma {:induction false} FactIsProduct(n: int)
    ensures Fact(n) == Product(1, n)
    decreases if n > 1 then n else 0
  {
    if n > 1 {
      FactIsProduct(n - 1);
      ProductTop(1, n);
    }
  }

  /** The executor. Its two lines read back as `n` and `n!`; the second is "1" for n <= 1. */
  function Run(tokens: seq<string>): (r: Result<seq<string>>)
    requires |tokens| > 0
    ensures r.Err? <==> ParseInt(tokens[0]).None?
    ensures r.Err? ==> r.message == ErrorMessage
    ensures r.Ok? ==>
      (|r.value| == 2
      && ParseInt(r.value[0]) == ParseInt(tokens[0])
      && ParseInt(r.value[1]) == Some(Product(1, ParseInt(tokens[0]).value)))
    ensures r.Ok? ==>
      (r.value == [IntToString(ParseInt(tokens[0]).value),
                   IntToString(Product(1, ParseInt(tokens[0]).value))])
    ensures r.Ok? && ParseInt(tokens[0]).value <= 1 ==> r.value[1] == "1"
  {
    match ParseInt(tokens[0])
    case None => Err(ErrorMessage)
    case Some(n) =>
      ParseIntToString(n);
      ParseIntToString(Fact(n));
      FactIsProduct(n);
      Ok([IntToString(n), IntToString(Fact(n))])
  }
}
