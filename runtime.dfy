/** The parts of the Python runtime the interpreter leans on but that this model leaves
    uninterpreted: how a float is printed, IEEE float arithmetic with `format_num`, and
    `eval` of a write expression after variable substitution. Every lemma of the model holds
    for every choice of these functions. */
module Runtime {
  import opened Numbers

  datatype ArithOp = Add | Sub | Mul | Div

  datatype Host = Host(
    // `str(float(token))` for a token accepted as a float literal
    floatText: Decimal -> string,
    // `str(format_num(a op b))` for the floats two literals denote
    arithText: (ArithOp, Decimal, Decimal) -> string,
    // the line emitted for a write expression with an operator: given the trimmed text and
    // the (name, printed value) pairs substituted in binding order, `str(result)` or "Error: ..."
    evalText: (string, seq<(string, string)>) -> string)
}
