/** Outcome types shared by the three stages of the calculator.

    The Rust code reports every failure as a `String`; the model keeps one
    constructor per message the code can produce, and `Message` gives back
    the exact text. */
module Results {

  /** Every failure the lexer, parser and interpreter can report. */
  datatype CalcError =
    | Incomplete          // input ran out where a term or an operator was required
    | ExpectingLiteral    // a token that cannot start a term stood in term position
    | UnbalancedParens    // `(` whose inner expression is not followed by `)`
    | ExpectingOperator   // a non-operator token was given a left denotation
    | NegativePower       // `^` with a negative exponent

  /** The message the source returns for each failure. */
  function Message(e: CalcError): (m: string)
    ensures |m| > 0
  {
    match e
    case Incomplete => "incomplete"
    case ExpectingLiteral => "expecting literal"
    case UnbalancedParens => "unbalanced parens"
    case ExpectingOperator => "expecting operator"
    case NegativePower => "cannot raise number to negative power"
  }

  /** Each failure has its own message, so the text identifies the error. */
  lemma MessagesDistinct(e1: CalcError, e2: CalcError)
    ensures Message(e1) == Message(e2) ==> e1 == e2
  {
  }

  datatype Option<+T> = None | Some(value: T)

  /** Rust's `Result<T, String>`, usable with `:-` as the source uses `?`. */
  datatype Result<+T> = Ok(value: T) | Err(error: CalcError) {
    predicate IsFailure() {
      Err?
    }

    function PropagateFailure<U>(): Result<U>
      requires Err?
    {
      Err(error)
    }

    function Extract(): T
      requires Ok?
    {
      value
    }
  }
}
