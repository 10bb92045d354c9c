/** Failure values of the configuration engine.

    Every way the engine can fail is one constructor of `Error`, carrying the
    offending text where the engine's own message carries it.  The first five
    are the engine's `SyntaxError`s; the last three are the Python runtime
    errors the evaluator can raise (`IndexError` from popping an empty stack,
    `ZeroDivisionError`, and the `TypeError` for mixed or unsupported operand types). */
module Results {

  datatype Error =
    | UnknownSyntax(line: string)          // a line that is no known directive
    | InvalidDeclaration(line: string)     // a `global` line the declaration pattern rejects
    | InvalidValue(text: string)           // a value text that is no literal and no declared name
    | UnknownToken(token: string)          // an expression token that is no number, name or operator
    | InvalidExpression(expression: string) // the final stack does not hold exactly one value
    | StackUnderflow                       // an operator found fewer than two operands
    | ZeroDivision                         // `/` or `mod` with a zero right operand
    | TypeMismatch                         // an operator applied to mixed or unsupported operand types

  /** The result of an operation that may raise. */
  datatype Result<+T> = Ok(value: T) | Err(error: Error) {

    predicate IsFailure() {
      Err?
    }

    function PropagateFailure<U>(): Result<U>
      requires Err?
    {
      Err(error)
    }

    function Extract(): T
      requires Ok?
    {
      value
    }
  }

  datatype Option<+T> = None | Some(value: T)
}
