/**
 * How evaluation ends: normally with a value, or abruptly with one of the
 * exceptions the interpreter throws through the tree.
 */
module Completions {
  import opened Values
  import opened Errors

  datatype Signal =
    | Break                        // BreakException
    | Continue                     // ContinueException
    | Return(result: Value)        // ReturnException
    | TypeError(error: TuberException)
    | UnexpectedResult(found: Value)
    | Overflow                     // ArithmeticException from Math.addExact
    | LookupFailure                // IllegalStateException from a failed lookup
    | Unsupported(offending: Value) // UnsupportedSpecializationException
    | HostFailure                  // a failure inside a collaborator that is not part of this model

  datatype Completion<T> = Normal(value: T) | Abrupt(signal: Signal)

  /** The completion of one evaluation step and the state it leaves behind. */
  datatype Run<T, S> = Run(result: Completion<T>, after: S)

  /**
   * A child node: evaluating it in a state yields a completion and a new state.
   * The state `S` is whatever the child can observe or change (the frame, the
   * heap, the output).
   */
  type Evaluator<!S> = S -> Run<Value, S>

  /** A statement: evaluated only for its effect (`executeVoid`). */
  type Statement<!S> = S -> Run<(), S>
}
