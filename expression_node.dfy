/**
 * `ExpressionNode`: every expression evaluates generically to a value; the
 * typed executes narrow that value to one kind or fail with
 * `UnexpectedResultException` carrying it, and `executeVoid` evaluates it for
 * its effect only.
 */
module ExpressionNode {
  import opened Values
  import opened Completions

  /** `executeVoid`: one generic evaluation whose value is dropped. */
  function ExecuteVoid<S>(node: Evaluator<S>, s: S): (r: Run<(), S>)
    ensures r.after == node(s).after
    ensures r.result.Normal? <==> node(s).result.Normal?
    ensures r.result.Abrupt? ==> r.result.signal == node(s).result.signal
  {
    var run := node(s);
    match run.result
    case Normal(_) => Run(Normal(()), run.after)
    case Abrupt(signal) => Run(Abrupt(signal), run.after)
  }

  /**
   * `executeLong`, `executeDouble`, `executeBoolean`, `executeString`,
   * `executeNullType` and `executeArrayType`: the generic result when it is of
   * the requested kind, otherwise `UnexpectedResult` carrying that result.
   */
  function ExecuteTyped<S>(kind: Kind, node: Evaluator<S>, s: S): (r: Run<Value, S>)
    ensures r.after == node(s).after
    ensures r.result.Normal? ==> node(s).result == r.result && KindOf(r.result.value) == kind
    ensures node(s).result.Normal? && KindOf(node(s).result.value) == kind ==> r.result == node(s).result
    ensures node(s).result.Normal? && KindOf(node(s).result.value) != kind ==>
      r.result == Abrupt(UnexpectedResult(node(s).result.value))
    ensures node(s).result.Abrupt? ==> r.result == node(s).result
  {
    var run := node(s);
    match run.result
    case Normal(v) =>
      if KindOf(v) == kind then run else Run(Abrupt(UnexpectedResult(v)), run.after)
    case Abrupt(_) => run
  }
}
