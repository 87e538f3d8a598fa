/**
 * `ShortCircuitNode`: the protocol shared by the short-circuit connectives.
 * The left operand is evaluated as a boolean first; the right one only when
 * the connective asks for it, `false` standing in for it otherwise; the
 * connective then combines the two.
 */
module ShortCircuitNode {
  import opened Values
  import opened Errors
  import opened Completions
  import opened ExpressionNode

  /** What a concrete connective supplies: its class, `shouldEvaluateRight` and `execute`. */
  datatype Connective = Connective(
    cls: NodeClass,
    shouldEvaluateRight: bool -> bool,
    execute: (bool, bool) -> bool)

  /** The boolean a child yields when its typed execute completes normally. */
  predicate YieldsBoolean<S>(child: Evaluator<S>, s: S)
  {
    child(s).result.Normal? && child(s).result.value.Bool?
  }

  /** The child yields a value that is not a boolean. */
  predicate YieldsOther<S>(child: Evaluator<S>, s: S)
  {
    child(s).result.Normal? && !child(s).result.value.Bool?
  }

  /** `executeBoolean` as a function of the children and the state. */
  function ShortCircuit<S>(c: Connective, id: nat, left: Evaluator<S>, right: Evaluator<S>, s: S): (r: Run<bool, S>)
    // the left operand runs first; when it does not yield a boolean, the right one never runs
    ensures !YieldsBoolean(left, s) ==> r.after == left(s).after && r.result.Abrupt?
    ensures YieldsOther(left, s) ==>
      r.result == Abrupt(TypeError(OfError(Node(c.cls, id), [Val(left(s).result.value), Missing])))
    ensures left(s).result.Abrupt? && !left(s).result.signal.UnexpectedResult? ==>
      r.result == Abrupt(left(s).result.signal)
    // a boolean left value that does not ask for the right operand: false stands in for it
    ensures YieldsBoolean(left, s) && !c.shouldEvaluateRight(left(s).result.value.b) ==>
      r == Run(Normal(c.execute(left(s).result.value.b, false)), left(s).after)
    // otherwise the right operand runs once, in the state the left one left behind
    ensures YieldsBoolean(left, s) && c.shouldEvaluateRight(left(s).result.value.b) ==>
      var s1 := left(s).after;
      r.after == right(s1).after &&
      (YieldsBoolean(right, s1) ==>
        r.result == Normal(c.execute(left(s).result.value.b, right(s1).result.value.b))) &&
      (YieldsOther(right, s1) ==>
        r.result == Abrupt(TypeError(OfError(Node(c.cls, id),
          [Val(left(s).result.value), Val(right(s1).result.value)])))) &&
      (right(s1).result.Abrupt? && !right(s1).result.signal.UnexpectedResult? ==>
        r.result == Abrupt(right(s1).result.signal))
  {
    var leftRun := ExecuteTyped(BooleanKind, left, s);
    match leftRun.result
    case Abrupt(UnexpectedResult(found)) =>
      Run(Abrupt(TypeError(OfError(Node(c.cls, id), [Val(found), Missing]))), leftRun.after)
    case Abrupt(signal) => Run(Abrupt(signal), leftRun.after)
    case Normal(leftValue) =>
      if c.shouldEvaluateRight(leftValue.b) then
        var rightRun := ExecuteTyped(BooleanKind, right, leftRun.after);
        match rightRun.result
        case Abrupt(UnexpectedResult(found)) =>
          Run(Abrupt(TypeError(OfError(Node(c.cls, id), [Val(Bool(leftValue.b)), Val(found)]))), rightRun.after)
        case Abrupt(signal) => Run(Abrupt(signal), rightRun.after)
        case Normal(rightValue) => Run(Normal(c.execute(leftValue.b, rightValue.b)), rightRun.after)
      else
        Run(Normal(c.execute(leftValue.b, false)), leftRun.after)
  }

  /**
   * `executeBoolean`, step by step: the left value, then the right value or
   * `false`, each failure turned into the node's typed error on the way.
   */
  method ExecuteBoolean<S>(c: Connective, id: nat, left: Evaluator<S>, right: Evaluator<S>, s: S)
    returns (r: Completion<bool>, after: S)
    ensures Run(r, after) == ShortCircuit(c, id, left, right, s)
  {
    var leftRun := ExecuteTyped(BooleanKind, left, s);
    after := leftRun.after;
    if leftRun.result.Abrupt? {
      if leftRun.result.signal.UnexpectedResult? {
        r := Abrupt(TypeError(OfError(Node(c.cls, id), [Val(leftRun.result.signal.found), Missing])));
      } else {
        r := Abrupt(leftRun.result.signal);
      }
      return;
    }
    var leftValue := leftRun.result.value.b;

    var rightValue := false;
    if c.shouldEvaluateRight(leftValue) {
      var rightRun := ExecuteTyped(BooleanKind, right, after);
      after := rightRun.after;
      if rightRun.result.Abrupt? {
        if rightRun.result.signal.UnexpectedResult? {
          r := Abrupt(TypeError(OfError(Node(c.cls, id), [Val(Bool(leftValue)), Val(rightRun.result.signal.found)])));
        } else {
          r := Abrupt(rightRun.result.signal);
        }
        return;
      }
      rightValue := rightRun.result.value.b;
    }
    r := Normal(c.execute(leftValue, rightValue));
  }

  /** `executeGeneric`: exactly the boolean `executeBoolean` computes, as a value. */
  function ExecuteGeneric<S>(c: Connective, id: nat, left: Evaluator<S>, right: Evaluator<S>, s: S): (r: Run<Value, S>)
    ensures var b := ShortCircuit(c, id, left, right, s);
      r.after == b.after &&
      (b.result.Normal? ==> r.result == Normal(Bool(b.result.value))) &&
      (b.result.Abrupt? ==> r.result == Abrupt(b.result.signal))
  {
    var run := ShortCircuit(c, id, left, right, s);
    match run.result
    case Normal(b) => Run(Normal(Bool(b)), run.after)
    case Abrupt(signal) => Run(Abrupt(signal), run.after)
  }
}
