/**
 * `AndNode` (`&&`): the short-circuit connective that asks for the right
 * operand only when the left one is true, and conjoins the two.
 */
module AndNode {
  import opened Values
  import opened Errors
  import opened Completions
  import opened ShortCircuitNode

  function ShouldEvaluateRight(leftValue: bool): bool
  {
    leftValue
  }

  function Execute(leftValue: bool, rightValue: bool): bool
  {
    leftValue && rightValue
  }

  function And(): Connective
  {
    Connective(AndNode, ShouldEvaluateRight, Execute)
  }

  /**
   * With two boolean operands, `&&` is their conjunction; the right operand
   * runs exactly when the left one is true, so `false && f()` leaves the
   * state exactly as the left operand left it.
   */
  lemma AndIsConditionalConjunction<S>(id: nat, left: Evaluator<S>, right: Evaluator<S>, s: S)
    requires YieldsBoolean(left, s)
    ensures var l := left(s).result.value.b;
      var r := ShortCircuit(And(), id, left, right, s);
      (!l ==> r == Run(Normal(false), left(s).after)) &&
      (l && YieldsBoolean(right, left(s).after) ==>
        r == Run(Normal(right(left(s).after).result.value.b), right(left(s).after).after))
  {
  }

  /**
   * A non-boolean left operand of `&&` is the node's typed error, pointing
   * at the node and naming the value then ANY: the text "test" gives
   * `Error: operation "&&" not defined for String "test", ANY.`.
   */
  lemma NonBooleanLeftMessage<S>(host: Host, id: nat, left: Evaluator<S>, right: Evaluator<S>, s: S)
    requires left(s).result == Normal(Str("test"))
    ensures var r := ShortCircuit(And(), id, left, right, s).result;
      r.Abrupt? && r.signal.TypeError? && GetLocation(r.signal.error) == Node(AndNode, id)
      && ArgsNested(r.signal.error.arguments, 0)
      && Message(host, r.signal.error, 0) == "Error: operation \"&&\" not defined for String \"test\", ANY."
  {
    var e := OfError(Node(AndNode, id), [Val(Str("test")), Missing]);
    assert YieldsOther(left, s);
    assert ShortCircuit(And(), id, left, right, s).result == Abrupt(TypeError(e));
    assert ArgsNested(e.arguments, 0);
    LeftOperandMessageExample(host, id);
  }

  /**
   * A non-boolean right operand, after a true left one, names the left
   * boolean then the value: `Error: operation "&&" not defined for Boolean true, String "test".`.
   */
  lemma NonBooleanRightMessage<S>(host: Host, id: nat, left: Evaluator<S>, right: Evaluator<S>, s: S)
    requires left(s).result == Normal(Bool(true)) && right(left(s).after).result == Normal(Str("test"))
    ensures var r := ShortCircuit(And(), id, left, right, s).result;
      r.Abrupt? && r.signal.TypeError? && GetLocation(r.signal.error) == Node(AndNode, id)
      && ArgsNested(r.signal.error.arguments, 0)
      && Message(host, r.signal.error, 0) == "Error: operation \"&&\" not defined for Boolean true, String \"test\"."
  {
    var e := OfError(Node(AndNode, id), [Val(Bool(true)), Val(Str("test"))]);
    assert YieldsBoolean(left, s) && YieldsOther(right, left(s).after);
    assert ShortCircuit(And(), id, left, right, s).result == Abrupt(TypeError(e));
    assert ArgsNested(e.arguments, 0);
    RightOperandMessageExample(host, id);
  }
}
