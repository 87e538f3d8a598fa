/**
 * `GreaterOrEqualNode` (`>=`): integers and doubles only, with no coercion
 * between them; every other pair is a typed error.
 */
module GreaterOrEqualNode {
  import opened Values
  import opened Errors
  import opened Completions

  function GreaterOrEqualError(id: nat, left: Value, right: Value): Signal
  {
    TypeError(OfError(Node(GreaterOrEqualNode, id), [Val(left), Val(right)]))
  }

  /** The two specialisations of `>=` and the fallback. */
  function GreaterOrEqual(host: Host, id: nat, left: Value, right: Value): (r: Completion<bool>)
    ensures r.Normal? <==> (left.Int? && right.Int?) || (left.Float? && right.Float?)
    ensures left.Int? && right.Int? ==> r.value == (left.n >= right.n)
    ensures left.Float? && right.Float? ==> r.value == (host.floatCompare(left.bits, right.bits) >= 0)
    ensures r.Abrupt? ==> r.signal == GreaterOrEqualError(id, left, right)
  {
    if left.Int? && right.Int? then Normal(left.n >= right.n)
    else if left.Float? && right.Float? then Normal(host.floatCompare(left.bits, right.bits) >= 0)
    else Abrupt(GreaterOrEqualError(id, left, right))
  }

  /** On integers, `a >= b` and `b >= a` both hold exactly when `a == b`, and one of them always holds. */
  lemma IntegerOrder(host: Host, id: nat, a: Long, b: Long)
    ensures GreaterOrEqual(host, id, Int(a), Int(b)).value && GreaterOrEqual(host, id, Int(b), Int(a)).value <==> a == b
    ensures GreaterOrEqual(host, id, Int(a), Int(b)).value || GreaterOrEqual(host, id, Int(b), Int(a)).value
  {
  }

  /** An integer and a double never compare, in either order. */
  lemma MixedNumbersAreTypeErrors(host: Host, id: nat, a: Long, f: FloatBits)
    ensures GreaterOrEqual(host, id, Int(a), Float(f)) == Abrupt(GreaterOrEqualError(id, Int(a), Float(f)))
    ensures GreaterOrEqual(host, id, Float(f), Int(a)) == Abrupt(GreaterOrEqualError(id, Float(f), Int(a)))
  {
  }

  /** The error names ">=" and both operands, left first. */
  lemma GreaterOrEqualErrorMessage(host: Host, id: nat, left: Value, right: Value, depth: nat)
    requires Nested(left, depth) && Nested(right, depth)
    ensures var e := GreaterOrEqualError(id, left, right).error;
      ArgsNested(e.arguments, depth) &&
      Message(host, e, depth) ==
        "Error: operation \">=\" not defined for "
        + Describe(host, Val(left), depth) + ", " + Describe(host, Val(right), depth) + "."
  {
    var e := GreaterOrEqualError(id, left, right).error;
    assert ArgsNested(e.arguments, depth);
    TwoOperandMessage(host, e.location, Val(left), Val(right), depth);
    assert Head(e.location) == "Error: operation \">=\" not defined";
    assert Head(e.location) + " for " == "Error: operation \">=\" not defined for ";
  }
}
