/**
 * `AddNode` (`+`): checked 64-bit addition, host double addition, array
 * concatenation into a new array, text splicing when either operand is text,
 * and a typed error for every other pair.
 */
module AddNode {
  import opened Values
  import opened Errors
  import opened Completions
  import Text

  /** What `+` yields before allocation: a value, or the elements of a new array to allocate. */
  datatype Sum = Plain(v: Value) | NewArray(elements: seq<Value>)

  /** `isAnyString`: the guard of the text-splicing case. */
  predicate IsAnyString(left: Value, right: Value)
  {
    left.Str? || right.Str?
  }

  /** The typed error `+` raises for a pair of operands no specialisation accepts. */
  function AddError(id: nat, left: Value, right: Value): Signal
  {
    TypeError(OfError(Node(AddNode, id), [Val(left), Val(right)]))
  }

  /**
   * The specialisations of `+` in their declared order, ending in the fallback.
   * `id` identifies the node instance that raises the error. Only splicing
   * prints its operands, so only that case needs them free of cycles; array
   * concatenation copies the element references and accepts any arrays.
   */
  function Add(host: Host, id: nat, left: Value, right: Value, ghost depth: nat): (r: Completion<Sum>)
    requires (IsAnyString(left, right) && KindOf(left) != KindOf(right)) ==> Nested(left, depth) && Nested(right, depth)
    reads *
    ensures left.Int? && right.Int? ==>
      if MinLong <= left.n + right.n <= MaxLong then r == Normal(Plain(Int(left.n + right.n)))
      else r == Abrupt(Overflow)
    ensures left.Float? && right.Float? ==> r == Normal(Plain(Float(host.floatSum(left.bits, right.bits))))
    ensures left.Arr? && right.Arr? ==> r == Normal(NewArray(left.ref.values[..] + right.ref.values[..]))
    ensures KindOf(left) != KindOf(right) && IsAnyString(left, right) ==>
      r == Normal(Plain(Str(Display(host, left, depth) + Display(host, right, depth))))
    ensures left.Str? && right.Str? ==> r == Normal(Plain(Str(left.s + right.s)))
    ensures !IsAnyString(left, right) && KindOf(left) != KindOf(right) ==> r == Abrupt(AddError(id, left, right))
    ensures (left.Bool? && right.Bool?) || (left.Null? && right.Null?) ==> r == Abrupt(AddError(id, left, right))
  {
    if left.Int? && right.Int? then
      if MinLong <= left.n + right.n <= MaxLong then Normal(Plain(Int(left.n + right.n))) else Abrupt(Overflow)
    else if left.Float? && right.Float? then
      Normal(Plain(Float(host.floatSum(left.bits, right.bits))))
    else if left.Arr? && right.Arr? then
      Normal(NewArray(left.ref.values[..] + right.ref.values[..]))
    else if IsAnyString(left, right) then
      Normal(Plain(Str(Display(host, left, depth) + Display(host, right, depth))))
    else
      Abrupt(AddError(id, left, right))
  }

  /**
   * The node's evaluation of `+` on two operand values: allocates the new
   * array of the concatenation case, and otherwise returns what `Add` yields.
   */
  method Execute(host: Host, id: nat, left: Value, right: Value, ghost depth: nat) returns (r: Completion<Value>)
    requires (IsAnyString(left, right) && KindOf(left) != KindOf(right)) ==> Nested(left, depth) && Nested(right, depth)
    ensures match Add(host, id, left, right, depth)
      case Normal(Plain(v)) => r == Normal(v)
      case Normal(NewArray(elements)) =>
        r.Normal? && r.value.Arr? && fresh(r.value.ref) && fresh(r.value.ref.values)
        && r.value.ref.values[..] == elements
      case Abrupt(signal) => r == Abrupt(signal)
  {
    var sum := Add(host, id, left, right, depth);
    match sum
    case Normal(Plain(v)) => r := Normal(v);
    case Normal(NewArray(elements)) =>
      var created := new ArrayType(elements);
      r := Normal(Arr(created));
    case Abrupt(signal) => r := Abrupt(signal);
  }

  /** Integer addition never wraps: a normal integer result is the exact sum. */
  lemma AddNeverWraps(host: Host, id: nat, a: Long, b: Long)
    ensures Add(host, id, Int(a), Int(b), 0).Normal? <==> MinLong <= a + b <= MaxLong
    ensures Add(host, id, Int(a), Int(b), 0).Normal? ==> Add(host, id, Int(a), Int(b), 0).value == Plain(Int(a + b))
  {
  }

  /** The concatenation holds the left elements, then the right ones. */
  lemma {:induction false} ConcatenationLayout(host: Host, id: nat, a: ArrayType, b: ArrayType, depth: nat)
    ensures var r := Add(host, id, Arr(a), Arr(b), depth);
      r.Normal? && r.value.NewArray? &&
      |r.value.elements| == a.values.Length + b.values.Length &&
      (forall i :: 0 <= i < a.values.Length ==> r.value.elements[i] == a.values[i]) &&
      (forall j :: 0 <= j < b.values.Length ==> r.value.elements[a.values.Length + j] == b.values[j])
  {
  }

  /** An array that contains itself still concatenates: `a + a` copies its element references twice. */
  lemma SelfContainingConcatenation(host: Host, id: nat, a: ArrayType)
    requires a.values.Length > 0 && a.values[0] == Arr(a)
    ensures var r := Add(host, id, Arr(a), Arr(a), 0);
      r.Normal? && r.value.NewArray? && |r.value.elements| == 2 * a.values.Length
      && r.value.elements[0] == Arr(a) && r.value.elements[a.values.Length] == Arr(a)
  {
  }

  /** An integer and a double never add, in either order: there is no coercion. */
  lemma MixedNumbersAreTypeErrors(host: Host, id: nat, a: Long, f: FloatBits)
    ensures Add(host, id, Int(a), Float(f), 0) == Abrupt(AddError(id, Int(a), Float(f)))
    ensures Add(host, id, Float(f), Int(a), 0) == Abrupt(AddError(id, Float(f), Int(a)))
  {
  }

  /**
   * `+` fails with a typed error exactly when no specialisation applies: the
   * operands are neither two integers, two doubles nor two arrays, and neither
   * is text.
   */
  lemma TypeErrorExactly(host: Host, id: nat, left: Value, right: Value, depth: nat)
    requires (IsAnyString(left, right) && KindOf(left) != KindOf(right)) ==> Nested(left, depth) && Nested(right, depth)
    ensures Add(host, id, left, right, depth) == Abrupt(AddError(id, left, right)) <==>
      !(left.Int? && right.Int?) && !(left.Float? && right.Float?) && !(left.Arr? && right.Arr?)
      && !IsAnyString(left, right)
  {
  }

  /** The error names "+" and both operands, left first. */
  lemma AddErrorMessage(host: Host, id: nat, left: Value, right: Value, depth: nat)
    requires Nested(left, depth) && Nested(right, depth)
    ensures var e := AddError(id, left, right).error;
      ArgsNested(e.arguments, depth) &&
      Message(host, e, depth) ==
        "Error: operation \"+\" not defined for "
        + Describe(host, Val(left), depth) + ", " + Describe(host, Val(right), depth) + "."
  {
    var e := AddError(id, left, right).error;
    assert ArgsNested(e.arguments, depth);
    TwoOperandMessage(host, e.location, Val(left), Val(right), depth);
    assert Head(e.location) == "Error: operation \"+\" not defined";
    assert Head(e.location) + " for " == "Error: operation \"+\" not defined for ";
  }

  /** `"test" + 1` is the text "test1". */
  lemma SpliceExample(host: Host, id: nat)
    ensures Add(host, id, Str("test"), Int(1), 0) == Normal(Plain(Str("test1")))
  {
    assert Text.DigitChar(1) == '1';
    assert Display(host, Int(1), 0) == "1";
    assert Display(host, Str("test"), 0) == "test";
    assert "test" + "1" == "test1";
  }
}
