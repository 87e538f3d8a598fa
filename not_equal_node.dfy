/**
 * `NotEqualNode` (`!=`): one specialisation per value kind, a case for
 * operands of different classes, and a fallback that no pair of runtime
 * values reaches.
 */
module NotEqualNode {
  import opened Values
  import opened Errors
  import opened Completions

  /** `areDifferentClasses`. */
  predicate AreDifferentClasses(left: Value, right: Value)
  {
    KindOf(left) != KindOf(right)
  }

  /**
   * The specialisations of `!=` in their declared order, ending in the
   * fallback. Only two distinct arrays are compared element by element, so
   * only they need the depth bound; an array compared with itself or with a
   * value of another class is answered at once.
   */
  function NotEqual(host: Host, id: nat, left: Value, right: Value, ghost depth: nat): (r: Completion<bool>)
    requires left.Arr? && right.Arr? && left.ref != right.ref ==> Nested(left, depth) && Nested(right, depth)
    reads *
    ensures r.Normal?
    ensures left.Int? && right.Int? ==> r.value == (left.n != right.n)
    ensures left.Float? && right.Float? ==> r.value == (host.floatCompare(left.bits, right.bits) != 0)
    ensures left.Bool? && right.Bool? ==> r.value == (left.b != right.b)
    ensures left.Str? && right.Str? ==> r.value == (left.s != right.s)
    ensures left.Null? && right.Null? ==> !r.value
    ensures left.Arr? && right.Arr? ==>
      (r.value <==> left.ref != right.ref && !ElementsEqual(left.ref.values[..], right.ref.values[..], depth - 1))
    ensures AreDifferentClasses(left, right) ==> r.value
  {
    if left.Int? && right.Int? then Normal(left.n != right.n)
    else if left.Float? && right.Float? then Normal(host.floatCompare(left.bits, right.bits) != 0)
    else if left.Bool? && right.Bool? then Normal(left.b != right.b)
    else if left.Str? && right.Str? then Normal(left.s != right.s)
    else if left.Null? && right.Null? then Normal(false)
    else if left.Arr? && right.Arr? then
      (if left.ref == right.ref then Normal(false) else Normal(!ValueEquals(left, right, depth)))
    else if AreDifferentClasses(left, right) then Normal(true)
    else Abrupt(TypeError(OfError(Node(NotEqualNode, id), [Val(left), Val(right)])))
  }

  /**
   * `!=` is the negation of `equals` for every pair of runtime values, given
   * that `Double.compare` is 0 exactly on equal doubles.
   */
  lemma NotEqualIsNotEquals(host: Host, id: nat, left: Value, right: Value, depth: nat)
    requires CompareConsistent(host)
    requires Nested(left, depth) && Nested(right, depth)
    ensures NotEqual(host, id, left, right, depth) == Normal(!ValueEquals(left, right, depth))
  {
    if left.Float? && right.Float? {
      assert host.floatCompare(left.bits, right.bits) == 0 <==> left.bits == right.bits;
    }
  }

  /** `!=` is symmetric. */
  lemma NotEqualSymmetric(host: Host, id: nat, left: Value, right: Value, depth: nat)
    requires CompareConsistent(host)
    requires left.Arr? && right.Arr? && left.ref != right.ref ==> Nested(left, depth) && Nested(right, depth)
    ensures NotEqual(host, id, left, right, depth) == NotEqual(host, id, right, left, depth)
  {
    if left.Float? && right.Float? {
      assert host.floatCompare(left.bits, right.bits) == 0 <==> left.bits == right.bits;
      assert host.floatCompare(right.bits, left.bits) == 0 <==> right.bits == left.bits;
    } else if left.Arr? && right.Arr? && left.ref != right.ref {
      ValueEqualsSymmetric(left, right, depth);
    }
  }

  /**
   * A self-containing array, which no depth bound admits, is still compared:
   * with itself it is equal, and against a long it differs.
   */
  lemma SelfContainingComparisons(host: Host, id: nat, a: ArrayType, n: Long, depth: nat)
    requires a.values.Length > 0 && a.values[0] == Arr(a)
    ensures !Nested(Arr(a), depth)
    ensures NotEqual(host, id, Arr(a), Arr(a), depth) == Normal(false)
    ensures NotEqual(host, id, Int(n), Arr(a), depth) == Normal(true)
    ensures NotEqual(host, id, Arr(a), Int(n), depth) == Normal(true)
  {
    SelfContainingUnbounded(a, depth);
  }

  /** Two arrays differ exactly when their lengths differ or some pair of elements differs. */
  lemma ArraysDifferElementwise(host: Host, id: nat, a: ArrayType, b: ArrayType, depth: nat)
    requires Nested(Arr(a), depth) && Nested(Arr(b), depth) && a != b
    ensures NotEqual(host, id, Arr(a), Arr(b), depth).value <==>
      a.values.Length != b.values.Length ||
      exists i :: 0 <= i < a.values.Length && !ValueEquals(a.values[i], b.values[i], depth - 1)
  {
    ElementsEqualPairwise(a.values[..], b.values[..], depth - 1);
  }
}
