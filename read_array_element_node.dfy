/**
 * `ReadArrayElementNode`: `source[index]`. The source is evaluated as an
 * array, then the index as a 64-bit integer narrowed to a Java `int`, then
 * the element is looked up; a source or index of the wrong kind is the
 * node's typed error, which carries no operands.
 */
module ReadArrayElementNode {
  import opened Values
  import opened Errors
  import opened Completions
  import opened ExpressionNode

  const TwoTo31: int := 0x8000_0000
  const TwoTo32: int := 0x1_0000_0000

  /** Java's `(int)` cast of a `long`: its low 32 bits read as a two's-complement number. */
  function ToInt(n: int): (r: int)
    ensures -TwoTo31 <= r < TwoTo31
    ensures (r - n) % TwoTo32 == 0
  {
    var low := n % TwoTo32;
    if low < TwoTo31 then low else low - TwoTo32
  }

  /** A value already in `int` range is unchanged by the cast, and it is the only such value with those low bits. */
  lemma ToIntKeepsIntRange(n: int)
    ensures -TwoTo31 <= n < TwoTo31 <==> ToInt(n) == n
  {
    if -TwoTo31 <= n < TwoTo31 {
      if n >= 0 {
        assert n % TwoTo32 == n;
      } else {
        assert n % TwoTo32 == n + TwoTo32;
      }
    }
  }

  /** The node's own typed error: no short name, no operands. */
  function ReadError(id: nat): Signal
  {
    TypeError(OfError(Node(ReadArrayElementNode, id), []))
  }

  /** The array a source yields in state `s`, if it yields one. */
  function SourceArrays<S>(source: Evaluator<S>, s: S): set<object>
  {
    var result := source(s).result;
    if result.Normal? && result.value.Arr? then {result.value.ref.values} else {}
  }

  /** `executeGeneric`: source, then index, then the lookup; the array is only read. */
  function ReadArrayElement<S>(id: nat, source: Evaluator<S>, index: Evaluator<S>, s: S): (r: Run<Value, S>)
    reads SourceArrays(source, s)
    // a source that is not an array: the typed error, and the index is never evaluated
    ensures source(s).result.Normal? && !source(s).result.value.Arr? ==>
      r == Run(Abrupt(ReadError(id)), source(s).after)
    ensures source(s).result.Abrupt? && !source(s).result.signal.UnexpectedResult? ==>
      r == Run(Abrupt(source(s).result.signal), source(s).after)
    // an array source: the index runs next, in the state the source left
    ensures source(s).result.Normal? && source(s).result.value.Arr? ==>
      var a := source(s).result.value.ref;
      var indexRun := index(source(s).after);
      r.after == indexRun.after &&
      (indexRun.result.Abrupt? && !indexRun.result.signal.UnexpectedResult? ==> r.result == indexRun.result) &&
      (indexRun.result.Normal? && !indexRun.result.value.Int? ==> r.result == Abrupt(ReadError(id))) &&
      (indexRun.result.Normal? && indexRun.result.value.Int? ==>
        var i := ToInt(indexRun.result.value.n);
        (0 <= i < a.values.Length ==> r.result == Normal(a.values[i])) &&
        (i >= a.values.Length ==> r.result == Abrupt(LookupFailure)) &&
        (i < 0 ==> r.result == Abrupt(HostFailure)))
  {
    var sourceRun := ExecuteTyped(ArrayKind, source, s);
    match sourceRun.result
    case Abrupt(UnexpectedResult(_)) => Run(Abrupt(ReadError(id)), sourceRun.after)
    case Abrupt(signal) => Run(Abrupt(signal), sourceRun.after)
    case Normal(arrayValue) =>
      var indexRun := ExecuteTyped(LongKind, index, sourceRun.after);
      match indexRun.result
      case Abrupt(UnexpectedResult(_)) => Run(Abrupt(ReadError(id)), indexRun.after)
      case Abrupt(signal) => Run(Abrupt(signal), indexRun.after)
      case Normal(indexValue) =>
        var i := ToInt(indexValue.n);
        if i < 0 then Run(Abrupt(HostFailure), indexRun.after)
        else
          match arrayValue.ref.Get(i)
          case Some(element) => Run(Normal(element), indexRun.after)
          case None => Run(Abrupt(LookupFailure), indexRun.after)
  }

  /**
   * Because of the cast, an index 2^32 past a valid one reads the same
   * element: `a[4294967296]` is `a[0]` on a non-empty array.
   */
  lemma IndexNarrowingWraps(n: int)
    requires 0 <= n < TwoTo31
    ensures ToInt(n + TwoTo32) == n
  {
    assert (n + TwoTo32) % TwoTo32 == n;
  }

  /** The typed error of this node reads "Error: operation not defined.". */
  lemma ReadErrorMessage(host: Host, id: nat)
    ensures Message(host, ReadError(id).error, 0) == "Error: operation not defined."
  {
    NoArgumentsMessage(host, Node(ReadArrayElementNode, id), 0);
  }
}
