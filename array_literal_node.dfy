/**
 * `ArrayLiteralNode`: `{e1, ..., en}` evaluates the element expressions left
 * to right and wraps their values in a newly allocated array.
 */
module ArrayLiteralNode {
  import opened Values
  import opened Completions

  /**
   * The element expressions evaluated left to right, each once, each in the
   * state the previous one left; the first abrupt completion ends the
   * evaluation.
   */
  function EvaluateAll<S>(elements: seq<Evaluator<S>>, s: S): (r: Run<seq<Value>, S>)
    ensures r.result.Normal? ==> |r.result.value| == |elements|
    ensures elements == [] ==> r == Run(Normal([]), s)
  {
    if elements == [] then Run(Normal([]), s)
    else
      var first := elements[0](s);
      match first.result
      case Abrupt(signal) => Run(Abrupt(signal), first.after)
      case Normal(v) =>
        var rest := EvaluateAll(elements[1..], first.after);
        match rest.result
        case Abrupt(signal) => Run(Abrupt(signal), rest.after)
        case Normal(vs) => Run(Normal([v] + vs), rest.after)
  }

  /**
   * Evaluating two lists of element expressions one after the other is
   * evaluating their concatenation: values in order, stopping at the first
   * abrupt completion.
   */
  lemma {:induction false} EvaluateAllAppend<S>(first: seq<Evaluator<S>>, second: seq<Evaluator<S>>, s: S)
    ensures var a := EvaluateAll(first, s);
      var whole := EvaluateAll(first + second, s);
      if a.result.Abrupt? then whole == a
      else
        var b := EvaluateAll(second, a.after);
        whole == (if b.result.Abrupt? then b else Run(Normal(a.result.value + b.result.value), b.after))
    decreases |first|
  {
    if first == [] {
      assert first + second == second;
      var b := EvaluateAll(second, s);
      if b.result.Normal? {
        assert [] + b.result.value == b.result.value;
      }
    } else {
      assert (first + second)[1..] == first[1..] + second;
      assert (first + second)[0] == first[0];
      var head := first[0](s);
      if head.result.Normal? {
        EvaluateAllAppend(first[1..], second, head.after);
        var rest := EvaluateAll(first[1..], head.after);
        if rest.result.Normal? {
          var b := EvaluateAll(second, rest.after);
          if b.result.Normal? {
            assert [head.result.value] + (rest.result.value + b.result.value)
              == ([head.result.value] + rest.result.value) + b.result.value;
          }
        }
      }
    }
  }

  /** The i-th value is what the i-th element expression yields in the state its predecessors left. */
  lemma {:induction false} EvaluateAllSnoc<S>(elements: seq<Evaluator<S>>, last: Evaluator<S>, s: S)
    requires EvaluateAll(elements, s).result.Normal?
    ensures var a := EvaluateAll(elements, s);
      var step := last(a.after);
      EvaluateAll(elements + [last], s) ==
        if step.result.Abrupt? then Run(Abrupt(step.result.signal), step.after)
        else Run(Normal(a.result.value + [step.result.value]), step.after)
  {
    EvaluateAllAppend(elements, [last], s);
    var a := EvaluateAll(elements, s);
    assert EvaluateAll([last], a.after).result.Normal? ==>
      EvaluateAll([last], a.after).result.value == [last(a.after).result.value];
  }

  /**
   * `execute`: the loop over the element expressions, then the allocation.
   * Every evaluation allocates a new array, so results never alias.
   */
  method Execute<S>(elements: seq<Evaluator<S>>, s: S) returns (r: Completion<ArrayType>, after: S)
    ensures var spec := EvaluateAll(elements, s);
      after == spec.after &&
      (spec.result.Abrupt? ==> r == Abrupt(spec.result.signal)) &&
      (spec.result.Normal? ==>
         r.Normal? && fresh(r.value) && fresh(r.value.values) && r.value.values[..] == spec.result.value)
  {
    var executed: seq<Value> := [];
    after := s;
    for i := 0 to |elements|
      invariant EvaluateAll(elements[..i], s) == Run(Normal(executed), after)
    {
      var step := elements[i](after);
      EvaluateAllSnoc(elements[..i], elements[i], s);
      assert elements[..i + 1] == elements[..i] + [elements[i]];
      if step.result.Abrupt? {
        r, after := Abrupt(step.result.signal), step.after;
        EvaluateAllAppend(elements[..i + 1], elements[i + 1..], s);
        assert elements[..i + 1] + elements[i + 1..] == elements;
        return;
      }
      executed, after := executed + [step.result.value], step.after;
    }
    assert elements[..|elements|] == elements;
    var created := new ArrayType(executed);
    r := Normal(created);
  }

  /** `executeGeneric`: the new array as a value. */
  method ExecuteGeneric<S>(elements: seq<Evaluator<S>>, s: S) returns (r: Completion<Value>, after: S)
    ensures var spec := EvaluateAll(elements, s);
      after == spec.after &&
      (spec.result.Abrupt? ==> r == Abrupt(spec.result.signal)) &&
      (spec.result.Normal? ==>
         r.Normal? && r.value.Arr? && fresh(r.value.ref) && fresh(r.value.ref.values) &&
         r.value.ref.values[..] == spec.result.value)
  {
    var created;
    created, after := Execute(elements, s);
    r := if created.Normal? then Normal(Arr(created.value)) else Abrupt(created.signal);
  }

  /** `executeArrayType`: the same evaluation, the array itself. */
  method ExecuteArrayType<S>(elements: seq<Evaluator<S>>, s: S) returns (r: Completion<ArrayType>, after: S)
    ensures var spec := EvaluateAll(elements, s);
      after == spec.after &&
      (spec.result.Abrupt? ==> r == Abrupt(spec.result.signal)) &&
      (spec.result.Normal? ==>
         r.Normal? && fresh(r.value) && fresh(r.value.values) && r.value.values[..] == spec.result.value)
  {
    r, after := Execute(elements, s);
  }
}
