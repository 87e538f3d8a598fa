/**
 * `WhileNode`: a loop whose every step (`WhileRepeatingNode.executeRepeating`)
 * checks the condition and, when it holds, runs the body once. A `continue`
 * from the body ends only that step, a `break` ends the loop without checking
 * the condition again.
 *
 * The host's loop runs until a step says stop; the model bounds the number of
 * steps by `fuel` and reports `OutOfFuel` when the bound is reached first.
 */
module WhileNode {
  import opened Values
  import opened Completions

  /**
   * One step: the condition, evaluated as a boolean; when it is true the body
   * runs once in the state the condition left. The result says whether the
   * loop goes on.
   */
  function Step<S>(condition: Evaluator<S>, body: Statement<S>, s: S): (r: Run<bool, S>)
    ensures var c := condition(s);
      (c.result.Normal? && !c.result.value.Bool? ==>
        r == Run(Abrupt(Unsupported(c.result.value)), c.after))
      && (c.result.Normal? && c.result.value == Bool(false) ==> r == Run(Normal(false), c.after))
      && (c.result.Abrupt? ==> r == Run(Abrupt(c.result.signal), c.after))
    ensures var c := condition(s);
      c.result.Normal? && c.result.value == Bool(true) ==>
        var b := body(c.after);
        r.after == b.after
        && (b.result.Normal? ==> r.result == Normal(true))
        && (b.result == Abrupt(Continue) ==> r.result == Normal(true))
        && (b.result == Abrupt(Break) ==> r.result == Normal(false))
        && (b.result.Abrupt? && b.result.signal != Continue && b.result.signal != Break ==>
          r.result == Abrupt(b.result.signal))
  {
    var c := condition(s);
    match c.result
    case Abrupt(signal) => Run(Abrupt(signal), c.after)
    case Normal(v) =>
      if !v.Bool? then Run(Abrupt(Unsupported(v)), c.after)
      else if !v.b then Run(Normal(false), c.after)
      else
        var b := body(c.after);
        match b.result
        case Normal(_) => Run(Normal(true), b.after)
        case Abrupt(Continue) => Run(Normal(true), b.after)
        case Abrupt(Break) => Run(Normal(false), b.after)
        case Abrupt(signal) => Run(Abrupt(signal), b.after)
  }

  /** How a bounded run of the loop ends. */
  datatype Outcome<S> = Finished(run: Run<(), S>) | OutOfFuel(state: S)

  /** At most `fuel` steps of the loop from state `s`. */
  function Loop<S>(condition: Evaluator<S>, body: Statement<S>, s: S, fuel: nat): Outcome<S>
    decreases fuel
  {
    if fuel == 0 then OutOfFuel(s)
    else
      var step := Step(condition, body, s);
      match step.result
      case Abrupt(signal) => Finished(Run(Abrupt(signal), step.after))
      case Normal(again) =>
        if again then Loop(condition, body, step.after, fuel - 1)
        else Finished(Run(Normal(()), step.after))
  }

  /** The state after `n` steps that each said "go on". */
  function After<S>(condition: Evaluator<S>, body: Statement<S>, s: S, n: nat): S
    decreases n
  {
    if n == 0 then s else After(condition, body, Step(condition, body, s).after, n - 1)
  }

  /** The first `n` steps from `s` all said "go on". */
  ghost predicate Continues<S>(condition: Evaluator<S>, body: Statement<S>, s: S, n: nat)
    decreases n
  {
    n > 0 ==>
      Step(condition, body, s).result == Normal(true)
      && Continues(condition, body, Step(condition, body, s).after, n - 1)
  }

  /**
   * `executeVoid` (through `executeLoop`): steps until one says stop, raises,
   * or the bound is reached.
   */
  method ExecuteVoid<S>(condition: Evaluator<S>, body: Statement<S>, s: S, fuel: nat)
    returns (r: Outcome<S>)
    ensures r == Loop(condition, body, s, fuel)
  {
    var state := s;
    var remaining := fuel;
    while remaining > 0
      invariant Loop(condition, body, s, fuel) == Loop(condition, body, state, remaining)
      decreases remaining
    {
      var step := Step(condition, body, state);
      if step.result.Abrupt? {
        return Finished(Run(Abrupt(step.result.signal), step.after));
      }
      if !step.result.value {
        return Finished(Run(Normal(()), step.after));
      }
      state := step.after;
      remaining := remaining - 1;
    }
    r := OutOfFuel(state);
  }

  /**
   * If the first n steps go on and the next one stops, the loop finishes
   * normally after exactly those n + 1 steps, whatever larger bound it is given.
   */
  lemma {:induction false} StopsAfterSteps<S>(condition: Evaluator<S>, body: Statement<S>, s: S, n: nat, fuel: nat)
    requires Continues(condition, body, s, n)
    requires Step(condition, body, After(condition, body, s, n)).result == Normal(false)
    requires fuel > n
    ensures Loop(condition, body, s, fuel) ==
      Finished(Run(Normal(()), Step(condition, body, After(condition, body, s, n)).after))
    decreases n
  {
    if n > 0 {
      StopsAfterSteps(condition, body, Step(condition, body, s).after, n - 1, fuel - 1);
    }
  }

  /** A bound that is large enough gives the same result as any larger bound. */
  lemma {:induction false} FuelOnlyBounds<S>(condition: Evaluator<S>, body: Statement<S>, s: S, fuel: nat, more: nat)
    requires Loop(condition, body, s, fuel).Finished?
    requires fuel <= more
    ensures Loop(condition, body, s, more) == Loop(condition, body, s, fuel)
    decreases fuel
  {
    var step := Step(condition, body, s);
    if step.result == Normal(true) {
      FuelOnlyBounds(condition, body, step.after, fuel - 1, more - 1);
    }
  }

  /** A false condition ends the loop in the condition's state; the body never runs. */
  lemma FalseConditionSkipsBody<S>(condition: Evaluator<S>, body: Statement<S>, s: S, fuel: nat)
    requires fuel > 0
    requires condition(s).result == Normal(Bool(false))
    ensures Loop(condition, body, s, fuel) == Finished(Run(Normal(()), condition(s).after))
  {
  }

  /**
   * A `break` from the body ends the loop at once, in the body's state, and
   * the condition is not evaluated again.
   */
  lemma BreakEndsLoop<S>(condition: Evaluator<S>, body: Statement<S>, s: S, fuel: nat)
    requires fuel > 0
    requires condition(s).result == Normal(Bool(true))
    requires body(condition(s).after).result == Abrupt(Break)
    ensures Loop(condition, body, s, fuel) == Finished(Run(Normal(()), body(condition(s).after).after))
  {
  }

  /**
   * A `continue` from the body ends only the current step: the loop goes on
   * from the body's state, exactly as after a normal completion.
   */
  lemma ContinueRechecksCondition<S>(condition: Evaluator<S>, body: Statement<S>, s: S, fuel: nat)
    requires fuel > 0
    requires condition(s).result == Normal(Bool(true))
    requires body(condition(s).after).result == Abrupt(Continue)
    ensures Loop(condition, body, s, fuel) == Loop(condition, body, body(condition(s).after).after, fuel - 1)
  {
  }

  /** A condition that is not a boolean fails with `Unsupported` carrying its value. */
  lemma NonBooleanConditionUnsupported<S>(condition: Evaluator<S>, body: Statement<S>, s: S, fuel: nat)
    requires fuel > 0
    requires condition(s).result.Normal? && !condition(s).result.value.Bool?
    ensures Loop(condition, body, s, fuel) ==
      Finished(Run(Abrupt(Unsupported(condition(s).result.value)), condition(s).after))
  {
  }

  /** Any other abrupt completion of the body (a `return`, a type error) leaves the loop unchanged. */
  lemma OtherSignalsPropagate<S>(condition: Evaluator<S>, body: Statement<S>, s: S, fuel: nat)
    requires fuel > 0
    requires condition(s).result == Normal(Bool(true))
    requires var b := body(condition(s).after).result;
      b.Abrupt? && b.signal != Break && b.signal != Continue
    ensures Loop(condition, body, s, fuel) == Finished(body(condition(s).after))
  {
  }

  /**
   * The loop of the tests: a counter starting at 5 that the condition
   * decrements, holding while the counter was not 0, and a body that counts
   * its runs.
   */
  datatype Counters = Counters(counter: int, bodyRuns: nat)

  function CountDown(s: Counters): Run<Value, Counters>
  {
    Run(Normal(Bool(s.counter != 0)), s.(counter := s.counter - 1))
  }

  function CountRun(s: Counters): Run<(), Counters>
  {
    Run(Normal(()), s.(bodyRuns := s.bodyRuns + 1))
  }

  /** The body that breaks in the step that sees the counter at 3. */
  function BreakAtThree(s: Counters): Run<(), Counters>
  {
    Run(if s.counter == 3 then Abrupt(Break) else Normal(()), s.(bodyRuns := s.bodyRuns + 1))
  }

  /** The body that continues in the step that sees the counter at 3. */
  function ContinueAtThree(s: Counters): Run<(), Counters>
  {
    Run(if s.counter == 3 then Abrupt(Continue) else Normal(()), s.(bodyRuns := s.bodyRuns + 1))
  }

  /** Five true conditions, then a false one: the body runs five times. */
  lemma FiveIterations()
    ensures Loop(CountDown, CountRun, Counters(5, 0), 6) == Finished(Run(Normal(()), Counters(-1, 5)))
  {
  }

  /** A `continue` in the second step does not change how often the body runs. */
  lemma FiveIterationsWithContinue()
    ensures Loop(CountDown, ContinueAtThree, Counters(5, 0), 6) == Finished(Run(Normal(()), Counters(-1, 5)))
  {
  }

  /** A `break` in the second step stops the loop after two runs of the body. */
  lemma TwoIterationsWithBreak()
    ensures Loop(CountDown, BreakAtThree, Counters(5, 0), 6) == Finished(Run(Normal(()), Counters(3, 2)))
  {
  }
}
