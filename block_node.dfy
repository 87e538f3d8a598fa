/**
 * `BlockNode`: runs its statements in order, each once, all in the same
 * frame; the first abrupt completion propagates at once.
 */
module BlockNode {
  import opened Completions

  /** The statements run in order from state `s`, stopping at the first abrupt completion. */
  function RunAll<S>(statements: seq<Statement<S>>, s: S): Run<(), S>
  {
    if statements == [] then Run(Normal(()), s)
    else
      var first := statements[0](s);
      if first.result.Abrupt? then first else RunAll(statements[1..], first.after)
  }

  /** Running two statement lists one after the other is running their concatenation. */
  lemma {:induction false} RunAllAppend<S>(first: seq<Statement<S>>, second: seq<Statement<S>>, s: S)
    ensures var a := RunAll(first, s);
      RunAll(first + second, s) == if a.result.Abrupt? then a else RunAll(second, a.after)
    decreases |first|
  {
    if first == [] {
      assert first + second == second;
    } else {
      assert (first + second)[0] == first[0];
      assert (first + second)[1..] == first[1..] + second;
      var head := first[0](s);
      if head.result.Normal? {
        RunAllAppend(first[1..], second, head.after);
      }
    }
  }

  /**
   * When statement k completes abruptly after the first k ran normally, the
   * block ends with that completion and the later statements do not run.
   */
  lemma AbruptStatementEndsBlock<S>(statements: seq<Statement<S>>, k: nat, s: S)
    requires k < |statements|
    requires RunAll(statements[..k], s).result.Normal?
    requires statements[k](RunAll(statements[..k], s).after).result.Abrupt?
    ensures RunAll(statements, s) == statements[k](RunAll(statements[..k], s).after)
  {
    RunAllAppend(statements[..k], statements[k..], s);
    assert statements[..k] + statements[k..] == statements;
    assert statements[k..][0] == statements[k];
  }

  /** A block holding a block runs like the flattened block. */
  lemma NestedBlockFlattens<S>(inner: seq<Statement<S>>, after: seq<Statement<S>>, s: S)
    ensures RunAll([(t: S) => RunAll(inner, t)] + after, s) == RunAll(inner + after, s)
  {
    RunAllAppend(inner, after, s);
    var nested := [(t: S) => RunAll(inner, t)] + after;
    assert nested[1..] == after;
  }

  class BlockNode<S> {
    const statements: seq<Statement<S>>

    constructor (statements: seq<Statement<S>>)
      ensures this.statements == statements
    {
      this.statements := statements;
    }

    /** `getStatementNodes`: the statements in construction order, as an immutable list. */
    function GetStatementNodes(): (r: seq<Statement<S>>)
      ensures r == statements
    {
      statements
    }

    /** `executeVoid`: the for-loop over the statements, all in the same state. */
    method ExecuteVoid(s: S) returns (r: Run<(), S>)
      ensures r == RunAll(statements, s)
      ensures statements == [] ==> r == Run(Normal(()), s)
    {
      var state := s;
      for i := 0 to |statements|
        invariant RunAll(statements, s) == RunAll(statements[i..], state)
      {
        var step := statements[i](state);
        assert statements[i..][0] == statements[i] && statements[i..][1..] == statements[i + 1..];
        if step.result.Abrupt? {
          return step;
        }
        state := step.after;
      }
      r := Run(Normal(()), state);
    }
  }
}
