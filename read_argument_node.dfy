/**
 * `ReadArgumentNode`: the argument at a fixed position of the call, or the
 * Null singleton when the caller passed fewer arguments.
 */
module ReadArgumentNode {
  import opened Values

  /** `executeGeneric` over the frame's argument array. */
  function ReadArgument(arguments: seq<Value>, index: nat): (r: Value)
    ensures index < |arguments| ==> r == arguments[index]
    ensures index >= |arguments| ==> r == Null
  {
    if index < |arguments| then arguments[index] else Null
  }

  /**
   * Binding parameters 0..n-1 from a call with any number of arguments: the
   * first arguments fill the parameters in order, missing ones read as Null,
   * and surplus arguments are never read.
   */
  function BindParameters(count: nat, arguments: seq<Value>): (bound: seq<Value>)
    ensures |bound| == count
    ensures forall i :: 0 <= i < count && i < |arguments| ==> bound[i] == arguments[i]
    ensures forall i :: |arguments| <= i < count ==> bound[i] == Null
  {
    seq(count, i requires 0 <= i < count => ReadArgument(arguments, i))
  }

  /** Passing more arguments than parameters binds the same as passing exactly the first ones. */
  lemma SurplusArgumentsIgnored(count: nat, arguments: seq<Value>)
    requires count <= |arguments|
    ensures BindParameters(count, arguments) == BindParameters(count, arguments[..count])
  {
  }
}
