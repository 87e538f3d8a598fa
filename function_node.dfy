/**
 * `FunctionNode`: evaluates to the call target registered under its name,
 * looked up when the node runs, not when it is built.
 */
module FunctionNode {
  import opened Values
  import opened Errors
  import opened Completions
  import opened FunctionRegistry

  /** The error of an unregistered name: no symbol and no operands. */
  function LookupError(id: nat): TuberException
  {
    OfError(Node(FunctionNode, id), [])
  }

  /** `executeGeneric`: the registry's target for `name`, or the node's typed error. */
  function ExecuteGeneric(registry: FunctionRegistry, id: nat, name: string): (r: Completion<CallTarget>)
    reads registry
    ensures r.Normal? <==> name in registry.functions
    ensures r.Normal? ==> r.value == registry.functions[name]
    ensures r.Abrupt? ==> r.signal == TypeError(LookupError(id))
  {
    match registry.Lookup(name)
    case Some(target) => Normal(target)
    case None => Abrupt(TypeError(LookupError(id)))
  }

  /** The message of the lookup error, which points at the node itself. */
  lemma LookupErrorMessage(host: Host, id: nat)
    ensures GetLocation(LookupError(id)) == Node(FunctionNode, id)
    ensures Message(host, LookupError(id), 0) == "Error: operation not defined."
  {
    NoArgumentsMessage(host, Node(FunctionNode, id), 0);
  }

  /**
   * The lookup reads the registry as it is when the node runs: registering a
   * function after the node was built, before it runs, makes the call
   * resolve.
   */
  method ResolvesLaterRegistration(registry: FunctionRegistry, id: nat, name: string, target: CallTarget)
    returns (before: Completion<CallTarget>, after: Completion<CallTarget>)
    requires name !in registry.functions
    modifies registry
    ensures before == Abrupt(TypeError(LookupError(id)))
    ensures after == Normal(target)
    ensures registry.functions == old(registry.functions)[name := target]
  {
    before := ExecuteGeneric(registry, id, name);
    registry.Register(name, target);
    after := ExecuteGeneric(registry, id, name);
  }
}
