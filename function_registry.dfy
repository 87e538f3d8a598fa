/**
 * The function registry of a running program: call targets by name. Only the
 * behaviour the interpreter relies on is modelled: a lookup finds exactly
 * what was registered last under the name, and registering replaces.
 */
module FunctionRegistry {
  import opened Values

  /** A `RootCallTarget`, identified by the root node it runs. */
  datatype CallTarget = CallTarget(root: nat)

  class FunctionRegistry {
    var functions: map<string, CallTarget>

    constructor ()
      ensures functions == map[]
    {
      functions := map[];
    }

    /** `lookup`: the target registered under `name`, or empty. */
    function Lookup(name: string): (r: Option<CallTarget>)
      reads this
      ensures r.Some? <==> name in functions
      ensures r.Some? ==> r.value == functions[name]
    {
      if name in functions then Some(functions[name]) else None
    }

    /** `register`: `name` now resolves to `target`; every other name is unchanged. */
    method Register(name: string, target: CallTarget)
      modifies this
      ensures functions == old(functions)[name := target]
    {
      functions := functions[name := target];
    }

    /** `registerAll`: every entry of `added` is registered, replacing an earlier one of the same name. */
    method RegisterAll(added: map<string, CallTarget>)
      modifies this
      ensures functions == old(functions) + added
    {
      functions := functions + added;
    }
  }
}
