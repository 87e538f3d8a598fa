/**
 * Program start: parsing yields the functions by name and fails when there
 * is no `main`; the root node registers every parsed function on its first
 * execution only, then calls `main` without arguments and returns its result.
 */
module EvalRootNode {
  import opened Values
  import opened Completions
  import opened FunctionRegistry

  /**
   * Calling a target: its result and the state it leaves, given the
   * arguments and the registry's contents at the time of the call.
   */
  type Invoke<!S> = (CallTarget, seq<Value>, map<string, CallTarget>, S) -> Run<Value, S>

  datatype Parsed = Program(mainTarget: CallTarget, functions: map<string, CallTarget>) | ParseFailure(message: string)

  /** `Language.parse` after parsing: the program around `main`, or "Main method missing". */
  function Parse(functions: map<string, CallTarget>): (r: Parsed)
    ensures r.Program? <==> "main" in functions
    ensures r.Program? ==> r.mainTarget == functions["main"] && r.functions == functions
    ensures r.ParseFailure? ==> r.message == "Main method missing"
  {
    if "main" in functions then Program(functions["main"], functions)
    else ParseFailure("Main method missing")
  }

  class EvalRootNode {
    const functions: map<string, CallTarget>
    const registry: FunctionRegistry
    const mainTarget: CallTarget
    var registered: bool

    /** Built only from a successful parse, so `main` is among the functions. */
    constructor (registry: FunctionRegistry, functions: map<string, CallTarget>)
      requires "main" in functions
      ensures this.registry == registry && this.functions == functions
      ensures mainTarget == functions["main"] && !registered
    {
      this.registry := registry;
      this.functions := functions;
      this.mainTarget := functions["main"];
      this.registered := false;
    }

    /** Once registration has happened, every parsed function resolves to its target. */
    ghost predicate Valid()
      reads this, registry
    {
      registered ==> forall name :: name in functions ==> registry.Lookup(name) == Some(functions[name])
    }

    /**
     * `execute`: the first call registers all functions, every later call
     * skips that; then `main` runs with no arguments and its result is returned.
     */
    method Execute<S>(invoke: Invoke<S>, s: S) returns (r: Run<Value, S>)
      requires Valid()
      modifies this, registry
      ensures registered && Valid()
      ensures registry.functions ==
        if old(registered) then old(registry.functions) else old(registry.functions) + functions
      ensures r == invoke(mainTarget, [], registry.functions, s)
    {
      if !registered {
        registry.RegisterAll(functions);
        registered := true;
      }
      r := invoke(mainTarget, [], registry.functions, s);
    }

    /**
     * Whatever the registry held before, after the first execution every
     * parsed function, `main` included, resolves to its own target, so a call
     * may name a function declared later in the program.
     */
    method FirstExecution<S>(invoke: Invoke<S>, s: S) returns (r: Run<Value, S>)
      requires !registered && "main" in functions && mainTarget == functions["main"]
      modifies this, registry
      ensures Valid() && registered
      ensures registry.Lookup("main") == Some(mainTarget)
      ensures r == invoke(mainTarget, [], registry.functions, s)
    {
      r := Execute(invoke, s);
    }

    /** A second execution registers nothing: the registry is as the first left it. */
    method RepeatedExecution<S>(invoke: Invoke<S>, s: S, t: S) returns (first: Run<Value, S>, second: Run<Value, S>)
      requires Valid()
      modifies this, registry
      ensures registered
      ensures registry.functions == old(registry.functions) + (if old(registered) then map[] else functions)
      ensures first == invoke(mainTarget, [], registry.functions, s)
      ensures second == invoke(mainTarget, [], registry.functions, t)
    {
      first := Execute(invoke, s);
      second := Execute(invoke, t);
    }
  }
}
