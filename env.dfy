// Scopes (lib/env.js): a dictionary from names to bindings that `bind`
// extends in place after checking the name, and that `lookup` reads.
module Environment {
  import opened Failure

  /**
   * The checks `bind` makes before it stores anything (lib/env.js:15-18):
   * `arguments` and `eval` are never bindable, and a name already bound in
   * this scope cannot be bound again. The illegal-name check comes first.
   */
  function BindCheck<T>(dict: map<string, T>, x: string): (r: Outcome)
    ensures r.Ok? <==> x != "arguments" && x != "eval" && x !in dict
    ensures (x == "arguments" || x == "eval") ==> r == Err("illegal binding: '" + x + "'")
  {
    if x == "arguments" || x == "eval" then Err("illegal binding: '" + x + "'")
    else if x in dict then Err("duplicate binding for " + x)
    else Pass
  }

  /** One scope. The validator owns one for the module and one per function being checked. */
  class Env<T> {
    var dict: map<string, T>

    constructor ()
      ensures dict == map[]
    {
      dict := map[];
    }

    /** `lookup` (lib/env.js:10-12): the binding of `x`, or nothing when `x` was never bound. */
    function Lookup(x: string): (r: Option<T>)
      reads this
      ensures r.Some? <==> x in dict
      ensures r.Some? ==> r.value == dict[x]
    {
      if x in dict then Some(dict[x]) else None
    }

    /**
     * `bind` (lib/env.js:14-20): on success `x` now looks up to `t`; on failure
     * nothing is stored. Either way every other name keeps its binding.
     */
    method Bind(x: string, t: T) returns (o: Outcome)
      modifies this
      ensures o == BindCheck(old(dict), x)
      ensures dict == if o.Ok? then old(dict)[x := t] else old(dict)
      ensures o.Ok? ==> Lookup(x) == Some(t)
      ensures forall y :: y != x ==> Lookup(y) == old(Lookup(y))
    {
      o := BindCheck(dict, x);
      if o.Ok? {
        dict := dict[x := t];
      }
    }
  }

  /** A name bound in a scope can never be bound there again. */
  lemma BindTwiceFails<T>(dict: map<string, T>, x: string, t: T)
    requires BindCheck(dict, x).Ok?
    ensures BindCheck(dict[x := t], x).Err?
    ensures BindCheck(dict[x := t], x) == Err("duplicate binding for " + x)
  {
  }
}
