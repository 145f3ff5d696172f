/** The request router both handlers register on (Go's `http.ServeMux`),
    reduced to the method-and-path patterns it holds, in registration order.
    Registering a pattern twice makes Go panic, so a new pattern must not be
    there yet. */
module ServeMux {
  predicate Distinct(s: seq<string>) {
    forall i, j :: 0 <= i < j < |s| ==> s[i] != s[j]
  }

  class Mux {
    var patterns: seq<string>

    constructor ()
      ensures patterns == []
    {
      patterns := [];
    }

    /** `mux.HandleFunc(pattern, h)`. */
    method HandleFunc(pattern: string)
      requires pattern !in patterns
      modifies this
      ensures patterns == old(patterns) + [pattern]
    {
      patterns := patterns + [pattern];
    }
  }
}
