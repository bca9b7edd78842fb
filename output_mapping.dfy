/** The state-to-output mapping (core/output_mapping.py). */
module OutputMappings {
  import opened States
  import opened Values

  /** A stored output: a plain value, any other object (a callable, say) that is only
      ever handed back, or an exception class, which `get_output` raises instead. */
  datatype Output = Plain(v: Value) | Opaque(id: nat) | ExceptionType(kind: string)

  class OutputMapping {
    /** `self._mapping`. */
    var mapping: map<State, Output>

    constructor ()
      ensures mapping == map[]
    {
      mapping := map[];
    }

    /** `add(state, output)`: sets or overwrites the state's output; chaining is not modelled. */
    method Add(s: State, v: Output)
      modifies this
      ensures mapping == old(mapping)[s := v]
      ensures Get(s) == v
      ensures forall q | q != s :: Get(q) == old(Get(q))
    {
      mapping := mapping[s := v];
    }

    /** `get(state)`: the stored output, or `None` for a state without one; a stored
        `None` and an absent state look the same. */
    function Get(s: State): (r: Output)
      reads this
      ensures s in mapping ==> r == mapping[s]
      ensures s !in mapping ==> r == Plain(VNone)
      ensures r == Plain(VNone) <==> s !in mapping || mapping[s] == Plain(VNone)
    {
      if s in mapping then mapping[s] else Plain(VNone)
    }
  }
}
