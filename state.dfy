/** A machine state: an immutable token identified by its name (core/state.py). */
module States {

  /** Two states are equal exactly when their names are equal; being a datatype,
      `State` has value equality, so equal states are interchangeable everywhere,
      including as keys of maps and members of sets. */
  datatype State = State(name: string)

  /** `str(state)`: the name itself, unchanged (empty and long names included). */
  function Str(s: State): (r: string)
    ensures |r| == |s.name| && forall i :: 0 <= i < |r| ==> r[i] == s.name[i]
  {
    s.name
  }

  /** Hashing through any hash of names agrees with state equality: equal states
      hash equally, which is what lets a `State` be a dictionary key. */
  function Hash(hashName: string -> int, s: State): int
  {
    hashName(s.name)
  }

  lemma EqualIffSameName(s: State, t: State)
    ensures s == t <==> s.name == t.name
  {
  }

  lemma HashConsistent(hashName: string -> int, s: State, t: State)
    requires s == t
    ensures Hash(hashName, s) == Hash(hashName, t)
  {
  }
}
