/** The parity machine: whether a binary string has an odd number of '1's
    (machines/parity_checker_machine.py). */
module ParityCheckerMachines {
  import opened States
  import opened Values
  import opened Errors
  import opened TransitionRules
  import opened TransitionTables
  import opened OutputMappings
  import opened Splitters
  import opened FiniteStateMachines
  import opened BinaryMachines

  const Even := State("EVEN")
  const Odd := State("ODD")

  const ParityTable: Table := map[
    Even := BitRules(Even, Even, Odd),
    Odd := BitRules(Odd, Odd, Even)]

  /** The plain dictionary the machine passes as its output mapping. */
  const ParityOutputs: map<State, Output> :=
    map[Even := Plain(VBool(false)), Odd := Plain(VBool(true))]

  /** The number of '1's. */
  function Ones(s: string): nat
    decreases |s|
  {
    if s == [] then 0 else Ones(s[..|s| - 1]) + (if s[|s| - 1] == '1' then 1 else 0)
  }

  function ParityState(odd: bool): State
  {
    if odd then Odd else Even
  }

  lemma ParityStep(odd: bool, c: char, rx: RegexEngine)
    ensures FirstMatch(GetRules(ParityTable, ParityState(odd)), VStr([c]), rx) ==
      if c == '0' then Some(ParityState(odd)) else if c == '1' then Some(ParityState(!odd)) else None
  {
    if odd { BitStep(Odd, Odd, Even, c, rx); } else { BitStep(Even, Even, Odd, c, rx); }
  }

  /** '0' never changes the state. */
  lemma ZeroKeepsState(q: State, rx: RegexEngine)
    requires q in ParityTable
    ensures FirstMatch(GetRules(ParityTable, q), VStr("0"), rx) == Some(q)
  {
    ParityStep(q == Odd, '0', rx);
  }

  /** After a binary prefix the state records whether it holds an odd number of '1's. */
  lemma {:induction false} ParityRun(s: string, rx: RegexEngine)
    requires IsBinary(s)
    ensures Run(ParityTable, Even, Chars(s), rx) == Done(ParityState(Ones(s) % 2 == 1))
    decreases |s|
  {
    if s != [] {
      var w, c := s[..|s| - 1], s[|s| - 1];
      assert s == w + [c];
      assert IsBinary(w) by { assert forall i | 0 <= i < |w| :: w[i] == s[i]; }
      var odd := Ones(w) % 2 == 1;
      assert Ones(s) == Ones(w) + (if c == '1' then 1 else 0);
      ParityRun(w, rx);
      ParityStep(odd, c, rx);
      RunCharsStep(ParityTable, Even, w, c, rx, ParityState(odd), ParityState(Ones(s) % 2 == 1));
    }
  }

  /** A character other than '0' and '1' has no rule in either state. */
  lemma ParityRejects(s: string, rx: RegexEngine)
    requires !IsBinary(s)
    ensures var k := FirstNonBinary(s);
      Run(ParityTable, Even, Chars(s), rx) == Stuck(ParityState(Ones(s[..k]) % 2 == 1), VStr([s[k]]))
  {
    var k := FirstNonBinary(s);
    ParityRun(s[..k], rx);
    forall q ensures FirstMatch(GetRules(ParityTable, q), VStr([s[k]]), rx).None? {
      if q == Even { ParityStep(false, s[k], rx); }
      else if q == Odd { ParityStep(true, s[k], rx); }
    }
    RejectsAtFirstNonBinary(ParityTable, Even, s, rx);
  }

  /** Every state the table knows has an output, and none of them is `None`. */
  lemma ParityOutputsTotal()
    ensures forall q :: q in StatesOf(ParityTable) ==> q in ParityOutputs && ParityOutputs[q] != Plain(VNone)
  {
    var t := ParityTable;
    forall s, r | s in t.Keys && s in t && r in t[s] ensures r.to in {Even, Odd} {
      assert s == Even || s == Odd;
    }
  }

  class ParityCheckerMachine {
    const fsm: FiniteStateMachine

    ghost predicate Valid()
      reads this, fsm, fsm.transitions, fsm.outputs
    {
      && fsm.initial == Even
      && fsm.transitions.table == ParityTable
      && fsm.outputs != null && fsm.outputs.mapping == ParityOutputs
      && fsm.splitter == StringSplitter
    }

    /** `ParityCheckerMachine()`: two states, four rules, the default splitter, starting in `EVEN`. */
    constructor (rx: RegexEngine)
      ensures Valid() && fsm.current == Even && fsm.rx == rx
    {
      var t := new TransitionTable();
      AddBitRules(t, Even, Even, Odd);
      AddBitRules(t, Odd, Odd, Even);
      var o := new OutputMapping();
      o.Add(Even, Plain(VBool(false)));
      o.Add(Odd, Plain(VBool(true)));
      fsm := new FiniteStateMachine(Even, t, o, None, rx);
    }

    /** `calculate(binary_string)`: `True` exactly when the number of '1's is odd (so `False`
        for `""`), never `None`; the missing-transition error at the first other character. */
    method Calculate(input: string) returns (r: Result<Output>)
      requires Valid()
      modifies fsm`current
      ensures Valid()
      ensures IsBinary(input) ==>
        && fsm.current == ParityState(Ones(input) % 2 == 1)
        && r == Ok(Plain(VBool(Ones(input) % 2 == 1)))
      ensures !IsBinary(input) ==>
        var k := FirstNonBinary(input);
        && fsm.current == ParityState(Ones(input[..k]) % 2 == 1)
        && r == Err(NoTransition(fsm.current, VStr([input[k]])))
      ensures r.Ok? ==> r.value != Plain(VNone)
    {
      var res := fsm.Process(Text(input));
      assert Split(StringSplitter, Text(input)) == Ok(Chars(input)) by { SplitStrings(input); }
      if IsBinary(input) {
        ParityRun(input, fsm.rx);
      } else {
        ParityRejects(input, fsm.rx);
      }
      if res.Fail? {
        return Err(res.error);
      }
      r := fsm.GetOutput();
    }
  }
}
