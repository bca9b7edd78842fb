/** The trap machine: a binary string falls into `TRAP` at its first "00", and `TRAP`
    maps to an exception class (machines/trap_state_machine.py). */
module TrapStateMachines {
  import opened States
  import opened Values
  import opened Errors
  import opened TransitionRules
  import opened TransitionTables
  import opened OutputMappings
  import opened Splitters
  import opened FiniteStateMachines
  import opened BinaryMachines

  const S0 := State("S0")
  const S1 := State("S1")
  const Trap := State("TRAP")

  const TrapTable: Table := map[
    S0 := BitRules(S0, S1, S0),
    S1 := BitRules(S1, Trap, S0),
    Trap := BitRules(Trap, Trap, Trap)]

  /** The plain dictionary the machine passes as its output mapping; `TRAP` holds the
      class `Exception` itself. */
  const TrapOutputs: map<State, Output> :=
    map[S0 := Plain(VInt(0)), S1 := Plain(VInt(1)), Trap := ExceptionType("Exception")]

  predicate Contains00(s: string)
  {
    exists i | 0 <= i < |s| - 1 :: s[i] == '0' && s[i + 1] == '0'
  }

  predicate EndsIn0(s: string)
  {
    |s| > 0 && s[|s| - 1] == '0'
  }

  /** Where a binary string leads: `TRAP` once it has held "00", else `S1` right after a '0'. */
  function TrapState(s: string): State
  {
    if Contains00(s) then Trap else if EndsIn0(s) then S1 else S0
  }

  lemma Contains00Snoc(w: string, c: char)
    ensures Contains00(w + [c]) <==> Contains00(w) || (c == '0' && EndsIn0(w))
  {
    var s := w + [c];
    if Contains00(w) {
      var i :| 0 <= i < |w| - 1 && w[i] == '0' && w[i + 1] == '0';
      assert s[i] == w[i] && s[i + 1] == w[i + 1];
    }
    if c == '0' && EndsIn0(w) {
      assert s[|w| - 1] == '0' && s[|w|] == '0';
    }
  }

  lemma TrapStep(q: State, c: char, rx: RegexEngine)
    requires q in TrapTable
    ensures FirstMatch(GetRules(TrapTable, q), VStr([c]), rx) ==
      if !IsBit(c) then None
      else if q == Trap then Some(Trap)
      else if c == '1' then Some(S0)
      else if q == S0 then Some(S1)
      else Some(Trap)
  {
    if q == S0 { BitStep(S0, S1, S0, c, rx); }
    else if q == S1 { BitStep(S1, Trap, S0, c, rx); }
    else { BitStep(Trap, Trap, Trap, c, rx); }
  }

  /** After a binary prefix the state is `TrapState` of that prefix. */
  lemma {:induction false} TrapRun(s: string, rx: RegexEngine)
    requires IsBinary(s)
    ensures Run(TrapTable, S0, Chars(s), rx) == Done(TrapState(s))
    decreases |s|
  {
    if s != [] {
      var w, c := s[..|s| - 1], s[|s| - 1];
      assert s == w + [c];
      assert IsBinary(w) by { assert forall i | 0 <= i < |w| :: w[i] == s[i]; }
      TrapRun(w, rx);
      TrapStep(TrapState(w), c, rx);
      Contains00Snoc(w, c);
      assert EndsIn0(s) <==> c == '0';
      RunCharsStep(TrapTable, S0, w, c, rx, TrapState(w), TrapState(s));
    }
  }

  /** `TRAP` is absorbing: no binary string leads out of it. */
  lemma {:induction false} TrapAbsorbing(s: string, rx: RegexEngine)
    requires IsBinary(s)
    ensures Run(TrapTable, Trap, Chars(s), rx) == Done(Trap)
    decreases |s|
  {
    if s != [] {
      var w, c := s[..|s| - 1], s[|s| - 1];
      assert s == w + [c];
      assert IsBinary(w) by { assert forall i | 0 <= i < |w| :: w[i] == s[i]; }
      TrapAbsorbing(w, rx);
      TrapStep(Trap, c, rx);
      RunCharsStep(TrapTable, Trap, w, c, rx, Trap, Trap);
    }
  }

  /** A character other than '0' and '1' has no rule, in `TRAP` as elsewhere. */
  lemma TrapRejects(s: string, rx: RegexEngine)
    requires !IsBinary(s)
    ensures var k := FirstNonBinary(s);
      Run(TrapTable, S0, Chars(s), rx) == Stuck(TrapState(s[..k]), VStr([s[k]]))
  {
    var k := FirstNonBinary(s);
    TrapRun(s[..k], rx);
    forall q ensures FirstMatch(GetRules(TrapTable, q), VStr([s[k]]), rx).None? {
      if q in TrapTable { TrapStep(q, s[k], rx); }
    }
    RejectsAtFirstNonBinary(TrapTable, S0, s, rx);
  }

  class TrapStateMachine {
    const fsm: FiniteStateMachine

    ghost predicate Valid()
      reads this, fsm, fsm.transitions, fsm.outputs
    {
      && fsm.initial == S0
      && fsm.transitions.table == TrapTable
      && fsm.outputs != null && fsm.outputs.mapping == TrapOutputs
      && fsm.splitter == StringSplitter
    }

    /** `TrapStateMachine()`: three states, six rules, the default splitter, starting in `S0`. */
    constructor (rx: RegexEngine)
      ensures Valid() && fsm.current == S0 && fsm.rx == rx
    {
      var t := new TransitionTable();
      AddBitRules(t, S0, S1, S0);
      AddBitRules(t, S1, Trap, S0);
      AddBitRules(t, Trap, Trap, Trap);
      var o := new OutputMapping();
      o.Add(S0, Plain(VInt(0)));
      o.Add(S1, Plain(VInt(1)));
      o.Add(Trap, ExceptionType("Exception"));
      fsm := new FiniteStateMachine(S0, t, o, None, rx);
    }

    /** `calculate(binary_string)`: raises `Exception("FSM ended in TRAP state!")` when the
        string holds "00", although the run itself succeeds; otherwise 1 when it ends in '0'
        and 0 when not (so 0 for `""`); the missing-transition error at the first other
        character, even once trapped. */
    method Calculate(input: string) returns (r: Result<Output>)
      requires Valid()
      modifies fsm`current
      ensures Valid()
      ensures IsBinary(input) ==> fsm.current == TrapState(input)
      ensures IsBinary(input) && Contains00(input) ==> r == Err(Raised("Exception", TrapMessage))
      ensures IsBinary(input) && !Contains00(input) ==> r == Ok(Plain(VInt(if EndsIn0(input) then 1 else 0)))
      ensures !IsBinary(input) ==>
        var k := FirstNonBinary(input);
        && fsm.current == TrapState(input[..k])
        && r == Err(NoTransition(fsm.current, VStr([input[k]])))
    {
      var res := fsm.Process(Text(input));
      assert Split(StringSplitter, Text(input)) == Ok(Chars(input)) by { SplitStrings(input); }
      if IsBinary(input) {
        TrapRun(input, fsm.rx);
      } else {
        TrapRejects(input, fsm.rx);
      }
      if res.Fail? {
        return Err(res.error);
      }
      r := fsm.GetOutput();
    }
  }
}
