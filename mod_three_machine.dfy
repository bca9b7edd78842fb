/** The remainder-modulo-3 machine over binary strings (machines/mod_three_machine.py). */
module ModThreeMachines {
  import opened States
  import opened Values
  import opened Errors
  import opened TransitionRules
  import opened TransitionTables
  import opened OutputMappings
  import opened Splitters
  import opened FiniteStateMachines
  import opened BinaryMachines

  const S0 := State("S0")
  const S1 := State("S1")
  const S2 := State("S2")

  /** The state holding remainder `n`. */
  function Residue(n: nat): State
    requires n < 3
  {
    if n == 0 then S0 else if n == 1 then S1 else S2
  }

  /** The table the constructor's six `add` calls build. */
  const ModThreeTable: Table := map[
    S0 := BitRules(S0, S0, S1),
    S1 := BitRules(S1, S2, S0),
    S2 := BitRules(S2, S1, S2)]

  const ModThreeOutputs: map<State, Output> :=
    map[S0 := Plain(VInt(0)), S1 := Plain(VInt(1)), S2 := Plain(VInt(2))]

  /** From remainder `n`, digit `c` leads to remainder `(2n + c) mod 3`. */
  lemma ResidueStep(n: nat, c: char, rx: RegexEngine)
    requires n < 3
    ensures FirstMatch(GetRules(ModThreeTable, Residue(n)), VStr([c]), rx) ==
      if IsBit(c) then Some(Residue((2 * n + Bit(c)) % 3)) else None
  {
    if n == 0 { BitStep(S0, S0, S1, c, rx); }
    else if n == 1 { BitStep(S1, S2, S0, c, rx); }
    else { BitStep(S2, S1, S2, c, rx); }
  }

  /** The remainder the machine tracks, digit by digit. */
  function Remainder(s: string): (n: nat)
    ensures n < 3
    decreases |s|
  {
    if s == [] then 0 else (2 * Remainder(s[..|s| - 1]) + Bit(s[|s| - 1])) % 3
  }

  /** Tracking the remainder digit by digit gives the remainder of the whole value. */
  lemma {:induction false} RemainderIsValueMod3(s: string)
    ensures Remainder(s) == BinValue(s) % 3
    decreases |s|
  {
    if s != [] {
      var w := s[..|s| - 1];
      RemainderIsValueMod3(w);
      ModStep(BinValue(w), Bit(s[|s| - 1]));
    }
  }

  lemma ModStep(v: int, b: int)
    ensures (2 * v + b) % 3 == (2 * (v % 3) + b) % 3
  {
    var q := v / 3;
    assert v == 3 * q + v % 3;
    assert 2 * v + b == 3 * (2 * q) + (2 * (v % 3) + b);
  }

  /** The loop invariant of the machine: after a binary prefix, the state is the prefix's
      value modulo 3. */
  lemma {:induction false} ModThreeRun(s: string, rx: RegexEngine)
    requires IsBinary(s)
    ensures Run(ModThreeTable, S0, Chars(s), rx) == Done(Residue(BinValue(s) % 3))
  {
    ModThreeTracksRemainder(s, rx);
    RemainderIsValueMod3(s);
  }

  lemma {:induction false} ModThreeTracksRemainder(s: string, rx: RegexEngine)
    requires IsBinary(s)
    ensures Run(ModThreeTable, S0, Chars(s), rx) == Done(Residue(Remainder(s)))
    decreases |s|
  {
    if s != [] {
      var w, c := s[..|s| - 1], s[|s| - 1];
      assert s == w + [c];
      assert IsBinary(w) by { assert forall i | 0 <= i < |w| :: w[i] == s[i]; }
      ModThreeTracksRemainder(w, rx);
      var n := (2 * Remainder(w) + Bit(c)) % 3;
      assert Remainder(s) == n;
      ResidueStep(Remainder(w), c, rx);
      RunCharsStep(ModThreeTable, S0, w, c, rx, Residue(Remainder(w)), Residue(n));
    }
  }

  /** Any other character, a space included, has no rule in any state. */
  lemma ModThreeRejects(s: string, rx: RegexEngine)
    requires !IsBinary(s)
    ensures var k := FirstNonBinary(s);
      Run(ModThreeTable, S0, Chars(s), rx) == Stuck(Residue(BinValue(s[..k]) % 3), VStr([s[k]]))
  {
    var k := FirstNonBinary(s);
    ModThreeRun(s[..k], rx);
    forall q ensures FirstMatch(GetRules(ModThreeTable, q), VStr([s[k]]), rx).None? {
      if q == S0 { ResidueStep(0, s[k], rx); }
      else if q == S1 { ResidueStep(1, s[k], rx); }
      else if q == S2 { ResidueStep(2, s[k], rx); }
    }
    RejectsAtFirstNonBinary(ModThreeTable, S0, s, rx);
  }

  /** Leading zeros change neither the value nor the run, for any string. */
  lemma ModThreeLeadingZero(s: string, rx: RegexEngine)
    ensures Run(ModThreeTable, S0, Chars("0" + s), rx) == Run(ModThreeTable, S0, Chars(s), rx)
    ensures IsBinary(s) ==> BinValue("0" + s) == BinValue(s)
  {
    var xs := Chars("0" + s);
    assert xs[0] == VStr("0") && xs[1..] == Chars(s);
    ResidueStep(0, '0', rx);
    assert FirstMatch(GetRules(ModThreeTable, S0), xs[0], rx) == Some(S0);
    LeadingZero(s);
  }

  lemma ModThreeStates()
    ensures StatesOf(ModThreeTable) == {S0, S1, S2}
  {
    var t := ModThreeTable;
    assert t.Keys == {S0, S1, S2};
    forall s, r | s in t.Keys && s in t && r in t[s] ensures r.to in {S0, S1, S2} {
      assert s == S0 || s == S1 || s == S2;
    }
  }

  lemma ModThreeInputs()
    ensures InputsOf(ModThreeTable, ModThreeTable.Keys) == {Lit(VStr("0")), Lit(VStr("1"))}
    ensures !HasListRule(ModThreeTable)
  {
    var t := ModThreeTable;
    var zero, one := Lit(VStr("0")), Lit(VStr("1"));
    assert CanonMatcher(zero) == zero && CanonMatcher(one) == one;
    forall m | m in InputsOf(t, t.Keys) ensures m == zero || m == one {
      var s, r :| s in t.Keys && s in t && r in t[s] && m == CanonMatcher(r.matcher);
      assert s == S0 || s == S1 || s == S2;
    }
    assert t[S0][0].matcher == zero && t[S0][1].matcher == one;
    assert zero in InputsOf(t, t.Keys) && one in InputsOf(t, t.Keys);
    forall s | s in t ensures !ListRuleIn(t[s]) {
      assert s == S0 || s == S1 || s == S2;
    }
  }

  /** All three states are reachable from `S0`. */
  lemma ModThreeAllReachable()
    ensures forall s | s in StatesOf(ModThreeTable) :: Reach(ModThreeTable, S0, s)
  {
    var t := ModThreeTable;
    ModThreeStates();
    BitRulesQueries(S0, S0, S1);
    BitRulesQueries(S1, S2, S0);
    assert t[S0][1] in GetRules(t, S0) && t[S1][0] in GetRules(t, S1);
    assert Edge(t, S0, S1) && Edge(t, S1, S2);
    assert IsPath(t, [S0], S0, S0);
    assert IsPath(t, [S0, S1], S0, S1);
    assert IsPath(t, [S0, S1, S2], S0, S2);
  }

  /** Every state has exactly one rule for each input of the table. */
  lemma ModThreeDeterministic()
    ensures forall s, m :: !MissingReported(ModThreeTable, s, m) && !AmbiguousReported(ModThreeTable, s, m)
  {
    var t := ModThreeTable;
    ModThreeStates();
    ModThreeInputs();
    forall s, m | s in StatesOf(t) && m in InputsOf(t, t.Keys) ensures Has(t, s, m) && Count(t, s, m) == 1 {
      if s == S0 { BitStateDeterministic(t, S0, S0, S1, m); }
      else if s == S1 { BitStateDeterministic(t, S1, S2, S0, m); }
      else { BitStateDeterministic(t, S2, S1, S2, m); }
    }
  }

  /** Every state has exactly one rule for '0' and one for '1', and all three are reachable,
      so `validate()` has nothing to report. */
  lemma ModThreeIsClean()
    ensures !HasListRule(ModThreeTable)
    ensures forall d :: !Reported(ModThreeTable, S0, d)
  {
    ModThreeInputs();
    ModThreeAllReachable();
    ModThreeDeterministic();
  }

  class ModThreeMachine {
    const fsm: FiniteStateMachine

    /** The configuration the constructor sets up, which `calculate` never changes. */
    ghost predicate Valid()
      reads this, fsm, fsm.transitions, fsm.outputs
    {
      && fsm.initial == S0
      && fsm.transitions.table == ModThreeTable
      && fsm.outputs != null && fsm.outputs.mapping == ModThreeOutputs
      && fsm.splitter == StringSplitter
    }

    /** `ModThreeMachine()`: the three states, six rules and three outputs, starting in `S0`. */
    constructor (rx: RegexEngine)
      ensures Valid() && fsm.current == S0 && fsm.rx == rx
    {
      var t := new TransitionTable();
      AddBitRules(t, S0, S0, S1);
      AddBitRules(t, S1, S2, S0);
      AddBitRules(t, S2, S1, S2);
      var o := new OutputMapping();
      o.Add(S0, Plain(VInt(0)));
      o.Add(S1, Plain(VInt(1)));
      o.Add(S2, Plain(VInt(2)));
      fsm := new FiniteStateMachine(S0, t, o, Some(StringSplitter), rx);
    }

    /** `calculate(binary_string)`: the value modulo 3 (0 for `""`), or the missing-transition
        error at the first character other than '0' and '1'. */
    method Calculate(input: string) returns (r: Result<Output>)
      requires Valid()
      modifies fsm`current
      ensures Valid()
      ensures IsBinary(input) ==>
        && fsm.current == Residue(BinValue(input) % 3)
        && r == Ok(Plain(VInt(BinValue(input) % 3)))
      ensures !IsBinary(input) ==>
        var k := FirstNonBinary(input);
        && fsm.current == Residue(BinValue(input[..k]) % 3)
        && r == Err(NoTransition(fsm.current, VStr([input[k]])))
    {
      var res := fsm.Process(Text(input));
      assert Split(StringSplitter, Text(input)) == Ok(Chars(input)) by { SplitStrings(input); }
      if IsBinary(input) {
        ModThreeRun(input, fsm.rx);
      } else {
        ModThreeRejects(input, fsm.rx);
      }
      if res.Fail? {
        return Err(res.error);
      }
      r := fsm.GetOutput();
    }

    /** `validate()` on this machine reports nothing. */
    method Validate() returns (r: Result<seq<Diagnostic>>)
      requires Valid()
      ensures r == Ok([])
    {
      ModThreeIsClean();
      r := fsm.Validate();
      NothingReported(r.value);
    }
  }
}
