/** Binary strings and the two-rule states the example machines are built from
    (machines/mod_three_machine.py, machines/parity_checker_machine.py,
    machines/trap_state_machine.py). */
module BinaryMachines {
  import opened States
  import opened Values
  import opened Errors
  import opened TransitionRules
  import opened TransitionTables
  import opened Splitters
  import opened FiniteStateMachines

  predicate IsBit(c: char)
  {
    c == '0' || c == '1'
  }

  predicate IsBinary(s: string)
  {
    forall i | 0 <= i < |s| :: IsBit(s[i])
  }

  /** The position of the first character other than '0' and '1', or the length. */
  function FirstNonBinary(s: string): (k: nat)
    ensures k <= |s| && IsBinary(s[..k])
    ensures k < |s| ==> !IsBit(s[k])
    ensures k == |s| <==> IsBinary(s)
  {
    if s == [] then 0
    else if !IsBit(s[0]) then 0
    else
      var k := 1 + FirstNonBinary(s[1..]);
      assert forall i | 1 <= i < k :: s[..k][i] == s[1..][..k - 1][i - 1];
      k
  }

  function Bit(c: char): nat
  {
    if c == '1' then 1 else 0
  }

  /** `int(s, 2)`, read most significant digit first, with `""` worth 0. */
  function BinValue(s: string): nat
    decreases |s|
  {
    if s == [] then 0 else 2 * BinValue(s[..|s| - 1]) + Bit(s[|s| - 1])
  }

  function Pow2(n: nat): nat
  {
    if n == 0 then 1 else 2 * Pow2(n - 1)
  }

  /** The positional reading: the first digit is worth `2^(|s|-1)`. */
  lemma {:induction false} BinValueFromLeft(s: string)
    requires s != []
    ensures BinValue(s) == Bit(s[0]) * Pow2(|s| - 1) + BinValue(s[1..])
    decreases |s|
  {
    if |s| > 1 {
      var w := s[..|s| - 1];
      BinValueFromLeft(w);
      assert w[0] == s[0] && w[1..] == s[1..][..|s[1..]| - 1];
      assert s[1..][|s[1..]| - 1] == s[|s| - 1];
    } else {
      assert s[..0] == [] && s[1..] == [];
    }
  }

  /** A leading '0' does not change the value. */
  lemma LeadingZero(s: string)
    ensures BinValue("0" + s) == BinValue(s)
  {
    BinValueFromLeft("0" + s);
    assert ("0" + s)[1..] == s;
  }

  /** The two rules of every state of the example machines: '0' first, then '1'. */
  function BitRules(q: State, onZero: State, onOne: State): seq<TransitionRule>
  {
    [Rule(q, Lit(VStr("0")), onZero), Rule(q, Lit(VStr("1")), onOne)]
  }

  /** The queries of the validator on such a state: one rule for each of '0' and '1'. */
  lemma BitRulesQueries(q: State, onZero: State, onOne: State)
    ensures var rules := BitRules(q, onZero, onOne);
      && CountIn(rules, Lit(VStr("0"))) == 1 && CountIn(rules, Lit(VStr("1"))) == 1
      && FirstTarget(rules, Lit(VStr("0"))) == Some(onZero)
      && FirstTarget(rules, Lit(VStr("1"))) == Some(onOne)
      && (exists r <- rules :: MatcherEq(r.matcher, Lit(VStr("0"))))
      && (exists r <- rules :: MatcherEq(r.matcher, Lit(VStr("1"))))
      && !ListRuleIn(rules)
      && (set r <- rules :: CanonMatcher(r.matcher)) == {Lit(VStr("0")), Lit(VStr("1"))}
  {
    var rules := BitRules(q, onZero, onOne);
    assert rules[1..][0] == rules[1] && rules[1..][1..] == [];
    assert CountIn(rules[1..], Lit(VStr("0"))) == 0 + CountIn(rules[1..][1..], Lit(VStr("0")));
    assert CountIn(rules[1..], Lit(VStr("1"))) == 1 + CountIn(rules[1..][1..], Lit(VStr("1")));
    assert !MatcherEq(Lit(VStr("0")), Lit(VStr("1"))) && !MatcherEq(Lit(VStr("1")), Lit(VStr("0")));
    assert rules[0] in rules && rules[1] in rules;
    assert CanonMatcher(Lit(VStr("0"))) == Lit(VStr("0")) && CanonMatcher(Lit(VStr("1"))) == Lit(VStr("1"));
  }

  /** A state holding exactly these two rules has one rule for each of '0' and '1'. */
  lemma BitStateDeterministic(t: Table, q: State, onZero: State, onOne: State, m: Matcher)
    requires q in t && t[q] == BitRules(q, onZero, onOne)
    requires m == Lit(VStr("0")) || m == Lit(VStr("1"))
    ensures Has(t, q, m) && Count(t, q, m) == 1
  {
    BitRulesQueries(q, onZero, onOne);
  }

  /** `add(q, '0', onZero)` then `add(q, '1', onOne)` on a state that has no rules yet. */
  method AddBitRules(t: TransitionTable, q: State, onZero: State, onOne: State)
    requires t.Valid() && q !in t.table
    modifies t
    ensures t.Valid() && t.table == old(t.table)[q := BitRules(q, onZero, onOne)]
  {
    AddSingle(t.table, q, Lit(VStr("0")), onZero);
    var added := t.Add(q, Lit(VStr("0")), onZero);
    AddSingle(t.table, q, Lit(VStr("1")), onOne);
    added := t.Add(q, Lit(VStr("1")), onOne);
    assert GetRules(t.table, q) == BitRules(q, onZero, onOne);
    assert t.table == old(t.table)[q := BitRules(q, onZero, onOne)] by {
      assert t.table.Keys == old(t.table).Keys + {q};
      forall s | s in t.table ensures t.table[s] == old(t.table)[q := BitRules(q, onZero, onOne)][s] {
        assert GetRules(t.table, s) == t.table[s];
      }
    }
  }

  /** One character through such a state: '0' and '1' go where the rules say, and any
      other character has no rule. */
  lemma BitStep(q: State, onZero: State, onOne: State, c: char, rx: RegexEngine)
    ensures FirstMatch(BitRules(q, onZero, onOne), VStr([c]), rx) ==
      if c == '0' then Some(onZero) else if c == '1' then Some(onOne) else None
  {
    var rules := BitRules(q, onZero, onOne);
    assert Matches(rules[0].matcher, VStr([c]), rx) <==> c == '0' by {
      assert [c] == "0" <==> c == '0';
    }
    assert Matches(rules[1].matcher, VStr([c]), rx) <==> c == '1' by {
      assert [c] == "1" <==> c == '1';
    }
    assert rules[1..][0] == rules[1] && rules[1..][1..] == [];
    assert FirstMatch(rules[1..][1..], VStr([c]), rx) == None;
    assert FirstMatch(rules[1..], VStr([c]), rx) == if c == '1' then Some(onOne) else None;
  }

  /** Reading a string one more character at a time. */
  lemma RunCharsSnoc(t: Table, s: State, w: string, c: char, rx: RegexEngine)
    ensures Run(t, s, Chars(w + [c]), rx) ==
      match Run(t, s, Chars(w), rx)
      case Stuck(a, y) => Stuck(a, y)
      case Done(f) =>
        match FirstMatch(GetRules(t, f), VStr([c]), rx)
        case None => Stuck(f, VStr([c]))
        case Some(next) => Done(next)
  {
    CharsAppend(w, [c]);
    assert Chars([c]) == [VStr([c])];
    RunSnoc(t, s, Chars(w), VStr([c]), rx);
  }

  /** A step that has a rule: the string extended by the character ends in its target. */
  lemma RunCharsStep(t: Table, s: State, w: string, c: char, rx: RegexEngine, q: State, next: State)
    requires Run(t, s, Chars(w), rx) == Done(q)
    requires FirstMatch(GetRules(t, q), VStr([c]), rx) == Some(next)
    ensures Run(t, s, Chars(w + [c]), rx) == Done(next)
  {
    RunCharsSnoc(t, s, w, c, rx);
  }

  /** A string stops at its first non-binary character, in the state its binary prefix
      reached, when no state has a rule for the character. */
  lemma RejectsAtFirstNonBinary(t: Table, s: State, w: string, rx: RegexEngine)
    requires !IsBinary(w)
    requires Run(t, s, Chars(w[..FirstNonBinary(w)]), rx).Done?
    requires forall q :: FirstMatch(GetRules(t, q), VStr([w[FirstNonBinary(w)]]), rx).None?
    ensures Run(t, s, Chars(w), rx)
         == Stuck(Run(t, s, Chars(w[..FirstNonBinary(w)]), rx).final, VStr([w[FirstNonBinary(w)]]))
  {
    var k := FirstNonBinary(w);
    assert Chars(w)[..k] == Chars(w[..k]);
    RunStopsAt(t, s, Chars(w), k, rx);
  }
}
