/** The transition table: rules indexed by source state, in insertion order
    (core/transition_table.py). */
module TransitionTables {
  import opened States
  import opened Values
  import opened Errors
  import opened TransitionRules

  /** `self._table`: each source state's rules, oldest first. */
  type Table = map<State, seq<TransitionRule>>

  /** A key is created only to receive a rule, so no state maps to an empty list. */
  predicate NoEmptyLists(t: Table)
  {
    forall s | s in t :: |t[s]| > 0
  }

  /** `get_rules(state)`: the state's rules in insertion order, `[]` for an unknown state. */
  function GetRules(t: Table, s: State): (r: seq<TransitionRule>)
    ensures s !in t ==> r == []
    ensures s in t ==> r == t[s]
  {
    if s in t then t[s] else []
  }

  // ---------------------------------------------------------------------------
  // add / _add_rule

  datatype Update = Update(table: Table, outcome: Outcome)

  /** `_add_rule`: build the rule (which may raise) and append it to its source's list. */
  function AddOne(t: Table, from: State, m: Matcher, to: State): (u: Update)
    ensures u.outcome.Pass? <==> Supported(m)
    ensures u.outcome.Fail? ==> u == Update(t, Fail(UnsupportedMatcher))
    ensures u.outcome.Pass? ==>
      && GetRules(u.table, from) == GetRules(t, from) + [Rule(from, m, to)]
      && u.table.Keys == t.Keys + {from}
      && forall s | s != from :: GetRules(u.table, s) == GetRules(t, s)
  {
    match NewRule(from, m, to)
    case Err(e) => Update(t, Fail(e))
    case Ok(rule) => Update(t[from := GetRules(t, from) + [rule]], Pass)
  }

  /** The loop of `add` over a list: one `_add_rule` per element, stopping at the first raise. */
  function AddEach(t: Table, from: State, items: seq<Matcher>, to: State): (u: Update)
    ensures u.outcome.Fail? ==> u.outcome.error == UnsupportedMatcher
    decreases |items|
  {
    if items == [] then Update(t, Pass)
    else
      var u := AddOne(t, from, items[0], to);
      if u.outcome.Fail? then u else AddEach(u.table, from, items[1..], to)
  }

  /** `add(from_state, input_matcher, to_state)`: a list is flattened one level. */
  function AddSpec(t: Table, from: State, m: Matcher, to: State): (u: Update)
    ensures u.outcome.Fail? ==> u.outcome.error == UnsupportedMatcher
    ensures !m.AnyOf? ==> (u.outcome.Pass? <==> Supported(m))
    ensures m.AnyOf? && m.items == [] ==> u == Update(t, Pass)
  {
    if m.AnyOf? then AddEach(t, from, m.items, to) else AddOne(t, from, m, to)
  }

  /** The index of the first element `TransitionRule` refuses, or the length. */
  function FirstUnsupported(items: seq<Matcher>): (k: nat)
    ensures k <= |items|
    ensures forall i | 0 <= i < k :: Supported(items[i])
    ensures k < |items| ==> !Supported(items[k])
  {
    if items == [] || !Supported(items[0]) then 0 else 1 + FirstUnsupported(items[1..])
  }

  /** The rules `from --m--> to` for each matcher of `ms`, in order. */
  function RulesFor(from: State, ms: seq<Matcher>, to: State): (r: seq<TransitionRule>)
    requires forall i | 0 <= i < |ms| :: Supported(ms[i])
    ensures |r| == |ms|
    ensures forall i | 0 <= i < |ms| :: r[i] == Rule(from, ms[i], to)
  {
    if ms == [] then [] else [Rule(from, ms[0], to)] + RulesFor(from, ms[1..], to)
  }

  /** A single (non-list) matcher: exactly one rule is appended at the end of the source's
      list and nothing else changes; a refused matcher raises and leaves the table as it was. */
  lemma AddSingle(t: Table, from: State, m: Matcher, to: State)
    requires !m.AnyOf?
    ensures var u := AddSpec(t, from, m, to);
      && (Supported(m) ==>
            && u.outcome == Pass
            && GetRules(u.table, from) == GetRules(t, from) + [Rule(from, m, to)]
            && u.table.Keys == t.Keys + {from}
            && forall s | s != from :: GetRules(u.table, s) == GetRules(t, s))
      && (!Supported(m) ==> u == Update(t, Fail(UnsupportedMatcher)))
  {
  }

  /** `u` is `t` with `rules` appended to the list of `from`, and nothing else changed. */
  ghost predicate Appended(t: Table, u: Table, from: State, rules: seq<TransitionRule>)
  {
    && GetRules(u, from) == GetRules(t, from) + rules
    && u.Keys == (if rules == [] then t.Keys else t.Keys + {from})
    && forall s | s != from :: GetRules(u, s) == GetRules(t, s)
  }

  lemma AppendedTrans(t: Table, t1: Table, u: Table, from: State, a: seq<TransitionRule>, b: seq<TransitionRule>)
    requires Appended(t, t1, from, a) && Appended(t1, u, from, b)
    ensures Appended(t, u, from, a + b)
  {
    assert GetRules(t, from) + a + b == GetRules(t, from) + (a + b);
    if a + b == [] {
      assert a == [] && b == [];
    }
  }

  /** A list adds one rule per element in list order. When an element is refused, the rules
      for the elements before it stay in the table and the error is raised; an empty list
      adds nothing and creates no key. */
  lemma {:induction false} AddEachEffect(t: Table, from: State, items: seq<Matcher>, to: State)
    ensures var u := AddEach(t, from, items, to);
            var k := FirstUnsupported(items);
      && u.outcome == (if k < |items| then Fail(UnsupportedMatcher) else Pass)
      && Appended(t, u.table, from, RulesFor(from, items[..k], to))
    decreases |items|
  {
    var k := FirstUnsupported(items);
    if items == [] || !Supported(items[0]) {
      assert items[..k] == [];
    } else {
      var r0: TransitionRule := Rule(from, items[0], to);
      var t1 := AddOne(t, from, items[0], to).table;
      assert t1 == t[from := GetRules(t, from) + [r0]];
      assert Appended(t, t1, from, [r0]);
      AddEachEffect(t1, from, items[1..], to);
      var u := AddEach(t1, from, items[1..], to);
      assert FirstUnsupported(items[1..]) == k - 1;
      assert items[1..][..k - 1] == items[1..k];
      assert items[..k] == [items[0]] + items[1..k];
      var rest := RulesFor(from, items[1..k], to);
      assert RulesFor(from, items[..k], to) == [r0] + rest;
      AppendedTrans(t, t1, u.table, from, [r0], rest);
    }
  }

  lemma AddList(t: Table, from: State, items: seq<Matcher>, to: State)
    ensures var u := AddSpec(t, from, AnyOf(items), to);
            var k := FirstUnsupported(items);
      && u.outcome == (if k < |items| then Fail(UnsupportedMatcher) else Pass)
      && GetRules(u.table, from) == GetRules(t, from) + RulesFor(from, items[..k], to)
      && u.table.Keys == (if k == 0 then t.Keys else t.Keys + {from})
      && forall s | s != from :: GetRules(u.table, s) == GetRules(t, s)
    ensures items == [] ==> AddSpec(t, from, AnyOf(items), to) == Update(t, Pass)
  {
    AddEachEffect(t, from, items, to);
    var k := FirstUnsupported(items);
    assert |RulesFor(from, items[..k], to)| == k;
  }

  lemma AddKeepsListsNonEmpty(t: Table, from: State, m: Matcher, to: State)
    requires NoEmptyLists(t)
    ensures NoEmptyLists(AddSpec(t, from, m, to).table)
  {
    var u := AddSpec(t, from, m, to);
    if m.AnyOf? {
      AddList(t, from, m.items, to);
      forall s | s in u.table ensures |u.table[s]| > 0 {
        assert GetRules(u.table, s) == u.table[s];
        if s != from {
          assert GetRules(u.table, s) == GetRules(t, s);
        }
      }
    }
  }

  // ---------------------------------------------------------------------------
  // Queries used by the validator; they compare matchers with `==`, never call matches.

  /** `has(state, m)`: some rule of the state has a matcher `== m`. */
  predicate Has(t: Table, s: State, m: Matcher)
    ensures Has(t, s, m) ==> s in t && |t[s]| > 0
  {
    exists r <- GetRules(t, s) :: MatcherEq(r.matcher, m)
  }

  function CountIn(rules: seq<TransitionRule>, m: Matcher): (n: nat)
    ensures n <= |rules|
  {
    if rules == [] then 0
    else (if MatcherEq(rules[0].matcher, m) then 1 else 0) + CountIn(rules[1..], m)
  }

  /** `count(state, m)`: how many rules of the state have a matcher `== m`. */
  function Count(t: Table, s: State, m: Matcher): (n: nat)
    ensures n <= |GetRules(t, s)|
    ensures s !in t ==> n == 0
  {
    CountIn(GetRules(t, s), m)
  }

  function FirstTarget(rules: seq<TransitionRule>, m: Matcher): Option<State>
  {
    if rules == [] then None
    else if MatcherEq(rules[0].matcher, m) then Some(rules[0].to)
    else FirstTarget(rules[1..], m)
  }

  /** `get(state, m)`: the target of the first rule of the state whose matcher is `== m`. */
  function Get(t: Table, s: State, m: Matcher): (r: Option<State>)
    ensures r.Some? <==> Has(t, s, m)
  {
    FirstTargetNoneIffAbsent(GetRules(t, s), m);
    FirstTarget(GetRules(t, s), m)
  }

  /** Whether some rule in the list has a list matcher (which no Python set can hold). */
  predicate ListRuleIn(rules: seq<TransitionRule>)
  {
    exists r <- rules :: r.matcher.AnyOf?
  }

  /** `inputs_for_state(state)`: the set of the state's matchers, one per `==`-class;
      a list matcher is unhashable and raises. */
  function InputsForState(t: Table, s: State): (r: Result<set<Matcher>>)
    ensures r.Err? <==> ListRuleIn(GetRules(t, s))
    ensures r.Err? ==> r.error == Unhashable
  {
    if ListRuleIn(GetRules(t, s)) then Err(Unhashable)
    else Ok(set r <- GetRules(t, s) :: CanonMatcher(r.matcher))
  }

  /** The targets of the rules of the states in `ks`. */
  function TargetsOf(t: Table, ks: set<State>): set<State>
  {
    set s, r | s in ks && s in t && r in t[s] :: r.to
  }

  /** What `states()` returns: every source state and every target. */
  function StatesOf(t: Table): (r: set<State>)
    ensures t.Keys <= r
    ensures forall s, x | s in t && x in t[s] :: x.to in r
  {
    t.Keys + TargetsOf(t, t.Keys)
  }

  /** The representatives of the matchers of the rules of the states in `ks`. */
  function InputsOf(t: Table, ks: set<State>): set<Matcher>
  {
    set s, r | s in ks && s in t && r in t[s] :: CanonMatcher(r.matcher)
  }

  function RuleTargets(rules: seq<TransitionRule>): set<State>
  {
    set x <- rules :: x.to
  }

  function RuleInputs(rules: seq<TransitionRule>): set<Matcher>
  {
    set x <- rules :: CanonMatcher(x.matcher)
  }

  lemma RuleTargetsSnoc(rules: seq<TransitionRule>, i: nat)
    requires i < |rules|
    ensures RuleTargets(rules[..i + 1]) == RuleTargets(rules[..i]) + {rules[i].to}
  {
    assert rules[..i + 1] == rules[..i] + [rules[i]];
  }

  lemma RuleInputsSnoc(rules: seq<TransitionRule>, i: nat)
    requires i < |rules|
    ensures RuleInputs(rules[..i + 1]) == RuleInputs(rules[..i]) + {CanonMatcher(rules[i].matcher)}
    ensures !ListRuleIn(rules[..i]) && !rules[i].matcher.AnyOf? ==> !ListRuleIn(rules[..i + 1])
  {
    assert rules[..i + 1] == rules[..i] + [rules[i]];
  }

  predicate HasListRule(t: Table)
  {
    exists s | s in t :: ListRuleIn(t[s])
  }

  /** What `all_inputs()` returns: the set of all matchers, or the unhashable-list error. */
  function AllInputsOf(t: Table): (r: Result<set<Matcher>>)
    ensures r.Err? <==> HasListRule(t)
    ensures r.Ok? ==> forall s, x | s in t && x in t[s] :: CanonMatcher(x.matcher) in r.value
  {
    if HasListRule(t) then Err(Unhashable) else Ok(InputsOf(t, t.Keys))
  }

  // ---------------------------------------------------------------------------
  // Laws connecting the queries

  lemma {:induction false} CountPositiveIffHas(rules: seq<TransitionRule>, m: Matcher)
    ensures CountIn(rules, m) > 0 <==> exists r <- rules :: MatcherEq(r.matcher, m)
  {
    if rules != [] {
      CountPositiveIffHas(rules[1..], m);
      assert forall r <- rules[1..] :: r in rules;
      if !MatcherEq(rules[0].matcher, m) {
        forall r <- rules | MatcherEq(r.matcher, m) ensures r in rules[1..] {
          var i :| 0 <= i < |rules| && rules[i] == r;
          assert i != 0;
          assert rules[1..][i - 1] == r;
        }
      }
    }
  }

  lemma {:induction false} FirstTargetNoneIffAbsent(rules: seq<TransitionRule>, m: Matcher)
    ensures FirstTarget(rules, m).None? <==> !exists r <- rules :: MatcherEq(r.matcher, m)
  {
    if rules != [] {
      FirstTargetNoneIffAbsent(rules[1..], m);
      assert forall r <- rules[1..] :: r in rules;
      if !MatcherEq(rules[0].matcher, m) {
        forall r <- rules | MatcherEq(r.matcher, m) ensures r in rules[1..] {
          var i :| 0 <= i < |rules| && rules[i] == r;
          assert rules[1..][i - 1] == r;
        }
      }
    }
  }

  /** The index of the rule `get` answers with: the first whose matcher is `== m`. */
  lemma {:induction false} FirstTargetIndex(rules: seq<TransitionRule>, m: Matcher) returns (i: nat)
    requires FirstTarget(rules, m).Some?
    ensures i < |rules| && MatcherEq(rules[i].matcher, m) && rules[i].to == FirstTarget(rules, m).value
    ensures forall j | 0 <= j < i :: !MatcherEq(rules[j].matcher, m)
  {
    if MatcherEq(rules[0].matcher, m) {
      i := 0;
    } else {
      var i' := FirstTargetIndex(rules[1..], m);
      i := i' + 1;
      forall j | 0 < j < i ensures !MatcherEq(rules[j].matcher, m) {
        assert rules[j] == rules[1..][j - 1];
      }
    }
  }

  lemma {:induction false} FirstTargetAt(rules: seq<TransitionRule>, m: Matcher, i: nat)
    requires i < |rules| && MatcherEq(rules[i].matcher, m)
    requires forall j | 0 <= j < i :: !MatcherEq(rules[j].matcher, m)
    ensures FirstTarget(rules, m) == Some(rules[i].to)
  {
    if i > 0 {
      FirstTargetAt(rules[1..], m, i - 1);
    }
  }

  /** `get(s, m)` is the target of the first rule of `s` with a matcher `== m`, and `None`
      exactly when there is no such rule. */
  lemma GetIsFirstMatch(t: Table, s: State, m: Matcher, q: State)
    ensures Get(t, s, m) == Some(q) <==>
      exists i | 0 <= i < |GetRules(t, s)| ::
        && MatcherEq(GetRules(t, s)[i].matcher, m) && GetRules(t, s)[i].to == q
        && forall j | 0 <= j < i :: !MatcherEq(GetRules(t, s)[j].matcher, m)
    ensures Get(t, s, m).None? <==> !Has(t, s, m)
  {
    var rules := GetRules(t, s);
    FirstTargetNoneIffAbsent(rules, m);
    if Get(t, s, m).Some? {
      var i := FirstTargetIndex(rules, m);
    }
    forall i | 0 <= i < |rules| && MatcherEq(rules[i].matcher, m)
        && forall j | 0 <= j < i :: !MatcherEq(rules[j].matcher, m)
      ensures Get(t, s, m) == Some(rules[i].to)
    {
      FirstTargetAt(rules, m, i);
    }
  }

  /** `has(s, m)` holds exactly when `count(s, m) > 0`, exactly when `get(s, m)` is not `None`,
      and (for a table whose state has no list matcher) exactly when `m` is one of
      `inputs_for_state(s)`; the inputs of a state are among `all_inputs()`. */
  lemma QueriesAgree(t: Table, s: State, m: Matcher)
    ensures Has(t, s, m) <==> Count(t, s, m) > 0
    ensures Has(t, s, m) <==> Get(t, s, m).Some?
    ensures InputsForState(t, s).Ok? ==> (Has(t, s, m) <==> CanonMatcher(m) in InputsForState(t, s).value)
    ensures AllInputsOf(t).Ok? ==> InputsForState(t, s).Ok? && InputsForState(t, s).value <= AllInputsOf(t).value
  {
    CountPositiveIffHas(GetRules(t, s), m);
    FirstTargetNoneIffAbsent(GetRules(t, s), m);
    if InputsForState(t, s).Ok? {
      if Has(t, s, m) {
        var r :| r in GetRules(t, s) && MatcherEq(r.matcher, m);
        MatcherEqIffCanon(r.matcher, m);
      }
      if CanonMatcher(m) in InputsForState(t, s).value {
        var r :| r in GetRules(t, s) && CanonMatcher(r.matcher) == CanonMatcher(m);
        MatcherEqIffCanon(r.matcher, m);
      }
    }
    if AllInputsOf(t).Ok? && s in t {
      assert !ListRuleIn(t[s]);
    }
  }

  /** Every query gives the same answer for a matcher and for its representative. */
  lemma {:induction false} QueriesRespectEq(rules: seq<TransitionRule>, m: Matcher)
    ensures CountIn(rules, CanonMatcher(m)) == CountIn(rules, m)
    ensures FirstTarget(rules, CanonMatcher(m)) == FirstTarget(rules, m)
    ensures (exists r <- rules :: MatcherEq(r.matcher, CanonMatcher(m))) <==> (exists r <- rules :: MatcherEq(r.matcher, m))
  {
    forall r <- rules ensures MatcherEq(r.matcher, CanonMatcher(m)) <==> MatcherEq(r.matcher, m) {
      CanonPreservesEq(r.matcher, m);
    }
    if rules != [] {
      CanonPreservesEq(rules[0].matcher, m);
      QueriesRespectEq(rules[1..], m);
    }
  }

  /** A state is known to `states()` exactly when it has a rule of its own or is the target
      of some rule. */
  lemma StatesAreSourcesAndTargets(t: Table, q: State)
    requires NoEmptyLists(t)
    ensures q in StatesOf(t) <==> |GetRules(t, q)| > 0 || exists s | s in t :: exists r <- t[s] :: r.to == q
  {
  }

  lemma TargetsOfAddKey(t: Table, ks: set<State>, s: State)
    requires s in t
    ensures TargetsOf(t, ks + {s}) == TargetsOf(t, ks) + RuleTargets(t[s])
  {
  }

  lemma InputsOfAddKey(t: Table, ks: set<State>, s: State)
    requires s in t
    ensures InputsOf(t, ks + {s}) == InputsOf(t, ks) + RuleInputs(t[s])
  {
  }

  // ---------------------------------------------------------------------------

  class TransitionTable {
    var table: Table

    ghost predicate Valid()
      reads this
    {
      NoEmptyLists(table)
    }

    constructor ()
      ensures Valid() && table == map[]
    {
      table := map[];
    }

    /** `_add_rule`. */
    method AddRule(from: State, m: Matcher, to: State) returns (res: Outcome)
      requires Valid()
      modifies this
      ensures Valid()
      ensures Update(table, res) == AddOne(old(table), from, m, to)
    {
      var rule := NewRule(from, m, to);
      if rule.Err? {
        return Fail(rule.error);
      }
      if from !in table {
        table := table[from := []];
      }
      table := table[from := table[from] + [rule.value]];
      res := Pass;
    }

    /** `add`: a list matcher adds one rule per element; chaining is not modelled. */
    method Add(from: State, m: Matcher, to: State) returns (res: Outcome)
      requires Valid()
      modifies this
      ensures Valid()
      ensures Update(table, res) == AddSpec(old(table), from, m, to)
    {
      if m.AnyOf? {
        var i := 0;
        while i < |m.items|
          invariant 0 <= i <= |m.items|
          invariant Valid()
          invariant AddEach(old(table), from, m.items, to) == AddEach(table, from, m.items[i..], to)
        {
          assert m.items[i..][0] == m.items[i] && m.items[i..][1..] == m.items[i + 1..];
          res := AddRule(from, m.items[i], to);
          if res.Fail? {
            return;
          }
          i := i + 1;
        }
        res := Pass;
      } else {
        res := AddRule(from, m, to);
      }
    }

    /** `states()`: built by a loop over every rule list. */
    method States() returns (r: set<State>)
      ensures r == StatesOf(table)
    {
      r := table.Keys;
      var todo := table.Keys;
      while todo != {}
        invariant todo <= table.Keys
        invariant r == table.Keys + TargetsOf(table, table.Keys - todo)
        decreases todo
      {
        var s :| s in todo;
        var rules := table[s];
        var i := 0;
        while i < |rules|
          invariant 0 <= i <= |rules|
          invariant r == table.Keys + TargetsOf(table, table.Keys - todo) + RuleTargets(rules[..i])
        {
          RuleTargetsSnoc(rules, i);
          r := r + {rules[i].to};
          i := i + 1;
        }
        assert rules[..i] == rules;
        TargetsOfAddKey(table, table.Keys - todo, s);
        assert table.Keys - (todo - {s}) == (table.Keys - todo) + {s};
        todo := todo - {s};
      }
    }

    /** `all_inputs()`: built by a loop over every rule; adding a list matcher to the set raises. */
    method AllInputs() returns (r: Result<set<Matcher>>)
      ensures r == AllInputsOf(table)
    {
      var acc := {};
      var todo := table.Keys;
      while todo != {}
        invariant todo <= table.Keys
        invariant acc == InputsOf(table, table.Keys - todo)
        invariant forall s | s in table.Keys - todo :: !ListRuleIn(table[s])
        decreases todo
      {
        var s :| s in todo;
        var rules := table[s];
        var i := 0;
        while i < |rules|
          invariant 0 <= i <= |rules|
          invariant acc == InputsOf(table, table.Keys - todo) + RuleInputs(rules[..i])
          invariant !ListRuleIn(rules[..i])
        {
          if rules[i].matcher.AnyOf? {
            assert rules[i] in table[s];
            return Err(Unhashable);
          }
          RuleInputsSnoc(rules, i);
          acc := acc + {CanonMatcher(rules[i].matcher)};
          i := i + 1;
        }
        assert rules[..i] == rules;
        InputsOfAddKey(table, table.Keys - todo, s);
        assert table.Keys - (todo - {s}) == (table.Keys - todo) + {s};
        todo := todo - {s};
      }
      assert table.Keys - todo == table.Keys;
      r := Ok(acc);
    }
  }
}
