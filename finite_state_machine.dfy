/** The machine driver and its validator (core/finite_state_machine.py), with the output
    lookup it inherits (core/abstract_finite_state_machine.py). */
module FiniteStateMachines {
  import opened States
  import opened Values
  import opened Errors
  import opened TransitionRules
  import opened TransitionTables
  import opened OutputMappings
  import opened Splitters

  // ---------------------------------------------------------------------------
  // What `process` computes

  /** The target of the first rule, in insertion order, that matches the symbol. */
  function FirstMatch(rules: seq<TransitionRule>, symbol: Value, rx: RegexEngine): (r: Option<State>)
    ensures rules == [] ==> r.None?
  {
    if rules == [] then None
    else if Matches(rules[0].matcher, symbol, rx) then Some(rules[0].to)
    else FirstMatch(rules[1..], symbol, rx)
  }

  /** The step taken is that of the first matching rule, and there is none exactly when no
      rule matches; the states themselves play no part in matching. */
  lemma {:induction false} FirstMatchIsFirst(rules: seq<TransitionRule>, symbol: Value, rx: RegexEngine)
    ensures FirstMatch(rules, symbol, rx).None?
        <==> forall i | 0 <= i < |rules| :: !Matches(rules[i].matcher, symbol, rx)
    ensures FirstMatch(rules, symbol, rx).Some? ==>
      exists i | 0 <= i < |rules| ::
        && Matches(rules[i].matcher, symbol, rx)
        && rules[i].to == FirstMatch(rules, symbol, rx).value
        && forall j | 0 <= j < i :: !Matches(rules[j].matcher, symbol, rx)
  {
    if rules != [] {
      FirstMatchIsFirst(rules[1..], symbol, rx);
      if !Matches(rules[0].matcher, symbol, rx) {
        assert forall i | 1 <= i < |rules| :: rules[i] == rules[1..][i - 1];
        if FirstMatch(rules, symbol, rx).Some? {
          var i :| 0 <= i < |rules[1..]| && Matches(rules[1..][i].matcher, symbol, rx)
                   && rules[1..][i].to == FirstMatch(rules, symbol, rx).value
                   && forall j | 0 <= j < i :: !Matches(rules[1..][j].matcher, symbol, rx);
          assert rules[i + 1] == rules[1..][i];
          assert forall j | 0 <= j < i + 1 :: !Matches(rules[j].matcher, symbol, rx);
        }
      }
    }
  }

  datatype RunResult = Done(final: State) | Stuck(at: State, symbol: Value)

  /** The fold `process` performs from state `s`: take the first matching rule for each
      symbol in turn, or stop at the first symbol no rule of the current state matches. */
  function Run(t: Table, s: State, symbols: seq<Value>, rx: RegexEngine): (r: RunResult)
    ensures symbols == [] ==> r == Done(s)
    decreases |symbols|
  {
    if symbols == [] then Done(s)
    else match FirstMatch(GetRules(t, s), symbols[0], rx)
      case None => Stuck(s, symbols[0])
      case Some(next) => Run(t, next, symbols[1..], rx)
  }

  /** Running `xs + ys` is running `xs`, then `ys` from where it ended. */
  lemma {:induction false} RunAppend(t: Table, s: State, xs: seq<Value>, ys: seq<Value>, rx: RegexEngine)
    ensures Run(t, s, xs + ys, rx) ==
      match Run(t, s, xs, rx)
      case Done(f) => Run(t, f, ys, rx)
      case Stuck(a, x) => Stuck(a, x)
    decreases |xs|
  {
    if xs == [] {
      assert xs + ys == ys;
    } else {
      assert (xs + ys)[0] == xs[0] && (xs + ys)[1..] == xs[1..] + ys;
      match FirstMatch(GetRules(t, s), xs[0], rx)
      case None =>
      case Some(next) => RunAppend(t, next, xs[1..], ys, rx);
    }
  }

  /** One more symbol at the end: one more step from the state reached so far. */
  lemma RunSnoc(t: Table, s: State, xs: seq<Value>, x: Value, rx: RegexEngine)
    ensures Run(t, s, xs + [x], rx) ==
      match Run(t, s, xs, rx)
      case Stuck(a, y) => Stuck(a, y)
      case Done(f) =>
        match FirstMatch(GetRules(t, f), x, rx)
        case None => Stuck(f, x)
        case Some(next) => Done(next)
  {
    RunAppend(t, s, xs, [x], rx);
  }

  /** Once stuck, a run stays stuck where it was, whatever follows. */
  lemma StuckIgnoresRest(t: Table, s: State, xs: seq<Value>, ys: seq<Value>, rx: RegexEngine)
    requires Run(t, s, xs, rx).Stuck?
    ensures Run(t, s, xs + ys, rx) == Run(t, s, xs, rx)
  {
    RunAppend(t, s, xs, ys, rx);
  }

  /** A run that fails stops at its first unmatched symbol: everything before it is consumed,
      the state is the one reached just before it, and the symbols after it are never read. */
  lemma {:induction false} RunStopsAtFirstFailure(t: Table, s: State, xs: seq<Value>, rx: RegexEngine) returns (k: nat)
    requires Run(t, s, xs, rx).Stuck?
    ensures k < |xs| && xs[k] == Run(t, s, xs, rx).symbol
    ensures Run(t, s, xs[..k], rx) == Done(Run(t, s, xs, rx).at)
    ensures FirstMatch(GetRules(t, Run(t, s, xs, rx).at), xs[k], rx).None?
    ensures Run(t, s, xs[..k + 1], rx) == Run(t, s, xs, rx)
    decreases |xs|
  {
    var next := FirstMatch(GetRules(t, s), xs[0], rx);
    if next.None? {
      k := 0;
      assert xs[..1][0] == xs[0];
    } else {
      assert Run(t, s, xs, rx) == Run(t, next.value, xs[1..], rx);
      var k' := RunStopsAtFirstFailure(t, next.value, xs[1..], rx);
      k := k' + 1;
      assert xs[..k][1..] == xs[1..][..k'];
      assert xs[..k + 1][1..] == xs[1..][..k' + 1];
      assert xs[..k][0] == xs[0] && xs[..k + 1][0] == xs[0];
    }
  }

  /** Conversely, a run whose first `k` symbols are consumed and whose next symbol has no
      rule is stuck there, whatever follows. */
  lemma RunStopsAt(t: Table, s: State, xs: seq<Value>, k: nat, rx: RegexEngine)
    requires k < |xs| && Run(t, s, xs[..k], rx).Done?
    requires FirstMatch(GetRules(t, Run(t, s, xs[..k], rx).final), xs[k], rx).None?
    ensures Run(t, s, xs, rx) == Stuck(Run(t, s, xs[..k], rx).final, xs[k])
  {
    assert xs == xs[..k] + xs[k..];
    RunAppend(t, s, xs[..k], xs[k..], rx);
    assert xs[k..][0] == xs[k];
  }

  /** What `process(input)` leaves behind: the state reached and whether it raised. */
  datatype Processed = Processed(state: State, outcome: Outcome)

  function ProcessSpec(t: Table, init: State, sp: Splitter, input: Input, rx: RegexEngine): (p: Processed)
    ensures Split(sp, input).Err? ==> p == Processed(init, Fail(Split(sp, input).error))
    ensures p.outcome.Pass? <==> Split(sp, input).Ok? && Run(t, init, Split(sp, input).value, rx).Done?
    ensures p.outcome.Fail? && Split(sp, input).Ok? ==> p.outcome.error == NoTransition(p.state, Run(t, init, Split(sp, input).value, rx).symbol)
  {
    match Split(sp, input)
    case Err(e) => Processed(init, Fail(e))
    case Ok(symbols) =>
      match Run(t, init, symbols, rx)
      case Done(f) => Processed(f, Pass)
      case Stuck(at, x) => Processed(at, Fail(NoTransition(at, x)))
  }

  /** An empty symbol sequence leaves the initial state; with the default splitter, the empty
      string does. */
  lemma ProcessEmpty(t: Table, init: State, rx: RegexEngine)
    ensures ProcessSpec(t, init, StringSplitter, Text(""), rx) == Processed(init, Pass)
    ensures ProcessSpec(t, init, ListSplitter, Items([]), rx) == Processed(init, Pass)
  {
  }

  // ---------------------------------------------------------------------------
  // What `validate` reports

  datatype Diagnostic =
    | Unreachable(state: State)
    | MissingTransition(state: State, input: Matcher)
    | AmbiguousTransition(state: State, input: Matcher)

  /** The step the reachability walk takes: from `a`, for one of its matchers, to the target
      of the first rule of `a` with that matcher (later rules with an equal matcher are
      never followed). */
  ghost predicate Edge(t: Table, a: State, b: State)
  {
    exists r <- GetRules(t, a) :: Get(t, a, r.matcher) == Some(b)
  }

  ghost predicate IsPath(t: Table, p: seq<State>, a: State, b: State)
  {
    && |p| > 0 && p[0] == a && p[|p| - 1] == b
    && forall i | 0 <= i < |p| - 1 :: Edge(t, p[i], p[i + 1])
  }

  ghost predicate Reach(t: Table, a: State, b: State)
  {
    exists p :: IsPath(t, p, a, b)
  }

  /** A set closed under `Edge` that holds the start holds every state reachable from it. */
  lemma {:induction false} ClosedSetHoldsPaths(t: Table, R: set<State>, p: seq<State>, a: State, b: State)
    requires a in R
    requires forall x, y | x in R && Edge(t, x, y) :: y in R
    requires IsPath(t, p, a, b)
    ensures b in R
    decreases |p|
  {
    if |p| > 1 {
      var q := p[..|p| - 1];
      assert IsPath(t, q, a, q[|q| - 1]);
      ClosedSetHoldsPaths(t, R, q, a, q[|q| - 1]);
      assert Edge(t, p[|p| - 2], p[|p| - 1]);
    }
  }

  lemma ClosedSetHoldsReachable(t: Table, init: State, R: set<State>)
    requires init in R
    requires forall x, y | x in R && Edge(t, x, y) :: y in R
    ensures forall q | Reach(t, init, q) :: q in R
  {
    forall q | Reach(t, init, q) ensures q in R {
      var p :| IsPath(t, p, init, q);
      ClosedSetHoldsPaths(t, R, p, init, q);
    }
  }

  lemma PathExtend(t: Table, p: seq<State>, a: State, b: State, c: State)
    requires IsPath(t, p, a, b) && Edge(t, b, c)
    ensures IsPath(t, p + [c], a, c)
  {
    var q := p + [c];
    forall i | 0 <= i < |q| - 1 ensures Edge(t, q[i], q[i + 1]) {
      if i < |p| - 1 {
        assert q[i] == p[i] && q[i + 1] == p[i + 1];
      }
    }
  }

  lemma GetGivesKnownState(t: Table, s: State, m: Matcher)
    requires Get(t, s, m).Some?
    ensures s in t && Get(t, s, m).value in StatesOf(t)
  {
    var i := FirstTargetIndex(GetRules(t, s), m);
    assert GetRules(t, s)[i] in t[s];
  }

  ghost predicate MissingReported(t: Table, s: State, m: Matcher)
  {
    s in StatesOf(t) && m in InputsOf(t, t.Keys) && !Has(t, s, m)
  }

  ghost predicate AmbiguousReported(t: Table, s: State, m: Matcher)
  {
    s in StatesOf(t) && m in InputsOf(t, t.Keys) && Count(t, s, m) > 1
  }

  /** A diagnostic `validate` gives for table `t` and initial state `init`. */
  ghost predicate Reported(t: Table, init: State, d: Diagnostic)
  {
    match d
    case Unreachable(s) => s in StatesOf(t) && !Reach(t, init, s)
    case MissingTransition(s, m) => MissingReported(t, s, m)
    case AmbiguousTransition(s, m) => AmbiguousReported(t, s, m)
  }

  function Rank(d: Diagnostic): nat
  {
    match d
    case Unreachable(_) => 0
    case MissingTransition(_, _) => 1
    case AmbiguousTransition(_, _) => 2
  }

  /** Unreachable diagnostics first, then missing ones, then ambiguous ones. */
  predicate Grouped(ds: seq<Diagnostic>)
  {
    forall i, j | 0 <= i < j < |ds| :: Rank(ds[i]) <= Rank(ds[j])
  }

  predicate NoDuplicates<T(==)>(xs: seq<T>)
  {
    forall i, j | 0 <= i < j < |xs| :: xs[i] != xs[j]
  }

  lemma NothingReported(ds: seq<Diagnostic>)
    ensures (forall d :: d !in ds) ==> ds == []
  {
    if ds != [] {
      assert ds[0] in ds;
    }
  }

  lemma NoDuplicatesAppend<T>(xs: seq<T>, x: T)
    requires NoDuplicates(xs) && x !in xs
    ensures NoDuplicates(xs + [x])
  {
  }

  lemma ConcatDiagnostics(u: seq<Diagnostic>, m: seq<Diagnostic>, a: seq<Diagnostic>)
    requires NoDuplicates(u) && NoDuplicates(m) && NoDuplicates(a)
    requires forall d <- u :: d.Unreachable?
    requires forall d <- m :: d.MissingTransition?
    requires forall d <- a :: d.AmbiguousTransition?
    ensures NoDuplicates(u + m + a) && Grouped(u + m + a)
  {
    var all := u + m + a;
    forall i, j | 0 <= i < j < |all| ensures all[i] != all[j] && Rank(all[i]) <= Rank(all[j]) {
      if i < |u| { assert all[i] == u[i]; assert all[i] in u; }
      else if i < |u| + |m| { assert all[i] == m[i - |u|]; assert all[i] in m; }
      else { assert all[i] == a[i - |u| - |m|]; assert all[i] in a; }
      if j < |u| { assert all[j] == u[j]; assert all[j] in u; }
      else if j < |u| + |m| { assert all[j] == m[j - |u|]; assert all[j] in m; }
      else { assert all[j] == a[j - |u| - |m|]; assert all[j] in a; }
    }
  }

  /** The states one `Edge` away from `a`. */
  function Succ(t: Table, a: State): set<State>
  {
    set r <- GetRules(t, a) | Get(t, a, r.matcher).Some? :: Get(t, a, r.matcher).value
  }

  lemma SuccessorsReached(t: Table, a: State)
    ensures forall b :: Edge(t, a, b) <==> b in Succ(t, a)
    ensures Succ(t, a) <= StatesOf(t)
  {
    forall b | b in Succ(t, a) ensures b in StatesOf(t) {
      var r :| r in GetRules(t, a) && Get(t, a, r.matcher) == Some(b);
      GetGivesKnownState(t, a, r.matcher);
    }
  }

  lemma ReachStep(t: Table, init: State, a: State)
    requires Reach(t, init, a)
    ensures forall b | Edge(t, a, b) :: Reach(t, init, b)
  {
    forall b | Edge(t, a, b) ensures Reach(t, init, b) {
      var p :| IsPath(t, p, init, a);
      PathExtend(t, p, init, a, b);
    }
  }

  /** What the worklist walk keeps: everything seen lies within the known states and is
      reachable, and every step out of a visited state lands on a state seen so far. */
  /** Every state of `s` is reachable from `init`. */
  ghost predicate AllReached(t: Table, init: State, s: set<State>)
  {
    forall x | x in s :: Reach(t, init, x)
  }

  /** Every edge out of `from` lands in `into`. */
  ghost predicate EdgesInto(t: Table, from: set<State>, into: set<State>)
  {
    forall x, y | x in from && Edge(t, x, y) :: y in into
  }

  /** No state of `s` has a list rule. */
  ghost predicate NoListRules(t: Table, s: set<State>)
  {
    forall x | x in s :: !ListRuleIn(GetRules(t, x))
  }

  ghost predicate WalkInv(t: Table, init: State, universe: set<State>, reachable: set<State>, toVisit: set<State>)
  {
    && reachable + toVisit <= universe
    && init in reachable + toVisit
    && AllReached(t, init, reachable + toVisit)
    && EdgesInto(t, reachable, reachable + toVisit)
    && NoListRules(t, reachable)
  }

  lemma WalkStart(t: Table, init: State)
    ensures WalkInv(t, init, StatesOf(t) + {init}, {}, {init})
  {
    assert IsPath(t, [init], init, init);
  }

  /** Popping a state already visited. */
  lemma WalkSkip(t: Table, init: State, universe: set<State>, reachable: set<State>, toVisit: set<State>, state: State)
    requires WalkInv(t, init, universe, reachable, toVisit) && state in toVisit && state in reachable
    ensures WalkInv(t, init, universe, reachable, toVisit - {state})
  {
    assert reachable + (toVisit - {state}) == reachable + toVisit;
  }

  /** `WalkInv` holds of a split `reachable`/`toVisit` of a closed, reachable `seen`. */
  lemma WalkInvFrom(t: Table, init: State, universe: set<State>, reachable: set<State>, toVisit: set<State>, seen: set<State>)
    requires reachable + toVisit == seen && seen <= universe && init in seen
    requires AllReached(t, init, seen) && EdgesInto(t, reachable, seen) && NoListRules(t, reachable)
    ensures WalkInv(t, init, universe, reachable, toVisit)
  {
  }

  /** Visiting a new state: it joins the visited ones, its unvisited successors join the
      worklist, and fewer states remain unvisited. */
  lemma WalkStep(t: Table, init: State, universe: set<State>, reachable: set<State>, toVisit: set<State>, state: State)
    requires WalkInv(t, init, universe, reachable, toVisit) && state in toVisit && state !in reachable
    requires !ListRuleIn(GetRules(t, state)) && universe == StatesOf(t) + {init}
    ensures WalkInv(t, init, universe, reachable + {state}, (toVisit - {state}) + (Succ(t, state) - (reachable + {state})))
    ensures |universe - (reachable + {state})| < |universe - reachable|
  {
    var seen := reachable + toVisit + Succ(t, state);
    SuccessorsReached(t, state);
    WalkStepReach(t, init, reachable + toVisit, state);
    WalkStepClosed(t, reachable, toVisit, state);
    WalkStepNoLists(t, reachable, state);
    FewerUnvisited(universe, reachable, state);
    WalkStepSplit(reachable, toVisit, Succ(t, state), state);
    WalkInvFrom(t, init, universe, reachable + {state}, (toVisit - {state}) + (Succ(t, state) - (reachable + {state})), seen);
  }

  lemma WalkStepSplit(reachable: set<State>, toVisit: set<State>, next: set<State>, state: State)
    requires state in toVisit
    ensures (reachable + {state}) + ((toVisit - {state}) + (next - (reachable + {state}))) == reachable + toVisit + next
  {
  }

  lemma WalkStepReach(t: Table, init: State, seen: set<State>, state: State)
    requires AllReached(t, init, seen) && state in seen
    ensures AllReached(t, init, seen + Succ(t, state))
  {
    SuccessorsReached(t, state);
    ReachStep(t, init, state);
  }

  lemma WalkStepClosed(t: Table, reachable: set<State>, toVisit: set<State>, state: State)
    requires EdgesInto(t, reachable, reachable + toVisit)
    ensures EdgesInto(t, reachable + {state}, reachable + toVisit + Succ(t, state))
  {
    SuccessorsReached(t, state);
  }

  lemma WalkStepNoLists(t: Table, reachable: set<State>, state: State)
    requires NoListRules(t, reachable) && !ListRuleIn(GetRules(t, state))
    ensures NoListRules(t, reachable + {state})
  {
  }

  lemma FewerUnvisited(universe: set<State>, reachable: set<State>, state: State)
    requires state in universe && state !in reachable
    ensures |universe - (reachable + {state})| < |universe - reachable|
  {
    var rest := universe - (reachable + {state});
    assert universe - reachable == rest + {state};
    assert state !in rest;
  }

  const TrapMessage := "FSM ended in TRAP state!"

  // ---------------------------------------------------------------------------

  class FiniteStateMachine {
    const initial: State
    var current: State
    /** Shared with other machines, never changed by this one. */
    const transitions: TransitionTable
    /** `None` in the source is `null` here. */
    const outputs: OutputMapping?
    const splitter: Splitter
    /** The regular-expression engine patterns are matched with. */
    const rx: RegexEngine

    /** `FiniteStateMachine(initial_state, transitions, output_mapping, splitter=None)`. */
    constructor (initial: State, transitions: TransitionTable, outputs: OutputMapping?,
                 splitter: Option<Splitter>, rx: RegexEngine)
      ensures this.initial == initial && current == initial
      ensures this.transitions == transitions && this.outputs == outputs && this.rx == rx
      ensures this.splitter == if splitter.Some? then splitter.value else StringSplitter
    {
      this.initial := initial;
      current := initial;
      this.transitions := transitions;
      this.outputs := outputs;
      this.splitter := if splitter.Some? then splitter.value else StringSplitter;
      this.rx := rx;
    }

    /** `reset()`: back to the initial state, and nothing else changes (so twice is once). */
    method Reset()
      modifies this`current
      ensures current == initial
    {
      current := initial;
    }

    /** `get_current_state()`. */
    function CurrentState(): State
      reads this
    {
      current
    }

    /** `process(input_data)`: reset, split, then one step per symbol. Whatever the state
        before the call, the state after it and the error raised are those of the fold. */
    method Process(input: Input) returns (res: Outcome)
      modifies this`current
      ensures Processed(current, res) == ProcessSpec(transitions.table, initial, splitter, input, rx)
    {
      Reset();
      var split := Split(splitter, input);
      if split.Err? {
        return Fail(split.error);
      }
      var symbols := split.value;
      var i := 0;
      while i < |symbols|
        invariant 0 <= i <= |symbols|
        invariant Run(transitions.table, initial, symbols, rx)
               == Run(transitions.table, current, symbols[i..], rx)
      {
        var symbol := symbols[i];
        var next := FindRule(GetRules(transitions.table, current), symbol);
        assert symbols[i..][0] == symbol && symbols[i..][1..] == symbols[i + 1..];
        if next.None? {
          assert Run(transitions.table, current, symbols[i..], rx) == Stuck(current, symbol);
          return Fail(NoTransition(current, symbol));
        }
        current := next.value;
        i := i + 1;
      }
      res := Pass;
    }

    /** The inner loop of `process`: the rules of the current state are tried in order
        and the first one that matches gives the next state; none matching is the
        loop's `else` branch. */
    method FindRule(rules: seq<TransitionRule>, symbol: Value) returns (next: Option<State>)
      ensures next == FirstMatch(rules, symbol, rx)
    {
      next := None;
      var j := 0;
      while j < |rules|
        invariant 0 <= j <= |rules|
        invariant FirstMatch(rules, symbol, rx) == FirstMatch(rules[j..], symbol, rx)
      {
        var hit := Match(rules[j].matcher, symbol, rx);
        MatchNeverRaises(rules[j].matcher, symbol, rx);
        if hit.value {
          return Some(rules[j].to);
        }
        assert rules[j..][1..] == rules[j + 1..];
        j := j + 1;
      }
    }

    /** `get_output()`: the current state's output, with an exception class raised
        rather than returned. */
    function GetOutput(): (r: Result<Output>)
      reads this, outputs
      ensures outputs == null ==> r == Err(NoOutputMapping)
      ensures r.Ok? ==> outputs != null && r.value == outputs.Get(current) && !r.value.ExceptionType?
      ensures outputs != null && outputs.Get(current).ExceptionType?
              ==> r == Err(Raised(outputs.Get(current).kind, TrapMessage))
      ensures outputs != null && !outputs.Get(current).ExceptionType? ==> r == Ok(outputs.Get(current))
      ensures outputs != null && current !in outputs.mapping ==> r == Ok(Plain(VNone))
    {
      if outputs == null then Err(NoOutputMapping)
      else
        var o := outputs.Get(current);
        if o.ExceptionType? then Err(Raised(o.kind, TrapMessage)) else Ok(o)
    }

    /** `validate()`: the three checks, all run, concatenated in order. */
    method Validate() returns (r: Result<seq<Diagnostic>>)
      ensures r.Err? <==> HasListRule(transitions.table)
      ensures r.Err? ==> r.error == Unhashable
      ensures r.Ok? ==> Grouped(r.value) && NoDuplicates(r.value)
      ensures r.Ok? ==> forall d :: d in r.value <==> Reported(transitions.table, initial, d)
    {
      var unreachable := CheckUnreachable();
      var missing := CheckMissing();
      var ambiguous := CheckAmbiguous();
      if unreachable.Err? || missing.Err? || ambiguous.Err? {
        if unreachable.Err? {
          ghost var q :| Reach(transitions.table, initial, q) && ListRuleIn(GetRules(transitions.table, q));
          assert q in transitions.table;
        }
        return Err(Unhashable);
      }
      ConcatDiagnostics(unreachable.value, missing.value, ambiguous.value);
      r := Ok(unreachable.value + missing.value + ambiguous.value);
    }

    /** `_check_unreachable_states()`: a worklist walk from the initial state; every state of
        the table it does not reach is reported, and the initial state never is. A state
        with a list matcher cannot be put in a set of inputs, so reaching one raises. */
    method CheckUnreachable() returns (r: Result<seq<Diagnostic>>)
      ensures r.Err? <==> exists q :: Reach(transitions.table, initial, q) && ListRuleIn(GetRules(transitions.table, q))
      ensures r.Err? ==> r.error == Unhashable
      ensures r.Ok? ==> NoDuplicates(r.value)
      ensures r.Ok? ==> forall d :: d in r.value <==>
                d.Unreachable? && d.state in StatesOf(transitions.table) && !Reach(transitions.table, initial, d.state)
      ensures r.Ok? ==> Unreachable(initial) !in r.value
    {
      var walk := Walk();
      if walk.Err? {
        return Err(walk.error);
      }
      var states := transitions.States();
      r := ListUnreachable(states - walk.value);
    }

    /** The walk itself: the set of states reachable from the initial one, or the error
        raised on reaching a state with a list matcher. */
    method Walk() returns (r: Result<set<State>>)
      ensures r.Err? <==> exists q :: Reach(transitions.table, initial, q) && ListRuleIn(GetRules(transitions.table, q))
      ensures r.Err? ==> r.error == Unhashable
      ensures r.Ok? ==> forall q :: q in r.value <==> Reach(transitions.table, initial, q)
      ensures r.Ok? ==> initial in r.value
    {
      var table := transitions.table;
      ghost var universe := StatesOf(table) + {initial};
      var reachable: set<State> := {};
      var toVisit: set<State> := {initial};
      WalkStart(table, initial);
      while toVisit != {}
        invariant WalkInv(table, initial, universe, reachable, toVisit)
        decreases |universe - reachable|, |toVisit|
      {
        var state :| state in toVisit;
        if state in reachable {
          WalkSkip(table, initial, universe, reachable, toVisit, state);
          toVisit := toVisit - {state};
          continue;
        }
        ghost var visited := reachable;
        reachable := reachable + {state};
        var inputs := InputsForState(table, state);
        if inputs.Err? {
          return Err(inputs.error);
        }
        WalkStep(table, initial, universe, visited, toVisit, state);
        toVisit := Expand(state, inputs.value, reachable, toVisit - {state});
      }
      ClosedSetHoldsReachable(table, initial, reachable);
      r := Ok(reachable);
    }

    /** The inner loop of the walk: the targets `get` gives for the state's inputs, when
        not yet reached, are added to the states still to visit. */
    method Expand(state: State, inputs: set<Matcher>, reachable: set<State>, toVisit: set<State>)
      returns (next: set<State>)
      requires InputsForState(transitions.table, state) == Ok(inputs)
      ensures next == toVisit + (Succ(transitions.table, state) - reachable)
    {
      var table := transitions.table;
      var rules := GetRules(table, state);
      next := toVisit;
      var rest := inputs;
      while rest != {}
        invariant rest <= inputs
        invariant toVisit <= next
        invariant forall y | y in next - toVisit :: y !in reachable && y in Succ(table, state)
        invariant forall m | m in inputs - rest && Get(table, state, m).Some? && Get(table, state, m).value !in reachable
                    :: Get(table, state, m).value in next
        decreases rest
      {
        var m :| m in rest;
        rest := rest - {m};
        var target := Get(table, state, m);
        if target.Some? && target.value !in reachable {
          var r0 :| r0 in rules && CanonMatcher(r0.matcher) == m;
          QueriesRespectEq(rules, r0.matcher);
          next := next + {target.value};
        }
      }
      forall y | y in Succ(table, state) && y !in reachable ensures y in next {
        var r0 :| r0 in rules && Get(table, state, r0.matcher) == Some(y);
        QueriesRespectEq(rules, r0.matcher);
        assert CanonMatcher(r0.matcher) in inputs - rest;
        assert Get(table, state, CanonMatcher(r0.matcher)) == Some(y);
      }
    }

    /** The report for the states the walk did not reach, one line each. */
    method ListUnreachable(unreachable: set<State>) returns (r: Result<seq<Diagnostic>>)
      ensures r.Ok? && NoDuplicates(r.value)
      ensures forall d :: d in r.value <==> d.Unreachable? && d.state in unreachable
    {
      var out: seq<Diagnostic> := [];
      var rest := unreachable;
      while rest != {}
        invariant rest <= unreachable
        invariant NoDuplicates(out)
        invariant forall d :: d in out <==> d.Unreachable? && d.state in unreachable - rest
        decreases rest
      {
        var s :| s in rest;
        NoDuplicatesAppend(out, Unreachable(s));
        out := out + [Unreachable(s)];
        rest := rest - {s};
      }
      r := Ok(out);
    }

    /** `_check_missing_transitions()`: every known state paired with every matcher of the
        whole table (not only the state's own) for which the state has no rule. */
    method CheckMissing() returns (r: Result<seq<Diagnostic>>)
      ensures r.Err? <==> HasListRule(transitions.table)
      ensures r.Err? ==> r.error == Unhashable
      ensures r.Ok? ==> NoDuplicates(r.value)
      ensures r.Ok? ==> forall d :: d in r.value <==>
                d.MissingTransition? && MissingReported(transitions.table, d.state, d.input)
    {
      var table := transitions.table;
      var states := transitions.States();
      var errs: seq<Diagnostic> := [];
      var todo := states;
      while todo != {}
        invariant todo <= states
        invariant todo != states ==> !HasListRule(table)
        invariant NoDuplicates(errs)
        invariant forall d :: d in errs <==>
          d.MissingTransition? && d.state in states - todo && d.input in InputsOf(table, table.Keys) && !Has(table, d.state, d.input)
        decreases todo
      {
        var s :| s in todo;
        var inputs := transitions.AllInputs();
        if inputs.Err? {
          return Err(inputs.error);
        }
        var rest := inputs.value;
        while rest != {}
          invariant rest <= inputs.value
          invariant NoDuplicates(errs)
          invariant forall d :: d in errs <==>
            d.MissingTransition? && !Has(table, d.state, d.input) && d.input in InputsOf(table, table.Keys)
            && (d.state in states - todo || (d.state == s && d.input in inputs.value - rest))
          decreases rest
        {
          var m :| m in rest;
          if !Has(table, s, m) {
            NoDuplicatesAppend(errs, MissingTransition(s, m));
            errs := errs + [MissingTransition(s, m)];
          }
          rest := rest - {m};
        }
        todo := todo - {s};
      }
      if states == {} {
        assert table.Keys <= states;
      }
      r := Ok(errs);
    }

    /** `_check_ambiguous_transitions()`: every known state and matcher of the table with
        more than one rule of that state whose matcher is equal to it. */
    method CheckAmbiguous() returns (r: Result<seq<Diagnostic>>)
      ensures r.Err? <==> HasListRule(transitions.table)
      ensures r.Err? ==> r.error == Unhashable
      ensures r.Ok? ==> NoDuplicates(r.value)
      ensures r.Ok? ==> forall d :: d in r.value <==>
                d.AmbiguousTransition? && AmbiguousReported(transitions.table, d.state, d.input)
    {
      var table := transitions.table;
      var states := transitions.States();
      var errs: seq<Diagnostic> := [];
      var todo := states;
      while todo != {}
        invariant todo <= states
        invariant todo != states ==> !HasListRule(table)
        invariant NoDuplicates(errs)
        invariant forall d :: d in errs <==>
          d.AmbiguousTransition? && d.state in states - todo && d.input in InputsOf(table, table.Keys) && Count(table, d.state, d.input) > 1
        decreases todo
      {
        var s :| s in todo;
        var inputs := transitions.AllInputs();
        if inputs.Err? {
          return Err(inputs.error);
        }
        var rest := inputs.value;
        while rest != {}
          invariant rest <= inputs.value
          invariant NoDuplicates(errs)
          invariant forall d :: d in errs <==>
            d.AmbiguousTransition? && Count(table, d.state, d.input) > 1 && d.input in InputsOf(table, table.Keys)
            && (d.state in states - todo || (d.state == s && d.input in inputs.value - rest))
          decreases rest
        {
          var m :| m in rest;
          if Count(table, s, m) > 1 {
            NoDuplicatesAppend(errs, AmbiguousTransition(s, m));
            errs := errs + [AmbiguousTransition(s, m)];
          }
          rest := rest - {m};
        }
        todo := todo - {s};
      }
      if states == {} {
        assert table.Keys <= states;
      }
      r := Ok(errs);
    }
  }
}
