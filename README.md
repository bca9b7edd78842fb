# A verified model of a small deterministic finite-state-machine engine

The engine keeps a **transition table**: for each source state, its rules in insertion order.
A rule's input matcher is a literal, a compiled regular expression or a list of either.
An **output mapping** sends states to output values.
A **splitter** turns an input into a sequence of symbols.
The **driver** folds over those symbols: for each one it takes the first rule of the current state that matches, and it raises when no rule matches.
The **validator** reports three kinds of diagnostic: unreachable states, missing (state, matcher) pairs and ambiguous ones.
Three example machines are built on the engine: remainder modulo 3 of a binary number, parity of the number of `1`s, and a trap for the substring `00`.

Each core file becomes one Dafny module:

| source | module | form |
|---|---|---|
| core/state.py | `States` (state.dfy) | datatype |
| matcher and symbol values | `Values` (values.dfy), `Errors` (errors.dfy) | datatypes, Python `==` and `str()` |
| core/transition_rule.py | `TransitionRules` (transition_rule.dfy) | datatypes and functions |
| core/transition_table.py | `TransitionTables` (transition_table.dfy) | class `TransitionTable` over a `map` field, with specification functions |
| core/output_mapping.py | `OutputMappings` (output_mapping.dfy) | class `OutputMapping` over a `map` field |
| core/splitter.py | `Splitters` (splitter.dfy) | functions |
| core/finite_state_machine.py, core/abstract_finite_state_machine.py | `FiniteStateMachines` (finite_state_machine.dfy) | class `FiniteStateMachine` with loop-based `Process` and validator methods, proved against `Run`, `ProcessSpec` and `Reported` |
| machines/*.py | `BinaryMachines` (binary.dfy), `ModThreeMachines`, `ParityCheckerMachines`, `TrapStateMachines` | one class per machine, holding its engine |

Modelling choices:

- Python's `==` on literals is `Values.PyEq`, under which `True == 1` and `False == 0`. A set of matchers holds one representative per `==`-class (`CanonMatcher`).
- A raised exception is an `Err`/`Fail` carrying an `Errors.Error`. The driver's `ValueError` is `NoTransition(state, symbol)`, which holds the two values its message names.
- `re.Pattern.match` is a parameter `rx: RegexEngine`: `rx(p, text)` says whether `p.match(text)` is not `None`. Nothing is assumed about it. A pattern rule therefore matches a symbol exactly when `rx(p, str(symbol))` holds.
- Matcher objects of any other type are `Other(kind)`. `TransitionRule` refuses them, and so does `None`.
- A list matcher is unhashable. `add` flattens a list only one level, so `add(s, [["a", "b"]], t)` stores a rule whose matcher is a list. `all_inputs` then raises `TypeError` (`Unhashable`). So does `inputs_for_state` for a state whose own rules include such a list, and therefore `validate`. `states()` never raises.
- The parity and trap machines pass a plain dictionary as their output mapping. Here it is an `OutputMapping` with the same entries: `dict.get` and `OutputMapping.get` agree on states.
- The machine classes subclass `FiniteStateMachine` in the source. Here each machine holds one (`fsm`), configured exactly as the subclass constructor configures itself.

Where the source's docstrings and its code disagree, the model follows the code:

- The parity machine's `calculate` is documented as returning `0`/`1` (machines/parity_checker_machine.py:35). Its output mapping holds `False`/`True` (machines/parity_checker_machine.py:23-24), and the model returns those. The two are equal under Python `==`.
- The trap machine's `calculate` is documented as raising `TrapStateException` (machines/trap_state_machine.py:37). Its output mapping holds the class `Exception` itself (machines/trap_state_machine.py:25), and the model raises that.

## Model

| member | source | states |
|---|---|---|
| States.Str | core/state.py:8-9 | `str(state)` is the name, character for character |
| States.EqualIffSameName | core/state.py:11-12 | two states are equal exactly when their names are |
| States.HashConsistent | core/state.py:14-15 | equal states hash equally under any hash of names |
| Values.Canon | core/transition_table.py:49-57 | a value's set representative is `==` to it and never a bool |
| Values.PyEqIffCanon | core/transition_table.py:49-57 | two values are `==` exactly when their representatives are identical |
| Values.PyEqIsEquivalence | core/transition_rule.py:30-31 | literal `==` is reflexive, symmetric and transitive, `True == 1` included |
| Values.PyEq | core/transition_rule.py:30-31 | identical values are `==`; a string or `None` is `==` only to itself; `True`/`False` are `==` to exactly `1`/`0` among integers |
| Values.PyStr | core/transition_rule.py:29 | `str` of a string is itself; of an integer, its decimal digits (after `-` when negative) with no leading zero, which spell its absolute value; of `True`, `False` and `None`, those words |
| Values.NatToString | core/transition_rule.py:28-29 | `str(n)` is decimal digits with no leading zero, and the digits, read left to right, spell `n` |
| Values.StrOfNumberIsNotItsText | core/transition_rule.py:28-31 | `1` and `"1"` print alike but are not `==`; `True` and `1` are `==` but print differently |
| TransitionRules.NewRule | core/transition_rule.py:11-20 | construction succeeds exactly for a literal, a pattern or a list of those, and keeps the three fields; otherwise `TypeError` |
| TransitionRules.Match | core/transition_rule.py:22-33 | the dispatch raises only `TypeError`; it never raises on a constructed rule; on a non-list it raises exactly for a matcher the constructor refuses |
| TransitionRules.AnyMatch | core/transition_rule.py:23-27 | the `any` over the elements raises only `TypeError`, never on a list of leaves, and is false for `[]` |
| TransitionRules.MatchNeverRaises | core/transition_rule.py:22-33 | on a constructed rule the dispatch never reaches its raising branch, and its answer is `Matches` |
| TransitionRules.AnyMatchOfLeaves | core/transition_rule.py:23-27 | the `any` over a list of leaves is the existence of a matching element |
| TransitionRules.LiteralMatchesIffEqual | core/transition_rule.py:30-31 | a literal matches exactly the symbols `==` to it (`True` matches `1`, `1` does not match `"1"`) |
| TransitionRules.PatternSeesOnlyText | core/transition_rule.py:28-29 | a pattern matches a symbol exactly when the engine's `match` succeeds on `str(symbol)`, so `1` and `"1"`, `True` and `"True"` are matched alike |
| TransitionRules.AnchoredPatternPossible | core/transition_rule.py:28-29 | the engine is unconstrained: an engine for `^$` makes a pattern match `""` and not `"x"` |
| TransitionRules.ListMatchesIffSomeElement | core/transition_rule.py:23-27 | a list matches iff some element matches; the empty list matches nothing |
| TransitionRules.NestedListRefused | core/transition_rule.py:13-17 | a list inside a list, and `None` inside a list, are refused; a list of literals is accepted |
| TransitionRules.MatcherEqIffCanon | core/transition_table.py:49-72 | matcher `==` is identity of representatives, so a set of representatives deduplicates as a Python set |
| TransitionRules.CanonIdempotent | core/transition_table.py:49-57 | a representative is its own representative |
| TransitionRules.CanonPreservesEq | core/transition_table.py:59-72 | replacing a matcher by its representative changes no `==` comparison |
| TransitionTables.GetRules | core/transition_table.py:36-37 | the stored list for a known state, `[]` for an unknown one |
| TransitionTables.AddOne | core/transition_table.py:30-34 | `_add_rule` succeeds exactly for a matcher the constructor accepts; then the rule is appended to its source's list, the source becomes a key, and other states keep their lists; otherwise `TypeError` and an unchanged table |
| TransitionTables.AddEach | core/transition_table.py:23-25 | the loop over a list raises only `TypeError` |
| TransitionTables.AddSpec | core/transition_table.py:14-28 | `add` raises only `TypeError`; a non-list succeeds exactly when the constructor accepts it; an empty list changes nothing |
| TransitionTables.AddSingle | core/transition_table.py:26-34 | a non-list matcher appends exactly one rule at the end of its source's list and changes nothing else; a refused one raises and leaves the table unchanged |
| TransitionTables.AddEachEffect | core/transition_table.py:23-25 | a list adds one rule per element in order, up to the first refused element, which raises |
| TransitionTables.AddList | core/transition_table.py:14-28 | `add` with a list: the same, seen through `get_rules`; an empty list adds nothing and creates no key |
| TransitionTables.AddKeepsListsNonEmpty | core/transition_table.py:30-34 | a key is only created together with a rule, so no state maps to an empty list |
| TransitionTables.FirstUnsupported | core/transition_table.py:23-25 | the index of the first element `TransitionRule` refuses |
| TransitionTables.StatesOf | core/transition_table.py:39-45 | `states()` holds every source and every rule's target |
| TransitionTables.AllInputsOf | core/transition_table.py:47-53 | `all_inputs()` raises exactly when some rule has a list matcher, and otherwise holds the representative of every rule's matcher |
| TransitionTables.InputsForState | core/transition_table.py:55-57 | raises exactly when the state has a list matcher |
| TransitionTables.CountPositiveIffHas | core/transition_table.py:59-65 | `count > 0` iff `has` |
| TransitionTables.Has | core/transition_table.py:59-61 | `has` holds only for a known state with at least one rule |
| TransitionTables.CountIn | core/transition_table.py:63-65 | the count over a list is at most its length |
| TransitionTables.Count | core/transition_table.py:63-65 | `count` is at most the number of the state's rules, and 0 for an unknown state |
| TransitionTables.Get | core/transition_table.py:67-72 | `get` is not `None` exactly when `has` holds |
| TransitionTables.FirstTargetNoneIffAbsent | core/transition_table.py:67-72 | `get` gives `None` iff no rule of the state has an `==` matcher |
| TransitionTables.FirstTargetIndex | core/transition_table.py:67-72 | `get`'s answer is the target of the first rule with an `==` matcher |
| TransitionTables.FirstTargetAt | core/transition_table.py:67-72 | conversely, the first such rule's target is `get`'s answer |
| TransitionTables.GetIsFirstMatch | core/transition_table.py:67-72 | `get(s, m) == q` iff some rule with an `==` matcher leads to `q` and no earlier rule has one |
| TransitionTables.QueriesAgree | core/transition_table.py:47-72 | `has`, `count > 0`, a non-`None` `get` and membership in `inputs_for_state` coincide; the state's inputs lie within `all_inputs` |
| TransitionTables.QueriesRespectEq | core/transition_table.py:59-72 | `has`, `count` and `get` give the same answers for a matcher and its representative |
| TransitionTables.StatesAreSourcesAndTargets | core/transition_table.py:39-45 | a state is known iff it has rules or is some rule's target |
| TransitionTables.TransitionTable.constructor | core/transition_table.py:7-12 | a new table is empty |
| TransitionTables.TransitionTable.AddRule | core/transition_table.py:30-34 | the new table and outcome are those of `AddOne` |
| TransitionTables.TransitionTable.Add | core/transition_table.py:14-28 | the new table and outcome are those of `AddSpec` (one level of list flattening, stop at the first raise) |
| TransitionTables.TransitionTable.States | core/transition_table.py:39-45 | the loop computes every source and every target |
| TransitionTables.TransitionTable.AllInputs | core/transition_table.py:47-53 | the loop computes the set of all representatives, or `TypeError` when any rule has a list matcher |
| OutputMappings.OutputMapping.constructor | core/output_mapping.py:6-10 | a new mapping is empty |
| OutputMappings.OutputMapping.Add | core/output_mapping.py:12-20 | sets or overwrites one state's output; every other state's output is unchanged |
| OutputMappings.OutputMapping.Get | core/output_mapping.py:22-28 | the stored output, or `None` when absent; `None` iff absent or stored `None` |
| Splitters.Chars | core/splitter.py:8-12 | the characters of the string, in order, one symbol each |
| Splitters.CharsAppend | core/splitter.py:8-12 | splitting a concatenation concatenates the splits |
| Splitters.SplitOn | core/splitter.py:20-24 | `s.split(',')` has at least one piece |
| Splitters.JoinSplitOn | core/splitter.py:20-24 | joining the comma pieces with commas gives the input back |
| Splitters.SplitOnShape | core/splitter.py:20-24 | there is one piece more than there are commas, and no piece holds a comma |
| Splitters.Words | core/splitter.py:26-30 | every piece of `s.split()` is non-empty and free of whitespace |
| Splitters.WordsShape | core/splitter.py:26-30 | the pieces concatenate to the input without its whitespace, and are `[]` iff the input is all whitespace |
| Splitters.WordsConcat | core/splitter.py:26-30 | the pieces concatenate to the input without its whitespace |
| Splitters.WordsBlank | core/splitter.py:26-30 | there is no piece iff the input is all whitespace |
| Splitters.WordsOfWord | core/splitter.py:26-30 | a non-empty input without whitespace is a single piece |
| Splitters.WordsAtSpace | core/splitter.py:26-30 | a whitespace character splits the input: the pieces of `a + c + b` are those of `a` followed by those of `b`, so no piece reaches across whitespace |
| Splitters.Split | core/splitter.py:4-45 | the base splitter raises `NotImplementedError`; the list splitter passes a list through and raises on anything else; the string splitters raise `TypeError` on a non-string |
| Splitters.SplitStrings | core/splitter.py:8-45 | on a string: characters (none for `""`); the comma pieces; the whitespace words; the single whole string (so `""` is one symbol) |
| FiniteStateMachines.FirstMatchIsFirst | core/finite_state_machine.py:27-31 | the step taken is the target of the first matching rule in insertion order; there is none iff no rule matches |
| FiniteStateMachines.FirstMatch | core/finite_state_machine.py:27-33 | the inner loop's answer; there is no step when the state has no rules (the rest is in `FirstMatchIsFirst`) |
| FiniteStateMachines.Run | core/finite_state_machine.py:26-33 | the loop over the symbols; no symbols leave the start state (the rest is in `RunAppend`, `RunSnoc`, `StuckIgnoresRest`, `RunStopsAtFirstFailure`) |
| FiniteStateMachines.ProcessSpec | core/finite_state_machine.py:24-33 | a split error leaves the initial state with that error; success iff the split succeeds and the run consumes every symbol; otherwise `ValueError` naming the state and symbol where the run stopped |
| FiniteStateMachines.RunAppend | core/finite_state_machine.py:26-33 | running `xs + ys` runs `xs`, then `ys` from where it ended, unless it got stuck |
| FiniteStateMachines.RunSnoc | core/finite_state_machine.py:26-31 | one more symbol is one more first-match step |
| FiniteStateMachines.StuckIgnoresRest | core/finite_state_machine.py:32-33 | once stuck, later symbols change nothing |
| FiniteStateMachines.RunStopsAtFirstFailure | core/finite_state_machine.py:26-33 | a failing run stops at its first unmatched symbol, in the state reached just before it, and reads nothing after it |
| FiniteStateMachines.RunStopsAt | core/finite_state_machine.py:26-33 | conversely, a consumed prefix followed by an unmatched symbol is exactly where the run stops |
| FiniteStateMachines.ProcessEmpty | core/finite_state_machine.py:24-26 | an empty string or list leaves the initial state, without error |
| FiniteStateMachines.ClosedSetHoldsPaths | core/finite_state_machine.py:46-58 | a set holding the start and closed under the walk's steps holds the end of every path |
| FiniteStateMachines.ClosedSetHoldsReachable | core/finite_state_machine.py:46-58 | such a set holds every reachable state |
| FiniteStateMachines.GetGivesKnownState | core/finite_state_machine.py:55-58 | a target `get` returns is a known state of a known source |
| FiniteStateMachines.SuccessorsReached | core/finite_state_machine.py:55-58 | the walk's successors of a state are exactly its step targets, all of them known states |
| FiniteStateMachines.ReachStep | core/finite_state_machine.py:55-58 | a step from a reachable state reaches a reachable state |
| FiniteStateMachines.PathExtend | core/finite_state_machine.py:55-58 | a path followed by one step is a path to the step's target |
| FiniteStateMachines.WalkStart | core/finite_state_machine.py:48-49 | the walk's invariant holds with nothing visited and only the initial state queued |
| FiniteStateMachines.WalkSkip | core/finite_state_machine.py:51-53 | popping an already visited state keeps the invariant |
| FiniteStateMachines.WalkStep | core/finite_state_machine.py:51-58 | visiting a new state and queueing its unvisited successors keeps the invariant and leaves fewer states unvisited |
| FiniteStateMachines.ConcatDiagnostics | core/finite_state_machine.py:38-44 | concatenating the three lists keeps them duplicate-free and grouped by kind in order |
| FiniteStateMachines.FiniteStateMachine.constructor | core/finite_state_machine.py:10-18 | starts in the initial state; the splitter defaults to `StringSplitter` |
| FiniteStateMachines.FiniteStateMachine.Reset | core/finite_state_machine.py:20-21 | sets the current state to the initial one and changes nothing else |
| FiniteStateMachines.FiniteStateMachine.Process | core/finite_state_machine.py:24-33 | whatever the state before, the resulting state and error are those of `ProcessSpec`: a split error leaves the initial state, a stuck run leaves the state before the failing symbol |
| FiniteStateMachines.FiniteStateMachine.FindRule | core/finite_state_machine.py:27-33 | the loop over the state's rules finds the first-matching rule's target, or none |
| FiniteStateMachines.FiniteStateMachine.GetOutput | core/abstract_finite_state_machine.py:36-43 | no mapping raises `NotImplementedError`; an exception class raises that class with "FSM ended in TRAP state!"; otherwise the stored output, `None` for a state without one |
| FiniteStateMachines.FiniteStateMachine.Validate | core/finite_state_machine.py:38-44 | raises iff the table has a list matcher; otherwise exactly the reported diagnostics, no duplicates, unreachable before missing before ambiguous |
| FiniteStateMachines.FiniteStateMachine.CheckUnreachable | core/finite_state_machine.py:46-60 | exactly the known states not reachable from the initial state, which is never reported; raises iff a reachable state has a list matcher |
| FiniteStateMachines.FiniteStateMachine.Walk | core/finite_state_machine.py:46-58 | the worklist loop ends with exactly the states reachable along first-`get` steps |
| FiniteStateMachines.FiniteStateMachine.Expand | core/finite_state_machine.py:55-58 | the inner loop adds exactly the state's not-yet-reached step targets |
| FiniteStateMachines.FiniteStateMachine.ListUnreachable | core/finite_state_machine.py:59-60 | one diagnostic per given state, no duplicates |
| FiniteStateMachines.FiniteStateMachine.CheckMissing | core/finite_state_machine.py:62-69 | exactly the pairs of a known state and a matcher of the whole table that the state has no rule for |
| FiniteStateMachines.FiniteStateMachine.CheckAmbiguous | core/finite_state_machine.py:71-78 | exactly the pairs of a known state and a matcher of the whole table that more than one of the state's rules is `==` to |
| BinaryMachines.BinValueFromLeft | tests/test_mod_three_machine.py:85-99 | the value read digit by digit equals the positional reading `int(s, 2)` |
| BinaryMachines.LeadingZero | tests/test_mod_three_machine.py:77-83 | a leading `0` does not change the value |
| BinaryMachines.AddBitRules | machines/mod_three_machine.py:17-22 | adding a state's `'0'` rule and then its `'1'` rule stores exactly those two rules, in that order |
| BinaryMachines.BitRulesQueries | machines/mod_three_machine.py:17-22 | a state with a `'0'` and a `'1'` rule has each matcher once, `get` gives each rule's target, and its inputs are `{'0', '1'}` |
| BinaryMachines.BitStateDeterministic | machines/mod_three_machine.py:17-22 | such a state has exactly one rule for each of `'0'` and `'1'` |
| BinaryMachines.BitStep | machines/mod_three_machine.py:17-22 | from such a state `'0'` and `'1'` go where the rules say and any other character has no rule |
| BinaryMachines.RejectsAtFirstNonBinary | core/finite_state_machine.py:26-33 | when every state rejects a character, the run over a string stops at its first such character, in the state its binary prefix leads to |
| BinaryMachines.FirstNonBinary | machines/mod_three_machine.py:15-23 | the first character that is neither `0` nor `1`, or the length when there is none |
| ModThreeMachines.ResidueStep | machines/mod_three_machine.py:15-23 | from remainder `n`, digit `c` leads to remainder `(2n + c) mod 3`; other characters have no rule |
| ModThreeMachines.Remainder | machines/mod_three_machine.py:15-23 | the remainder read digit by digit from the left is below 3 |
| ModThreeMachines.RemainderIsValueMod3 | machines/mod_three_machine.py:39-44 | that remainder equals `int(s, 2) % 3` |
| ModThreeMachines.ModThreeTracksRemainder | machines/mod_three_machine.py:15-23 | after a binary string the state is the one for the digit-by-digit remainder |
| ModThreeMachines.ModThreeRun | machines/mod_three_machine.py:15-23 | after a binary string the state is `S(value mod 3)` |
| ModThreeMachines.ModThreeRejects | machines/mod_three_machine.py:15-23 | any other character, a space included, stops the run at its first occurrence |
| ModThreeMachines.ModThreeLeadingZero | machines/mod_three_machine.py:17 | a leading `0` changes neither the run nor the value |
| ModThreeMachines.ModThreeIsClean | machines/mod_three_machine.py:15-23 | no state is unreachable, and no pair of state and digit is missing or ambiguous |
| ModThreeMachines.ModThreeStates | machines/mod_three_machine.py:15-23 | the table's states are exactly `S0`, `S1` and `S2` |
| ModThreeMachines.ModThreeInputs | machines/mod_three_machine.py:15-23 | the table's inputs are exactly `'0'` and `'1'`, and no matcher is a list |
| ModThreeMachines.ModThreeAllReachable | machines/mod_three_machine.py:15-23 | every state is reachable from `S0` |
| ModThreeMachines.ModThreeDeterministic | machines/mod_three_machine.py:15-23 | no pair of a state and an input is missing or ambiguous |
| ModThreeMachines.ModThreeMachine.constructor | machines/mod_three_machine.py:10-37 | builds the six-rule table and three outputs, starting in `S0` |
| ModThreeMachines.ModThreeMachine.Calculate | machines/mod_three_machine.py:39-44 | a binary string gives `int(s, 2) % 3` (0 for `""`) and leaves the matching state; otherwise the error at the first non-binary character |
| ModThreeMachines.ModThreeMachine.Validate | machines/mod_three_machine.py:15-23 | `validate()` returns `[]` |
| ParityCheckerMachines.ParityStep | machines/parity_checker_machine.py:14-20 | `0` keeps the parity, `1` flips it, other characters have no rule |
| ParityCheckerMachines.ZeroKeepsState | machines/parity_checker_machine.py:16-18 | `0` never changes the state |
| ParityCheckerMachines.ParityRun | machines/parity_checker_machine.py:14-20 | after a binary string the state is `ODD` iff it has an odd number of `1`s |
| ParityCheckerMachines.ParityRejects | machines/parity_checker_machine.py:14-20 | another character stops the run at its first occurrence |
| ParityCheckerMachines.ParityOutputsTotal | machines/parity_checker_machine.py:22-25 | every known state has an output, and none is `None` |
| ParityCheckerMachines.ParityCheckerMachine.constructor | machines/parity_checker_machine.py:10-31 | builds the four-rule table and the two outputs, starting in `EVEN` with the default splitter |
| ParityCheckerMachines.ParityCheckerMachine.Calculate | machines/parity_checker_machine.py:33-38 | a binary string gives `True` iff it has an odd number of `1`s (`False` for `""`), never `None`; otherwise the error at the first non-binary character |
| TrapStateMachines.Contains00Snoc | machines/trap_state_machine.py:14-20 | a string extended by one character holds `00` iff it already did or it ended in `0` and the character is `0` |
| TrapStateMachines.TrapStep | machines/trap_state_machine.py:14-20 | the step each state takes on each character |
| TrapStateMachines.TrapRun | machines/trap_state_machine.py:14-20 | a binary string ends in `TRAP` iff it contains `00`; otherwise in `S1` iff it ends in `0` |
| TrapStateMachines.TrapAbsorbing | machines/trap_state_machine.py:18-19 | no binary string leads out of `TRAP` |
| TrapStateMachines.TrapRejects | machines/trap_state_machine.py:14-20 | another character stops the run at its first occurrence, even in `TRAP` |
| TrapStateMachines.TrapStateMachine.constructor | machines/trap_state_machine.py:7-32 | builds the six-rule table and the three outputs, `TRAP` mapped to `Exception` |
| TrapStateMachines.TrapStateMachine.Calculate | machines/trap_state_machine.py:35-40 | a binary string containing `00` raises `Exception("FSM ended in TRAP state!")`, although the run succeeds; any other binary string gives 1 iff it ends in `0` (0 for `""`); otherwise the error at the first non-binary character |

## Left out

- The regular-expression engine is a parameter (`RegexEngine`) with no assumptions on it. The model fixes only that a pattern sees `str(symbol)`. Anchors, lookaround, empty matches and the pattern semantics themselves are the engine's business.
- `RegexSplitter` (core/splitter.py:32-39) is left out, because `re.split` belongs to the same engine.
- `__str__` and `__repr__` of states, rules, tables and mappings are formatting only. Diagnostics are datatype values (`Unreachable`, `MissingTransition`, `AmbiguousTransition`) rather than formatted strings. Error messages are constructors that carry the values they would print.
- `return self` chaining in `add` is left out: callers make one call per rule.
- The `isinstance(..., State)` checks of `add`, `get` and `OutputMapping.add` are left out, because states are statically typed here.
- Symbols and literals are limited to strings, integers, booleans and `None`. Any other matcher object is `Other(kind)`, and any output other than a value or an exception class is `Opaque(id)`.
- core/fsm_output_handler.py is not part of this model.
- Python arity errors (calling `calculate()` with no argument) are left out.
- The mod-3, parity and trap `Calculate` methods take a string. The `TypeError` a non-string input raises is modelled one level down, in `Process` and `Split`.
- FiniteStateMachines.FiniteStateMachine.Validate: the order of diagnostics within each group follows Python set iteration, which is unspecified. The contract states membership, freedom from duplicates and the grouping, not a particular order.
- FiniteStateMachines.FiniteStateMachine.Validate: the source stops at the first check that raises. The model runs all three checks and then returns the common `TypeError`. The checks have no effect, so the result is the same.
- FiniteStateMachines.FiniteStateMachine.CheckUnreachable: the source picks an arbitrary element from `to_visit` (`pop`). The model's `:|` choice has the same freedom, and the contract holds for every order.
- TransitionTables.TransitionTable.AllInputs: the set holds the representative of each `==`-class (`True` becomes `1`). A Python set keeps the first-inserted member instead. The order of insertion across states is not recoverable from the `map` table, so the model does not say which member is kept.
- FiniteStateMachines.FiniteStateMachine.CheckMissing: a missing-transition diagnostic names the representative of the matcher (`input=1` where Python prints `input=True` for a table whose only such matcher is `True`), for the same reason.
- FiniteStateMachines.FiniteStateMachine.CheckAmbiguous: an ambiguous-transition diagnostic names the representative of the matcher, for the same reason.
- FiniteStateMachines.FiniteStateMachine.Validate: its missing and ambiguous diagnostics name representatives, as in `CheckMissing` and `CheckAmbiguous`.
- FiniteStateMachines.FiniteStateMachine.CurrentState (`get_current_state`) is a plain field read and has no contract of its own.
