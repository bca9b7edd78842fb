/** Input matchers and transition rules (core/transition_rule.py). */
module TransitionRules {
  import opened States
  import opened Values
  import opened Errors

  /** A compiled regular expression, identified (and compared) by its source and flags. */
  datatype Pattern = Pattern(source: string, flags: int)

  /** The regular-expression engine, which is not part of this model: `rx(p, text)` says
      whether `p.match(text)` finds a match at the start of `text` (is not `None`). Nothing
      is assumed about it, so anchors, lookaround and empty matches are all its business. */
  type RegexEngine = (Pattern, string) -> bool

  /** The object handed to `TransitionRule` as its input matcher: a literal, a compiled
      pattern, a Python list of matchers, or any other object (`Other`), which is refused. */
  datatype Matcher =
    | Lit(v: Value)
    | Pat(p: Pattern)
    | AnyOf(items: seq<Matcher>)
    | Other(kind: string)

  /** `isinstance(m, (str, int, bool, re.Pattern))`. */
  predicate Leaf(m: Matcher)
  {
    (m.Lit? && !m.v.VNone?) || m.Pat?
  }

  /** The constructor's check: a leaf, or a list all of whose elements are leaves. */
  predicate Supported(m: Matcher)
  {
    Leaf(m) || (m.AnyOf? && forall x <- m.items :: Leaf(x))
  }

  datatype Rule = Rule(from: State, matcher: Matcher, to: State)

  /** A rule that `TransitionRule.__init__` accepted. */
  type TransitionRule = r: Rule | Supported(r.matcher) witness Rule(State(""), Lit(VStr("")), State(""))

  /** `TransitionRule(from_state, input_matcher, to_state)`. */
  function NewRule(from: State, m: Matcher, to: State): (r: Result<TransitionRule>)
    ensures r.Ok? <==> Supported(m)
    ensures r.Ok? ==> r.value.from == from && r.value.matcher == m && r.value.to == to
    ensures r.Err? ==> r.error == UnsupportedMatcher
  {
    if Supported(m) then Ok(Rule(from, m, to)) else Err(UnsupportedMatcher)
  }

  /** `matches` as the code dispatches it, on any matcher object: a list builds a
      rule per element (which re-validates it) and tries them in order with `any`,
      a pattern is matched against `str(symbol)`, a literal compares with `==`, and
      anything else raises. */
  function Match(m: Matcher, symbol: Value, rx: RegexEngine): (r: Result<bool>)
    ensures r.Err? ==> r.error == UnsupportedMatcher
    ensures Supported(m) ==> r.Ok?
    ensures !m.AnyOf? ==> (r.Ok? <==> Leaf(m))
    decreases m, 1
  {
    match m
    case AnyOf(items) => AnyMatch(items, symbol, rx)
    case Pat(p) => Ok(rx(p, PyStr(symbol)))
    case Lit(v) => if v.VNone? then Err(UnsupportedMatcher) else Ok(PyEq(v, symbol))
    case Other(_) => Err(UnsupportedMatcher)
  }

  function AnyMatch(items: seq<Matcher>, symbol: Value, rx: RegexEngine): (r: Result<bool>)
    ensures r.Err? ==> r.error == UnsupportedMatcher
    ensures (forall x <- items :: Leaf(x)) ==> r.Ok?
    ensures items == [] ==> r == Ok(false)
    decreases items, 0
  {
    if items == [] then Ok(false)
    else if !Supported(items[0]) then Err(UnsupportedMatcher)
    else match Match(items[0], symbol, rx)
      case Err(e) => Err(e)
      case Ok(hit) => if hit then Ok(true) else AnyMatch(items[1..], symbol, rx)
  }

  /** What a leaf matcher accepts. */
  predicate LeafMatches(m: Matcher, symbol: Value, rx: RegexEngine)
    requires Leaf(m)
  {
    if m.Pat? then rx(m.p, PyStr(symbol)) else PyEq(m.v, symbol)
  }

  /** What an accepted matcher accepts: a leaf by itself, a list when some element does. */
  predicate Matches(m: Matcher, symbol: Value, rx: RegexEngine)
    requires Supported(m)
  {
    if m.AnyOf? then exists i | 0 <= i < |m.items| :: LeafMatches(m.items[i], symbol, rx)
    else LeafMatches(m, symbol, rx)
  }

  lemma {:induction false} AnyMatchOfLeaves(items: seq<Matcher>, symbol: Value, rx: RegexEngine)
    requires forall x <- items :: Leaf(x)
    ensures AnyMatch(items, symbol, rx)
         == Ok(exists i | 0 <= i < |items| :: LeafMatches(items[i], symbol, rx))
  {
    if items != [] {
      AnyMatchOfLeaves(items[1..], symbol, rx);
      if !LeafMatches(items[0], symbol, rx) {
        assert (exists i | 0 <= i < |items| :: LeafMatches(items[i], symbol, rx))
           <==> (exists i | 0 <= i < |items[1..]| :: LeafMatches(items[1..][i], symbol, rx)) by {
          forall i | 1 <= i < |items| ensures items[i] == items[1..][i - 1] { }
        }
      }
    }
  }

  /** A rule that was constructed never raises when matched: the final `else` of the
      dispatch is unreachable, and the answer is the one `Matches` describes. */
  lemma MatchNeverRaises(m: Matcher, symbol: Value, rx: RegexEngine)
    requires Supported(m)
    ensures Match(m, symbol, rx) == Ok(Matches(m, symbol, rx))
  {
    if m.AnyOf? {
      AnyMatchOfLeaves(m.items, symbol, rx);
    }
  }

  /** A literal matches exactly the symbols Python calls equal to it. */
  lemma LiteralMatchesIffEqual(v: Value, symbol: Value, rx: RegexEngine)
    requires !v.VNone?
    ensures Matches(Lit(v), symbol, rx) <==> PyEq(v, symbol)
    ensures v.VStr? ==> (Matches(Lit(v), symbol, rx) <==> symbol == v)
    ensures Matches(Lit(VStr("")), symbol, rx) <==> symbol == VStr("")
    ensures Matches(Lit(VBool(true)), VInt(1), rx) && Matches(Lit(VInt(0)), VBool(false), rx)
    ensures !Matches(Lit(VInt(1)), VStr("1"), rx)
  {
  }

  /** A pattern sees only `str(symbol)`: symbols that print alike are matched alike, so the
      integer 1 and the string "1" cannot be told apart by a pattern. */
  lemma PatternSeesOnlyText(p: Pattern, symbol: Value, rx: RegexEngine)
    ensures Matches(Pat(p), symbol, rx) == rx(p, PyStr(symbol))
    ensures Matches(Pat(p), VInt(1), rx) == Matches(Pat(p), VStr("1"), rx)
    ensures Matches(Pat(p), VBool(true), rx) == Matches(Pat(p), VStr("True"), rx)
  {
  }

  /** The model leaves room for an anchored pattern such as `^$`, which accepts the empty
      string and nothing else: an engine that does so makes `Pat(p)` match `""` but not `"x"`. */
  lemma AnchoredPatternPossible(p: Pattern)
    ensures var rx: RegexEngine := (q: Pattern, text: string) => text == [];
      Matches(Pat(p), VStr(""), rx) && !Matches(Pat(p), VStr("x"), rx)
  {
  }

  /** A list matches when some element matches; the empty list matches nothing. */
  lemma ListMatchesIffSomeElement(items: seq<Matcher>, symbol: Value, rx: RegexEngine)
    requires forall x <- items :: Leaf(x)
    ensures Matches(AnyOf(items), symbol, rx)
        <==> exists x <- items :: Matches(x, symbol, rx)
    ensures !Matches(AnyOf([]), symbol, rx)
  {
    if Matches(AnyOf(items), symbol, rx) {
      var i :| 0 <= i < |items| && LeafMatches(items[i], symbol, rx);
      assert items[i] in items;
      assert Matches(items[i], symbol, rx);
    }
  }

  /** A nested list is refused at construction, as is `None` inside a list. */
  lemma NestedListRefused(x: Matcher)
    ensures !Supported(AnyOf([x, AnyOf([])]))
    ensures !Supported(AnyOf([Lit(VStr("x")), Lit(VNone)]))
    ensures Supported(AnyOf([Lit(VStr("x")), Lit(VStr("y")), Lit(VInt(1))]))
  {
    assert AnyOf([]) in AnyOf([x, AnyOf([])]).items;
    assert Lit(VNone) in AnyOf([Lit(VStr("x")), Lit(VNone)]).items;
  }

  /** Python `a == b` on matcher objects, as `has`, `count` and `get` use it: literals
      by Python equality, patterns by source and flags, lists element by element, and
      never across kinds. */
  predicate MatcherEq(a: Matcher, b: Matcher)
    decreases a
  {
    match a
    case Lit(x) => b.Lit? && PyEq(x, b.v)
    case Pat(p) => b.Pat? && p == b.p
    case AnyOf(xs) => b.AnyOf? && |xs| == |b.items|
                      && forall i | 0 <= i < |xs| :: MatcherEq(xs[i], b.items[i])
    case Other(k) => b.Other? && k == b.kind
  }

  /** The representative of a matcher's `==`-class. */
  function CanonMatcher(m: Matcher): Matcher
    decreases m
  {
    match m
    case Lit(v) => Lit(Canon(v))
    case AnyOf(xs) => AnyOf(seq(|xs|, i requires 0 <= i < |xs| => CanonMatcher(xs[i])))
    case _ => m
  }

  /** Matcher equality is exactly equality of representatives, so it is an
      equivalence and a set of representatives deduplicates as a Python set does. */
  lemma {:induction false} MatcherEqIffCanon(a: Matcher, b: Matcher)
    ensures MatcherEq(a, b) <==> CanonMatcher(a) == CanonMatcher(b)
    decreases a
  {
    match a
    case Lit(x) => if b.Lit? { PyEqIffCanon(x, b.v); }
    case Pat(_) =>
    case Other(_) =>
    case AnyOf(xs) =>
      if b.AnyOf? && |xs| == |b.items| {
        var ca, cb := CanonMatcher(a), CanonMatcher(b);
        forall i | 0 <= i < |xs|
          ensures MatcherEq(xs[i], b.items[i]) <==> ca.items[i] == cb.items[i]
        {
          MatcherEqIffCanon(xs[i], b.items[i]);
        }
        if ca == cb {
          assert forall i | 0 <= i < |xs| :: ca.items[i] == cb.items[i];
        } else {
          assert |ca.items| == |cb.items|;
        }
      } else if b.AnyOf? {
        assert |CanonMatcher(a).items| != |CanonMatcher(b).items|;
      }
  }

  lemma {:induction false} CanonIdempotent(m: Matcher)
    ensures CanonMatcher(CanonMatcher(m)) == CanonMatcher(m)
    decreases m
  {
    if m.AnyOf? {
      forall i | 0 <= i < |m.items| ensures CanonMatcher(CanonMatcher(m.items[i])) == CanonMatcher(m.items[i]) {
        CanonIdempotent(m.items[i]);
      }
    }
  }

  /** Replacing a matcher by its representative changes no comparison. */
  lemma CanonPreservesEq(x: Matcher, m: Matcher)
    ensures MatcherEq(x, CanonMatcher(m)) <==> MatcherEq(x, m)
  {
    MatcherEqIffCanon(x, m);
    MatcherEqIffCanon(x, CanonMatcher(m));
    CanonIdempotent(m);
  }
}
