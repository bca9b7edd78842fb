/** The symbol and literal domain: the Python values that flow through the engine
    (strings, integers, booleans and `None`), with Python's `==` and `str()`. */
module Values {

  datatype Value = VStr(s: string) | VInt(i: int) | VBool(b: bool) | VNone

  /** The integer a value stands for under Python's numeric tower: `bool` is a
      subclass of `int`, so `True` is 1 and `False` is 0. */
  function Numeric(v: Value): (r: int)
    requires v.VInt? || v.VBool?
  {
    if v.VInt? then v.i else if v.b then 1 else 0
  }

  /** Python `a == b` on these values: numbers compare by value (so `True == 1`
      and `False == 0`), everything else only with a value of the same kind. */
  predicate PyEq(a: Value, b: Value)
    ensures a == b ==> PyEq(a, b)
    ensures PyEq(a, b) && (a.VStr? || b.VStr? || a.VNone? || b.VNone?) ==> a == b
    ensures a.VBool? && b.VInt? ==> (PyEq(a, b) <==> b.i == (if a.b then 1 else 0))
  {
    if (a.VInt? || a.VBool?) && (b.VInt? || b.VBool?) then Numeric(a) == Numeric(b)
    else a == b
  }

  /** One representative of each `==`-class, the one a hash-based set keeps
      interchangeably: booleans are folded onto their integers. */
  function Canon(v: Value): (r: Value)
    ensures PyEq(v, r) && !r.VBool?
  {
    if v.VBool? then VInt(if v.b then 1 else 0) else v
  }

  lemma PyEqIffCanon(a: Value, b: Value)
    ensures PyEq(a, b) <==> Canon(a) == Canon(b)
  {
  }

  lemma PyEqIsEquivalence(a: Value, b: Value, c: Value)
    ensures PyEq(a, a)
    ensures PyEq(a, b) ==> PyEq(b, a)
    ensures PyEq(a, b) && PyEq(b, c) ==> PyEq(a, c)
  {
    PyEqIffCanon(a, b);
    PyEqIffCanon(b, c);
    PyEqIffCanon(a, c);
  }

  function DigitChar(d: nat): (c: char)
    requires d < 10
    ensures '0' <= c <= '9' && c as int - '0' as int == d
  {
    ('0' as int + d) as char
  }

  /** The number a string of decimal digits spells, read from the left. */
  function DecValue(s: string): nat
    requires forall i | 0 <= i < |s| :: '0' <= s[i] <= '9'
    decreases |s|
  {
    if s == [] then 0 else 10 * DecValue(s[..|s| - 1]) + (s[|s| - 1] as int - '0' as int)
  }

  /** `str(n)` for `n >= 0`: decimal digits, most significant first, no leading zero,
      spelling `n`. */
  function NatToString(n: nat): (r: string)
    ensures |r| >= 1 && (forall i :: 0 <= i < |r| ==> '0' <= r[i] <= '9')
    ensures |r| > 1 ==> r[0] != '0'
    ensures DecValue(r) == n
    decreases n
  {
    if n < 10 then [DigitChar(n)]
    else
      var front := NatToString(n / 10);
      var r := front + [DigitChar(n % 10)];
      assert r[..|r| - 1] == front;
      r
  }

  /** Python `str(v)`: the text a compiled pattern is matched against. */
  function PyStr(v: Value): (r: string)
    ensures v.VStr? ==> r == v.s
    ensures v.VInt? && v.i >= 0 ==>
      && |r| >= 1 && (forall k | 0 <= k < |r| :: '0' <= r[k] <= '9')
      && (|r| > 1 ==> r[0] != '0')
      && DecValue(r) == v.i
    ensures v.VInt? && v.i < 0 ==>
      && |r| >= 2 && r[0] == '-' && r[1] != '0'
      && (forall k | 1 <= k < |r| :: '0' <= r[k] <= '9')
      && DecValue(r[1..]) == -v.i
    ensures v == VBool(true) ==> r == "True"
    ensures v == VBool(false) ==> r == "False"
    ensures v == VNone ==> r == "None"
  {
    match v
    case VStr(s) => s
    case VInt(i) => if i < 0 then "-" + NatToString(-i) else NatToString(i)
    case VBool(b) => if b then "True" else "False"
    case VNone => "None"
  }

  lemma StrOfNumberIsNotItsText()
    ensures PyStr(VInt(1)) == PyStr(VStr("1")) && !PyEq(VInt(1), VStr("1"))
    ensures PyStr(VBool(true)) != PyStr(VInt(1)) && PyEq(VBool(true), VInt(1))
  {
  }
}
