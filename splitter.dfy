/** The strategies that turn an input object into a sequence of symbols (core/splitter.py). */
module Splitters {
  import opened Values
  import opened Errors

  /** The object given to `process`: a string, a list of values, or anything else. */
  datatype Input = Text(s: string) | Items(xs: seq<Value>) | OtherInput

  datatype Splitter =
    | BaseSplitter
    | StringSplitter
    | ListSplitter
    | CommaStringSplitter
    | WhitespaceSplitter
    | WholeStringSplitter

  /** Iterating over a string: one one-character string per character. */
  function Chars(s: string): (r: seq<Value>)
    ensures |r| == |s|
    ensures forall i | 0 <= i < |s| :: r[i] == VStr([s[i]])
  {
    seq(|s|, i requires 0 <= i < |s| => VStr([s[i]]))
  }

  lemma CharsAppend(s: string, t: string)
    ensures Chars(s + t) == Chars(s) + Chars(t)
  {
  }

  function AsSymbols(pieces: seq<string>): (r: seq<Value>)
    ensures |r| == |pieces|
    ensures forall i | 0 <= i < |pieces| :: r[i] == VStr(pieces[i])
  {
    seq(|pieces|, i requires 0 <= i < |pieces| => VStr(pieces[i]))
  }

  // --- str.split(',') -------------------------------------------------------

  /** `s.split(sep)` for a one-character separator. */
  function SplitOn(s: string, sep: char): (r: seq<string>)
    ensures |r| >= 1
    decreases |s|
  {
    if s == [] then [""]
    else
      var rest := SplitOn(s[1..], sep);
      if s[0] == sep then [""] + rest else [[s[0]] + rest[0]] + rest[1..]
  }

  /** `sep.join(pieces)`. */
  function Join(pieces: seq<string>, sep: char): string
    decreases |pieces|
  {
    if pieces == [] then ""
    else if |pieces| == 1 then pieces[0]
    else pieces[0] + [sep] + Join(pieces[1..], sep)
  }

  function Occurrences(s: string, c: char): nat
  {
    if s == [] then 0 else (if s[0] == c then 1 else 0) + Occurrences(s[1..], c)
  }

  /** Joining the pieces with the separator gives the input back. */
  lemma {:induction false} JoinSplitOn(s: string, sep: char)
    ensures Join(SplitOn(s, sep), sep) == s
    decreases |s|
  {
    if s != [] {
      var rest := SplitOn(s[1..], sep);
      JoinSplitOn(s[1..], sep);
      if s[0] == sep {
        assert SplitOn(s, sep) == [""] + rest;
        assert ([""] + rest)[1..] == rest;
      } else {
        var first := [s[0]] + rest[0];
        assert SplitOn(s, sep) == [first] + rest[1..];
        if |rest| == 1 {
          assert rest == [rest[0]];
        } else {
          assert ([first] + rest[1..])[1..] == rest[1..];
          assert Join(rest, sep) == rest[0] + [sep] + Join(rest[1..], sep);
        }
      }
    }
  }

  /** There is one piece more than there are separators, and no piece holds one. */
  lemma {:induction false} SplitOnShape(s: string, sep: char)
    ensures |SplitOn(s, sep)| == Occurrences(s, sep) + 1
    ensures forall p <- SplitOn(s, sep) :: sep !in p
    decreases |s|
  {
    if s != [] {
      var rest := SplitOn(s[1..], sep);
      SplitOnShape(s[1..], sep);
      if s[0] != sep {
        var first := [s[0]] + rest[0];
        assert sep !in first by {
          assert rest[0] in rest;
        }
        forall p <- SplitOn(s, sep) ensures sep !in p {
          if p != first {
            assert p in rest[1..];
            assert forall q <- rest[1..] :: q in rest;
          }
        }
      }
    }
  }

  // --- str.split() ----------------------------------------------------------

  /** The characters Python's argument-less `str.split()` treats as whitespace. */
  predicate IsSpace(c: char)
  {
    || ('\t' <= c <= '\r') || ('\U{1C}' <= c <= '\U{1F}') || c == ' '
    || c == '\U{85}' || c == '\U{A0}' || c == '\U{1680}'
    || ('\U{2000}' <= c <= '\U{200A}') || c == '\U{2028}' || c == '\U{2029}'
    || c == '\U{202F}' || c == '\U{205F}' || c == '\U{3000}'
  }

  /** The length of the run of non-whitespace characters that starts `s`. */
  function WordLength(s: string): (k: nat)
    ensures k <= |s|
    ensures forall i | 0 <= i < k :: !IsSpace(s[i])
    ensures k < |s| ==> IsSpace(s[k])
  {
    if s == [] || IsSpace(s[0]) then 0 else 1 + WordLength(s[1..])
  }

  /** A non-empty run of non-whitespace characters. */
  predicate IsWord(w: string)
  {
    |w| > 0 && forall i | 0 <= i < |w| :: !IsSpace(w[i])
  }

  /** `s.split()`: the maximal runs of non-whitespace characters, in order. */
  function Words(s: string): (ws: seq<string>)
    ensures forall w <- ws :: IsWord(w)
    decreases |s|
  {
    if s == [] then []
    else if IsSpace(s[0]) then Words(s[1..])
    else
      var k := WordLength(s);
      [s[..k]] + Words(s[k..])
  }

  function Concat(pieces: seq<string>): string
  {
    if pieces == [] then "" else pieces[0] + Concat(pieces[1..])
  }

  /** The input without its whitespace. */
  function WithoutSpaces(s: string): string
  {
    if s == [] then "" else (if IsSpace(s[0]) then "" else [s[0]]) + WithoutSpaces(s[1..])
  }

  lemma {:induction false} WithoutSpacesAppend(a: string, b: string)
    ensures WithoutSpaces(a + b) == WithoutSpaces(a) + WithoutSpaces(b)
    decreases |a|
  {
    if a != [] {
      WithoutSpacesAppend(a[1..], b);
      assert (a + b)[0] == a[0] && (a + b)[1..] == a[1..] + b;
      var x := if IsSpace(a[0]) then "" else [a[0]];
      assert WithoutSpaces(a + b) == x + WithoutSpaces(a[1..] + b);
      assert x + (WithoutSpaces(a[1..]) + WithoutSpaces(b)) == (x + WithoutSpaces(a[1..])) + WithoutSpaces(b);
    } else {
      assert a + b == b;
    }
  }

  lemma {:induction false} WithoutSpacesOfWord(w: string)
    requires forall i | 0 <= i < |w| :: !IsSpace(w[i])
    ensures WithoutSpaces(w) == w
  {
    if w != [] {
      WithoutSpacesOfWord(w[1..]);
    }
  }

  /** Together the pieces are the input's non-whitespace characters in their original
      order (each piece being non-empty and free of whitespace by `Words`' contract); in
      particular an empty or all-whitespace input gives no piece. */
  lemma WordsShape(s: string)
    ensures Concat(Words(s)) == WithoutSpaces(s)
    ensures Words(s) == [] <==> forall i | 0 <= i < |s| :: IsSpace(s[i])
  {
    WordsConcat(s);
    WordsBlank(s);
  }

  lemma {:induction false} WordsConcat(s: string)
    ensures Concat(Words(s)) == WithoutSpaces(s)
    decreases |s|
  {
    if s != [] {
      if IsSpace(s[0]) {
        WordsConcat(s[1..]);
      } else {
        var k := WordLength(s);
        var w, rest := s[..k], Words(s[k..]);
        assert Words(s) == [w] + rest;
        WordsConcat(s[k..]);
        assert s == w + s[k..];
        WithoutSpacesAppend(w, s[k..]);
        WithoutSpacesOfWord(w);
        assert ([w] + rest)[0] == w && ([w] + rest)[1..] == rest;
        assert Concat([w] + rest) == w + Concat(rest);
      }
    }
  }

  lemma {:induction false} WordsBlank(s: string)
    ensures Words(s) == [] <==> forall i | 0 <= i < |s| :: IsSpace(s[i])
    decreases |s|
  {
    if s != [] && IsSpace(s[0]) {
      WordsBlank(s[1..]);
      assert forall i | 1 <= i < |s| :: s[i] == s[1..][i - 1];
    }
  }

  /** A whitespace-free non-empty input is one piece. */
  lemma WordsOfWord(s: string)
    requires IsWord(s)
    ensures Words(s) == [s]
  {
    var k := WordLength(s);
    assert k == |s|;
    assert s[..k] == s && s[k..] == [];
  }

  /** A whitespace character separates pieces: the runs never reach across it, so the
      pieces are maximal. */
  lemma {:induction false} WordsAtSpace(a: string, c: char, b: string)
    requires IsSpace(c)
    ensures Words(a + [c] + b) == Words(a) + Words(b)
    decreases |a|
  {
    var x := a + [c] + b;
    if a == [] {
      assert x[1..] == b;
    } else if IsSpace(a[0]) {
      WordsAtSpace(a[1..], c, b);
      assert x[1..] == a[1..] + [c] + b;
    } else {
      var k, ka := WordLength(x), WordLength(a);
      assert x[|a|] == c;
      assert forall i | 0 <= i < |a| :: x[i] == a[i];
      assert k == ka;
      assert x[..k] == a[..ka];
      assert x[k..] == a[ka..] + [c] + b;
      WordsAtSpace(a[ka..], c, b);
      assert Words(a) == [a[..ka]] + Words(a[ka..]);
    }
  }

  // --- the strategies -------------------------------------------------------

  /** `splitter.split(input_data)`. */
  function Split(sp: Splitter, input: Input): (r: Result<seq<Value>>)
    ensures sp != BaseSplitter && sp != ListSplitter && !input.Text? ==> r == Err(InputMustBeString)
    ensures sp == ListSplitter ==> r == (if input.Items? then Ok(input.xs) else Err(InputMustBeList))
    ensures sp == BaseSplitter ==> r == Err(SplitNotImplemented)
  {
    match sp
    case BaseSplitter => Err(SplitNotImplemented)
    case ListSplitter => if input.Items? then Ok(input.xs) else Err(InputMustBeList)
    case StringSplitter => if input.Text? then Ok(Chars(input.s)) else Err(InputMustBeString)
    case CommaStringSplitter =>
      if input.Text? then Ok(AsSymbols(SplitOn(input.s, ','))) else Err(InputMustBeString)
    case WhitespaceSplitter => if input.Text? then Ok(AsSymbols(Words(input.s))) else Err(InputMustBeString)
    case WholeStringSplitter => if input.Text? then Ok([VStr(input.s)]) else Err(InputMustBeString)
  }

  /** The string strategies on a string: characters in order (none for `""`), the single
      whole string (so `""` is one symbol), the comma pieces, the whitespace-separated words. */
  lemma SplitStrings(s: string)
    ensures Split(StringSplitter, Text(s)) == Ok(Chars(s))
    ensures Split(StringSplitter, Text("")) == Ok([])
    ensures Split(WholeStringSplitter, Text(s)) == Ok([VStr(s)])
    ensures Split(CommaStringSplitter, Text(s)) == Ok(AsSymbols(SplitOn(s, ',')))
    ensures Split(WhitespaceSplitter, Text(s)) == Ok(AsSymbols(Words(s)))
  {
  }
}
