/** Values and Python built-ins shared by every part of the crawler model. */
module Common {

  datatype Option<+T> = None | Some(value: T)

  // ---------------------------------------------------------------------
  // Sequences
  // ---------------------------------------------------------------------

  /** No element occurs twice. */
  ghost predicate NoDup<T>(s: seq<T>)
  {
    forall i, j :: 0 <= i < j < |s| ==> s[i] != s[j]
  }

  /** Two duplicate-free sequences with no common element concatenate to one. */
  lemma NoDupAppend<T>(a: seq<T>, b: seq<T>)
    requires NoDup(a) && NoDup(b)
    requires forall x :: x in b ==> x !in a
    ensures NoDup(a + b)
  {
    forall i, j | 0 <= i < j < |a + b|
      ensures (a + b)[i] != (a + b)[j]
    {
      if i < |a| && j >= |a| {
        assert (a + b)[j] == b[j - |a|] && b[j - |a|] in b;
      }
    }
  }

  /** The position of the first occurrence of `x` in `s`. */
  function IndexOf<T(==)>(s: seq<T>, x: T): (k: nat)
    requires x in s
    ensures k < |s| && s[k] == x
    ensures forall j :: 0 <= j < k ==> s[j] != x
  {
    if s[0] == x then 0 else 1 + IndexOf(s[1..], x)
  }

  /** The elements of `s` that `keep` accepts, in order. */
  function Filter<T(!new)>(s: seq<T>, keep: T -> bool): (r: seq<T>)
    ensures |r| <= |s|
    ensures forall x :: x in r <==> x in s && keep(x)
    decreases |s|
  {
    if s == [] then []
    else
      var last := s[|s| - 1];
      assert s == s[..|s| - 1] + [last];
      if keep(last) then Filter(s[..|s| - 1], keep) + [last] else Filter(s[..|s| - 1], keep)
  }

  /**
   * The accepted elements of `s`, each kept at its first occurrence only:
   * what a loop that adds every accepted, not-yet-seen element to a set
   * and emits it produces.
   */
  function Distinct<T(==,!new)>(s: seq<T>, keep: T -> bool): (r: seq<T>)
    ensures NoDup(r)
    ensures forall x :: x in r <==> x in s && keep(x)
    decreases |s|
  {
    if s == [] then []
    else
      var last := s[|s| - 1];
      var prev := Distinct(s[..|s| - 1], keep);
      assert s == s[..|s| - 1] + [last];
      if keep(last) && last !in prev then prev + [last] else prev
  }

  /** Consuming one more element: it is emitted exactly when it is kept and new. */
  lemma DistinctSnoc<T(!new)>(s: seq<T>, x: T, keep: T -> bool)
    ensures Distinct(s + [x], keep) ==
      if keep(x) && x !in Distinct(s, keep) then Distinct(s, keep) + [x] else Distinct(s, keep)
  {
    assert (s + [x])[..|s|] == s;
  }

  /** The contents of a Python set filled from `s`, in order of first insertion. */
  function Dedup<T(==,!new)>(s: seq<T>): (r: seq<T>)
    ensures NoDup(r)
    ensures forall x :: x in r <==> x in s
  {
    Distinct(s, _ => true)
  }

  /** Adding one more element to a Python set filled from `s`. */
  lemma DedupSnoc<T(!new)>(s: seq<T>, x: T)
    ensures Dedup(s + [x]) == if x in Dedup(s) then Dedup(s) else Dedup(s) + [x]
  {
    DistinctSnoc(s, x, _ => true);
  }

  lemma {:induction false} IndexOfPrefix<T>(s: seq<T>, n: nat, x: T)
    requires n <= |s| && x in s[..n]
    ensures x in s && IndexOf(s, x) == IndexOf(s[..n], x)
  {
    if s[0] != x {
      assert s[..n][1..] == s[1..][..n - 1];
      IndexOfPrefix(s[1..], n - 1, x);
    }
  }

  /**
   * Distinct keeps first occurrences in stream order: an element emitted
   * earlier first occurs earlier in the input.
   */
  lemma {:induction false} DistinctOrder<T(!new)>(s: seq<T>, keep: T -> bool)
    ensures forall i, j :: 0 <= i < j < |Distinct(s, keep)| ==>
      IndexOf(s, Distinct(s, keep)[i]) < IndexOf(s, Distinct(s, keep)[j])
  {
    if s != [] {
      var init := s[..|s| - 1];
      var last := s[|s| - 1];
      var prev := Distinct(init, keep);
      var r := Distinct(s, keep);
      DistinctOrder(init, keep);
      assert s == init + [last];
      forall i, j | 0 <= i < j < |r|
        ensures IndexOf(s, r[i]) < IndexOf(s, r[j])
      {
        assert s[..|s| - 1] == init;
        IndexOfPrefix(s, |s| - 1, r[i]);
        if j < |prev| {
          IndexOfPrefix(s, |s| - 1, r[j]);
        } else {
          assert r[j] == last && last !in init;
        }
      }
    }
  }

  /**
   * Distinct never revises what it has emitted: the output for a prefix of
   * the stream is a prefix of the output for the whole stream.
   */
  lemma {:induction false} DistinctPrefix<T(!new)>(a: seq<T>, b: seq<T>, keep: T -> bool)
    ensures |Distinct(a, keep)| <= |Distinct(a + b, keep)|
    ensures Distinct(a + b, keep)[..|Distinct(a, keep)|] == Distinct(a, keep)
    decreases |b|
  {
    if b == [] {
      assert a + b == a;
    } else {
      var init := b[..|b| - 1];
      assert (a + b)[..|a + b| - 1] == a + init;
      DistinctPrefix(a, init, keep);
    }
  }

  /** The concatenation of the members of `xss`, in order. */
  function Flatten<T(!new)>(xss: seq<seq<T>>): (r: seq<T>)
    ensures forall x :: x in r <==> exists i :: 0 <= i < |xss| && x in xss[i]
    decreases |xss|
  {
    if xss == [] then []
    else
      var init := xss[..|xss| - 1];
      assert forall i :: 0 <= i < |init| ==> init[i] == xss[i];
      Flatten(init) + xss[|xss| - 1]
  }

  /** Concatenation is associative (stated once, out of the way of larger proofs). */
  lemma AppendAssoc<T>(a: seq<T>, b: seq<T>, c: seq<T>)
    ensures (a + b) + c == a + (b + c)
  {
  }

  /** The images of `xs` under `f`, concatenated in order. */
  function FlatMap<T, U>(f: T -> seq<U>, xs: seq<T>): seq<U>
    decreases |xs|
  {
    if xs == [] then [] else FlatMap(f, xs[..|xs| - 1]) + f(xs[|xs| - 1])
  }

  /** One more element contributes its image at the end. */
  lemma FlatMapSnoc<T, U>(f: T -> seq<U>, xs: seq<T>, i: nat)
    requires i < |xs|
    ensures FlatMap(f, xs[..i + 1]) == FlatMap(f, xs[..i]) + f(xs[i])
  {
    assert xs[..i + 1][..i] == xs[..i];
  }

  /** Mapping a prefix and the rest separately gives the same sequence. */
  lemma {:induction false} FlatMapSplit<T, U>(f: T -> seq<U>, xs: seq<T>, n: nat)
    requires n <= |xs|
    ensures FlatMap(f, xs) == FlatMap(f, xs[..n]) + FlatMap(f, xs[n..])
    decreases |xs| - n
  {
    if n < |xs| {
      var init, rest := xs[..|xs| - 1], xs[n..];
      assert rest[..|rest| - 1] == init[n..] && rest[|rest| - 1] == xs[|xs| - 1];
      FlatMapSplit(f, init, n);
      assert init[..n] == xs[..n];
    } else {
      assert xs[..n] == xs && xs[n..] == [];
    }
  }

  /** Everything in the image of an element is in the result. */
  lemma {:induction false} FlatMapHas<T, U>(f: T -> seq<U>, xs: seq<T>, i: nat, y: U)
    requires i < |xs| && y in f(xs[i])
    ensures y in FlatMap(f, xs)
    decreases |xs|
  {
    if i < |xs| - 1 {
      FlatMapHas(f, xs[..|xs| - 1], i, y);
    }
  }

  /** Everything in the result comes from the image of some element. */
  lemma {:induction false} FlatMapMembers<T, U>(f: T -> seq<U>, xs: seq<T>, y: U)
    requires y in FlatMap(f, xs)
    ensures exists i :: 0 <= i < |xs| && y in f(xs[i])
    decreases |xs|
  {
    var init := xs[..|xs| - 1];
    if y in FlatMap(f, init) {
      FlatMapMembers(f, init, y);
      var i :| 0 <= i < |init| && y in f(init[i]);
      assert xs[i] == init[i];
    } else {
      assert y in f(xs[|xs| - 1]);
    }
  }

  // ---------------------------------------------------------------------
  // Python string built-ins
  // ---------------------------------------------------------------------

  /** Python's `str.isspace()` on one character: what `strip()` removes and `\s` matches. */
  predicate IsSpace(c: char)
  {
    c in SpaceChars
  }

  const SpaceChars: set<char> := {
    ' ', '\t', '\n', '\r', '\U{0B}', '\U{0C}', '\U{1C}', '\U{1D}', '\U{1E}', '\U{1F}',
    '\U{85}', '\U{A0}', '\U{1680}',
    '\U{2000}', '\U{2001}', '\U{2002}', '\U{2003}', '\U{2004}', '\U{2005}', '\U{2006}',
    '\U{2007}', '\U{2008}', '\U{2009}', '\U{200A}',
    '\U{2028}', '\U{2029}', '\U{202F}', '\U{205F}', '\U{3000}'}

  /** The line boundaries of Python's `str.splitlines()` (`\r\n` counts as one). */
  predicate IsLineBreak(c: char)
  {
    c in LineBreakChars
  }

  const LineBreakChars: set<char> := {
    '\n', '\r', '\U{0B}', '\U{0C}', '\U{1C}', '\U{1D}', '\U{1E}', '\U{85}', '\U{2028}', '\U{2029}'}

  /** The index of the first non-whitespace character of `s` at or after `i`, or `|s|`. */
  function SkipSpaces(s: string, i: nat): (k: nat)
    requires i <= |s|
    ensures i <= k <= |s|
    ensures forall j :: i <= j < k ==> IsSpace(s[j])
    ensures k < |s| ==> !IsSpace(s[k])
    decreases |s| - i
  {
    if i < |s| && IsSpace(s[i]) then SkipSpaces(s, i + 1) else i
  }

  /** The end of `s[lo..hi]` once its trailing whitespace is dropped. */
  function BackSpaces(s: string, lo: nat, hi: nat): (k: nat)
    requires lo <= hi <= |s|
    ensures lo <= k <= hi
    ensures forall j :: k <= j < hi ==> IsSpace(s[j])
    ensures k > lo ==> !IsSpace(s[k - 1])
    decreases hi - lo
  {
    if lo < hi && IsSpace(s[hi - 1]) then BackSpaces(s, lo, hi - 1) else hi
  }

  /** Python's `str.strip()`: `s` without its leading and trailing whitespace. */
  function Strip(s: string): (r: string)
    ensures |r| <= |s|
    ensures r != [] ==> !IsSpace(r[0]) && !IsSpace(r[|r| - 1])
  {
    var a := SkipSpaces(s, 0);
    s[a..BackSpaces(s, a, |s|)]
  }

  /**
   * The stripped text is a slice of `s` preceded and followed only by
   * whitespace; with the ends `Strip` guarantees, this pins it down.
   */
  lemma StripSlice(s: string)
    ensures exists a, b ::
              && 0 <= a <= b <= |s| && Strip(s) == s[a..b]
              && (forall i :: 0 <= i < a ==> IsSpace(s[i]))
              && (forall i :: b <= i < |s| ==> IsSpace(s[i]))
  {
    var a := SkipSpaces(s, 0);
    var b := BackSpaces(s, a, |s|);
    assert Strip(s) == s[a..b];
  }

  /** The index of the first line boundary of `s` at or after `i`, or `|s|`. */
  function FirstBreak(s: string, i: nat): (k: nat)
    requires i <= |s|
    ensures i <= k <= |s|
    ensures k < |s| ==> IsLineBreak(s[k])
    ensures forall j :: i <= j < k ==> !IsLineBreak(s[j])
    decreases |s| - i
  {
    if i == |s| || IsLineBreak(s[i]) then i else FirstBreak(s, i + 1)
  }

  /**
   * Python's `str.splitlines()`: the pieces between line boundaries, with no
   * empty piece after a final boundary; `\r\n` separates once.
   */
  function SplitLines(s: string): (lines: seq<string>)
    ensures s == [] <==> lines == []
    decreases |s|
  {
    if s == [] then []
    else
      var k := FirstBreak(s, 0);
      if k == |s| then [s]
      else
        var next := if s[k] == '\r' && k + 1 < |s| && s[k + 1] == '\n' then k + 2 else k + 1;
        [s[..k]] + SplitLines(s[next..])
  }

  /** No line holds a line boundary. */
  lemma {:induction false} SplitLinesNoBreaks(s: string)
    ensures forall i, j :: 0 <= i < |SplitLines(s)| && 0 <= j < |SplitLines(s)[i]| ==> !IsLineBreak(SplitLines(s)[i][j])
    decreases |s|
  {
    if s != [] {
      var k := FirstBreak(s, 0);
      if k < |s| {
        var next := if s[k] == '\r' && k + 1 < |s| && s[k + 1] == '\n' then k + 2 else k + 1;
        var rest := SplitLines(s[next..]);
        SplitLinesNoBreaks(s[next..]);
        assert SplitLines(s) == [s[..k]] + rest;
        forall i, j | 0 <= i < |SplitLines(s)| && 0 <= j < |SplitLines(s)[i]|
          ensures !IsLineBreak(SplitLines(s)[i][j])
        {
          if i > 0 {
            assert SplitLines(s)[i] == rest[i - 1];
          }
        }
      }
    }
  }

  /** Python's `sep.join(xs)`. */
  function Join(xs: seq<string>, sep: string): string
  {
    if xs == [] then "" else if |xs| == 1 then xs[0] else xs[0] + sep + Join(xs[1..], sep)
  }

  /** Every line boundary in `s` is a `\n`. */
  predicate NewlineBreaksOnly(s: string)
  {
    forall i :: 0 <= i < |s| && IsLineBreak(s[i]) ==> s[i] == '\n'
  }

  /**
   * Joining the lines of a text that breaks lines with `\n` only, and does
   * not end with a break, gives the text back.
   */
  lemma {:induction false} SplitLinesJoin(s: string)
    requires NewlineBreaksOnly(s)
    requires s == [] || s[|s| - 1] != '\n'
    ensures Join(SplitLines(s), "\n") == s
  {
    if s != [] {
      var k := FirstBreak(s, 0);
      if k < |s| {
        var rest := s[k + 1..];
        SplitLinesAtNewline(s, k);
        SplitLinesJoin(rest);
        JoinCons(s[..k], SplitLines(rest), "\n");
      }
    }
  }

  lemma SplitLinesAtNewline(s: string, k: nat)
    requires s != [] && k == FirstBreak(s, 0) && k < |s| && s[|s| - 1] != '\n'
    requires NewlineBreaksOnly(s)
    ensures SplitLines(s) == [s[..k]] + SplitLines(s[k + 1..])
    ensures s == s[..k] + "\n" + s[k + 1..]
    ensures s[k + 1..] != [] && s[k + 1..][|s[k + 1..]| - 1] == s[|s| - 1]
    ensures NewlineBreaksOnly(s[k + 1..])
  {
    assert s[k] == '\n';
    SplitLinesUnfold(s, k);
    SplitAround(s, k);
    NewlineBreaksOnlyTail(s, k + 1);
  }

  lemma SplitLinesUnfold(s: string, k: nat)
    requires s != [] && k == FirstBreak(s, 0) && k < |s| && s[k] == '\n'
    ensures SplitLines(s) == [s[..k]] + SplitLines(s[k + 1..])
  {
    assert s[k] != '\r';
  }

  lemma SplitAround(s: string, k: nat)
    requires k < |s|
    ensures s == s[..k] + [s[k]] + s[k + 1..]
  {
  }

  lemma NewlineBreaksOnlyTail(s: string, n: nat)
    requires n <= |s| && NewlineBreaksOnly(s)
    ensures NewlineBreaksOnly(s[n..])
  {
    forall i | 0 <= i < |s[n..]| && IsLineBreak(s[n..][i])
      ensures s[n..][i] == '\n'
    {
      assert s[n..][i] == s[n + i];
    }
  }

  lemma JoinCons(x: string, xs: seq<string>, sep: string)
    requires xs != []
    ensures Join([x] + xs, sep) == x + sep + Join(xs, sep)
  {
    assert ([x] + xs)[1..] == xs;
  }

  /** The lines of `content`, each stripped, as both finder generations read them. */
  function StrippedLines(content: string): (lines: seq<string>)
    ensures |lines| == |SplitLines(content)|
    ensures forall i :: 0 <= i < |lines| ==> lines[i] == Strip(SplitLines(content)[i])
  {
    var raw := SplitLines(content);
    seq(|raw|, i requires 0 <= i < |raw| => Strip(raw[i]))
  }

  predicate IsAsciiLetter(c: char) { 'a' <= c <= 'z' || 'A' <= c <= 'Z' }

  predicate IsDigit(c: char) { '0' <= c <= '9' }

  /** ASCII lower-casing of one character. */
  function LowerChar(c: char): char
  {
    if 'A' <= c <= 'Z' then (c as int + 32) as char else c
  }

  /** `str.lower()` restricted to ASCII letters. */
  function Lower(s: string): (r: string)
    ensures |r| == |s| && forall i :: 0 <= i < |s| ==> r[i] == LowerChar(s[i])
  {
    seq(|s|, i requires 0 <= i < |s| => LowerChar(s[i]))
  }

  /** Lower-casing commutes with slicing. */
  lemma LowerSlice(s: string, a: nat, b: nat)
    requires a <= b <= |s|
    ensures Lower(s[a..b]) == Lower(s)[a..b]
  {
    forall k | 0 <= k < b - a
      ensures Lower(s[a..b])[k] == Lower(s)[a..b][k]
    {
      assert s[a..b][k] == s[a + k];
    }
  }

  predicate StartsWith(s: string, prefix: string)
  {
    |prefix| <= |s| && s[..|prefix|] == prefix
  }

  predicate OccursAt(hay: string, needle: string, j: int)
  {
    0 <= j && j + |needle| <= |hay| && hay[j..j + |needle|] == needle
  }

  function FindFrom(hay: string, needle: string, i: nat): (r: int)
    requires i <= |hay| + 1
    ensures r == -1 || (i <= r && OccursAt(hay, needle, r))
    ensures forall j :: i <= j && (r == -1 || j < r) ==> !OccursAt(hay, needle, j)
    decreases |hay| + 1 - i
  {
    if i + |needle| > |hay| then -1
    else if hay[i..i + |needle|] == needle then i
    else FindFrom(hay, needle, i + 1)
  }

  /** Python's `str.find`: the lowest index at which `needle` occurs in `hay`, or -1. */
  function Find(hay: string, needle: string): (r: int)
    ensures r == -1 || OccursAt(hay, needle, r)
    ensures forall j :: 0 <= j && (r == -1 || j < r) ==> !OccursAt(hay, needle, j)
  {
    FindFrom(hay, needle, 0)
  }

  /** Python's `s[start:stop]` on integer bounds, negative ones counting from the end. */
  function PySlice(s: string, start: int, stop: int): (r: string)
    ensures |r| <= |s|
    ensures 0 <= start <= stop <= |s| ==> r == s[start..stop]
    ensures start < 0 && stop < 0 ==> |r| <= -start
  {
    var a := PyIndex(|s|, start);
    var b := PyIndex(|s|, stop);
    if a <= b then s[a..b] else []
  }

  /** Python's normalisation of a slice bound for a sequence of length `n`. */
  function PyIndex(n: nat, i: int): (k: nat)
    ensures k <= n
    ensures 0 <= i <= n ==> k == i
    ensures i < 0 ==> k == if i + n < 0 then 0 else i + n
  {
    if i < 0 then (if i + n < 0 then 0 else i + n) else if i > n then n else i
  }

  /** Python's `str(n)` for an integer. */
  function IntToString(n: int): (r: string)
    ensures r != []
    ensures n < 0 <==> r[0] == '-'
  {
    if n < 0 then "-" + NatToString(-n) else NatToString(n)
  }

  function NatToString(n: nat): (r: string)
    ensures r != [] && forall i :: 0 <= i < |r| ==> IsDigit(r[i])
  {
    if n < 10 then [DigitChar(n)] else NatToString(n / 10) + [DigitChar(n % 10)]
  }

  function DigitChar(d: nat): (c: char)
    requires d < 10
    ensures IsDigit(c)
  {
    ['0', '1', '2', '3', '4', '5', '6', '7', '8', '9'][d]
  }
}
