/**
 * The blacklist of secret-like values that are not secrets: a list of
 * regular expressions, each anchored at both ends and compiled
 * case-insensitively, built from a predefined list followed by the
 * non-empty lines of an optional file. Whether a compiled pattern matches
 * a value is decided by the regular-expression engine, which the model
 * takes as a parameter.
 */
module Blacklists {
  import opened Common

  /** A compiled regular expression: its source and whether it ignores case. */
  datatype Pattern = Pattern(regex: string, ignoreCase: bool)

  /** `re.match`: whether a compiled pattern matches at the start of a value. */
  type Engine = (Pattern, string) -> bool

  /** The whole-value, case-insensitive pattern for the regular expression `s`. */
  function Anchored(s: string): (p: Pattern)
    ensures p.ignoreCase && p.regex == "^" + s + "$"
  {
    Pattern("^" + s + "$", true)
  }

  /** The patterns compiled from `sources`, in order. */
  function Compile(sources: seq<string>): (ps: seq<Pattern>)
    ensures |ps| == |sources|
    ensures forall i :: 0 <= i < |ps| ==> ps[i] == Anchored(sources[i])
  {
    seq(|sources|, i requires 0 <= i < |sources| => Anchored(sources[i]))
  }

  /** The entries a blacklist file contributes: its lines stripped, empty ones dropped, in file order. */
  function FileEntries(lines: seq<string>): (es: seq<string>)
    ensures |es| <= |lines|
    ensures forall i :: 0 <= i < |es| ==> es[i] != []
    decreases |lines|
  {
    if lines == [] then []
    else
      var rest := FileEntries(lines[..|lines| - 1]);
      var e := Strip(lines[|lines| - 1]);
      if e == [] then rest else rest + [e]
  }

  /** Exactly the non-empty stripped lines are entries. */
  lemma {:induction false} FileEntriesMembers(lines: seq<string>, e: string)
    ensures e in FileEntries(lines) <==> e != [] && exists l :: l in lines && Strip(l) == e
    decreases |lines|
  {
    if lines != [] {
      var init := lines[..|lines| - 1];
      var last := lines[|lines| - 1];
      FileEntriesMembers(init, e);
      assert FileEntries(lines) == FileEntries(init) + (if Strip(last) == [] then [] else [Strip(last)]);
      assert forall l :: l in lines <==> l in init || l == last by {
        assert lines == init + [last];
      }
    }
  }

  lemma FileEntriesStep(sources: seq<string>, lines: seq<string>, i: nat)
    requires i < |lines|
    ensures Strip(lines[i]) == [] ==> sources + FileEntries(lines[..i + 1]) == sources + FileEntries(lines[..i])
    ensures Strip(lines[i]) != [] ==>
      sources + FileEntries(lines[..i + 1]) == (sources + FileEntries(lines[..i])) + [Strip(lines[i])]
  {
    assert lines[..i + 1][..i] == lines[..i];
    assert lines[..i + 1][i] == lines[i];
  }

  /**
   * The regular expressions a blacklist is built from: the predefined ones,
   * then the entries of the file when there is one (None stands for no file
   * name or a file that does not exist).
   */
  function Sources(predefined: seq<string>, file: Option<seq<string>>): (ss: seq<string>)
    ensures |predefined| <= |ss| && ss[..|predefined|] == predefined
    ensures file.None? ==> ss == predefined
    ensures file.Some? ==> ss[|predefined|..] == FileEntries(file.value)
  {
    predefined + if file.Some? then FileEntries(file.value) else []
  }

  /** `regex_strings.extend(...)`: appends the stripped, non-empty lines of a file, in order. */
  method ExtendWithFile(sources: seq<string>, lines: seq<string>) returns (extended: seq<string>)
    ensures extended == sources + FileEntries(lines)
  {
    extended := sources;
    var i := 0;
    while i < |lines|
      invariant 0 <= i <= |lines|
      invariant extended == sources + FileEntries(lines[..i])
    {
      var line := Strip(lines[i]);
      FileEntriesStep(sources, lines, i);
      if line != [] {
        extended := extended + [line];
      }
      i := i + 1;
    }
    assert lines[..i] == lines;
  }

  /** Whether some pattern of `ps` matches `v`. */
  predicate AnyMatches(ps: seq<Pattern>, engine: Engine, v: string)
  {
    exists i :: 0 <= i < |ps| && engine(ps[i], v)
  }

  class Blacklist {
    const regexes: seq<Pattern>

    /** Builds the pattern list: the predefined sources, then the file's entries, each compiled anchored and case-insensitive. */
    constructor (predefined: seq<string>, file: Option<seq<string>>)
      ensures regexes == Compile(Sources(predefined, file))
    {
      var sources := predefined;
      if file.Some? {
        sources := ExtendWithFile(sources, file.value);
      }
      regexes := Compile(sources);
    }

    /**
     * Whether some pattern matches `v`. Compiled patterns are always truthy,
     * so `any` over the matching ones is true exactly when one matches.
     */
    predicate Matches(engine: Engine, v: string)
    {
      AnyMatches(regexes, engine, v)
    }
  }

  /** A value is blacklisted exactly when it matches, as a whole and ignoring case, one of the sources. */
  lemma BlacklistMatches(b: Blacklist, predefined: seq<string>, file: Option<seq<string>>, engine: Engine, v: string)
    requires b.regexes == Compile(Sources(predefined, file))
    ensures b.Matches(engine, v) <==> exists s :: s in Sources(predefined, file) && engine(Anchored(s), v)
  {
    var ss := Sources(predefined, file);
    var ps := Compile(ss);
    if AnyMatches(ps, engine, v) {
      var i :| 0 <= i < |ps| && engine(ps[i], v);
      assert ps[i] == Anchored(ss[i]);
      assert ss[i] in ss;
    }
    if exists s :: s in ss && engine(Anchored(s), v) {
      var s :| s in ss && engine(Anchored(s), v);
      var i := IndexOf(ss, s);
      assert ps[i] == Anchored(s);
      assert AnyMatches(ps, engine, v);
    }
  }
}
