/**
 * The secret finder: the detectors' candidates for a text, kept when they
 * are at least six characters long, have not been found before in the same
 * text and are not blacklisted. Python sets of found secrets are modelled
 * by the sequence of secrets in the order they were found.
 */
module SecretFilter {
  import opened Common

  /** Values that are never reported, whatever the blacklist file says. */
  const Predefined: seq<string> := ["password", "%password%"]
  const MinLength := 6

  function Elems(xs: seq<string>): set<string>
  {
    set x | x in xs
  }

  lemma SnocSlice(seen: seq<string>, xs: seq<string>, k: nat)
    requires k < |xs|
    ensures seen + xs[..k + 1] == (seen + xs[..k]) + [xs[k]]
  {
    assert xs[..k + 1] == xs[..k] + [xs[k]];
  }

  lemma ElemsSnoc(xs: seq<string>, x: string)
    ensures Elems(xs + [x]) == Elems(xs) + {x}
  {
  }

  /**
   * The body of the innermost loop: each candidate that `keep` accepts and
   * that is not yet in `secrets` is added to it and emitted. `seen` is the
   * part of the candidate stream already consumed.
   */
  method Collect(ghost seen: seq<string>, found: seq<string>, secrets: set<string>, candidates: seq<string>, keep: string -> bool)
    returns (found': seq<string>, secrets': set<string>)
    requires found == Distinct(seen, keep) && secrets == Elems(found)
    ensures found' == Distinct(seen + candidates, keep) && secrets' == Elems(found')
  {
    found', secrets' := found, secrets;
    var k := 0;
    ghost var consumed := seen;
    assert seen + candidates[..0] == seen;
    while k < |candidates|
      invariant 0 <= k <= |candidates| && consumed == seen + candidates[..k]
      invariant found' == Distinct(consumed, keep) && secrets' == Elems(found')
    {
      var s := candidates[k];
      SnocSlice(seen, candidates, k);
      DistinctSnoc(consumed, s, keep);
      assert s in secrets' <==> s in found';
      if keep(s) && s !in secrets' {
        ElemsSnoc(found', s);
        secrets' := secrets' + {s};
        found' := found' + [s];
      }
      consumed := consumed + [s];
      k := k + 1;
    }
    assert candidates[..k] == candidates;
  }
}

/** The finder of the older generation: lines first, then detectors. */
module LineMajorFinder {
  import opened Common
  import opened Blacklists
  import opened SecretFilter
  import PasswordPattern
  import DetectSecretsPlugin

  /** The two detectors. */
  datatype Plugin = PasswordPatternDetector | DetectSecretsDetector

  /** The detectors, in the order they are consulted. */
  const Plugins: seq<Plugin> := [PasswordPatternDetector, DetectSecretsDetector]

  /** What the detectors depend on: the regular-expression engine and the library's rules. */
  datatype Detectors = Detectors(engine: Engine, rules: seq<DetectSecretsPlugin.Rule>)

  /** One detector's candidates for one line. */
  function Run(d: Detectors, p: Plugin, line: string): seq<string>
  {
    match p
    case PasswordPatternDetector => PasswordPattern.Candidates(d.engine, line)
    case DetectSecretsDetector => DetectSecretsPlugin.CandidatesAsWritten(d.rules, line)
  }

  /** `p.find_secrets(line)`. */
  method RunPlugin(d: Detectors, p: Plugin, line: string) returns (candidates: seq<string>)
    ensures candidates == Run(d, p, line)
  {
    match p {
      case PasswordPatternDetector => candidates := PasswordPattern.Candidates(d.engine, line);
      case DetectSecretsDetector => candidates := DetectSecretsPlugin.FindSecrets(d.rules, line);
    }
  }

  /** The loop over the detectors for one line: emits the line's new accepted candidates. */
  method CollectLine(d: Detectors, ghost seen: seq<string>, found: seq<string>, secrets: set<string>, line: string, keep: string -> bool)
    returns (found': seq<string>, secrets': set<string>)
    requires found == Distinct(seen, keep) && secrets == Elems(found)
    ensures found' == Distinct(seen + LineCandidates(d)(line), keep) && secrets' == Elems(found')
  {
    found', secrets' := found, secrets;
    ghost var done: seq<string> := [];
    assert seen + done == seen;
    var j := 0;
    while j < |Plugins|
      invariant 0 <= j <= |Plugins| && done == RunAll(d, Plugins[..j], line)
      invariant found' == Distinct(seen + done, keep) && secrets' == Elems(found')
    {
      var candidates := RunPlugin(d, Plugins[j], line);
      RunAllStep(d, j, line);
      AppendAssoc(seen, done, candidates);
      found', secrets' := Collect(seen + done, found', secrets', candidates, keep);
      done := done + candidates;
      j := j + 1;
    }
    assert Plugins[..j] == Plugins;
  }

  /** The candidates of the detectors `ps` for one line, in detector order. */
  function RunAll(d: Detectors, ps: seq<Plugin>, line: string): seq<string>
    decreases |ps|
  {
    if ps == [] then [] else RunAll(d, ps[..|ps| - 1], line) + Run(d, ps[|ps| - 1], line)
  }

  /** One more detector adds its candidates behind those of the detectors before it. */
  lemma RunAllStep(d: Detectors, j: nat, line: string)
    requires j < |Plugins|
    ensures RunAll(d, Plugins[..j + 1], line) == RunAll(d, Plugins[..j], line) + Run(d, Plugins[j], line)
  {
    assert Plugins[..j + 1][..j] == Plugins[..j];
  }

  /** The candidates of both detectors for one line. */
  function LineCandidates(d: Detectors): string -> seq<string>
  {
    line => RunAll(d, Plugins, line)
  }

  /** Every candidate of a text, line by line and, within a line, detector by detector. */
  function Stream(d: Detectors, lines: seq<string>): seq<string>
  {
    FlatMap(LineCandidates(d), lines)
  }

  /** Within a line the password pattern's candidates come before the library's. */
  lemma LineCandidatesOrder(d: Detectors, line: string)
    ensures LineCandidates(d)(line) == PasswordPattern.Candidates(d.engine, line) + DetectSecretsPlugin.CandidatesAsWritten(d.rules, line)
  {
    assert Plugins[..1] == [PasswordPatternDetector];
    assert RunAll(d, Plugins[..1], line) == Run(d, PasswordPatternDetector, line);
  }

  /** For a line whose rewrite is stable, the line's candidates are those of the rewrite-once detector. */
  lemma LineCandidatesWhenStable(d: Detectors, line: string)
    requires DetectSecretsPlugin.Rewrite(DetectSecretsPlugin.Rewrite(line)) == DetectSecretsPlugin.Rewrite(line)
    ensures LineCandidates(d)(line) == PasswordPattern.Candidates(d.engine, line) + DetectSecretsPlugin.Candidates(d.rules, line)
  {
    LineCandidatesOrder(d, line);
    DetectSecretsPlugin.AsWrittenAgreesWhenStable(d.rules, line);
  }

  class SecretFinder {
    const blacklist: Blacklist
    const detectors: Detectors

    /** A finder whose blacklist is the predefined values followed by the entries of `blacklistFile`. */
    constructor (blacklistFile: Option<seq<string>>, detectors: Detectors)
      ensures blacklist.regexes == Compile(Sources(Predefined, blacklistFile))
      ensures this.detectors == detectors
    {
      blacklist := new Blacklist(Predefined, blacklistFile);
      this.detectors := detectors;
    }

    /** The three rules a candidate must pass, the not-yet-found one aside. */
    predicate Accepts(s: string)
    {
      |s| >= MinLength && !blacklist.Matches(detectors.engine, s)
    }

    /** What `find_secrets` yields for `content`: the accepted candidates, each once, first occurrence first. */
    function Secrets(content: string): (r: seq<string>)
      ensures NoDup(r)
      ensures forall x :: x in r <==> x in Stream(detectors, StrippedLines(content)) && Accepts(x)
    {
      Distinct(Stream(detectors, StrippedLines(content)), s => Accepts(s))
    }

    /** `find_secrets`: for each stripped line, for each detector, emit its new accepted candidates. */
    method FindSecrets(content: string) returns (found: seq<string>)
      ensures found == Secrets(content)
    {
      var keep := s => Accepts(s);
      var lines := StrippedLines(content);
      var secrets: set<string> := {};
      found := [];
      var i := 0;
      while i < |lines|
        invariant 0 <= i <= |lines|
        invariant found == Distinct(Stream(detectors, lines[..i]), keep) && secrets == Elems(found)
      {
        var line := lines[i];
        FlatMapSnoc(LineCandidates(detectors), lines, i);
        found, secrets := CollectLine(detectors, Stream(detectors, lines[..i]), found, secrets, line, keep);
        i := i + 1;
      }
      assert lines[..i] == lines;
    }
  }

  /** Every secret is long enough, is a candidate of some line, and no pattern of the blacklist matches it. */
  lemma SecretsSound(f: SecretFinder, content: string, x: string)
    requires x in f.Secrets(content)
    ensures |x| >= MinLength
    ensures exists i :: 0 <= i < |StrippedLines(content)| && x in LineCandidates(f.detectors)(StrippedLines(content)[i])
    ensures forall k :: 0 <= k < |f.blacklist.regexes| ==> !f.detectors.engine(f.blacklist.regexes[k], x)
  {
    FlatMapMembers(LineCandidates(f.detectors), StrippedLines(content), x);
  }

  /** In particular "password" and "%password%", as whole values in any case, are never reported. */
  lemma NeverPassword(f: SecretFinder, file: Option<seq<string>>, content: string, x: string)
    requires f.blacklist.regexes == Compile(Sources(Predefined, file))
    requires x in f.Secrets(content)
    ensures !f.detectors.engine(Anchored("password"), x)
    ensures !f.detectors.engine(Anchored("%password%"), x)
  {
    var ss := Sources(Predefined, file);
    assert ss[..2] == Predefined;
    assert ss[0] == "password" && ss[1] == "%password%";
    assert f.blacklist.regexes[0] == Anchored("password");
    assert f.blacklist.regexes[1] == Anchored("%password%");
    assert !f.blacklist.Matches(f.detectors.engine, x);
  }

  /**
   * The secrets of a text's first `n` lines are found first: what the
   * finder yields is never revised by later lines.
   */
  lemma EarlierLinesFirst(f: SecretFinder, content: string, n: nat)
    requires n <= |StrippedLines(content)|
    ensures var lines := StrippedLines(content);
      var early := Distinct(Stream(f.detectors, lines[..n]), s => f.Accepts(s));
      |early| <= |f.Secrets(content)| && f.Secrets(content)[..|early|] == early
  {
    var lines := StrippedLines(content);
    FlatMapSplit(LineCandidates(f.detectors), lines, n);
    DistinctPrefix(Stream(f.detectors, lines[..n]), Stream(f.detectors, lines[n..]), s => f.Accepts(s));
  }
}

/** The finder of the packaged generation: detectors first, each over all the lines. */
module PluginMajorFinder {
  import opened Common
  import opened Blacklists
  import opened SecretFilter

  /** A detector of this generation: its candidates for the list of lines of a text. */
  type LinesDetector = seq<string> -> seq<string>

  /**
   * The two detectors, consulted in this order. Their sources are not part
   * of this model; they are given as functions.
   */
  datatype Detectors = Detectors(engine: Engine, passwordPattern: LinesDetector, detectSecrets: LinesDetector)

  function Plugins(d: Detectors): seq<LinesDetector>
  {
    [d.passwordPattern, d.detectSecrets]
  }

  /** The candidates of the detectors `ps` for the lines, detector by detector. */
  function RunAll(ps: seq<LinesDetector>, lines: seq<string>): seq<string>
    decreases |ps|
  {
    if ps == [] then [] else RunAll(ps[..|ps| - 1], lines) + ps[|ps| - 1](lines)
  }

  /** Every candidate of the password pattern detector comes before every one of the library detector. */
  lemma StreamOrder(d: Detectors, lines: seq<string>)
    ensures RunAll(Plugins(d), lines) == d.passwordPattern(lines) + d.detectSecrets(lines)
  {
    var ps := Plugins(d);
    assert ps[..1] == [d.passwordPattern] && ps[..1][..0] == [];
    assert RunAll(ps[..1], lines) == d.passwordPattern(lines);
  }

  class SecretFinder {
    const blacklist: Blacklist
    const detectors: Detectors

    /** A finder whose blacklist is the predefined values followed by the entries of `blacklistFile`. */
    constructor (blacklistFile: Option<seq<string>>, detectors: Detectors)
      ensures blacklist.regexes == Compile(Sources(Predefined, blacklistFile))
      ensures this.detectors == detectors
    {
      blacklist := new Blacklist(Predefined, blacklistFile);
      this.detectors := detectors;
    }

    predicate Accepts(s: string)
    {
      |s| >= MinLength && !blacklist.Matches(detectors.engine, s)
    }

    /** What `find_secrets` yields for `content`: the accepted candidates, each once, first occurrence first. */
    function Secrets(content: string): (r: seq<string>)
      ensures NoDup(r)
      ensures forall x :: x in r <==> x in RunAll(Plugins(detectors), StrippedLines(content)) && Accepts(x)
    {
      Distinct(RunAll(Plugins(detectors), StrippedLines(content)), s => Accepts(s))
    }

    /** `find_secrets`: strip every line, then for each detector emit its new accepted candidates. */
    method FindSecrets(content: string) returns (found: seq<string>)
      ensures found == Secrets(content)
    {
      var keep := s => Accepts(s);
      var secrets: set<string> := {};
      found := [];
      var lines := StrippedLines(content);
      var plugins := Plugins(detectors);
      var j := 0;
      while j < |plugins|
        invariant 0 <= j <= |plugins|
        invariant found == Distinct(RunAll(plugins[..j], lines), keep) && secrets == Elems(found)
      {
        assert plugins[..j + 1][..j] == plugins[..j];
        found, secrets := Collect(RunAll(plugins[..j], lines), found, secrets, plugins[j](lines), keep);
        j := j + 1;
      }
      assert plugins[..j] == plugins;
    }
  }

  /** The password pattern detector wins: its accepted candidates come first, in its order. */
  lemma FirstDetectorFirst(f: SecretFinder, content: string)
    ensures var first := Distinct(f.detectors.passwordPattern(StrippedLines(content)), s => f.Accepts(s));
      |first| <= |f.Secrets(content)| && f.Secrets(content)[..|first|] == first
  {
    var lines := StrippedLines(content);
    StreamOrder(f.detectors, lines);
    DistinctPrefix(f.detectors.passwordPattern(lines), f.detectors.detectSecrets(lines), s => f.Accepts(s));
  }

  /** Secrets come out in the order of their first occurrence among the candidates. */
  lemma SecretsInStreamOrder(f: SecretFinder, content: string)
    ensures var stream := RunAll(Plugins(f.detectors), StrippedLines(content));
      forall i, j :: 0 <= i < j < |f.Secrets(content)| ==>
        IndexOf(stream, f.Secrets(content)[i]) < IndexOf(stream, f.Secrets(content)[j])
  {
    DistinctOrder(RunAll(Plugins(f.detectors), StrippedLines(content)), s => f.Accepts(s));
  }
}
