/**
 * The detect-secrets detector: password synonyms of a line are rewritten to
 * "password", the library's rules analyse the rewritten line, and each
 * reported value is traced back to the line to recover its original case.
 * The library's rules are supplied as functions from a line to the values
 * they report.
 */
module DetectSecretsPlugin {
  import opened Common

  /** Words the library would not recognise as "password", tried in this order. */
  const Synonyms: seq<string> := ["mot de passe", "mdp", "pwd"]
  const Replacement := "password"

  /** One detect-secrets rule: the secret values `analyze_line` reports for a line, possibly lower-cased. */
  type Rule = string -> seq<string>

  /** `syn` occurs in `s` at `i`, ignoring ASCII case. */
  predicate SynonymAt(s: string, i: nat, syn: string)
  {
    i + |syn| <= |s| && Lower(s[i..i + |syn|]) == syn
  }

  /** The first synonym, from the `j`-th on, that occurs at `i`: what the alternation tries in order. */
  function FirstSynonym(s: string, i: nat, j: nat): (m: Option<string>)
    requires j <= |Synonyms|
    ensures m.Some? ==> m.value in Synonyms[j..] && SynonymAt(s, i, m.value)
    ensures m.None? ==> forall k :: j <= k < |Synonyms| ==> !SynonymAt(s, i, Synonyms[k])
    decreases |Synonyms| - j
  {
    if j == |Synonyms| then None
    else if SynonymAt(s, i, Synonyms[j]) then Some(Synonyms[j])
    else FirstSynonym(s, i, j + 1)
  }

  /** `re.sub` from position `i`: leftmost, non-overlapping synonyms replaced by "password". */
  function RewriteFrom(s: string, i: nat): string
    requires i <= |s|
    decreases |s| - i
  {
    if i == |s| then []
    else
      match FirstSynonym(s, i, 0)
      case Some(syn) => Replacement + RewriteFrom(s, i + |syn|)
      case None => [s[i]] + RewriteFrom(s, i + 1)
  }

  /** The line with every password synonym, in any case, replaced by "password". */
  function Rewrite(s: string): string
  {
    RewriteFrom(s, 0)
  }

  /** No synonym occurs anywhere in `s`. */
  predicate NoSynonym(s: string)
  {
    forall i, k :: 0 <= i <= |s| && 0 <= k < |Synonyms| ==> !SynonymAt(s, i, Synonyms[k])
  }

  /** A line without synonyms is left as it is. */
  lemma {:induction false} RewriteFromUnchanged(s: string, i: nat)
    requires i <= |s| && NoSynonym(s)
    ensures RewriteFrom(s, i) == s[i..]
    decreases |s| - i
  {
    if i < |s| {
      assert FirstSynonym(s, i, 0) == None;
      RewriteFromUnchanged(s, i + 1);
      assert s[i..] == [s[i]] + s[i + 1..];
    }
  }

  lemma RewriteUnchanged(s: string)
    requires NoSynonym(s)
    ensures Rewrite(s) == s
  {
    RewriteFromUnchanged(s, 0);
  }

  /** Each synonym, in any case, becomes "password". */
  lemma RewriteSynonyms()
    ensures Rewrite("pwd") == "password"
    ensures Rewrite("MdP") == "password"
  {
    assert SynonymAt("pwd", 0, "pwd");
    assert !SynonymAt("pwd", 0, "mdp");
    assert RewriteFrom("pwd", 3) == [];
    assert SynonymAt("MdP", 0, "mdp");
    assert RewriteFrom("MdP", 3) == [];
  }

  /**
   * The value the detector yields for a library value `v`: the slice of the
   * line at the first case-insensitive occurrence of `v`, `v`'s length long.
   * When there is none, `find` gives -1 and the slice starts at the last
   * character.
   */
  function Recover(line: string, v: string): (r: string)
    ensures var i := Find(Lower(line), Lower(v));
      i >= 0 ==> i + |v| <= |line| && r == line[i..i + |v|] && |r| == |v| && Lower(r) == Lower(v)
    ensures Find(Lower(line), Lower(v)) == -1 ==>
      r == (if line != [] && |v| > |line| then [line[|line| - 1]] else [])
  {
    var i := Find(Lower(line), Lower(v));
    if i >= 0 then
      LowerSlice(line, i, i + |v|);
      PySlice(line, i, i + |v|)
    else
      PySliceFromLast(line, |v|);
      PySlice(line, i, i + |v|)
  }

  /** `s[-1:n - 1]`: the last character when `n` reaches past the end, else nothing. */
  lemma PySliceFromLast(s: string, n: nat)
    ensures PySlice(s, -1, -1 + n) == if s != [] && n > |s| then [s[|s| - 1]] else []
  {
  }

  /** A value the library reports verbatim from the line comes back unchanged. */
  lemma RecoverWhole(line: string)
    ensures Recover(line, line) == line
  {
    assert OccursAt(Lower(line), Lower(line), 0);
  }

  /** The recovered values of one rule's report, in report order. */
  function Recovered(line: string, vs: seq<string>): (rs: seq<string>)
    ensures |rs| == |vs| && forall k :: 0 <= k < |vs| ==> rs[k] == Recover(line, vs[k])
  {
    seq(|vs|, k requires 0 <= k < |vs| => Recover(line, vs[k]))
  }

  /** Every rule run on `line`, in rule order, each report recovered against `line`. */
  function RuleValues(rules: seq<Rule>, line: string): (vs: seq<string>)
    ensures |vs| == Count(rules, line)
    decreases |rules|
  {
    if rules == [] then [] else Recovered(line, rules[0](line)) + RuleValues(rules[1..], line)
  }

  /** How many values the rules report for `line`. */
  function Count(rules: seq<Rule>, line: string): nat
    decreases |rules|
  {
    if rules == [] then 0 else |rules[0](line)| + Count(rules[1..], line)
  }

  /**
   * `find_secrets` as intended: the line is rewritten once and every rule
   * analyses the rewritten line.
   */
  function Candidates(rules: seq<Rule>, line: string): (cs: seq<string>)
    ensures |cs| == Count(rules, Rewrite(line))
  {
    RuleValues(rules, Rewrite(line))
  }

  /**
   * `find_secrets` as written: the rewrite sits inside the loop over rules
   * and is applied to the already rewritten line, so the `k`-th rule sees
   * the line rewritten `k + 1` times.
   */
  function CandidatesAsWritten(rules: seq<Rule>, line: string): seq<string>
    decreases |rules|
  {
    if rules == [] then []
    else
      var l := Rewrite(line);
      Recovered(l, rules[0](l)) + CandidatesAsWritten(rules[1..], l)
  }

  /** The line rewritten `n` times. */
  function Iterate(line: string, n: nat): string
    decreases n
  {
    if n == 0 then line else Iterate(Rewrite(line), n - 1)
  }

  /** One more rewrite comes last. */
  lemma {:induction false} IterateLast(line: string, n: nat)
    ensures Iterate(line, n + 1) == Rewrite(Iterate(line, n))
    decreases n
  {
    if n > 0 {
      IterateLast(Rewrite(line), n - 1);
    }
  }

  /** `v` is the recovered form of some value `rule` reports for `l`. */
  predicate ReportedBy(rule: Rule, l: string, v: string)
  {
    exists w :: w in rule(l) && v == Recover(l, w)
  }

  /** The recovered report of one rule holds exactly the values that rule reports, recovered. */
  lemma RecoveredMembers(rule: Rule, l: string, v: string)
    ensures v in Recovered(l, rule(l)) <==> ReportedBy(rule, l, v)
  {
    var rs := Recovered(l, rule(l));
    if v in rs {
      var k :| 0 <= k < |rs| && rs[k] == v;
      assert rule(l)[k] in rule(l);
    }
    if ReportedBy(rule, l, v) {
      var w :| w in rule(l) && v == Recover(l, w);
      var k :| 0 <= k < |rule(l)| && rule(l)[k] == w;
      assert rs[k] == v;
    }
  }

  /** The values of two runs of rules on the same line follow each other. */
  lemma {:induction false} RuleValuesAppend(a: seq<Rule>, b: seq<Rule>, line: string)
    ensures RuleValues(a + b, line) == RuleValues(a, line) + RuleValues(b, line)
    decreases |a|
  {
    if a == [] {
      assert a + b == b;
    } else {
      assert (a + b)[1..] == a[1..] + b;
      RuleValuesAppend(a[1..], b, line);
    }
  }

  /**
   * Rule by rule: the `i`-th rule's recovered report sits between the
   * values of the rules before it and those of the rules after it.
   */
  lemma RuleValuesPerRule(rules: seq<Rule>, line: string, i: nat)
    requires i < |rules|
    ensures RuleValues(rules, line) ==
      RuleValues(rules[..i], line) + Recovered(line, rules[i](line)) + RuleValues(rules[i + 1..], line)
  {
    assert rules == rules[..i] + ([rules[i]] + rules[i + 1..]);
    RuleValuesAppend(rules[..i], [rules[i]] + rules[i + 1..], line);
    RuleValuesAppend([rules[i]], rules[i + 1..], line);
    assert [rules[i]][1..] == [];
  }

  /** A value is among the rules' values exactly when some rule reports it. */
  lemma {:induction false} RuleValuesMembers(rules: seq<Rule>, line: string, v: string)
    ensures v in RuleValues(rules, line) <==> exists i :: 0 <= i < |rules| && ReportedBy(rules[i], line, v)
    decreases |rules|
  {
    if rules != [] {
      RecoveredMembers(rules[0], line, v);
      RuleValuesMembers(rules[1..], line, v);
      if exists i :: 0 <= i < |rules| && ReportedBy(rules[i], line, v) {
        var i :| 0 <= i < |rules| && ReportedBy(rules[i], line, v);
        if i > 0 {
          assert rules[1..][i - 1] == rules[i];
        }
      }
      if exists i :: 0 <= i < |rules[1..]| && ReportedBy(rules[1..][i], line, v) {
        var i :| 0 <= i < |rules[1..]| && ReportedBy(rules[1..][i], line, v);
        assert rules[i + 1] == rules[1..][i];
      }
    }
  }

  /** Rewriting once: a candidate is exactly a value some rule reports for the rewritten line. */
  lemma CandidatesMembers(rules: seq<Rule>, line: string, v: string)
    ensures v in Candidates(rules, line) <==> exists i :: 0 <= i < |rules| && ReportedBy(rules[i], Rewrite(line), v)
  {
    RuleValuesMembers(rules, Rewrite(line), v);
  }

  /** As written, a run of rules leaves the line rewritten once per rule for the rules after it. */
  lemma {:induction false} CandidatesAsWrittenAppend(a: seq<Rule>, b: seq<Rule>, line: string)
    ensures CandidatesAsWritten(a + b, line) == CandidatesAsWritten(a, line) + CandidatesAsWritten(b, Iterate(line, |a|))
    decreases |a|
  {
    if a == [] {
      assert a + b == b;
    } else {
      var l := Rewrite(line);
      assert (a + b)[1..] == a[1..] + b;
      assert CandidatesAsWritten(a + b, line) == Recovered(l, a[0](l)) + CandidatesAsWritten(a[1..] + b, l);
      CandidatesAsWrittenAppend(a[1..], b, l);
      assert Iterate(line, |a|) == Iterate(l, |a[1..]|);
    }
  }

  /**
   * As written, rule by rule: the `i`-th rule (from 0) analyses the line
   * rewritten `i + 1` times, and its recovered report sits between the
   * values of the rules before it and those of the rules after it.
   */
  lemma CandidatesAsWrittenPerRule(rules: seq<Rule>, line: string, i: nat)
    requires i < |rules|
    ensures var l := Iterate(line, i + 1);
      CandidatesAsWritten(rules, line) ==
        CandidatesAsWritten(rules[..i], line) + Recovered(l, rules[i](l)) + CandidatesAsWritten(rules[i + 1..], l)
  {
    assert rules == rules[..i] + ([rules[i]] + rules[i + 1..]);
    CandidatesAsWrittenAppend(rules[..i], [rules[i]] + rules[i + 1..], line);
    IterateLast(line, i);
    assert ([rules[i]] + rules[i + 1..])[1..] == rules[i + 1..];
  }

  /** As written: a candidate is exactly a value the `i`-th rule reports for the line rewritten `i + 1` times. */
  lemma {:induction false} CandidatesAsWrittenMembers(rules: seq<Rule>, line: string, v: string)
    ensures v in CandidatesAsWritten(rules, line) <==>
      exists i :: 0 <= i < |rules| && ReportedBy(rules[i], Iterate(line, i + 1), v)
    decreases |rules|
  {
    if rules != [] {
      var l := Rewrite(line);
      RecoveredMembers(rules[0], l, v);
      CandidatesAsWrittenMembers(rules[1..], l, v);
      assert Iterate(line, 1) == l;
      if exists i :: 0 <= i < |rules| && ReportedBy(rules[i], Iterate(line, i + 1), v) {
        var i :| 0 <= i < |rules| && ReportedBy(rules[i], Iterate(line, i + 1), v);
        if i > 0 {
          assert rules[1..][i - 1] == rules[i];
          assert Iterate(l, i - 1 + 1) == Iterate(line, i + 1);
        }
      }
      if exists i :: 0 <= i < |rules[1..]| && ReportedBy(rules[1..][i], Iterate(l, i + 1), v) {
        var i :| 0 <= i < |rules[1..]| && ReportedBy(rules[1..][i], Iterate(l, i + 1), v);
        assert rules[i + 1] == rules[1..][i];
        assert Iterate(line, i + 1 + 1) == Iterate(l, i + 1);
      }
    }
  }

  /** The two agree whenever a second rewrite changes nothing. */
  lemma {:induction false} AsWrittenAgreesWhenStable(rules: seq<Rule>, line: string)
    requires Rewrite(Rewrite(line)) == Rewrite(line)
    ensures CandidatesAsWritten(rules, line) == Candidates(rules, line)
    decreases |rules|
  {
    if rules != [] {
      var l := Rewrite(line);
      AsWrittenAgreesWhenStable(rules[1..], l);
    }
  }

  /** A synonym occurrence agrees, ignoring case, with the synonym character by character. */
  lemma SynonymAtChar(s: string, i: nat, syn: string, k: nat)
    requires SynonymAt(s, i, syn) && k < |syn|
    ensures LowerChar(s[i + k]) == syn[k]
  {
    assert Lower(s[i..i + |syn|])[k] == LowerChar(s[i + k]);
  }

  /** No synonym starts at a character other than "m" or "p". */
  lemma NoSynonymAt(s: string, i: nat)
    requires i < |s| && LowerChar(s[i]) != 'm' && LowerChar(s[i]) != 'p'
    ensures FirstSynonym(s, i, 0) == None
  {
    forall k | 0 <= k < |Synonyms|
      ensures !SynonymAt(s, i, Synonyms[k])
    {
      if SynonymAt(s, i, Synonyms[k]) {
        SynonymAtChar(s, i, Synonyms[k], 0);
      }
    }
  }

  lemma RewriteMdmdp()
    ensures Rewrite("mdmdp") == "mdpassword"
  {
    var s := "mdmdp";
    assert RewriteFrom(s, 5) == [];
    assert Lower(s[2..5]) == "mdp";
    assert FirstSynonym(s, 2, 0) == Some("mdp");
    assert RewriteFrom(s, 2) == "password";
    NoSynonymAt(s, 1);
    assert RewriteFrom(s, 1) == "dpassword";
    assert Lower(s[0..3]) == "mdm";
    assert FirstSynonym(s, 0, 0) == None;
  }

  lemma NoSynonymAfterMdp()
    ensures forall i :: 3 <= i <= |"mdpassword"| ==> FirstSynonym("mdpassword", i, 0) == None
  {
    var t := "mdpassword";
    forall i | 3 <= i < |t|
      ensures FirstSynonym(t, i, 0) == None
    {
      NoSynonymAt(t, i);
    }
  }

  lemma RewriteMdpassword()
    ensures Rewrite("mdpassword") == "passwordassword"
  {
    MdpasswordHead();
    MdpasswordTail();
  }

  /** "mdpassword" starts with the synonym "mdp". */
  lemma MdpasswordHead()
    ensures FirstSynonym("mdpassword", 0, 0) == Some("mdp")
  {
    var t := "mdpassword";
    assert !SynonymAt(t, 0, Synonyms[0]);
    assert Lower(t[0..3]) == "mdp";
  }

  /** After its "mdp", "mdpassword" holds no synonym and is copied as it is. */
  lemma MdpasswordTail()
    ensures RewriteFrom("mdpassword", 3) == "assword"
  {
    var t := "mdpassword";
    NoSynonymAfterMdp();
    RewriteFromTail(t, 3);
    assert t[3..] == "assword";
  }

  /** Past the last synonym the rewrite copies the rest. */
  lemma {:induction false} RewriteFromTail(s: string, i: nat)
    requires i <= |s|
    requires forall j :: i <= j <= |s| ==> FirstSynonym(s, j, 0) == None
    ensures RewriteFrom(s, i) == s[i..]
    decreases |s| - i
  {
    if i < |s| {
      RewriteFromTail(s, i + 1);
      assert s[i..] == [s[i]] + s[i + 1..];
    }
  }

  /** A rule that reports its whole line. */
  function WholeLine(l: string): seq<string>
  {
    [l]
  }

  lemma RecoveredWholeLine(l: string)
    ensures Recovered(l, WholeLine(l)) == [l]
  {
    RecoverWhole(l);
  }

  /**
   * The discrepancy: with two rules that each report the whole line, the
   * second sees "mdmdp" rewritten twice, whereas rewriting once gives both
   * rules the same line.
   */
  lemma SecondRuleSeesSecondRewrite()
    ensures CandidatesAsWritten([WholeLine, WholeLine], "mdmdp") == ["mdpassword", "passwordassword"]
    ensures Candidates([WholeLine, WholeLine], "mdmdp") == ["mdpassword", "mdpassword"]
  {
    var rules: seq<Rule> := [WholeLine, WholeLine];
    RewriteMdmdp();
    RewriteMdpassword();
    RecoveredWholeLine("mdpassword");
    RecoveredWholeLine("passwordassword");
    assert rules[1..] == [WholeLine];
    assert [WholeLine][1..] == [];
    assert CandidatesAsWritten([WholeLine], "mdpassword") == ["passwordassword"];
    assert RuleValues([WholeLine], "mdpassword") == ["mdpassword"];
  }

  /** The recovered values of one rule's report, computed one by one. */
  method RecoverAll(line: string, values: seq<string>) returns (out: seq<string>)
    ensures out == Recovered(line, values)
  {
    out := [];
    var j := 0;
    while j < |values|
      invariant 0 <= j <= |values|
      invariant out == Recovered(line, values[..j])
    {
      var secretIndex := Find(Lower(line), Lower(values[j]));
      var secretValue := PySlice(line, secretIndex, secretIndex + |values[j]|);
      assert values[..j + 1][..j] == values[..j];
      out := out + [secretValue];
      j := j + 1;
    }
    assert values[..j] == values;
  }

  /**
   * `find_secrets`: for each rule in order, the line is rewritten again and
   * the rule's report on it is recovered against it.
   */
  method FindSecrets(rules: seq<Rule>, line: string) returns (out: seq<string>)
    ensures out == CandidatesAsWritten(rules, line)
  {
    var l := line;
    out := [];
    var i := 0;
    while i < |rules|
      invariant 0 <= i <= |rules|
      invariant out + CandidatesAsWritten(rules[i..], l) == CandidatesAsWritten(rules, line)
    {
      assert rules[i..][1..] == rules[i + 1..];
      ghost var before := l;
      l := Rewrite(l);
      var found := RecoverAll(l, rules[i](l));
      assert CandidatesAsWritten(rules[i..], before) == found + CandidatesAsWritten(rules[i + 1..], l);
      out := out + found;
      i := i + 1;
    }
  }
}
