/**
 * The password-pattern detector: every whitespace-delimited word of a line
 * that mixes letters and digits (a letter next to a digit), optionally
 * ending with "!", unless it is one of the well-known identifiers of the
 * built-in blacklist.
 *
 * The token regular expression
 *   (?:^|\s)(\w*(?:\d+[a-zA-Z]|[a-zA-Z]+\d)\w*!?)(?:$|\s)
 * is restated as an explicit scanner over ASCII word characters, with
 * `findall`'s left-to-right, non-overlapping search written out.
 */
module PasswordPattern {
  import opened Common
  import opened Blacklists

  /** Identifiers that look like passwords but are not (GUIDs, standards, versions, sizes, durations). */
  const BuiltinBlacklist: seq<string> := [
    @"[A-Z0-9]{8}-([A-Z0-9]{4}-){3}[A-Z0-9]{12}",
    "RFC[0-9]{3}", "ES201[56]", "Office365", "System32", "log4net",
    "VS20[0-9]{2}", "word2vec", "Graphics2D", @"[CS]A\d{4}", "Base64",
    "AES256CBC", "ISO27001", @"\d+GB", @"\d+IOPS", "python3",
    @"\d{2,4}(x\d{2,4})px", @"\d{2,4}x\d{2,4}", @"\d{1,2}mins", @"\d{1,2}min\d{1,2}s?", @"\d{1,2}days",
    @"ConsoleApp\d", @"\d{1,4}(k|m)bps", @"\d{1,4}ms", @"KB\d+"]

  /** The detector's own blacklist, built from the built-in list and no file. */
  function BuiltinPatterns(): (ps: seq<Pattern>)
    ensures |ps| == 25
    ensures Anchored("RFC[0-9]{3}") in ps && Anchored(@"\d{2,4}x\d{2,4}") in ps
  {
    var ps := Compile(Sources(BuiltinBlacklist, None));
    assert ps[1] == Anchored("RFC[0-9]{3}");
    assert ps[17] == Anchored(@"\d{2,4}x\d{2,4}");
    ps
  }

  /** `\w` on ASCII. */
  predicate IsWordChar(c: char)
  {
    IsAsciiLetter(c) || IsDigit(c) || c == '_'
  }

  predicate AllWord(w: string)
  {
    forall i :: 0 <= i < |w| ==> IsWordChar(w[i])
  }

  /** A letter and a digit, in either order, at positions `i` and `i + 1` of `w`. */
  predicate PairAt(w: string, i: nat)
    requires i + 1 < |w|
  {
    (IsDigit(w[i]) && IsAsciiLetter(w[i + 1])) || (IsAsciiLetter(w[i]) && IsDigit(w[i + 1]))
  }

  /** `w` has a letter immediately next to a digit, in either order. */
  predicate HasLetterDigitPair(w: string)
  {
    exists i: nat :: i + 1 < |w| && PairAt(w, i)
  }

  /** The word part of a token: the token without a trailing "!". */
  function WordPart(t: string): (w: string)
    ensures |w| <= |t| && w == t[..|w|]
    ensures |w| < |t| ==> |w| == |t| - 1 && t[|t| - 1] == '!'
    ensures |w| == |t| ==> t == [] || t[|t| - 1] != '!'
  {
    if t != [] && t[|t| - 1] == '!' then t[..|t| - 1] else t
  }

  /** What the capture group of the regular expression accepts. */
  predicate ValidToken(t: string)
  {
    AllWord(WordPart(t)) && HasLetterDigitPair(WordPart(t))
  }

  lemma WordCharNotSpace(c: char)
    requires IsWordChar(c)
    ensures !IsSpace(c)
  {
  }

  /** A token holds no whitespace. */
  lemma ValidTokenNoSpace(t: string)
    requires ValidToken(t)
    ensures forall i :: 0 <= i < |t| ==> !IsSpace(t[i])
  {
    var w := WordPart(t);
    forall i | 0 <= i < |t|
      ensures !IsSpace(t[i])
    {
      if i < |w| {
        assert w[i] == t[i];
        WordCharNotSpace(t[i]);
      }
    }
  }

  /** What may follow a token: the end of the line or whitespace. */
  predicate Boundary(s: string, e: nat)
    requires e <= |s|
  {
    e == |s| || IsSpace(s[e])
  }

  /** The end of the run of word characters of `s` that starts at `q`. */
  function RunEnd(s: string, q: nat): (r: nat)
    requires q <= |s|
    ensures q <= r <= |s|
    ensures AllWord(s[q..r])
    ensures r < |s| ==> !IsWordChar(s[r])
    decreases |s| - q
  {
    if q < |s| && IsWordChar(s[q]) then
      var r := RunEnd(s, q + 1);
      assert s[q..r] == [s[q]] + s[q + 1..r];
      r
    else q
  }

  /**
   * The end of the group when it starts at `q`: the one `e` for which
   * `s[q..e]` is a token followed by a boundary, if there is one.
   */
  function GroupEnd(s: string, q: nat): (r: Option<nat>)
    requires q <= |s|
    ensures r.Some? ==> q < r.value <= |s| && Boundary(s, r.value)
  {
    var e := RunEnd(s, q);
    if !HasLetterDigitPair(s[q..e]) then None
    else if e < |s| && s[e] == '!' && Boundary(s, e + 1) then Some(e + 1)
    else if Boundary(s, e) then Some(e)
    else None
  }

  /** What GroupEnd finds is a token. */
  lemma GroupEndSound(s: string, q: nat)
    requires q <= |s| && GroupEnd(s, q).Some?
    ensures ValidToken(s[q..GroupEnd(s, q).value])
  {
    var e := RunEnd(s, q);
    assert HasLetterDigitPair(s[q..e]);
    if GroupEnd(s, q) == Some(e + 1) {
      assert e < |s| && s[e] == '!';
      RunIsToken(s, q, e, e + 1);
    } else {
      RunIsToken(s, q, e, e);
    }
  }

  /** A run of word characters with a letter next to a digit, with or without a "!" after it, is a token. */
  lemma RunIsToken(s: string, q: nat, e: nat, stop: nat)
    requires q <= e <= |s| && AllWord(s[q..e]) && HasLetterDigitPair(s[q..e])
    requires stop == e || (stop == e + 1 && e < |s| && s[e] == '!')
    ensures ValidToken(s[q..stop])
  {
    var t := s[q..stop];
    if stop == e {
      assert t[|t| - 1] == s[e - 1];
      assert IsWordChar(s[q..e][e - 1 - q]);
      assert WordPart(t) == t;
    } else {
      assert |t| == e - q + 1 && t[e - q] == '!';
      assert t[..e - q] == s[q..e];
      assert WordPart(t) == t[..e - q];
    }
  }

  /** The run of word characters from `q` is the longest one. */
  lemma {:induction false} RunEndMaximal(s: string, q: nat, x: nat)
    requires q <= x <= |s|
    ensures AllWord(s[q..x]) ==> x <= RunEnd(s, q)
    ensures x < RunEnd(s, q) ==> IsWordChar(s[x])
    decreases |s| - q
  {
    var r := RunEnd(s, q);
    if x < r {
      assert s[q..r][x - q] == s[x];
    }
  }

  /** GroupEnd finds every group there is: no other end makes a token followed by a boundary. */
  lemma GroupEndComplete(s: string, q: nat, e: nat)
    requires q < e <= |s|
    requires ValidToken(s[q..e]) && Boundary(s, e)
    ensures GroupEnd(s, q) == Some(e)
  {
    var t := s[q..e];
    if |WordPart(t)| < |t| {
      GroupEndWithBang(s, q, e);
    } else {
      GroupEndWithoutBang(s, q, e);
    }
  }

  /** A token ending with "!": the run of word characters stops right before it. */
  lemma GroupEndWithBang(s: string, q: nat, e: nat)
    requires q < e <= |s|
    requires ValidToken(s[q..e]) && Boundary(s, e)
    requires |WordPart(s[q..e])| < |s[q..e]|
    ensures GroupEnd(s, q) == Some(e)
  {
    var r := RunEnd(s, q);
    var w := WordPart(s[q..e]);
    assert w == s[q..e - 1];
    assert s[e - 1] == '!';
    RunEndMaximal(s, q, e - 1);
    assert !IsWordChar('!');
    assert e - 1 == r;
    assert HasLetterDigitPair(s[q..r]);
    assert r < |s| && s[r] == '!' && Boundary(s, r + 1);
  }

  /** A token without "!": whitespace or the line end follows the run of word characters. */
  lemma GroupEndWithoutBang(s: string, q: nat, e: nat)
    requires q < e <= |s|
    requires ValidToken(s[q..e]) && Boundary(s, e)
    requires |WordPart(s[q..e])| == |s[q..e]|
    ensures GroupEnd(s, q) == Some(e)
  {
    var r := RunEnd(s, q);
    var w := WordPart(s[q..e]);
    assert w == s[q..e];
    RunEndMaximal(s, q, e);
    if e < |s| && e < r {
      WordCharNotSpace(s[e]);
    }
    assert e == r;
    assert !IsSpace('!');
  }

  /** The position of a capture group in a line. */
  datatype Span = Span(start: nat, stop: nat)

  /** A group as the expression delimits it: a token between the line start or whitespace and whitespace or the line end. */
  predicate Delimited(s: string, sp: Span)
  {
    && sp.start < sp.stop <= |s|
    && (sp.start == 0 || IsSpace(s[sp.start - 1]))
    && ValidToken(s[sp.start..sp.stop])
    && Boundary(s, sp.stop)
  }

  /** A match found at some position: its group and where the search resumes. */
  datatype Hit = Hit(group: Span, resume: nat)

  /**
   * The match of the whole expression at position `p`: either the line
   * start followed by a group, or one whitespace character followed by a
   * group. The trailing whitespace, when there is one, belongs to the match.
   */
  function TryAt(s: string, p: nat): (h: Option<Hit>)
    requires p < |s|
    ensures h.Some? ==>
      && p <= h.value.group.start < h.value.group.stop <= h.value.resume <= |s|
      && (h.value.group.start == 0 || (h.value.group.start == p + 1 && IsSpace(s[p])))
      && Delimited(s, h.value.group)
      && (h.value.group.stop < |s| ==> h.value.resume == h.value.group.stop + 1)
  {
    var fromStart := if p == 0 then GroupEnd(s, 0) else None;
    if fromStart.Some? then
      var e := fromStart.value;
      GroupDelimited(s, 0, e);
      Some(Hit(Span(0, e), if e < |s| then e + 1 else e))
    else if IsSpace(s[p]) && GroupEnd(s, p + 1).Some? then
      var e := GroupEnd(s, p + 1).value;
      GroupDelimited(s, p + 1, e);
      Some(Hit(Span(p + 1, e), if e < |s| then e + 1 else e))
    else None
  }

  /** A group found after the line start or after whitespace is delimited. */
  lemma GroupDelimited(s: string, q: nat, e: nat)
    requires q <= |s| && GroupEnd(s, q) == Some(e)
    requires q == 0 || IsSpace(s[q - 1])
    ensures Delimited(s, Span(q, e))
  {
    GroupEndSound(s, q);
  }

  /** The spans found after a hit, behind the hit's own group, keep the order and separation of spans. */
  lemma SpansCons(s: string, p: nat, h: Hit, rest: seq<Span>)
    requires p < |s| && TryAt(s, p) == Some(h) && Delimited(s, h.group)
    requires forall k :: 0 <= k < |rest| ==>
      h.resume <= rest[k].start && (h.resume > 0 ==> rest[k].start > h.resume) && Delimited(s, rest[k])
    requires forall k :: 0 <= k < |rest| - 1 ==> rest[k].stop + 2 <= rest[k + 1].start
    ensures forall k :: 0 <= k < |[h.group] + rest| ==>
      p <= ([h.group] + rest)[k].start && (p > 0 ==> ([h.group] + rest)[k].start > p)
      && Delimited(s, ([h.group] + rest)[k])
    ensures forall k :: 0 <= k < |[h.group] + rest| - 1 ==> ([h.group] + rest)[k].stop + 2 <= ([h.group] + rest)[k + 1].start
  {
    var all := [h.group] + rest;
    if rest != [] {
      assert Delimited(s, rest[0]) && h.resume <= rest[0].start;
    }
    forall k | 0 <= k < |all|
      ensures p <= all[k].start && (p > 0 ==> all[k].start > p) && Delimited(s, all[k])
    {
      if k > 0 {
        assert all[k] == rest[k - 1];
      }
    }
    forall k | 0 <= k < |all| - 1
      ensures all[k].stop + 2 <= all[k + 1].start
    {
      if k > 0 {
        assert all[k] == rest[k - 1] && all[k + 1] == rest[k];
      }
    }
  }

  /**
   * `findall` from position `p`: the groups of the successive
   * non-overlapping matches, left to right. Since a match swallows the
   * whitespace after its group, the next group starts at least two
   * characters later.
   */
  function Scan(s: string, p: nat): (spans: seq<Span>)
    requires p <= |s|
    ensures forall k :: 0 <= k < |spans| ==>
      p <= spans[k].start && (p > 0 ==> spans[k].start > p) && Delimited(s, spans[k])
    ensures forall k :: 0 <= k < |spans| - 1 ==> spans[k].stop + 2 <= spans[k + 1].start
    decreases |s| - p
  {
    if p == |s| then []
    else
      match TryAt(s, p)
      case Some(h) =>
        var rest := Scan(s, h.resume);
        SpansCons(s, p, h, rest);
        [h.group] + rest
      case None => Scan(s, p + 1)
  }

  /** The tokens `findall` returns for a line. */
  function Tokens(line: string): (ts: seq<string>)
    ensures |ts| == |Scan(line, 0)|
    ensures forall k :: 0 <= k < |ts| ==> ts[k] == line[Scan(line, 0)[k].start..Scan(line, 0)[k].stop]
  {
    var spans := Scan(line, 0);
    seq(|spans|, k requires 0 <= k < |spans| => line[spans[k].start..spans[k].stop])
  }

  /** `find_secrets`: the tokens of a line that the built-in blacklist does not match, in order. */
  function Candidates(engine: Engine, line: string): (cs: seq<string>)
    ensures forall t :: t in cs <==> t in Tokens(line) && !AnyMatches(BuiltinPatterns(), engine, t)
  {
    Filter(Tokens(line), t => !AnyMatches(BuiltinPatterns(), engine, t))
  }

  /**
   * Every candidate is a valid token, holds no whitespace, is not
   * blacklisted, and occurs in the line between boundaries.
   */
  lemma CandidatesSound(engine: Engine, line: string, t: string)
    requires t in Candidates(engine, line)
    ensures ValidToken(t) && HasLetterDigitPair(WordPart(t))
    ensures forall i :: 0 <= i < |t| ==> !IsSpace(t[i])
    ensures !AnyMatches(BuiltinPatterns(), engine, t)
    ensures exists sp :: sp in Scan(line, 0) && line[sp.start..sp.stop] == t && Delimited(line, sp)
  {
    var ts := Tokens(line);
    var k :| 0 <= k < |ts| && ts[k] == t;
    var sp := Scan(line, 0)[k];
    assert line[sp.start..sp.stop] == t;
    assert Delimited(line, sp);
    ValidTokenNoSpace(t);
  }

  /** Whatever the engine says of "RFC123", if the RFC pattern matches it, it is never a candidate. */
  lemma RfcNumberNeverReported(engine: Engine, line: string)
    requires engine(Anchored("RFC[0-9]{3}"), "RFC123")
    ensures "RFC123" !in Candidates(engine, line)
  {
    var ps := BuiltinPatterns();
    var i := IndexOf(ps, Anchored("RFC[0-9]{3}"));
    assert engine(ps[i], "RFC123");
  }

  /** Likewise a screen resolution such as "1920x1080". */
  lemma ResolutionNeverReported(engine: Engine, line: string)
    requires engine(Anchored(@"\d{2,4}x\d{2,4}"), "1920x1080")
    ensures "1920x1080" !in Candidates(engine, line)
  {
    var ps := BuiltinPatterns();
    var i := IndexOf(ps, Anchored(@"\d{2,4}x\d{2,4}"));
    assert engine(ps[i], "1920x1080");
  }

  /** The separating whitespace belongs to the first match, so a token one space after another is not found. */
  lemma OneSpaceHidesNextToken()
    ensures Tokens("a1 b2") == ["a1"]
  {
    var s := "a1 b2";
    assert RunEnd(s, 2) == 2;
    assert RunEnd(s, 1) == 2;
    assert RunEnd(s, 0) == 2;
    assert s[0..2] == "a1" && IsAsciiLetter(s[0..2][0]) && IsDigit(s[0..2][1]);
    assert PairAt(s[0..2], 0);
    assert GroupEnd(s, 0) == Some(2);
    assert TryAt(s, 0) == Some(Hit(Span(0, 2), 3));
    assert TryAt(s, 3) == None;
    assert TryAt(s, 4) == None;
    assert Scan(s, 5) == [];
    assert Scan(s, 4) == [];
    assert Scan(s, 3) == [];
    assert Scan(s, 0) == [Span(0, 2)];
  }

  /** Two spaces between tokens leave both to be found. */
  lemma TwoSpacesShowBothTokens()
    ensures Tokens("a1  b2") == ["a1", "b2"]
  {
    var u := "a1  b2";
    assert RunEnd(u, 2) == 2;
    assert RunEnd(u, 1) == 2;
    assert RunEnd(u, 0) == 2;
    assert u[0..2] == "a1" && IsAsciiLetter(u[0..2][0]) && IsDigit(u[0..2][1]);
    assert PairAt(u[0..2], 0);
    assert GroupEnd(u, 0) == Some(2);
    assert TryAt(u, 0) == Some(Hit(Span(0, 2), 3));
    assert RunEnd(u, 6) == 6;
    assert RunEnd(u, 5) == 6;
    assert RunEnd(u, 4) == 6;
    assert u[4..6] == "b2" && IsAsciiLetter(u[4..6][0]) && IsDigit(u[4..6][1]);
    assert PairAt(u[4..6], 0);
    assert GroupEnd(u, 4) == Some(6);
    assert TryAt(u, 3) == Some(Hit(Span(4, 6), 6));
    assert Scan(u, 6) == [];
    assert Scan(u, 3) == [Span(4, 6)];
    assert Scan(u, 0) == [Span(0, 2), Span(4, 6)];
  }
}
