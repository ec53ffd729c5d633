/**
 * ParseChapterNumber (MainWindow): a chapter number read out of a link text
 * or address. An optional custom regular expression goes first; then four
 * built-in patterns are tried in order, the first that yields a number in
 * (0, 20000] wins, and a bare number without a keyword yields nothing.
 *
 * The built-in patterns run with RegexOptions.IgnoreCase; they are modelled
 * by scanners over the lower-cased text that follow the regex engine's
 * backtracking order and the non-overlapping scan of Regex.Matches. The
 * custom expression is written by the user, so its matches (the values of
 * groups 1.. of each match, in match order) are an input.
 */
module ChapterParse {
  import opened Text

  // ---------------------------------------------------------------- double.TryParse

  /** The white space NumberStyles.AllowLeadingWhite / AllowTrailingWhite accept. */
  predicate IsNumberWhite(c: char) { c == ' ' || ('\t' <= c <= '\r') }

  /** The end of the run of characters in the class starting at i. */
  function RunEnd(t: string, i: nat, inRun: char -> bool): (j: nat)
    requires i <= |t|
    ensures i <= j <= |t|
    ensures forall k | i <= k < j :: inRun(t[k])
    ensures j < |t| ==> !inRun(t[j])
    decreases |t| - i
  {
    if i == |t| || !inRun(t[i]) then i else RunEnd(t, i + 1, inRun)
  }

  /** The start of the trailing run of characters in the class, looking back from j. */
  function RunStartBack(t: string, lo: nat, j: nat, inRun: char -> bool): (i: nat)
    requires lo <= j <= |t|
    ensures lo <= i <= j
    ensures forall k | i <= k < j :: inRun(t[k])
    ensures i > lo ==> !inRun(t[i - 1])
    decreases j
  {
    if j == lo || !inRun(t[j - 1]) then j else RunStartBack(t, lo, j - 1, inRun)
  }

  function Scale(e: int): (r: real)
    ensures r > 0.0
  {
    if e >= 0 then Pow10(e) as real else 1.0 / Pow10(-e) as real
  }

  /** The number the decimal digits t[i..j] denote. */
  function RunValue(t: string, i: nat, j: nat): nat
    requires i <= j <= |t|
    requires forall k | i <= k < j :: IsDigit(t[k])
    decreases j
  {
    if i == j then 0 else RunValue(t, i, j - 1) * 10 + DigitValue(t[j - 1])
  }

  /** "" or [eE][+-]?digits: the decimal exponent; None for anything else. */
  function ParseExponent(s: string): Option<int>
  {
    if s == [] then Some(0)
    else if s[0] != 'e' && s[0] != 'E' then None
    else
      var i := if |s| > 1 && (s[1] == '-' || s[1] == '+') then 2 else 1;
      var d := RunEnd(s, i, IsDigit);
      if d == i || d < |s| then None
      else
        var v: int := RunValue(s, i, d);
        Some(if s[1] == '-' then -v else v)
  }

  /** Digits with an optional point (at least one digit in all), then an optional exponent. */
  function ParseUnsigned(u: string): Option<real>
  {
    var d1 := RunEnd(u, 0, IsDigit);
    var hasPoint := d1 < |u| && u[d1] == '.';
    var f1 := if hasPoint then RunEnd(u, d1 + 1, IsDigit) else d1;
    var fracStart := if hasPoint then d1 + 1 else d1;
    if d1 == 0 && f1 == fracStart then None
    else
      var mantissa := RunValue(u, 0, d1) as real + RunValue(u, fracStart, f1) as real / Pow10(f1 - fracStart) as real;
      match ParseExponent(u[f1..])
      case None => None
      case Some(e) => Some(mantissa * Scale(e))
  }

  /** An optional leading sign, then an unsigned number. */
  function ParseSigned(body: string): Option<real>
  {
    if body != [] && (body[0] == '-' || body[0] == '+') then
      match ParseUnsigned(body[1..])
      case Some(v) => Some(if body[0] == '-' then -v else v)
      case None => None
    else ParseUnsigned(body)
  }

  /**
   * double.TryParse(s, NumberStyles.Float, CultureInfo.InvariantCulture):
   * optional white space, an optional sign, digits with an optional point
   * (at least one digit in all), an optional exponent, optional white space.
   */
  function ParseDouble(s: string): Option<real>
  {
    var a := RunEnd(s, 0, IsNumberWhite);
    var b := RunStartBack(s, a, |s|, IsNumberWhite);
    ParseSigned(s[a..b])
  }

  /** TryNum: a parsed value in (0, 20000]. */
  function TryNum(s: string): (r: Option<real>)
    ensures r.Some? ==> 0.0 < r.value <= 20000.0
  {
    match ParseDouble(s)
    case Some(d) => if 0.0 < d <= 20000.0 then Some(d) else None
    case None => None
  }

  /** Math.Max. */
  function RMax(a: real, b: real): real { if a >= b then a else b }

  /** What TryNum makes of each capture. */
  function Values(caps: seq<string>): (vs: seq<Option<real>>)
    ensures |vs| == |caps|
    ensures forall k {:trigger vs[k]} | 0 <= k < |caps| :: vs[k] == TryNum(caps[k])
  {
    seq(|caps|, k requires 0 <= k < |caps| => TryNum(caps[k]))
  }

  /**
   * The fold `best = max(best, d)` over the values that are present, from
   * best = -1.
   */
  function BestValue(vs: seq<Option<real>>): real
  {
    if vs == [] then -1.0
    else
      var b := BestValue(vs[..|vs| - 1]);
      match vs[|vs| - 1]
      case Some(d) => RMax(b, d)
      case None => b
  }

  /** BestValue is the largest present value, or -1 when there is none. */
  lemma {:induction false} BestValueIsMax(vs: seq<Option<real>>)
    ensures BestValue(vs) == -1.0 || exists k | 0 <= k < |vs| :: vs[k] == Some(BestValue(vs))
    ensures forall k | 0 <= k < |vs| && vs[k].Some? :: vs[k].value <= BestValue(vs)
  {
    if vs != [] {
      var init := vs[..|vs| - 1];
      BestValueIsMax(init);
      assert forall k | 0 <= k < |init| :: vs[k] == init[k];
    }
  }

  /** The largest valid value of a rule's captures, or -1 when none is valid. */
  function BestOf(caps: seq<string>): real
  {
    BestValue(Values(caps))
  }

  /** BestOf is the largest valid value of the captures, and positive exactly when one is valid. */
  lemma BestOfIsMax(caps: seq<string>)
    ensures BestOf(caps) == -1.0 || 0.0 < BestOf(caps) <= 20000.0
    ensures BestOf(caps) == -1.0 || exists k | 0 <= k < |caps| :: TryNum(caps[k]) == Some(BestOf(caps))
    ensures forall k | 0 <= k < |caps| :: TryNum(caps[k]).Some? ==> TryNum(caps[k]).value <= BestOf(caps)
    ensures BestOf(caps) > 0.0 <==> exists k | 0 <= k < |caps| :: TryNum(caps[k]).Some?
  {
    var vs := Values(caps);
    BestValueIsMax(vs);
    if BestOf(caps) != -1.0 {
      var k :| 0 <= k < |vs| && vs[k] == Some(BestOf(caps));
      assert TryNum(caps[k]) == vs[k];
    }
    forall k | 0 <= k < |caps| && TryNum(caps[k]).Some?
      ensures TryNum(caps[k]).value <= BestOf(caps)
    {
      assert vs[k] == TryNum(caps[k]);
    }
  }

  // ---------------------------------------------------------------- the custom expression

  /** A user-supplied pattern and, for every input, its matches: the values of groups 1.. of each. */
  datatype CustomRegex = CustomRegex(pattern: string, matches: string -> seq<seq<string>>)

  predicate HasCustom(custom: Option<CustomRegex>)
  {
    custom.Some? && !IsBlank(custom.value.pattern)
  }

  /** A group counts when it is not blank and parses; its value, or -1 for a group that does not count. */
  function GroupValue(g: string): real
  {
    if !IsBlank(g) && ParseDouble(g).Some? then ParseDouble(g).value else -1.0
  }

  /** The values of one match's groups. */
  function GroupValues(gs: seq<string>): (r: seq<real>)
    ensures |r| == |gs|
    ensures forall k {:trigger r[k]} | 0 <= k < |gs| :: r[k] == GroupValue(gs[k])
  {
    seq(|gs|, k requires 0 <= k < |gs| => GroupValue(gs[k]))
  }

  /** The values of every match's groups. */
  function MatchValues(ms: seq<seq<string>>): (r: seq<seq<real>>)
    ensures |r| == |ms|
    ensures forall j {:trigger r[j]} | 0 <= j < |ms| :: r[j] == GroupValues(ms[j])
  {
    seq(|ms|, j requires 0 <= j < |ms| => GroupValues(ms[j]))
  }

  /** The best of one match's values, folded from the last group back, from -1. */
  function GroupsMax(xs: seq<real>): (r: real)
    ensures r >= -1.0
  {
    if xs == [] then -1.0 else RMax(xs[0], GroupsMax(xs[1..]))
  }

  /** The best over all matches, match by match, from -1. */
  function MatchesMax(xss: seq<seq<real>>): (r: real)
    ensures r >= -1.0
  {
    if xss == [] then -1.0 else RMax(MatchesMax(xss[..|xss| - 1]), GroupsMax(xss[|xss| - 1]))
  }

  /** The best over the groups of one match. */
  function GroupsBest(gs: seq<string>): real
  {
    GroupsMax(GroupValues(gs))
  }

  /** The best over all groups of all matches. */
  function MatchesBest(ms: seq<seq<string>>): real
  {
    MatchesMax(MatchValues(ms))
  }

  lemma {:induction false} GroupsMaxIsMax(xs: seq<real>)
    ensures forall k | 0 <= k < |xs| :: xs[k] <= GroupsMax(xs)
    ensures GroupsMax(xs) == -1.0 || exists k | 0 <= k < |xs| :: xs[k] == GroupsMax(xs)
  {
    if xs != [] {
      GroupsMaxIsMax(xs[1..]);
      assert forall k | 1 <= k < |xs| :: xs[k] == xs[1..][k - 1];
    }
  }

  lemma {:induction false} MatchesMaxIsMax(xss: seq<seq<real>>)
    ensures forall j, k | 0 <= j < |xss| && 0 <= k < |xss[j]| :: xss[j][k] <= MatchesMax(xss)
    ensures MatchesMax(xss) == -1.0 ||
            exists j, k | 0 <= j < |xss| && 0 <= k < |xss[j]| :: xss[j][k] == MatchesMax(xss)
  {
    if xss != [] {
      var init, last := xss[..|xss| - 1], xss[|xss| - 1];
      MatchesMaxIsMax(init);
      GroupsMaxIsMax(last);
      assert forall j | 0 <= j < |init| :: xss[j] == init[j];
    }
  }

  /** MatchesBest is the largest counted group value over all matches, or -1. */
  lemma MatchesBestIsMax(ms: seq<seq<string>>)
    ensures forall j, k | 0 <= j < |ms| && 0 <= k < |ms[j]| :: GroupValue(ms[j][k]) <= MatchesBest(ms)
    ensures MatchesBest(ms) == -1.0 ||
            exists j, k | 0 <= j < |ms| && 0 <= k < |ms[j]| :: GroupValue(ms[j][k]) == MatchesBest(ms)
  {
    var xss := MatchValues(ms);
    MatchesMaxIsMax(xss);
    forall j, k | 0 <= j < |ms| && 0 <= k < |ms[j]| ensures GroupValue(ms[j][k]) <= MatchesBest(ms) {
      assert xss[j][k] == GroupValue(ms[j][k]);
    }
    if MatchesBest(ms) != -1.0 {
      var j, k :| 0 <= j < |xss| && 0 <= k < |xss[j]| && xss[j][k] == MatchesBest(ms);
      assert xss[j][k] == GroupValue(ms[j][k]);
    }
  }

  // ---------------------------------------------------------------- the built-in patterns

  const Keywords: seq<string> := ["chapter", "chap", "ch", "episode", "ep", "kapitel"]
  const UrlKeywords: seq<string> := ["chapter", "chap", "ch"]
  const QueryKeywords: seq<string> := ["chapter", "ch", "ep"]

  /** Keywords that are tried in order; each is non-empty and starts with a letter. */
  predicate KeywordList(kws: seq<string>)
  {
    forall k | 0 <= k < |kws| :: |kws[k]| > 0 && IsLetter(kws[k][0])
  }

  lemma KeywordListsOk()
    ensures KeywordList(Keywords) && KeywordList(UrlKeywords) && KeywordList(QueryKeywords)
  {
  }

  /** \w of the regex engine, for the letters this model folds. */
  predicate IsWordChar(c: char) { IsLetter(c) || IsDigit(c) || c == '_' }

  /** [\s\-_\/\[\(]: what may precede a keyword in the first pattern. */
  predicate IsLead(c: char) { IsWhiteSpace(c) || c == '-' || c == '_' || c == '/' || c == '[' || c == '(' }

  /** [:#\-]. */
  predicate IsGapSep(c: char) { c == ':' || c == '#' || c == '-' }

  /** [\/\-_]. */
  predicate IsPathSep(c: char) { c == '/' || c == '-' || c == '_' }

  /** \b right after a word character. */
  predicate BoundaryAt(t: string, e: nat)
  {
    e >= |t| || !IsWordChar(t[e])
  }

  /** \s*[:#\-]?\s* from k: the only place a following digit or letter can start. */
  function GapEnd(t: string, k: nat): (n: nat)
    requires k <= |t|
    ensures k <= n <= |t|
  {
    var w := RunEnd(t, k, IsWhiteSpace);
    if w < |t| && IsGapSep(t[w]) then RunEnd(t, w + 1, IsWhiteSpace) else w
  }

  /** \d+(?:\.\d+)? taken greedily at i; i itself when t[i] is not a digit. */
  function NumberEnd(t: string, i: nat): (e: nat)
    requires i <= |t|
    ensures i <= e <= |t|
    ensures e > i <==> i < |t| && IsDigit(t[i])
  {
    var d1 := RunEnd(t, i, IsDigit);
    if d1 == i then i
    else if d1 + 1 < |t| && t[d1] == '.' && IsDigit(t[d1 + 1]) then RunEnd(t, d1 + 1, IsDigit)
    else d1
  }

  /**
   * (\d+(?:\.\d+)?)\b at i: the greedy number when a boundary follows it,
   * otherwise its integer part (a '.' always ends a word).
   */
  function BoundedNumberEnd(t: string, i: nat): (r: Option<nat>)
    requires i <= |t|
    ensures r.Some? ==> i < r.value <= |t|
  {
    var d1 := RunEnd(t, i, IsDigit);
    var e := NumberEnd(t, i);
    if d1 == i then None
    else if BoundaryAt(t, e) then Some(e)
    else if e != d1 && BoundaryAt(t, d1) then Some(d1)
    else None
  }

  /** First pattern, from the keyword at q on: the capture of the first keyword that leads to a match. */
  function KeywordThenNumber(t: string, q: nat, kws: seq<string>): (r: Option<(nat, nat)>)
    requires q <= |t| && KeywordList(kws)
    ensures r.Some? ==> q < r.value.0 < r.value.1 <= |t| && IsLetter(t[q])
    decreases |kws|
  {
    if kws == [] then None
    else if HasAt(t, kws[0], q) then
      assert t[q] == kws[0][0];
      var n0 := GapEnd(t, q + |kws[0]|);
      match BoundedNumberEnd(t, n0)
      case Some(e) => Some((n0, e))
      case None => KeywordThenNumber(t, q, kws[1..])
    else KeywordThenNumber(t, q, kws[1..])
  }

  /**
   * Rule a, (?:^|[\s\-_\/\[\(])(?:chapter|chap|ch|episode|ep|kapitel)\s*[:#\-]?\s*(\d+(?:\.\d+)?)\b,
   * tried at p: the capture's bounds (the match ends with the capture).
   */
  function MatchA(t: string, p: nat): (r: Option<(nat, nat)>)
    requires p <= |t|
    ensures r.Some? ==> p <= r.value.0 < r.value.1 <= |t|
    ensures r.Some? ==> exists q | p <= q < |t| :: IsLetter(t[q])
  {
    KeywordListsOk();
    var atStart := if p == 0 then KeywordThenNumber(t, 0, Keywords) else None;
    if atStart.Some? then atStart
    else if p < |t| && IsLead(t[p]) then KeywordThenNumber(t, p + 1, Keywords)
    else None
  }

  /** Regex.Matches for rule a: the captures, scanning on from the end of each match. */
  function ScanA(t: string, p: nat): (caps: seq<string>)
    requires p <= |t|
    ensures caps != [] ==> exists q | p <= q < |t| :: IsLetter(t[q])
    decreases |t| - p
  {
    if p == |t| then []
    else
      match MatchA(t, p)
      case Some(cap) => [t[cap.0..cap.1]] + ScanA(t, cap.1)
      case None => ScanA(t, p + 1)
  }

  /** The first keyword at k that a word boundary follows: the end of the match. */
  function KeywordBounded(t: string, k: nat, kws: seq<string>): (r: Option<nat>)
    requires k <= |t| && KeywordList(kws)
    ensures r.Some? ==> k < r.value <= |t| && IsLetter(t[k])
    decreases |kws|
  {
    if kws == [] then None
    else if HasAt(t, kws[0], k) && BoundaryAt(t, k + |kws[0]|) then
      assert t[k] == kws[0][0];
      Some(k + |kws[0]|)
    else KeywordBounded(t, k, kws[1..])
  }

  /**
   * Rule b, \b(\d+(?:\.\d+)?)\s*[:#\-]?\s*(?:chapter|chap|ch|episode|ep|kapitel)\b,
   * tried at p: capture start, capture end and match end.
   */
  function MatchB(t: string, p: nat): (r: Option<(nat, nat, nat)>)
    requires p <= |t|
    ensures r.Some? ==> p == r.value.0 < r.value.1 <= r.value.2 <= |t| && p < r.value.2
    ensures r.Some? ==> exists q | p <= q < |t| :: IsLetter(t[q])
  {
    KeywordListsOk();
    if p < |t| && IsDigit(t[p]) && (p == 0 || !IsWordChar(t[p - 1])) then
      var e := NumberEnd(t, p);
      var k0 := GapEnd(t, e);
      match KeywordBounded(t, k0, Keywords)
      case Some(kend) => Some((p, e, kend))
      case None => None
    else None
  }

  function ScanB(t: string, p: nat): (caps: seq<string>)
    requires p <= |t|
    ensures caps != [] ==> exists q | p <= q < |t| :: IsLetter(t[q])
    decreases |t| - p
  {
    if p == |t| then []
    else
      match MatchB(t, p)
      case Some(m) => [t[m.0..m.1]] + ScanB(t, m.2)
      case None => ScanB(t, p + 1)
  }

  /** (?:[\/\-_]|$) after the number: the match end. */
  function PathTerminator(t: string, e: nat): (r: Option<nat>)
    requires e <= |t|
    ensures r.Some? ==> e <= r.value <= |t|
  {
    if e < |t| && IsPathSep(t[e]) then Some(e + 1)
    else if e == |t| || (e + 1 == |t| && t[e] == '\n') then Some(e)
    else None
  }

  /** Rule c from the keyword at q: capture start, capture end and match end. */
  function KeywordPathNumber(t: string, q: nat, kws: seq<string>): (r: Option<(nat, nat, nat)>)
    requires q <= |t| && KeywordList(kws)
    ensures r.Some? ==> q < r.value.0 < r.value.1 <= r.value.2 <= |t| && IsLetter(t[q])
    decreases |kws|
  {
    if kws == [] then None
    else if HasAt(t, kws[0], q) then
      assert t[q] == kws[0][0];
      var n0 := RunEnd(t, q + |kws[0]|, IsPathSep);
      var e := NumberEnd(t, n0);
      var term := PathTerminator(t, e);
      if e > n0 && term.Some? then Some((n0, e, term.value))
      else KeywordPathNumber(t, q, kws[1..])
    else KeywordPathNumber(t, q, kws[1..])
  }

  /** Rule c, (?:^|[\/\-_])(?:chapter|chap|ch)(?:[\/\-_]*)(\d+(?:\.\d+)?)(?:[\/\-_]|$), tried at p. */
  function MatchC(t: string, p: nat): (r: Option<(nat, nat, nat)>)
    requires p <= |t|
    ensures r.Some? ==> p <= r.value.0 < r.value.1 <= r.value.2 <= |t|
    ensures r.Some? ==> exists q | p <= q < |t| :: IsLetter(t[q])
  {
    KeywordListsOk();
    var atStart := if p == 0 then KeywordPathNumber(t, 0, UrlKeywords) else None;
    if atStart.Some? then atStart
    else if p < |t| && IsPathSep(t[p]) then KeywordPathNumber(t, p + 1, UrlKeywords)
    else None
  }

  function ScanC(t: string, p: nat): (caps: seq<string>)
    requires p <= |t|
    ensures caps != [] ==> exists q | p <= q < |t| :: IsLetter(t[q])
    decreases |t| - p
  {
    if p == |t| then []
    else
      match MatchC(t, p)
      case Some(m) => [t[m.0..m.1]] + ScanC(t, m.2)
      case None => ScanC(t, p + 1)
  }

  /** Rule d from the keyword at q: "kw=" and a number. */
  function KeywordEqualsNumber(t: string, q: nat, kws: seq<string>): (r: Option<(nat, nat)>)
    requires q <= |t| && KeywordList(kws)
    ensures r.Some? ==> q < r.value.0 < r.value.1 <= |t| && IsLetter(t[q])
    decreases |kws|
  {
    if kws == [] then None
    else
      var k := q + |kws[0]|;
      if HasAt(t, kws[0], q) && k < |t| && t[k] == '=' && NumberEnd(t, k + 1) > k + 1 then
        assert t[q] == kws[0][0];
        Some((k + 1, NumberEnd(t, k + 1)))
      else KeywordEqualsNumber(t, q, kws[1..])
  }

  /** Rule d, [?&](?:chapter|ch|ep)=(\d+(?:\.\d+)?), tried at p. */
  function MatchD(t: string, p: nat): (r: Option<(nat, nat)>)
    requires p <= |t|
    ensures r.Some? ==> p < r.value.0 < r.value.1 <= |t|
    ensures r.Some? ==> exists q | p <= q < |t| :: IsLetter(t[q])
  {
    KeywordListsOk();
    if p < |t| && (t[p] == '?' || t[p] == '&') then KeywordEqualsNumber(t, p + 1, QueryKeywords) else None
  }

  /** Regex.Match for rule d: the capture of the leftmost match. */
  function FirstD(t: string, p: nat): (cap: Option<string>)
    requires p <= |t|
    ensures cap.Some? ==> exists q | p <= q < |t| :: IsLetter(t[q])
    decreases |t| - p
  {
    if p == |t| then None
    else
      match MatchD(t, p)
      case Some(m) => Some(t[m.0..m.1])
      case None => FirstD(t, p + 1)
  }

  // ---------------------------------------------------------------- the ladder

  /** Rules a to d on the lower-cased text: the first rule with a valid value wins. */
  function BuiltIn(t: string): Option<real>
  {
    var a := BestOf(ScanA(t, 0));
    var b := BestOf(ScanB(t, 0));
    var c := BestOf(ScanC(t, 0));
    if a > 0.0 then Some(a)
    else if b > 0.0 then Some(b)
    else if c > 0.0 then Some(c)
    else
      match FirstD(t, 0)
      case Some(cap) => TryNum(cap)
      case None => None
  }

  /** ParseChapterNumber(input, customRegex, strictOnly) as a value. */
  function ChapterNumber(input: string, custom: Option<CustomRegex>, strictOnly: bool): Option<real>
  {
    if IsBlank(input) then None
    else if HasCustom(custom) && MatchesBest(custom.value.matches(input)) > 0.0 then
      Some(MatchesBest(custom.value.matches(input)))
    else if HasCustom(custom) && strictOnly && |custom.value.matches(input)| == 0 then None
    else BuiltIn(Lower(input))
  }

  /** The custom-expression loops: best over every group of every match, from -1. */
  method CustomBest(ms: seq<seq<string>>) returns (best: real)
    ensures best == MatchesBest(ms)
  {
    best := -1.0;
    for j := 0 to |ms|
      invariant best == MatchesBest(ms[..j])
    {
      var gs := ms[j];
      var i := |gs|;
      while i > 0
        invariant 0 <= i <= |gs|
        invariant best == RMax(MatchesBest(ms[..j]), GroupsBest(gs[i..]))
      {
        i := i - 1;
        assert GroupValues(gs[i..]) == [GroupValue(gs[i])] + GroupValues(gs[i + 1..]);
        var g := gs[i];
        if !IsBlank(g) && ParseDouble(g).Some? {
          best := RMax(best, ParseDouble(g).value);
        }
      }
      assert MatchValues(ms[..j + 1])[..j] == MatchValues(ms[..j]);
    }
    assert ms[..|ms|] == ms;
  }

  /** One built-in rule's loop: best over the captures that pass TryNum, from -1. */
  method RuleBest(caps: seq<string>) returns (best: real)
    ensures best == BestOf(caps)
  {
    best := -1.0;
    ghost var vs := Values(caps);
    for i := 0 to |caps|
      invariant best == BestValue(vs[..i])
    {
      assert vs[..i + 1][..i] == vs[..i];
      var d := TryNum(caps[i]);
      assert vs[i] == d;
      if d.Some? {
        best := RMax(best, d.value);
      }
    }
    assert vs[..|caps|] == vs;
  }

  /**
   * ParseChapterNumber: the custom expression's best group value when it is
   * positive, nothing on a strict call without custom matches, otherwise the
   * built-in rules in order.
   */
  method ParseChapterNumber(input: string, custom: Option<CustomRegex>, strictOnly: bool) returns (r: Option<real>)
    ensures r == ChapterNumber(input, custom, strictOnly)
  {
    if IsBlank(input) {
      return None;
    }
    if custom.Some? && !IsBlank(custom.value.pattern) {
      var ms := custom.value.matches(input);
      var best := CustomBest(ms);
      if best > 0.0 {
        return Some(best);
      }
      if strictOnly && |ms| == 0 {
        return None;
      }
    }
    var t := Lower(input);
    var a := RuleBest(ScanA(t, 0));
    if a > 0.0 {
      return Some(a);
    }
    var b := RuleBest(ScanB(t, 0));
    if b > 0.0 {
      return Some(b);
    }
    var c := RuleBest(ScanC(t, 0));
    if c > 0.0 {
      return Some(c);
    }
    var m := FirstD(t, 0);
    if m.Some? {
      return TryNum(m.value);
    }
    return None;
  }

  // ---------------------------------------------------------------- properties

  /** Without a custom expression every value lies in (0, 20000]; any value is positive. */
  lemma ChapterNumberBounds(input: string, custom: Option<CustomRegex>, strictOnly: bool)
    ensures ChapterNumber(input, custom, strictOnly).Some? ==> ChapterNumber(input, custom, strictOnly).value > 0.0
    ensures !HasCustom(custom) && ChapterNumber(input, custom, strictOnly).Some? ==>
              ChapterNumber(input, custom, strictOnly).value <= 20000.0
  {
    var t := Lower(input);
    BestOfIsMax(ScanA(t, 0));
    BestOfIsMax(ScanB(t, 0));
    BestOfIsMax(ScanC(t, 0));
  }

  /** A text without letters never yields a chapter from the built-in rules: no bare-number fallback. */
  lemma NoKeywordNoChapter(input: string, custom: Option<CustomRegex>, strictOnly: bool)
    requires forall k | 0 <= k < |input| :: !IsLetter(input[k])
    requires !HasCustom(custom)
    ensures ChapterNumber(input, custom, strictOnly) == None
  {
    var t := Lower(input);
    assert forall k | 0 <= k < |t| :: !IsLetter(t[k]);
  }

  /** "2025" alone is not a chapter. */
  lemma BareYearIsNotAChapter()
    ensures ChapterNumber("2025", None, false) == None
    ensures ChapterNumber("2025", None, true) == None
  {
    NoKeywordNoChapter("2025", None, false);
    NoKeywordNoChapter("2025", None, true);
  }

  /** A positive custom value is returned as it is, beyond 20000 too. */
  lemma CustomValueUncapped(input: string, custom: Option<CustomRegex>, strictOnly: bool)
    requires !IsBlank(input) && HasCustom(custom)
    requires MatchesBest(custom.value.matches(input)) > 0.0
    ensures ChapterNumber(input, custom, strictOnly) == Some(MatchesBest(custom.value.matches(input)))
    ensures var r := ChapterNumber(input, custom, strictOnly).value;
            exists j, k | 0 <= j < |custom.value.matches(input)| && 0 <= k < |custom.value.matches(input)[j]| ::
              !IsBlank(custom.value.matches(input)[j][k]) && ParseDouble(custom.value.matches(input)[j][k]) == Some(r)
  {
    MatchesBestIsMax(custom.value.matches(input));
  }

  /** A strict call whose custom expression does not match at all yields nothing, whatever the built-in rules say. */
  lemma StrictWithoutCustomMatchIsNone(input: string, custom: Option<CustomRegex>)
    requires HasCustom(custom) && custom.value.matches(input) == []
    ensures ChapterNumber(input, custom, true) == None
  {
  }

  /** Custom matches without a positive value fall through to the built-in rules. */
  lemma CustomWithoutValueFallsThrough(input: string, custom: Option<CustomRegex>, strictOnly: bool)
    requires !IsBlank(input) && HasCustom(custom)
    requires custom.value.matches(input) != []
    requires forall j, k | 0 <= j < |custom.value.matches(input)| && 0 <= k < |custom.value.matches(input)[j]| ::
               GroupValue(custom.value.matches(input)[j][k]) <= 0.0
    ensures ChapterNumber(input, custom, strictOnly) == ChapterNumber(input, None, strictOnly)
  {
    MatchesBestIsMax(custom.value.matches(input));
  }

  /** Rule a decides whenever it yields a valid value, and then returns its largest one. */
  lemma FirstRuleWins(input: string)
    requires !IsBlank(input)
    requires exists k | 0 <= k < |ScanA(Lower(input), 0)| :: TryNum(ScanA(Lower(input), 0)[k]).Some?
    ensures var caps := ScanA(Lower(input), 0);
            var r := ChapterNumber(input, None, true);
            r.Some? && (exists k | 0 <= k < |caps| :: TryNum(caps[k]) == r) &&
            forall k | 0 <= k < |caps| :: TryNum(caps[k]).Some? ==> TryNum(caps[k]).value <= r.value
  {
    BestOfIsMax(ScanA(Lower(input), 0));
  }

  /** Whether some capture of a rule gives a valid value. */
  predicate HasValid(caps: seq<string>)
  {
    exists k | 0 <= k < |caps| :: TryNum(caps[k]).Some?
  }

  /** r is the largest valid value among the captures. */
  predicate IsLargestValid(caps: seq<string>, r: Option<real>)
  {
    r.Some? && (exists k | 0 <= k < |caps| :: TryNum(caps[k]) == r) &&
    forall k | 0 <= k < |caps| :: TryNum(caps[k]).Some? ==> TryNum(caps[k]).value <= r.value
  }

  /** Rule b decides when rule a yields no valid value and it does, and then returns its largest one. */
  lemma SecondRuleWins(input: string)
    requires !IsBlank(input)
    requires !HasValid(ScanA(Lower(input), 0))
    requires HasValid(ScanB(Lower(input), 0))
    ensures IsLargestValid(ScanB(Lower(input), 0), ChapterNumber(input, None, true))
  {
    BestOfIsMax(ScanA(Lower(input), 0));
    BestOfIsMax(ScanB(Lower(input), 0));
  }

  /** Rule c decides when rules a and b yield no valid value and it does, and then returns its largest one. */
  lemma ThirdRuleWins(input: string)
    requires !IsBlank(input)
    requires !HasValid(ScanA(Lower(input), 0)) && !HasValid(ScanB(Lower(input), 0))
    requires HasValid(ScanC(Lower(input), 0))
    ensures IsLargestValid(ScanC(Lower(input), 0), ChapterNumber(input, None, true))
  {
    BestOfIsMax(ScanA(Lower(input), 0));
    BestOfIsMax(ScanB(Lower(input), 0));
    BestOfIsMax(ScanC(Lower(input), 0));
  }

  /** q is the leftmost position from p on where rule d matches. */
  predicate LeftmostD(t: string, p: nat, q: nat)
  {
    p <= q < |t| && MatchD(t, q).Some? && forall q' | p <= q' < q :: MatchD(t, q').None?
  }

  /** The capture rule d finds at q. */
  function CaptureD(t: string, q: nat): string
    requires q < |t| && MatchD(t, q).Some?
  {
    t[MatchD(t, q).value.0..MatchD(t, q).value.1]
  }

  /** One step of Regex.Match for rule d: a match at p is taken, otherwise the search moves on. */
  lemma FirstDStep(t: string, p: nat)
    requires p < |t|
    ensures MatchD(t, p).Some? ==> FirstD(t, p) == Some(CaptureD(t, p))
    ensures MatchD(t, p).None? ==> FirstD(t, p) == FirstD(t, p + 1)
  {
  }

  /** Regex.Match for rule d takes the capture of the leftmost match. */
  lemma {:induction false} FirstDAtLeftmost(t: string, p: nat, q: nat)
    requires LeftmostD(t, p, q)
    ensures FirstD(t, p) == Some(CaptureD(t, q))
    decreases q - p
  {
    FirstDStep(t, p);
    if p < q {
      LeftmostDNext(t, p, q);
      FirstDAtLeftmost(t, p + 1, q);
    }
  }

  lemma LeftmostDNext(t: string, p: nat, q: nat)
    requires LeftmostD(t, p, q) && p < q
    ensures MatchD(t, p).None? && LeftmostD(t, p + 1, q)
  {
  }

  /** Regex.Match for rule d finds nothing where rule d matches nowhere. */
  lemma {:induction false} FirstDWithoutMatch(t: string, p: nat)
    requires p <= |t|
    requires forall q | p <= q < |t| :: MatchD(t, q).None?
    ensures FirstD(t, p) == None
    decreases |t| - p
  {
    if p < |t| {
      FirstDStep(t, p);
      FirstDWithoutMatch(t, p + 1);
    }
  }

  /**
   * When rules a, b and c yield no valid value, rule d decides: the value of
   * the capture of its leftmost match, or nothing when it does not match.
   */
  lemma FourthRuleTakesFirstMatch(input: string)
    requires !IsBlank(input)
    requires !HasValid(ScanA(Lower(input), 0)) && !HasValid(ScanB(Lower(input), 0)) && !HasValid(ScanC(Lower(input), 0))
    ensures var t := Lower(input);
            forall q | LeftmostD(t, 0, q) :: ChapterNumber(input, None, true) == TryNum(CaptureD(t, q))
    ensures var t := Lower(input);
            (forall q | 0 <= q < |t| :: MatchD(t, q).None?) ==> ChapterNumber(input, None, true) == None
  {
    var t := Lower(input);
    BestOfIsMax(ScanA(t, 0));
    BestOfIsMax(ScanB(t, 0));
    BestOfIsMax(ScanC(t, 0));
    forall q | LeftmostD(t, 0, q) ensures ChapterNumber(input, None, true) == TryNum(CaptureD(t, q)) {
      FirstDAtLeftmost(t, 0, q);
    }
    if forall q | 0 <= q < |t| :: MatchD(t, q).None? {
      FirstDWithoutMatch(t, 0);
    }
  }

  /** "Chapter 12" reads as chapter 12 through the first rule. */
  lemma ChapterTwelve()
    ensures ChapterNumber("Chapter 12", None, true) == Some(12.0)
  {
    var s := "Chapter 12";
    assert !IsBlank(s) by {
      assert !IsWhiteSpace(s[0]);
    }
    assert ChapterNumber(s, None, true) == BuiltIn(Lower(s));
    LowerTwelve();
    BuiltInTwelve();
  }

  lemma BuiltInTwelve()
    ensures BuiltIn("chapter 12") == Some(12.0)
  {
    assert BestOf(ScanA("chapter 12", 0)) == 12.0 by {
      ScanTwelve();
      ParseTwelve();
      assert Values(["12"]) == [Some(12.0)];
      assert BestValue([Some(12.0)]) == 12.0;
    }
  }

  lemma LowerTwelve()
    ensures Lower("Chapter 12") == "chapter 12"
  {
  }

  lemma ScanTwelve()
    ensures ScanA("chapter 12", 0) == ["12"]
  {
    var t := "chapter 12";
    assert HasAt(t, "chapter", 0);
    assert GapEnd(t, 7) == 8;
    assert RunEnd(t, 8, IsDigit) == 10;
    assert NumberEnd(t, 8) == 10;
    assert BoundedNumberEnd(t, 8) == Some(10);
    assert KeywordThenNumber(t, 0, Keywords) == Some((8, 10));
    assert MatchA(t, 0) == Some((8, 10));
    assert t[8..10] == "12";
  }

  lemma ParseTwelve()
    ensures ParseDouble("12") == Some(12.0)
  {
    var u := "12";
    assert RunEnd(u, 0, IsNumberWhite) == 0;
    assert RunStartBack(u, 0, 2, IsNumberWhite) == 2;
    assert u[0..2] == u;
    assert RunEnd(u, 0, IsDigit) == 2;
    assert RunValue(u, 0, 2) == 12;
    assert ParseUnsigned(u) == Some(12.0);
  }
}
