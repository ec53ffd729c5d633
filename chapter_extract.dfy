/**
 * ExtractLatestChapter (MainWindow): the latest chapter named on a series
 * page. The nodes of a custom selector (when one is set) and of six fixed
 * selectors are visited in turn; every link that belongs to the same series
 * and names a chapter in its text (or else in its address) adds a candidate,
 * and the largest candidate is the result.
 *
 * Selector evaluation is not modelled: a document is the list of nodes each
 * selector picks, and a selector absent from it selects nothing.
 */
module ChapterExtract {
  import opened Text
  import opened Urls
  import opened ChapterParse

  /** An element the selector picked: its href attribute ("" when absent) and its inner text. */
  datatype Node = Node(href: string, text: string)

  type Document = map<string, seq<Node>>

  /** The fixed chapter-container selectors, in the order they are tried. */
  const FixedXPaths: seq<string> := [
    "//li[contains(@class,'wp-manga-chapter')]//a",
    "//div[contains(@class,'chapter-list')]//a",
    "//div[contains(@class,'listing-chapters_wrap')]//a",
    "//div[contains(@class,'eplist')]//a",
    "//div[contains(@class,'chapters') or contains(@class,'list')]//a",
    "//a[contains(translate(@href,'CHAPTER','chapter'),'chapter') or contains(translate(normalize-space(.),'CHAPTER','chapter'),'chapter')]"
  ]

  /** SelectNodes: the picked nodes; null and an empty collection both add nothing. */
  function Selected(doc: Document, xpath: string): seq<Node>
  {
    if xpath in doc then doc[xpath] else []
  }

  // ---------------------------------------------------------------- the same-series filter

  /** [\-_]?\d at k of the lower-cased path. */
  predicate DigitAfterTag(lp: string, k: nat)
  {
    k < |lp| && (IsDigit(lp[k]) || ((lp[k] == '-' || lp[k] == '_') && k + 1 < |lp| && IsDigit(lp[k + 1])))
  }

  /** (?:ch|chap|chapter)[\-_]?\d at j; IsMatch succeeds if any alternative does. */
  predicate ChapterTagAt(lp: string, j: nat)
  {
    (HasAt(lp, "ch", j) && DigitAfterTag(lp, j + 2))
    || (HasAt(lp, "chap", j) && DigitAfterTag(lp, j + 4))
    || (HasAt(lp, "chapter", j) && DigitAfterTag(lp, j + 7))
  }

  /** Regex.IsMatch(path, @"[\/\-_](?:ch|chap|chapter)[\-_]?\d", IgnoreCase). */
  predicate ChapterPathMatch(path: string)
  {
    var lp := Lower(path);
    exists i | 0 <= i < |lp| :: IsPathSep(lp[i]) && ChapterTagAt(lp, i + 1)
  }

  /**
   * IsSameSeriesChapterLink: without a page address or href every link passes;
   * otherwise the resolved link must be on the page's host, below the page's
   * path, and look like a chapter address. Where a Uri cannot be built the
   * exception is caught and the link fails.
   */
  function IsSameSeriesChapterLink(pageUrl: Option<string>, href: string): bool
  {
    if pageUrl.None? || IsBlank(pageUrl.value) || IsBlank(href) then true
    else
      match ParseAbsolute(pageUrl.value)
      case None => false
      case Some(page) =>
        match Resolve(page, href)
        case None => false
        case Some(abs) =>
          if !EqIgnoreCase(abs.host, page.host) then false
          else
            var prefix := TrimEndChar(page.path, '/') + "/";
            var path := abs.path;
            var sameSeries := StartsWithIgnoreCase(path, prefix);
            // IndexOf with a start index beyond the string throws, and the catch says false.
            if |prefix| > |path| then false
            else sameSeries && (IndexOf(Lower(path), "/chapter", |prefix|) >= 0 || ChapterPathMatch(path))
  }

  /** A link passes the filter with a page address only when it stays on its host and below its path. */
  lemma SameSeriesNeedsHostAndPrefix(pageUrl: string, href: string)
    requires !IsBlank(pageUrl) && !IsBlank(href)
    requires IsSameSeriesChapterLink(Some(pageUrl), href)
    ensures ParseAbsolute(pageUrl).Some?
    ensures var page := ParseAbsolute(pageUrl).value;
            Resolve(page, href).Some? &&
            EqIgnoreCase(Resolve(page, href).value.host, page.host) &&
            StartsWithIgnoreCase(Resolve(page, href).value.path, TrimEndChar(page.path, '/') + "/") &&
            (Contains(Lower(Resolve(page, href).value.path), "/chapter") || ChapterPathMatch(Resolve(page, href).value.path))
  {
    var page := ParseAbsolute(pageUrl).value;
    var path := Resolve(page, href).value.path;
    var i := IndexOf(Lower(path), "/chapter", |TrimEndChar(page.path, '/') + "/"|);
    if i >= 0 {
      assert HasAt(Lower(path), "/chapter", i);
    }
  }

  /** Nothing is filtered out without a page address or without an href. */
  lemma NoPageUrlKeepsEveryLink(pageUrl: Option<string>, href: string)
    ensures pageUrl.None? || IsBlank(pageUrl.value) || IsBlank(href) ==> IsSameSeriesChapterLink(pageUrl, href)
  {
  }

  // ---------------------------------------------------------------- candidates

  /**
   * The candidate a node adds: the strict reading of its text, or else of its
   * href, when it lies in (0, 20000].
   */
  function NodeValue(n: Node, custom: Option<CustomRegex>): (r: Option<real>)
    ensures r.Some? ==> 0.0 < r.value <= 20000.0
  {
    var v := ChapterNumber(n.text, custom, true);
    var v2 := if v.Some? then v else ChapterNumber(n.href, custom, true);
    if v2.Some? && 0.0 < v2.value <= 20000.0 then v2 else None
  }

  /** The text goes first: a text that reads as a chapter in range decides, whatever the href says. */
  lemma TextBeforeHref(n: Node, custom: Option<CustomRegex>)
    requires ChapterNumber(n.text, custom, true).Some?
    ensures NodeValue(n, custom).Some? <==> 0.0 < ChapterNumber(n.text, custom, true).value <= 20000.0
    ensures NodeValue(n, custom).Some? ==> NodeValue(n, custom) == ChapterNumber(n.text, custom, true)
  {
  }

  /** The candidate a node adds once the filter is applied. */
  function Candidate(n: Node, pageUrl: Option<string>, custom: Option<CustomRegex>): Option<real>
  {
    if IsSameSeriesChapterLink(pageUrl, n.href) then NodeValue(n, custom) else None
  }

  function CandidateOf(pageUrl: Option<string>, custom: Option<CustomRegex>): Node -> Option<real>
  {
    n => Candidate(n, pageUrl, custom)
  }

  /** The values the nodes have, in node order, with the nodes without one left out. */
  function Kept(nodes: seq<Node>, value: Node -> Option<real>): seq<real>
  {
    if nodes == [] then []
    else
      var prev := Kept(nodes[..|nodes| - 1], value);
      match value(nodes[|nodes| - 1])
      case Some(v) => prev + [v]
      case None => prev
  }

  lemma {:induction false} KeptSound(nodes: seq<Node>, value: Node -> Option<real>, c: real)
    ensures c in Kept(nodes, value) <==> exists k | 0 <= k < |nodes| :: value(nodes[k]) == Some(c)
  {
    if nodes != [] {
      var init := nodes[..|nodes| - 1];
      KeptSound(init, value, c);
      if exists k | 0 <= k < |nodes| :: value(nodes[k]) == Some(c) {
        var k :| 0 <= k < |nodes| && value(nodes[k]) == Some(c);
        if k < |init| {
          assert init[k] == nodes[k];
        }
      }
      if c in Kept(init, value) {
        var k :| 0 <= k < |init| && value(init[k]) == Some(c);
        assert nodes[k] == init[k];
      }
    }
  }

  /** AddFromNodes: every candidate comes from a node that passed the filter, and every such node adds its value. */
  lemma NodeCandidatesSound(nodes: seq<Node>, pageUrl: Option<string>, custom: Option<CustomRegex>, c: real)
    ensures c in Kept(nodes, CandidateOf(pageUrl, custom)) <==>
            exists k | 0 <= k < |nodes| :: IsSameSeriesChapterLink(pageUrl, nodes[k].href) && NodeValue(nodes[k], custom) == Some(c)
  {
    var f := CandidateOf(pageUrl, custom);
    KeptSound(nodes, f, c);
    assert forall k | 0 <= k < |nodes| :: f(nodes[k]) == Candidate(nodes[k], pageUrl, custom);
  }

  /** The selectors visited: the custom one when it is not blank, then the fixed ones. */
  function Selectors(customXPath: Option<string>): seq<string>
  {
    (if customXPath.Some? && !IsBlank(customXPath.value) then [customXPath.value] else []) + FixedXPaths
  }

  /** The pooled values of a list of selectors, in visiting order. */
  function Pooled(doc: Document, xpaths: seq<string>, value: Node -> Option<real>): seq<real>
  {
    if xpaths == [] then []
    else Pooled(doc, xpaths[..|xpaths| - 1], value) + Kept(Selected(doc, xpaths[|xpaths| - 1]), value)
  }

  function Candidates(doc: Document, customXPath: Option<string>, pageUrl: Option<string>, custom: Option<CustomRegex>): seq<real>
  {
    Pooled(doc, Selectors(customXPath), CandidateOf(pageUrl, custom))
  }

  /** Pooled values are values some node has. */
  lemma {:induction false} PooledFromNodes(doc: Document, xpaths: seq<string>, value: Node -> Option<real>, c: real)
    requires c in Pooled(doc, xpaths, value)
    ensures exists n :: value(n) == Some(c)
  {
    if xpaths != [] {
      var nodes := Selected(doc, xpaths[|xpaths| - 1]);
      if c in Kept(nodes, value) {
        KeptSound(nodes, value, c);
        var k :| 0 <= k < |nodes| && value(nodes[k]) == Some(c);
      } else {
        PooledFromNodes(doc, xpaths[..|xpaths| - 1], value, c);
      }
    }
  }

  /** Every pooled candidate lies in (0, 20000]. */
  lemma PooledInRange(doc: Document, customXPath: Option<string>, pageUrl: Option<string>, custom: Option<CustomRegex>)
    ensures forall c | c in Candidates(doc, customXPath, pageUrl, custom) :: 0.0 < c <= 20000.0
  {
    forall c | c in Candidates(doc, customXPath, pageUrl, custom) ensures 0.0 < c <= 20000.0 {
      var f := CandidateOf(pageUrl, custom);
      PooledFromNodes(doc, Selectors(customXPath), f, c);
      var n :| f(n) == Some(c);
      assert Candidate(n, pageUrl, custom) == Some(c);
    }
  }

  /** Pooling splits over a list of selectors: the values of the first part come first. */
  lemma {:induction false} PooledAppend(doc: Document, a: seq<string>, b: seq<string>, value: Node -> Option<real>)
    ensures Pooled(doc, a + b, value) == Pooled(doc, a, value) + Pooled(doc, b, value)
    decreases |b|
  {
    if b == [] {
      assert a + b == a;
    } else {
      var b0 := b[..|b| - 1];
      PooledAppend(doc, a, b0, value);
      assert (a + b)[..|a + b| - 1] == a + b0;
      assert (a + b)[|a + b| - 1] == b[|b| - 1];
    }
  }

  /** One selector after others: its values come last. */
  lemma PooledSnoc(doc: Document, xs: seq<string>, x: string, value: Node -> Option<real>)
    ensures Pooled(doc, xs + [x], value) == Pooled(doc, xs, value) + Kept(Selected(doc, x), value)
  {
    assert (xs + [x])[..|xs|] == xs;
  }

  /** One turn of the loop over a list of selectors. */
  lemma PooledStep(doc: Document, xps: seq<string>, j: nat, value: Node -> Option<real>,
                   candidates: seq<real>, r: seq<real>, r': seq<real>)
    requires j < |xps|
    requires r == candidates + Pooled(doc, xps[..j], value)
    requires r' == r + Kept(Selected(doc, xps[j]), value)
    ensures r' == candidates + Pooled(doc, xps[..j + 1], value)
  {
    assert xps[..j + 1] == xps[..j] + [xps[j]];
    PooledSnoc(doc, xps[..j], xps[j], value);
  }

  /** One selector in front of others: its values come first. */
  lemma PooledCons(doc: Document, x: string, rest: seq<string>, value: Node -> Option<real>)
    ensures Pooled(doc, [x] + rest, value) == Kept(Selected(doc, x), value) + Pooled(doc, rest, value)
  {
    PooledAppend(doc, [x], rest, value);
    assert [x][..0] == [];
  }

  /** The custom selector's candidates are pooled with the fixed ones, not returned on their own. */
  lemma CustomSelectorPooled(doc: Document, xpath: string, pageUrl: Option<string>, custom: Option<CustomRegex>)
    requires !IsBlank(xpath)
    ensures Candidates(doc, Some(xpath), pageUrl, custom) ==
            Kept(Selected(doc, xpath), CandidateOf(pageUrl, custom)) + Candidates(doc, None, pageUrl, custom)
  {
    PooledCons(doc, xpath, FixedXPaths, CandidateOf(pageUrl, custom));
    assert Selectors(Some(xpath)) == [xpath] + FixedXPaths;
    assert Selectors(None) == FixedXPaths;
  }

  /** A missing or blank custom selector is not visited. */
  lemma BlankCustomSelectorIgnored(doc: Document, customXPath: Option<string>, pageUrl: Option<string>, custom: Option<CustomRegex>)
    requires customXPath.None? || IsBlank(customXPath.value)
    ensures Candidates(doc, customXPath, pageUrl, custom) == Candidates(doc, None, pageUrl, custom)
  {
    assert Selectors(customXPath) == Selectors(None);
  }

  /** The largest element of a non-empty list (Enumerable.Max). */
  function SeqMax(s: seq<real>): real
    requires |s| > 0
  {
    if |s| == 1 then s[0] else RMax(SeqMax(s[..|s| - 1]), s[|s| - 1])
  }

  lemma {:induction false} SeqMaxIsMax(s: seq<real>)
    requires |s| > 0
    ensures SeqMax(s) in s
    ensures forall x | x in s :: x <= SeqMax(s)
  {
    if |s| > 1 {
      var init := s[..|s| - 1];
      SeqMaxIsMax(init);
      assert s == init + [s[|s| - 1]];
    }
  }

  /** ExtractLatestChapter as a value: null without candidates, otherwise their maximum. */
  function LatestChapter(doc: Document, customXPath: Option<string>, pageUrl: Option<string>, custom: Option<CustomRegex>): Option<real>
  {
    var cs := Candidates(doc, customXPath, pageUrl, custom);
    if cs == [] then None else Some(SeqMax(cs))
  }

  /** The result is null exactly without candidates, and otherwise the largest one, in (0, 20000]. */
  lemma LatestChapterIsMax(doc: Document, customXPath: Option<string>, pageUrl: Option<string>, custom: Option<CustomRegex>)
    ensures var r := LatestChapter(doc, customXPath, pageUrl, custom);
            var cs := Candidates(doc, customXPath, pageUrl, custom);
            (r.None? <==> cs == []) &&
            (r.Some? ==> r.value in cs && (forall c | c in cs :: c <= r.value) && 0.0 < r.value <= 20000.0)
  {
    var cs := Candidates(doc, customXPath, pageUrl, custom);
    PooledInRange(doc, customXPath, pageUrl, custom);
    if cs != [] {
      SeqMaxIsMax(cs);
    }
  }

  // ---------------------------------------------------------------- the method

  /** AddFromNodes: append the candidate of every node that passes the filter. */
  method AddFromNodes(candidates: seq<real>, nodes: seq<Node>, pageUrl: Option<string>, custom: Option<CustomRegex>)
    returns (r: seq<real>)
    ensures r == candidates + Kept(nodes, CandidateOf(pageUrl, custom))
  {
    r := candidates;
    ghost var f := CandidateOf(pageUrl, custom);
    for i := 0 to |nodes|
      invariant r == candidates + Kept(nodes[..i], f)
    {
      assert nodes[..i + 1][..i] == nodes[..i];
      assert f(nodes[i]) == Candidate(nodes[i], pageUrl, custom);
      var n := nodes[i];
      if !IsSameSeriesChapterLink(pageUrl, n.href) {
        continue;
      }
      var v := ParseChapterNumber(n.text, custom, true);
      if v.None? {
        v := ParseChapterNumber(n.href, custom, true);
      }
      if v.Some? && 0.0 < v.value <= 20000.0 {
        r := r + [v.value];
      }
    }
    assert nodes[..|nodes|] == nodes;
  }

  /** The loop over the fixed selectors. */
  method AddFromFixed(candidates: seq<real>, doc: Document, customRegex: Option<CustomRegex>, pageUrl: Option<string>)
    returns (r: seq<real>)
    ensures r == candidates + Candidates(doc, None, pageUrl, customRegex)
  {
    ghost var f := CandidateOf(pageUrl, customRegex);
    r := candidates;
    var xps := FixedXPaths;
    for j := 0 to |xps|
      invariant r == candidates + Pooled(doc, xps[..j], f)
    {
      var r' := AddFromNodes(r, Selected(doc, xps[j]), pageUrl, customRegex);
      PooledStep(doc, xps, j, f, candidates, r, r');
      r := r';
    }
    assert xps[..|xps|] == xps;
    assert Selectors(None) == FixedXPaths;
  }

  method ExtractLatestChapter(doc: Document, customXPath: Option<string>, customRegex: Option<CustomRegex>, pageUrl: Option<string>)
    returns (r: Option<real>)
    ensures r == LatestChapter(doc, customXPath, pageUrl, customRegex)
  {
    var candidates: seq<real> := [];
    if customXPath.Some? && !IsBlank(customXPath.value) {
      candidates := AddFromNodes(candidates, Selected(doc, customXPath.value), pageUrl, customRegex);
      CustomSelectorPooled(doc, customXPath.value, pageUrl, customRegex);
      assert [] + Kept(Selected(doc, customXPath.value), CandidateOf(pageUrl, customRegex)) ==
             Kept(Selected(doc, customXPath.value), CandidateOf(pageUrl, customRegex));
    } else {
      BlankCustomSelectorIgnored(doc, customXPath, pageUrl, customRegex);
    }
    candidates := AddFromFixed(candidates, doc, customRegex, pageUrl);
    assert candidates == Candidates(doc, customXPath, pageUrl, customRegex);
    if |candidates| == 0 {
      return None;
    }
    return Some(SeqMax(candidates));
  }
}
