/**
 * Opening the stored chapter of a series: find the link for exactly that
 * chapter on the series page (TryResolveChapterUrlAsync), fall back to the
 * chapter template, and give up rather than open some other chapter.
 */
module ChapterLink {
  import opened Text
  import opened Urls
  import opened Entry
  import opened HostStrategy
  import opened ChapterExtract
  import opened UpdateScan

  /** The Madara chapter list; when it selects nothing every anchor is used. */
  const MadaraChapterLinks := "//li[contains(@class,'wp-manga-chapter')]//a"
  const AllLinks := "//a"

  /** The separator class [-_/\s] between keyword and number. */
  predicate IsLinkSep(c: char)
  {
    c == '-' || c == '_' || c == '/' || IsWhiteSpace(c)
  }

  /** The keyword (chapter|ch) at i ends at k. */
  predicate KeywordEndsAt(t: string, i: int, k: int)
  {
    (k == i + 7 && HasAt(t, "chapter", i)) || (k == i + 2 && HasAt(t, "ch", i))
  }

  /**
   * One match of (?<!\d)(?:chapter|ch)[-_/\s]*want(?!\d) in the lower-cased
   * text t: keyword from i to k, separators from k to j, want from j on.
   */
  predicate ExactAt(t: string, want: string, i: int, k: int, j: int)
  {
    0 <= i <= k <= j && HasAt(t, want, j)
    && (i == 0 || !IsDigit(t[i - 1]))
    && KeywordEndsAt(t, i, k)
    && (forall p | k <= p < j :: IsLinkSep(t[p]))
    && (j + |want| == |t| || !IsDigit(t[j + |want|]))
  }

  /** Regex.IsMatch with IgnoreCase: some match anywhere in the text. */
  predicate ExactMatch(s: string, want: string)
  {
    var t := Lower(s);
    exists i, k, j | 0 <= i <= k <= j <= |t| :: ExactAt(t, want, i, k, j)
  }

  /** What ToAbsoluteUri gives: an absolute address, or the href kept as a relative one. */
  datatype Link = AbsoluteLink(url: Url) | RelativeLink(href: string)

  /**
   * ToAbsoluteUri: with an unparsable page address the href is taken as it
   * stands, an absolute href wins, otherwise it is resolved against the page;
   * None where new Uri(base, href) throws.
   */
  function ToAbsoluteUri(baseUrl: string, href: string): (r: Option<Link>)
    ensures ParseAbsolute(href).Some? ==> r == Some(AbsoluteLink(ParseAbsolute(href).value))
    ensures ParseAbsolute(baseUrl).None? && ParseAbsolute(href).None? ==> r == Some(RelativeLink(href))
    ensures r.Some? && r.value.RelativeLink? ==> ParseAbsolute(baseUrl).None?
  {
    match ParseAbsolute(baseUrl)
    case None =>
      if ParseAbsolute(href).Some? then Some(AbsoluteLink(ParseAbsolute(href).value))
      else Some(RelativeLink(href))
    case Some(b) =>
      if ParseAbsolute(href).Some? then Some(AbsoluteLink(ParseAbsolute(href).value))
      else
        match Resolve(b, href)
        case Some(u) => Some(AbsoluteLink(u))
        case None => None
  }

  /** The anchors the resolver looks at. */
  function LinkNodes(doc: Document): (r: seq<Node>)
    ensures Selected(doc, MadaraChapterLinks) != [] ==> r == Selected(doc, MadaraChapterLinks)
    ensures Selected(doc, MadaraChapterLinks) == [] ==> r == Selected(doc, AllLinks)
  {
    var madara := Selected(doc, MadaraChapterLinks);
    if madara != [] then madara else Selected(doc, AllLinks)
  }

  predicate NodeMatches(n: Node, want: string)
  {
    ExactMatch(n.href, want) || ExactMatch(n.text, want)
  }

  /** The foreach with early return: the position of the first matching anchor. */
  function FirstMatch(nodes: seq<Node>, want: string): (r: Option<nat>)
    ensures r.Some? ==> r.value < |nodes| && NodeMatches(nodes[r.value], want)
    ensures r.Some? ==> forall k | 0 <= k < r.value :: !NodeMatches(nodes[k], want)
    ensures r.None? <==> forall k | 0 <= k < |nodes| :: !NodeMatches(nodes[k], want)
  {
    if nodes == [] then None
    else if NodeMatches(nodes[0], want) then Some(0)
    else
      match FirstMatch(nodes[1..], want)
      case None => None
      case Some(k) => Some(k + 1)
  }

  /**
   * TryResolveChapterUrlAsync, with the exceptions its caller swallows read
   * as None: a blank address, a failed page load, no anchors, no exact match
   * or an unresolvable href.
   */
  function ResolveChapterLink(v: EntryView, store: HostStrategyStore, net: Network, parse: string -> Document): Option<Link>
    reads store
  {
    if IsBlank(v.url) then None
    else
      match GetHtml(v.url, store, net)
      case HtmlFailed(_) => None
      case Html(body) =>
        var nodes := LinkNodes(parse(body));
        var want := IntToString(v.chapter as int);
        match FirstMatch(nodes, want)
        case None => None
        case Some(k) => ToAbsoluteUri(v.url, nodes[k].href)
  }

  /** A found link comes from the first anchor naming exactly the stored chapter; nothing else is tried. */
  lemma ResolveChapterLinkIsFirstExact(v: EntryView, store: HostStrategyStore, net: Network, parse: string -> Document)
    ensures ResolveChapterLink(v, store, net, parse).Some? ==>
              !IsBlank(v.url) && GetHtml(v.url, store, net).Html? &&
              var nodes := LinkNodes(parse(GetHtml(v.url, store, net).body));
              var want := IntToString(v.chapter as int);
              exists k | 0 <= k < |nodes| ::
                NodeMatches(nodes[k], want) && (forall p | 0 <= p < k :: !NodeMatches(nodes[p], want)) &&
                ResolveChapterLink(v, store, net, parse) == ToAbsoluteUri(v.url, nodes[k].href)
    ensures !IsBlank(v.url) && GetHtml(v.url, store, net).Html? &&
            (var nodes := LinkNodes(parse(GetHtml(v.url, store, net).body));
             forall k | 0 <= k < |nodes| :: !NodeMatches(nodes[k], IntToString(v.chapter as int))) ==>
              ResolveChapterLink(v, store, net, parse).None?
  {
    if ResolveChapterLink(v, store, net, parse).Some? {
      var nodes := LinkNodes(parse(GetHtml(v.url, store, net).body));
      var want := IntToString(v.chapter as int);
      var k := FirstMatch(nodes, want).value;
      assert NodeMatches(nodes[k], want);
    }
  }

  /** A match always ends on an occurrence of the wanted digits that no further digit follows. */
  lemma ExactMatchEndsTheNumber(s: string, want: string)
    requires ExactMatch(s, want)
    ensures exists j | 0 <= j <= |s| - |want| ::
              HasAt(Lower(s), want, j) && (j + |want| == |s| || !IsDigit(Lower(s)[j + |want|]))
  {
    var t := Lower(s);
    var i, k, j :| 0 <= i <= k <= j <= |t| && ExactAt(t, want, i, k, j);
    assert HasAt(t, want, j);
  }

  lemma ExactMatchChapterTwelve()
    ensures ExactMatch("/manga/x/Chapter-12/", "12")
  {
    var t := Lower("/manga/x/Chapter-12/");
    assert t == "/manga/x/chapter-12/";
    assert ExactAt(t, "12", 9, 16, 17);
  }

  /** Chapter 12 does not pick the link of chapter 123. */
  lemma ExactMatchNotAPrefix()
    ensures !ExactMatch("chapter 123", "12")
  {
    var t := Lower("chapter 123");
    assert t == "chapter 123";
    forall j | 0 <= j <= |t| - 2 && HasAt(t, "12", j)
      ensures j == 8
    {
      assert t[j] == t[j..j + 2][0] == '1';
      assert forall p | 0 <= p < |t| && p != 8 :: t[p] != '1';
    }
    if ExactMatch("chapter 123", "12") {
      ExactMatchEndsTheNumber("chapter 123", "12");
    }
  }

  /** Where OpenChapterLink gets its address from. */
  datatype ChapterTarget = Resolved(link: Link) | FromTemplate(url: string)

  /**
   * OpenChapterLink's choice: the resolved link, else the template with the
   * stored chapter, else nothing (the "not found" message). A relative link
   * that is blank also ends in the message, without trying the template.
   */
  function OpenTarget(resolved: Option<Link>, v: EntryView): (r: Option<ChapterTarget>)
    ensures resolved.Some? && resolved.value.AbsoluteLink? ==> r == Some(Resolved(resolved.value))
    // a relative link is opened unless it is blank, and then the template is not tried
    ensures resolved.Some? && resolved.value.RelativeLink? ==>
              r == if IsBlank(resolved.value.href) then None else Some(Resolved(resolved.value))
    ensures resolved.None? && !IsBlank(v.chapterUrlTemplate) ==>
              r == Some(FromTemplate(BuildChapterUrl(v.chapterUrlTemplate, v.chapter as int)))
    ensures resolved.None? && IsBlank(v.chapterUrlTemplate) ==> r.None?
    ensures r.Some? && r.value.Resolved? ==> resolved == Some(r.value.link)
  {
    match resolved
    case Some(AbsoluteLink(u)) => Some(Resolved(AbsoluteLink(u)))
    case Some(RelativeLink(h)) => if IsBlank(h) then None else Some(Resolved(RelativeLink(h)))
    case None =>
      if IsBlank(v.chapterUrlTemplate) then None
      else Some(FromTemplate(BuildChapterUrl(v.chapterUrlTemplate, v.chapter as int)))
  }
}
