/**
 * The update scan of MainWindow, one entry at a time: a cheap probe of the
 * next chapter's address built from the entry's template, otherwise a
 * background download of the series page and the latest chapter read off it.
 *
 * The network is an input: for every address, what a HEAD, a ranged GET and
 * a plain GET answer. Parsing a page into selector results and running a
 * user-supplied regular expression are inputs as well.
 */
module UpdateScan {
  import opened Text
  import opened Urls
  import opened Entry
  import opened HttpFetcher
  import opened HostStrategy
  import opened ChapterParse
  import opened ChapterExtract

  // ---------------------------------------------------------------- addresses

  const Placeholder: string := "$chapter"

  /** BuildChapterUrl for a whole chapter number: every "$chapter" replaced by its invariant digits. */
  function BuildChapterUrl(template: string, chapter: int): (r: string)
    ensures !Contains(template, Placeholder) ==> r == template
  {
    ReplaceAll(template, Placeholder, IntToString(chapter))
  }

  /** A template with a single placeholder yields its two halves around the chapter's digits. */
  lemma BuildChapterUrlSingle(p: string, q: string, chapter: int)
    requires IndexOf(p + Placeholder + q, Placeholder, 0) == |p|
    requires !Contains(q, Placeholder)
    ensures BuildChapterUrl(p + Placeholder + q, chapter) == p + IntToString(chapter) + q
  {
    ReplaceAllOnce(p, Placeholder, IntToString(chapter), q);
  }

  // ---------------------------------------------------------------- the probe

  /** The redirect codes of section 15.4 of RFC 9110 that the probe accepts. */
  predicate IsRedirect(status: int)
  {
    status == 301 || status == 302 || status == 303 || status == 307 || status == 308
  }

  /** What the probe makes of the HEAD answer. */
  datatype HeadVerdict = Exists | Missing | TryGet

  function HeadStep(a: Send): (v: HeadVerdict)
    ensures v == Exists <==> a.Reply? && (IsSuccess(a.resp.status) || IsRedirect(a.resp.status))
    ensures v == TryGet <==> (!a.Reply? ||
              (!LooksLikeJsChallenge(a.resp) && (a.resp.status == 403 || a.resp.status == 405 || a.resp.status == 429)))
  {
    match a
    case Reply(r) =>
      if IsSuccess(r.status) || IsRedirect(r.status) then Exists
      else if LooksLikeJsChallenge(r) then Missing
      else if r.status != 405 && r.status != 403 && r.status != 429 then Missing
      else TryGet
    case _ => TryGet
  }

  /** The ranged GET: a success or redirect status says the chapter exists; anything else, an exception included, does not. */
  function GetStep(a: Send): (found: bool)
    ensures found <==> a.Reply? && (IsSuccess(a.resp.status) || IsRedirect(a.resp.status))
  {
    match a
    case Reply(r) => IsSuccess(r.status) || IsRedirect(r.status)
    case _ => false
  }

  predicate HasTemplate(template: string)
  {
    !IsBlank(template) && Contains(template, Placeholder)
  }

  /**
   * What the scan asks of its surroundings: the network's answers, and
   * castOverflow, the runtime's result of (int)Math.Round on a whole double
   * beyond int's range (C# leaves it unspecified: int.MinValue on x64 before
   * .NET 9, int.MaxValue from .NET 9 on).
   */
  datatype Network = Network(head: string -> Send, rangedGet: string -> Send, get: string -> Send, castOverflow: int32)

  /** (int)Math.Round of a whole double x, with overflow the runtime's answer out of range. */
  function RoundToInt32(x: int, overflow: int32): (r: int32)
    ensures MinInt32 as int <= x <= MaxInt32 as int ==> r as int == x
    ensures x < MinInt32 as int || MaxInt32 as int < x ==> r == overflow
  {
    if MinInt32 as int <= x <= MaxInt32 as int then x as int32 else overflow
  }

  /**
   * The chapter the probe asks for: Math.Floor of Chapter, plus one, as a
   * double, cast back to int by BuildChapterUrl. Below int.MaxValue it is the
   * next chapter; at int.MaxValue the double 2147483648 does not fit, and the
   * runtime's out-of-range answer is probed instead.
   */
  function ProbeChapter(chapter: int32, overflow: int32): (n: int32)
    ensures chapter < MaxInt32 ==> n as int == chapter as int + 1
    ensures chapter == MaxInt32 ==> n == overflow
  {
    RoundToInt32(chapter as int + 1, overflow)
  }

  /**
   * TryProbeNextChapterAsync: HEAD the address of the chapter after the
   * entry's, and fall back to a ranged GET where HEAD is refused or throws.
   */
  function ProbeNext(template: string, chapter: int32, net: Network): (found: bool)
  {
    if !HasTemplate(template) then false
    else
      var url := BuildChapterUrl(template, ProbeChapter(chapter, net.castOverflow) as int);
      match HeadStep(net.head(url))
      case Exists => true
      case Missing => false
      case TryGet => GetStep(net.rangedGet(url))
  }

  /** The probe succeeds exactly on a success or redirect answer to HEAD, or to the GET that follows a refusal. */
  lemma ProbeNextIff(template: string, chapter: int32, net: Network)
    requires HasTemplate(template)
    ensures var url := BuildChapterUrl(template, ProbeChapter(chapter, net.castOverflow) as int);
            var h := net.head(url);
            var g := net.rangedGet(url);
            ProbeNext(template, chapter, net) <==>
              (h.Reply? && (IsSuccess(h.resp.status) || IsRedirect(h.resp.status))) ||
              (HeadStep(h) == TryGet && g.Reply? && (IsSuccess(g.resp.status) || IsRedirect(g.resp.status)))
  {
  }

  /**
   * The address probed for a template with one placeholder: the next
   * chapter's digits, except at int.MaxValue, where the out-of-range cast's
   * answer stands in their place.
   */
  lemma ProbeAddress(p: string, q: string, chapter: int32, overflow: int32)
    requires IndexOf(p + Placeholder + q, Placeholder, 0) == |p|
    requires !Contains(q, Placeholder)
    ensures chapter < MaxInt32 ==>
              BuildChapterUrl(p + Placeholder + q, ProbeChapter(chapter, overflow) as int) ==
              p + IntToString(chapter as int + 1) + q
    ensures chapter == MaxInt32 ==>
              BuildChapterUrl(p + Placeholder + q, ProbeChapter(chapter, overflow) as int) ==
              p + IntToString(overflow as int) + q
  {
    BuildChapterUrlSingle(p, q, ProbeChapter(chapter, overflow) as int);
  }

  /** Vendor headers on a refused HEAD end the probe without a GET; a plain 403 goes on to the GET. */
  lemma ProbeChallengeAndPlainRefusal(r: Response)
    requires !IsSuccess(r.status) && !IsRedirect(r.status)
    ensures LooksLikeJsChallenge(r) ==> HeadStep(Reply(r)) == Missing
    ensures !LooksLikeJsChallenge(r) && r.status == 403 ==> HeadStep(Reply(r)) == TryGet
  {
  }

  // ---------------------------------------------------------------- GetHtmlAsync

  datatype HtmlError = BadUrl | JsOnlyHost | SendThrew | Challenge | HttpStatus(code: int)

  datatype HtmlResult = Html(body: string) | HtmlFailed(error: HtmlError)

  /** The in-method challenge test of GetHtmlAsync: 403, 429 or a vendor header. */
  predicate BlockedOrChallenged(r: Response)
  {
    r.status == 403 || r.status == 429 || LooksLikeJsChallenge(r)
  }

  /**
   * GetHtmlAsync: normalize the address, refuse JS-only hosts, GET the page,
   * and refuse challenges and error statuses.
   */
  function GetHtml(rawUrl: string, store: HostStrategyStore, net: Network): HtmlResult
    reads store
  {
    match NormalizeUrl(rawUrl)
    case None => HtmlFailed(BadUrl)
    case Some(url) =>
      var host := Lower(ParseAbsolute(url).value.host);
      if store.IsJsOnly(host) then HtmlFailed(JsOnlyHost)
      else
        match net.get(url)
        case Reply(r) =>
          if BlockedOrChallenged(r) then HtmlFailed(Challenge)
          else if !IsSuccess(r.status) then HtmlFailed(HttpStatus(r.status))
          else Html(r.body)
        case _ => HtmlFailed(SendThrew)
  }

  /** A page comes back exactly from a success status without challenge signs on a host that is not JS-only. */
  lemma GetHtmlIff(rawUrl: string, store: HostStrategyStore, net: Network, body: string)
    ensures GetHtml(rawUrl, store, net) == Html(body) <==>
            NormalizeUrl(rawUrl).Some? &&
            !store.IsJsOnly(Lower(ParseAbsolute(NormalizeUrl(rawUrl).value).value.host)) &&
            net.get(NormalizeUrl(rawUrl).value).Reply? &&
            var r := net.get(NormalizeUrl(rawUrl).value).resp;
            IsSuccess(r.status) && !BlockedOrChallenged(r) && r.body == body
  {
  }

  /** A JS-only host is never fetched in the background, and 403 or 429 always fails. */
  lemma GetHtmlRefuses(rawUrl: string, store: HostStrategyStore, net: Network)
    requires NormalizeUrl(rawUrl).Some?
    ensures var url := NormalizeUrl(rawUrl).value;
            store.IsJsOnly(Lower(ParseAbsolute(url).value.host)) ==> GetHtml(rawUrl, store, net) == HtmlFailed(JsOnlyHost)
    ensures var url := NormalizeUrl(rawUrl).value;
            net.get(url).Reply? && (net.get(url).resp.status == 403 || net.get(url).resp.status == 429) ==>
              GetHtml(rawUrl, store, net).HtmlFailed?
  {
  }

  // ---------------------------------------------------------------- the update rule

  /**
   * The chapter after a newer latest value: moved on by one exactly when
   * latest equals Chapter + 1 (an int sum, so it wraps at the top).
   */
  function NextChapter(chapter: int32, latest: real): int32
  {
    var next := Wrap32(chapter as int + 1);
    if latest == next as real then next else chapter
  }

  /**
   * A newer value moves the chapter by at most one, and never back; at
   * int.MaxValue the sum wraps and the chapter stays.
   */
  lemma NextChapterMonotone(chapter: int32, latest: real)
    requires latest > chapter as real
    ensures NextChapter(chapter, latest) == chapter || NextChapter(chapter, latest) as int == chapter as int + 1
    ensures NextChapter(chapter, latest) >= chapter
    ensures NextChapter(chapter, latest) as int == chapter as int + 1 <==>
              chapter < MaxInt32 && latest == (chapter as int + 1) as real
  {
    if chapter == MaxInt32 {
      assert Wrap32(chapter as int + 1) == MinInt32;
    }
  }

  /** What the scan did with one entry. */
  datatype ScanOutcome = Skipped | ProbeHit | Checked(latest: Option<real>) | FetchFailed(error: HtmlError)

  /** The regular-expression engine: the group values of each match of a pattern in an input. */
  type RegexEngine = string -> string -> seq<seq<string>>

  function CustomOf(pattern: Option<string>, engine: RegexEngine): Option<CustomRegex>
  {
    match pattern
    case None => None
    case Some(p) => Some(CustomRegex(p, engine(p)))
  }

  /** The decision for one entry, from its state before the scan. */
  function ScanOf(v: EntryView, store: HostStrategyStore, net: Network, parse: string -> Document, engine: RegexEngine): ScanOutcome
    reads store
  {
    if v.hasNewChapter || IsBlank(v.url) then Skipped
    else if HasTemplate(v.chapterUrlTemplate) && ProbeNext(v.chapterUrlTemplate, v.chapter, net) then ProbeHit
    else
      match GetHtml(v.url, store, net)
      case HtmlFailed(e) => FetchFailed(e)
      case Html(body) =>
        Checked(LatestChapter(parse(body), v.latestChapterXPath, Some(v.url), CustomOf(v.chapterNumberRegex, engine)))
  }

  /** Whether the entry's title goes into the report. */
  predicate Reported(v: EntryView, o: ScanOutcome)
  {
    o.ProbeHit? || (o.Checked? && o.latest.Some? && o.latest.value > v.chapter as real)
  }

  /** The entry after the scan. */
  function Applied(v: EntryView, o: ScanOutcome): EntryView
  {
    if o.ProbeHit? then v.(hasNewChapter := true)
    else if Reported(v, o) then v.(hasNewChapter := true, chapter := NextChapter(v.chapter, o.latest.value))
    else v
  }

  /**
   * The update rule: skipped entries stay as they are; HasNewChapter is set
   * exactly on a report; the chapter moves only after a newer latest value,
   * by one, and never back; nothing else changes.
   */
  lemma AppliedRule(v: EntryView, o: ScanOutcome)
    ensures o == Skipped ==> Applied(v, o) == v
    ensures Applied(v, o).hasNewChapter <==> v.hasNewChapter || Reported(v, o)
    ensures Applied(v, o).chapter != v.chapter ==>
              o.Checked? && o.latest == Some((v.chapter as int + 1) as real) && Applied(v, o).chapter as int == v.chapter as int + 1
    ensures Applied(v, o).chapter >= v.chapter
    ensures Applied(v, o) == v.(hasNewChapter := Applied(v, o).hasNewChapter, chapter := Applied(v, o).chapter)
  {
    if Reported(v, o) && !o.ProbeHit? {
      NextChapterMonotone(v.chapter, o.latest.value);
    }
  }

  /** Entries already flagged, or without an address, are skipped. */
  lemma FlaggedOrBlankSkipped(v: EntryView, store: HostStrategyStore, net: Network, parse: string -> Document, engine: RegexEngine)
    requires v.hasNewChapter || IsBlank(v.url)
    ensures ScanOf(v, store, net, parse, engine) == Skipped
  {
  }

  /** The work for one entry of CheckForAllUpdatesAsync. */
  method ScanEntry(m: MangaEntry, store: HostStrategyStore, net: Network, parse: string -> Document, engine: RegexEngine)
    returns (reported: bool)
    modifies m
    ensures var o := ScanOf(old(m.View()), store, net, parse, engine);
            m.View() == Applied(old(m.View()), o) && reported == Reported(old(m.View()), o)
  {
    ghost var v := m.View();
    ghost var o := ScanOf(v, store, net, parse, engine);
    if m.hasNewChapter || IsBlank(m.url) {
      return false;
    }
    if HasTemplate(m.chapterUrlTemplate) {
      var found := ProbeNext(m.chapterUrlTemplate, m.chapter, net);
      if found {
        var _ := m.SetHasNewChapter(true);
        return true;
      }
    }
    var page := GetHtml(m.url, store, net);
    if page.HtmlFailed? {
      return false;
    }
    var doc := parse(page.body);
    var latest := ExtractLatestChapter(doc, m.latestChapterXPath, CustomOf(m.chapterNumberRegex, engine), Some(m.url));
    assert o == Checked(latest);
    if latest.Some? && latest.value > m.chapter as real {
      var next := Wrap32(m.chapter as int + 1);
      var _ := m.SetHasNewChapter(true);
      if latest.value == next as real {
        var _ := m.SetChapter(next);
      }
      return true;
    }
    return false;
  }
}
