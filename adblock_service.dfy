/**
 * The ad-block classifier: the resource-type mappings, the filter-file loader,
 * the substring engine (SimpleEngine) and the third-party test.
 *
 * A filter file is given by its lines, or by None when it does not exist.
 */
module AdblockService {
  import opened Text
  import opened HostLists
  import opened Urls

  /** The coarse resource types of the service. */
  datatype ResType = Script | Image | Media | Stylesheet | Xhr | Fetch | Subdocument | Font | Other

  /** The element types the engine sees. */
  datatype ElementType = Script | Image | Media | Stylesheet | XmlHttpRequest | Subdocument | Font | Other

  /** CoreWebView2WebResourceContext. */
  datatype WebResourceContext =
    | All | Document | Stylesheet | Image | Media | Font | Script | XmlHttpRequest | Fetch
    | TextTrack | EventSource | Websocket | Manifest | SignedExchange | Ping | CspViolationReport | Other

  /** The switch in ShouldBlock that turns a resource type into an element type. */
  function ElementTypeOf(t: ResType): (e: ElementType)
    ensures e == ElementType.XmlHttpRequest <==> t == ResType.Xhr || t == ResType.Fetch
    ensures e == ElementType.Subdocument <==> t == ResType.Subdocument
    ensures e == ElementType.Other <==> t == ResType.Other
  {
    match t
    case Script => ElementType.Script
    case Image => ElementType.Image
    case Media => ElementType.Media
    case Stylesheet => ElementType.Stylesheet
    case Xhr => ElementType.XmlHttpRequest
    case Fetch => ElementType.XmlHttpRequest
    case Subdocument => ElementType.Subdocument
    case Font => ElementType.Font
    case Other => ElementType.Other
  }

  /** The seven contexts that have a resource type of their own. */
  predicate IsTypedContext(ctx: WebResourceContext)
  {
    ctx in {WebResourceContext.Script, WebResourceContext.Image, WebResourceContext.Media,
            WebResourceContext.Stylesheet, WebResourceContext.XmlHttpRequest, WebResourceContext.Fetch,
            WebResourceContext.Font}
  }

  /** MapContext: every other context, the document included, becomes Other; nothing becomes Subdocument. */
  function MapContext(ctx: WebResourceContext): (r: ResType)
    ensures r == ResType.Other <==> !IsTypedContext(ctx)
    ensures ctx == WebResourceContext.Document ==> r == ResType.Other
    ensures r != ResType.Subdocument
    ensures r == ResType.Xhr <==> ctx == WebResourceContext.XmlHttpRequest
    ensures r == ResType.Fetch <==> ctx == WebResourceContext.Fetch
  {
    match ctx
    case Script => ResType.Script
    case Image => ResType.Image
    case Media => ResType.Media
    case Stylesheet => ResType.Stylesheet
    case XmlHttpRequest => ResType.Xhr
    case Fetch => ResType.Fetch
    case Font => ResType.Font
    case Document => ResType.Other
    case _ => ResType.Other
  }

  // ---------------------------------------------------------------- filter files

  /** A trimmed filter line the loader keeps: not empty, not a "!" comment, no "##" cosmetic rule, no "@@" exception. */
  predicate KeepsFilterLine(line: string)
  {
    line != "" && !StartsWith(line, "!") && !Contains(line, "##") && !StartsWith(line, "@@")
  }

  /** The patterns the loader takes from the lines of one file, in order. */
  function FilterLines(lines: seq<string>): (r: seq<string>)
    ensures forall p | p in r :: KeepsFilterLine(p) && exists raw | raw in lines :: p == Trim(raw)
    ensures forall raw | raw in lines :: KeepsFilterLine(Trim(raw)) ==> Trim(raw) in r
  {
    if lines == [] then []
    else
      var init := lines[..|lines| - 1];
      var line := Trim(lines[|lines| - 1]);
      assert lines == init + [lines[|lines| - 1]];
      FilterLines(init) + (if KeepsFilterLine(line) then [line] else [])
  }

  /** The patterns of all files, in file order; a missing file contributes nothing. */
  function LoadedPatterns(files: seq<Option<seq<string>>>): (r: seq<string>)
  {
    if files == [] then []
    else
      var init := LoadedPatterns(files[..|files| - 1]);
      match files[|files| - 1]
      case None => init
      case Some(lines) => init + FilterLines(lines)
  }

  /** Every loaded pattern is a kept, trimmed line of an existing file, and every such line is loaded. */
  lemma {:induction false} LoadedPatternsSound(files: seq<Option<seq<string>>>)
    ensures forall p | p in LoadedPatterns(files) ::
              KeepsFilterLine(p) && exists k, raw | 0 <= k < |files| && files[k].Some? && raw in files[k].value :: p == Trim(raw)
    ensures forall k, raw | 0 <= k < |files| && files[k].Some? && raw in files[k].value ::
              KeepsFilterLine(Trim(raw)) ==> Trim(raw) in LoadedPatterns(files)
  {
    if files != [] {
      var n := |files| - 1;
      var init := files[..n];
      LoadedPatternsSound(init);
      forall p | p in LoadedPatterns(files)
        ensures exists k, raw | 0 <= k < |files| && files[k].Some? && raw in files[k].value :: p == Trim(raw)
      {
        if p in LoadedPatterns(init) {
          var k, raw :| 0 <= k < |init| && init[k].Some? && raw in init[k].value && p == Trim(raw);
          assert files[k] == init[k];
        } else {
          var raw :| raw in files[n].value && p == Trim(raw);
        }
      }
      forall k, raw | 0 <= k < |files| && files[k].Some? && raw in files[k].value && KeepsFilterLine(Trim(raw))
        ensures Trim(raw) in LoadedPatterns(files)
      {
        if k < n {
          assert init[k] == files[k];
        }
      }
    }
  }

  // ---------------------------------------------------------------- the engine

  const KnownHosts: seq<string> :=
    ["doubleclick.net", "googlesyndication.com", "google-analytics.com",
     "adservice.google", "pubadx.one", "infolinks.com", "monetixads.com",
     "adnxs.com", "advertising.com", "criteo.com", "taboola.com", "outbrain.com"]

  /** The ad paths and query parameters the engine blocks outright. */
  const AdPathMarkers: seq<string> := ["/ads/", "/ad/", "?ad=", "&ad="]

  /** The characters a filter pattern is trimmed of. */
  const PatternTrim: set<char> := {'*', '|', '^', ' '}

  datatype AdblockRequest = AdblockRequest(url: string, documentUrl: string, elementType: ElementType, thirdParty: bool)

  datatype SimpleEngine = SimpleEngine(hostPatterns: seq<string>)

  function TrimPatterns(xs: seq<string>): (r: seq<string>)
    ensures |r| == |xs|
    ensures forall i | 0 <= i < |xs| :: r[i] == TrimChars(xs[i], PatternTrim)
  {
    seq(|xs|, i requires 0 <= i < |xs| => TrimChars(xs[i], PatternTrim))
  }

  function Dotted(xs: seq<string>): (r: seq<string>)
    ensures forall x :: x in r <==> x in xs && '.' in x
  {
    if xs == [] then []
    else (if '.' in xs[0] then [xs[0]] else []) + Dotted(xs[1..])
  }

  /** The SimpleEngine constructor: trimmed patterns that contain a dot, deduplicated ignoring case. */
  function SimpleEngineOf(extra: seq<string>): (e: SimpleEngine)
  {
    SimpleEngine(DistinctIgnoreCase(Dotted(TrimPatterns(extra))))
  }

  /**
   * The engine's patterns are trimmed extra patterns with a dot, no two equal
   * ignoring case, and every trimmed extra pattern with a dot is among them.
   */
  lemma SimpleEngineOfSound(extra: seq<string>)
    ensures var ps := SimpleEngineOf(extra).hostPatterns;
            NoCaseDuplicates(ps) &&
            (forall p | p in ps :: '.' in p && exists raw | raw in extra :: p == TrimChars(raw, PatternTrim)) &&
            (forall raw | raw in extra && '.' in TrimChars(raw, PatternTrim) ::
               ListHasIgnoreCase(ps, TrimChars(raw, PatternTrim)))
  {
    var trimmed := TrimPatterns(extra);
    var dotted := Dotted(trimmed);
    DistinctIgnoreCaseSound(dotted);
    var ps := SimpleEngineOf(extra).hostPatterns;
    forall p | p in ps ensures exists raw | raw in extra :: p == TrimChars(raw, PatternTrim) {
      var i :| 0 <= i < |trimmed| && trimmed[i] == p;
      assert extra[i] in extra;
    }
    forall raw | raw in extra && '.' in TrimChars(raw, PatternTrim)
      ensures ListHasIgnoreCase(ps, TrimChars(raw, PatternTrim))
    {
      var i :| 0 <= i < |extra| && extra[i] == raw;
      assert trimmed[i] in dotted;
      var j :| 0 <= j < |dotted| && dotted[j] == trimmed[i];
    }
  }

  /** Some engine pattern occurs in the lower-cased URL, ignoring case. */
  predicate HasPattern(e: SimpleEngine, u: string)
  {
    exists k | 0 <= k < |e.hostPatterns| :: ContainsIgnoreCase(u, e.hostPatterns[k])
  }

  /** SimpleEngine.ShouldBlock, check by check. */
  predicate EngineBlocks(e: SimpleEngine, req: AdblockRequest)
  {
    var u := Lower(req.url);
    if ContainsAny(u, AdPathMarkers) then true
    else if ContainsAny(u, KnownHosts) then true
    else if HasPattern(e, u) then true
    else if req.elementType == ElementType.Subdocument && (ContainsAny(u, KnownHosts) || HasPattern(e, u)) then true
    else false
  }

  /**
   * The engine blocks exactly the URLs whose lower-cased text contains an ad
   * path, a known host or a loaded pattern: the Subdocument rule adds nothing,
   * so the element type, the document and the third-party flag do not matter.
   */
  lemma EngineBlocksBySubstring(e: SimpleEngine, req: AdblockRequest)
    ensures EngineBlocks(e, req) <==>
            ContainsAny(Lower(req.url), AdPathMarkers) || ContainsAny(Lower(req.url), KnownHosts) ||
            HasPattern(e, Lower(req.url))
  {
  }

  lemma EngineIgnoresContext(e: SimpleEngine, req: AdblockRequest, doc: string, t: ElementType, third: bool)
    ensures EngineBlocks(e, req) == EngineBlocks(e, AdblockRequest(req.url, doc, t, third))
  {
    EngineBlocksBySubstring(e, req);
    EngineBlocksBySubstring(e, AdblockRequest(req.url, doc, t, third));
  }

  // ---------------------------------------------------------------- the service

  datatype AdblockService = AdblockService(engine: SimpleEngine)

  /** The service constructor: the filter files read line by line into a pattern list, then the engine. */
  method NewAdblockService(files: seq<Option<seq<string>>>) returns (svc: AdblockService)
    ensures svc.engine == SimpleEngineOf(LoadedPatterns(files))
  {
    var patterns: seq<string> := [];
    for f := 0 to |files|
      invariant patterns == LoadedPatterns(files[..f])
    {
      assert files[..f + 1][..f] == files[..f];
      if files[f].Some? {
        var lines := files[f].value;
        var before := patterns;
        for i := 0 to |lines|
          invariant patterns == before + FilterLines(lines[..i])
        {
          assert lines[..i + 1][..i] == lines[..i];
          var line := Trim(lines[i]);
          if line != "" && !StartsWith(line, "!") && !Contains(line, "##") && !StartsWith(line, "@@") {
            patterns := patterns + [line];
          }
        }
        assert lines[..|lines|] == lines;
      }
    }
    assert files[..|files|] == files;
    svc := AdblockService(SimpleEngineOf(patterns));
  }

  /** AdblockService.ShouldBlock: the engine asked about the request. */
  predicate ShouldBlock(svc: AdblockService, resourceUrl: string, documentUrl: string, t: ResType, isThirdParty: bool)
  {
    EngineBlocks(svc.engine, AdblockRequest(resourceUrl, documentUrl, ElementTypeOf(t), isThirdParty))
  }

  /** The service's verdict depends on the resource URL alone. */
  lemma ShouldBlockOnlyByUrl(svc: AdblockService, url: string, doc1: string, doc2: string,
                             t1: ResType, t2: ResType, third1: bool, third2: bool)
    ensures ShouldBlock(svc, url, doc1, t1, third1) == ShouldBlock(svc, url, doc2, t2, third2)
  {
    EngineIgnoresContext(svc.engine, AdblockRequest(url, doc1, ElementTypeOf(t1), third1),
                         doc2, ElementTypeOf(t2), third2);
  }

  // ---------------------------------------------------------------- sites

  /** IsSameSite: equal ignoring case, or one a dot-separated subdomain of the other. */
  predicate IsSameSite(a: string, b: string)
  {
    EqIgnoreCase(a, b) || EndsWithIgnoreCase(a, "." + b) || EndsWithIgnoreCase(b, "." + a)
  }

  lemma IsSameSiteReflexiveSymmetric(a: string, a2: string, b: string)
    ensures EqIgnoreCase(a, a2) ==> IsSameSite(a, a2)
    ensures IsSameSite(a, b) == IsSameSite(b, a)
  {
  }

  /** A dot-separated subdomain is the same site as its parent, in whatever case either is written. */
  lemma SubdomainIsSameSite(sub: string, b: string, b2: string)
    requires EqIgnoreCase(b, b2)
    ensures IsSameSite(sub + "." + b, b2)
  {
    var a := sub + "." + b;
    var t := "." + b2;
    assert a[|a| - |t|..] == "." + b;
    LowerAppend(".", b);
    LowerAppend(".", b2);
  }

  /** IsThirdParty: a URL that is not absolute makes the request third-party. */
  predicate IsThirdParty(resourceUrl: string, documentUrl: string)
  {
    match (ParseAbsolute(resourceUrl), ParseAbsolute(documentUrl))
    case (Some(r), Some(d)) => !IsSameSite(r.host, d.host)
    case _ => true
  }

  lemma IsThirdPartyCases(resourceUrl: string, documentUrl: string)
    ensures ParseAbsolute(resourceUrl).None? || ParseAbsolute(documentUrl).None? ==> IsThirdParty(resourceUrl, documentUrl)
    ensures ParseAbsolute(resourceUrl).Some? && ParseAbsolute(documentUrl).Some? ==>
              (IsThirdParty(resourceUrl, documentUrl) <==>
               !IsSameSite(ParseAbsolute(resourceUrl).value.host, ParseAbsolute(documentUrl).value.host))
    ensures ParseAbsolute(resourceUrl).Some? ==> !IsThirdParty(resourceUrl, resourceUrl)
    ensures IsThirdParty(resourceUrl, documentUrl) == IsThirdParty(documentUrl, resourceUrl)
  {
  }
}
