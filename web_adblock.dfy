/**
 * The browser's ad blocker: the wildcard patterns of the custom URL rules and
 * of the hard denylist, and the ordered decision taken for every requested
 * resource.
 *
 * A pattern is turned into the anchored, case-insensitive regular expression
 * "^" + Escape(pattern) + "$" with "*" as ".*" and "?" as "."; the model states
 * that expression's language directly. As in .NET, "." does not match a line
 * feed and "$" also matches before a final line feed.
 */
module WebAdblock {
  import opened Text
  import opened Urls
  import opened AdblockService
  import opened CosmeticRules

  // ---------------------------------------------------------------- wildcards

  /** The regular expression's body: "*" any run of characters, "?" any one, the rest literal ignoring case. */
  predicate GlobMatch(p: string, s: string)
    decreases |p| + |s|
  {
    if p == [] then s == []
    else if p[0] == '*' then GlobMatch(p[1..], s) || (s != [] && s[0] != '\n' && GlobMatch(p, s[1..]))
    else if p[0] == '?' then s != [] && s[0] != '\n' && GlobMatch(p[1..], s[1..])
    else s != [] && LowerChar(s[0]) == LowerChar(p[0]) && GlobMatch(p[1..], s[1..])
  }

  /** Regex.IsMatch with the anchors: the whole text, or the whole text but a final line feed. */
  predicate AnchoredMatch(p: string, s: string)
  {
    GlobMatch(p, s) || (s != [] && s[|s| - 1] == '\n' && GlobMatch(p, s[..|s| - 1]))
  }

  predicate NoWildcards(p: string)
  {
    forall i | 0 <= i < |p| :: p[i] != '*' && p[i] != '?'
  }

  predicate LineFree(s: string)
  {
    forall i | 0 <= i < |s| :: s[i] != '\n'
  }

  lemma AnchoredMatchOfLineFree(p: string, s: string)
    requires LineFree(s)
    ensures AnchoredMatch(p, s) == GlobMatch(p, s)
  {
  }

  /** A pattern without wildcards matches exactly the texts equal to it ignoring case. */
  lemma {:induction false} GlobLiteral(p: string, s: string)
    requires NoWildcards(p)
    ensures GlobMatch(p, s) <==> EqIgnoreCase(p, s)
    decreases |p|
  {
    if p != [] && s != [] {
      assert NoWildcards(p[1..]) by {
        forall i | 0 <= i < |p[1..]| ensures p[1..][i] != '*' && p[1..][i] != '?' {
          assert p[1..][i] == p[i + 1];
        }
      }
      GlobLiteral(p[1..], s[1..]);
      var lp, ls := Lower(p), Lower(s);
      assert lp[1..] == Lower(p[1..]) && lp == [lp[0]] + lp[1..];
      assert ls[1..] == Lower(s[1..]) && ls == [ls[0]] + ls[1..];
    }
  }

  /** "*" matches every text without a line feed, the empty one included. */
  lemma {:induction false} GlobStar(s: string)
    ensures GlobMatch("*", s) <==> LineFree(s)
    decreases |s|
  {
    assert "*"[1..] == [];
    if s != [] {
      GlobStar(s[1..]);
      if LineFree(s) {
        assert forall i | 0 <= i < |s[1..]| :: s[1..][i] == s[i + 1];
      } else if s[0] != '\n' {
        var i :| 0 <= i < |s| && s[i] == '\n';
        assert s[1..][i - 1] == '\n';
      }
    }
  }

  /** "?" matches exactly one character other than a line feed. */
  lemma GlobQuestion(s: string)
    ensures GlobMatch("?", s) <==> |s| == 1 && s[0] != '\n'
  {
    assert "?"[1..] == [];
  }

  /** A leading "*" matches a line-free prefix of any length, then the rest of the pattern. */
  lemma {:induction false} GlobLeadingStar(q: string, s: string)
    ensures GlobMatch("*" + q, s) <==>
            exists k | 0 <= k <= |s| :: LineFree(s[..k]) && GlobMatch(q, s[k..])
    decreases |s|
  {
    var p := "*" + q;
    assert p[1..] == q;
    if GlobMatch(q, s) {
      assert s[..0] == [] && s[0..] == s;
    }
    if s == [] {
      assert forall k | 0 <= k <= |s| :: k == 0 && s[k..] == s;
    } else {
      GlobLeadingStar(q, s[1..]);
      var t := s[1..];
      if s[0] != '\n' && GlobMatch(p, t) {
        var k :| 0 <= k <= |t| && LineFree(t[..k]) && GlobMatch(q, t[k..]);
        assert s[k + 1..] == t[k..];
        var sk, tk := s[..k + 1], t[..k];
        assert LineFree(sk) by {
          forall i | 0 <= i < |sk| ensures sk[i] != '\n' {
            if i > 0 {
              assert sk[i] == tk[i - 1];
            }
          }
        }
      }
      if exists k | 0 <= k <= |s| :: LineFree(s[..k]) && GlobMatch(q, s[k..]) {
        var k :| 0 <= k <= |s| && LineFree(s[..k]) && GlobMatch(q, s[k..]);
        if k > 0 {
          assert s[..k][0] == s[0];
          assert t[k - 1..] == s[k..];
          var sk, tk := s[..k], t[..k - 1];
          assert LineFree(tk) by {
            forall i | 0 <= i < |tk| ensures tk[i] != '\n' {
              assert tk[i] == sk[i + 1];
            }
          }
        } else {
          assert s[k..] == s;
        }
      }
    }
  }

  /** "*" + literal matches the line-free texts that end with the literal, ignoring case. */
  lemma GlobStarSuffix(lit: string, s: string)
    requires NoWildcards(lit) && LineFree(s)
    ensures GlobMatch("*" + lit, s) <==> |lit| <= |s| && EqIgnoreCase(lit, s[|s| - |lit|..])
  {
    GlobLeadingStar(lit, s);
    if GlobMatch("*" + lit, s) {
      var k :| 0 <= k <= |s| && LineFree(s[..k]) && GlobMatch(lit, s[k..]);
      GlobLiteral(lit, s[k..]);
      assert |Lower(lit)| == |Lower(s[k..])|;
    }
    if |lit| <= |s| && EqIgnoreCase(lit, s[|s| - |lit|..]) {
      var k := |s| - |lit|;
      GlobLiteral(lit, s[k..]);
      assert LineFree(s[..k]) by {
        forall i | 0 <= i < k ensures s[..k][i] != '\n' {
          assert s[..k][i] == s[i];
        }
      }
    }
  }

  /** "*.infolinks.com" covers the subdomains of infolinks.com but not the domain itself. */
  lemma StarDotNeedsSubdomain()
    ensures GlobMatch("*.infolinks.com", "router.infolinks.com")
    ensures !GlobMatch("*.infolinks.com", "infolinks.com")
  {
    var lit := ".infolinks.com";
    assert "*.infolinks.com" == "*" + lit;
    assert NoWildcards(lit);
    var s := "router.infolinks.com";
    assert LineFree(s);
    GlobStarSuffix(lit, s);
    assert s[|s| - |lit|..] == lit;
    assert LineFree("infolinks.com");
    GlobStarSuffix(lit, "infolinks.com");
  }

  // ---------------------------------------------------------------- patterns

  /** The part of a pattern before its first "/" (the whole pattern when it has none). */
  function HostPart(pattern: string): (r: string)
    ensures '/' !in r
    ensures '/' !in pattern ==> r == pattern
    ensures StartsWith(pattern, r)
    ensures |r| < |pattern| ==> pattern[|r|] == '/'
  {
    var i := FindAny(pattern, 0, {'/'});
    assert forall c | c in pattern[..i] :: c != '/';
    pattern[..i]
  }

  /** HostWildcardMatch: the host against the pattern's host part. */
  predicate HostWildcardMatch(host: string, pattern: string)
  {
    AnchoredMatch(HostPart(pattern), host)
  }

  /** new Uri(url).Host, when the constructor succeeds. */
  function UriHost(url: string): Option<string>
  {
    match ParseAbsolute(url)
    case Some(u) => Some(u.host)
    case None => None
  }

  /**
   * UrlPatternMatch: never for a blank URL or pattern; a pattern without "/"
   * matches a URL whose host matches it; otherwise the pattern must match the
   * whole URL.
   */
  predicate UrlPatternMatch(url: string, pattern: string)
  {
    if IsBlank(url) || IsBlank(pattern) then false
    else if '/' !in pattern && UriHost(url).Some? && HostWildcardMatch(UriHost(url).value, pattern) then true
    else AnchoredMatch(pattern, url)
  }

  lemma UrlPatternMatchCases(url: string, pattern: string)
    ensures IsBlank(url) || IsBlank(pattern) ==> !UrlPatternMatch(url, pattern)
    ensures !IsBlank(url) && !IsBlank(pattern) ==>
              (UrlPatternMatch(url, pattern) <==>
               AnchoredMatch(pattern, url) ||
               ('/' !in pattern && UriHost(url).Some? && AnchoredMatch(pattern, UriHost(url).value)))
  {
  }

  /** One pattern of MatchesAny: the URL matches it, or the URL's host matches its host part. */
  predicate PatternHits(url: string, p: string)
  {
    UrlPatternMatch(url, p) || (UriHost(url).Some? && HostWildcardMatch(UriHost(url).value, p))
  }

  /** MatchesAny: the foreach that stops at the first pattern that hits. */
  predicate MatchesAny(url: string, patterns: seq<string>)
  {
    exists k | 0 <= k < |patterns| :: PatternHits(url, patterns[k])
  }

  lemma MatchesAnyEmpty(url: string)
    ensures !MatchesAny(url, [])
  {
  }

  /**
   * Because MatchesAny also tries the host part of every pattern, a pattern
   * with a path, such as the yandex.ru entry with its "/ads/" path, hits every
   * URL on its host,
   * whatever the path.
   */
  lemma MatchesAnyIgnoresPath(url: string, patterns: seq<string>, k: nat, u: Url)
    requires k < |patterns| && ParseAbsolute(url) == Some(u)
    requires AnchoredMatch(HostPart(patterns[k]), u.host)
    ensures MatchesAny(url, patterns)
  {
    assert PatternHits(url, patterns[k]);
  }

  lemma YandexPatternHitsWholeHost(u: Url)
    requires u.host == "yandex.ru"
    ensures AnchoredMatch(HostPart("yandex.ru/ads/*"), u.host)
  {
    var p := "yandex.ru/ads/*";
    assert p[9] == '/' && p[..9] == "yandex.ru";
    assert forall i | 0 <= i < 9 :: p[i] != '/';
    assert HostPart(p) == "yandex.ru";
    assert NoWildcards("yandex.ru");
    GlobLiteral("yandex.ru", u.host);
  }

  /** The ad markers of LooksLikeAdUrl. */
  const AdUrlMarkers: seq<string> :=
    ["doubleclick.net", "googlesyndication.com", "adservice.google",
     "/ads/", "/ad/", "?ad=", "&ad=", "advert", "sponsored"]

  predicate LooksLikeAdUrl(url: string)
  {
    ContainsAny(Lower(url), AdUrlMarkers)
  }

  const DefaultHardBlockPatterns: seq<string> :=
    ["*.infolinks.com", "router.infolinks.com/*", "rt*.infolinks.com/*",
     "*.pubadx.one", "imp*.pubadx.one/*", "pixel-dsp.pubadx.one/*", "source.pubadx.one/*",
     "demand.pubadx.one/*", "cdn.pubfuture-ad.com/*", "media.pubfuture.com/*", "s3.pubfuture.com/*",
     "*.monetixads.com/*", "ssp-service.monetixads.com/*", "static.cdn.monetixads.com/*",
     "*.adform.net/*", "*.a-ads.com/*", "ad.a-ads.com/*", "doubleclick.net/*", "*.doubleclick.net/*",
     "*.googlesyndication.com/*", "adservice.google.com/*", "adservice.google.*/*", "*.teads.tv/*",
     "yandex.ru/ads/*", "*.adxpremium.services/*", "*.pubrev.io/*", "*.lowseelor.com/*",
     "*.glookockish.com/*", "cdnpf.com/*", "topworkredbay.shop/*"]

  // ---------------------------------------------------------------- the handler

  /** The options the handler reads: dry run, the site allowlist and the hard denylist. */
  datatype Options = Options(dryRun: bool, siteAllowlist: seq<string>, hardBlockDomainPatterns: Option<seq<string>>)

  /** The configured denylist when it has entries, the built-in one otherwise. */
  function HardPatterns(opt: Options): (r: seq<string>)
    ensures |r| > 0
    ensures opt.hardBlockDomainPatterns.Some? && |opt.hardBlockDomainPatterns.value| > 0 ==>
              r == opt.hardBlockDomainPatterns.value
  {
    match opt.hardBlockDomainPatterns
    case Some(ps) => if |ps| > 0 then ps else DefaultHardBlockPatterns
    case None => DefaultHardBlockPatterns
  }

  /** The contexts the handler is registered for. */
  const FilteredContexts: set<WebResourceContext> :=
    {WebResourceContext.Script, WebResourceContext.Image, WebResourceContext.Media,
     WebResourceContext.Stylesheet, WebResourceContext.XmlHttpRequest, WebResourceContext.Fetch,
     WebResourceContext.Font, WebResourceContext.Other, WebResourceContext.Document}

  /** A requested resource: its URL, its context and its Sec-Fetch-Dest header. */
  datatype Request = Request(uri: string, context: WebResourceContext, secFetchDest: Option<string>)

  predicate IsIFrameRequest(req: Request)
  {
    req.secFetchDest.Some? && req.secFetchDest.value != "" && EqIgnoreCase(req.secFetchDest.value, "iframe")
  }

  /** The page's address when the view has one, the resource's own otherwise. */
  function DocumentUrl(req: Request, source: Option<string>): string
  {
    if source.Some? then source.value else req.uri
  }

  predicate IsChallengeResource(uri: string)
  {
    ContainsIgnoreCase(uri, "challenges.cloudflare.com") || ContainsIgnoreCase(uri, "/turnstile/")
  }

  /** The step of the handler that decided. */
  datatype Stage =
    | NotFiltered | ChallengeResource | UnparsableDocument | AllowlistedSite | CustomRule
    | HardDenylist | TopLevelDocument | UntypedResource | EngineOrHeuristic

  datatype Verdict = Pass(stage: Stage) | Deny(stage: Stage)

  /** The resource type handed to the engine: a document (an iframe) is a subdocument. */
  function EngineType(ctx: WebResourceContext): ResType
  {
    if ctx == WebResourceContext.Document then ResType.Subdocument else MapContext(ctx)
  }

  /** The verdict of the last step: the engine or, failing that, the heuristic. */
  predicate EngineOrHeuristicBlocks(svc: AdblockService, req: Request, documentUrl: string)
  {
    ShouldBlock(svc, req.uri, documentUrl, EngineType(req.context), IsThirdParty(req.uri, documentUrl))
    || LooksLikeAdUrl(req.uri)
  }

  /**
   * The request gets past the early exits of the handler: it is of a filtered
   * context, not a challenge resource, on a parsable page that is not
   * allowlisted, and no custom URL rule of the page matches it.
   */
  predicate PastCustomRules(req: Request, source: Option<string>, opt: Options, urlRules: Option<RuleMap>)
  {
    var documentUrl := DocumentUrl(req, source);
    && req.context in FilteredContexts
    && !IsChallengeResource(req.uri)
    && UriHost(documentUrl).Some?
    && !ListHasIgnoreCase(opt.siteAllowlist, UriHost(documentUrl).value)
    && !(urlRules.Some? &&
         exists k | 0 <= k < |RulesFor(urlRules.value, UriHost(documentUrl).value)| ::
           UrlPatternMatch(req.uri, RulesFor(urlRules.value, UriHost(documentUrl).value)[k]))
  }

  /**
   * The WebResourceRequested handler's decision, step by step: challenge
   * resources pass; an unparsable page address ends the handler; allowlisted
   * pages pass; the page's custom URL rules block; the hard denylist blocks
   * third-party resources; a top-level document passes; a resource without a
   * type passes; the engine or the heuristic decides the rest.
   */
  function Decide(req: Request, source: Option<string>, opt: Options, urlRules: Option<RuleMap>,
                  svc: AdblockService): (v: Verdict)
    ensures req.context !in FilteredContexts ==> v == Pass(NotFiltered)
    ensures IsChallengeResource(req.uri) ==> v.Pass?
    ensures v.Deny? ==> UriHost(DocumentUrl(req, source)).Some? &&
                        !ListHasIgnoreCase(opt.siteAllowlist, UriHost(DocumentUrl(req, source)).value)
    ensures v == Deny(HardDenylist) ==>
              IsThirdParty(req.uri, DocumentUrl(req, source)) && MatchesAny(req.uri, HardPatterns(opt))
    ensures v == Deny(CustomRule) ==>
              urlRules.Some? &&
              exists k | 0 <= k < |RulesFor(urlRules.value, UriHost(DocumentUrl(req, source)).value)| ::
                UrlPatternMatch(req.uri, RulesFor(urlRules.value, UriHost(DocumentUrl(req, source)).value)[k])
    ensures v.Deny? ==> v.stage in {CustomRule, HardDenylist, EngineOrHeuristic}
    ensures req.context == WebResourceContext.Document && !IsIFrameRequest(req) && v.Deny? ==>
              v.stage == CustomRule || v.stage == HardDenylist
    ensures v.stage == EngineOrHeuristic ==>
              EngineType(req.context) != ResType.Other &&
              (v.Deny? <==> EngineOrHeuristicBlocks(svc, req, DocumentUrl(req, source)))
    // past the custom rules: the hard denylist blocks matching third-party requests
    ensures PastCustomRules(req, source, opt, urlRules) &&
            IsThirdParty(req.uri, DocumentUrl(req, source)) && MatchesAny(req.uri, HardPatterns(opt)) ==>
              v == Deny(HardDenylist)
    // then a top-level document passes, an untyped resource passes, and the engine or heuristic decides the rest
    ensures PastCustomRules(req, source, opt, urlRules) &&
            !(IsThirdParty(req.uri, DocumentUrl(req, source)) && MatchesAny(req.uri, HardPatterns(opt))) ==>
              if req.context == WebResourceContext.Document && !IsIFrameRequest(req) then v == Pass(TopLevelDocument)
              else if EngineType(req.context) == ResType.Other then v == Pass(UntypedResource)
              else v.stage == EngineOrHeuristic
  {
    var documentUrl := DocumentUrl(req, source);
    if req.context !in FilteredContexts then Pass(NotFiltered)
    else if IsChallengeResource(req.uri) then Pass(ChallengeResource)
    else match UriHost(documentUrl) {
      case None => Pass(UnparsableDocument)
      case Some(docHost) =>
        if ListHasIgnoreCase(opt.siteAllowlist, docHost) then Pass(AllowlistedSite)
        else
          var isThirdParty := IsThirdParty(req.uri, documentUrl);
          if urlRules.Some? &&
             exists k | 0 <= k < |RulesFor(urlRules.value, docHost)| ::
               UrlPatternMatch(req.uri, RulesFor(urlRules.value, docHost)[k])
          then Deny(CustomRule)
          else if isThirdParty && MatchesAny(req.uri, HardPatterns(opt)) then Deny(HardDenylist)
          else if req.context == WebResourceContext.Document && !IsIFrameRequest(req) then Pass(TopLevelDocument)
          else if EngineType(req.context) == ResType.Other then Pass(UntypedResource)
          else if EngineOrHeuristicBlocks(svc, req, documentUrl) then Deny(EngineOrHeuristic)
          else Pass(EngineOrHeuristic)
    }
  }

  /** Every marker the last step blocks on: the engine's ad paths and known hosts, then the heuristic's. */
  function LastStepMarkers(): seq<string>
  {
    AdPathMarkers + KnownHosts + AdUrlMarkers
  }

  lemma ContainsAnyAppend(s: string, a: seq<string>, b: seq<string>)
    ensures ContainsAny(s, a + b) <==> ContainsAny(s, a) || ContainsAny(s, b)
  {
    if ContainsAny(s, a + b) {
      var k :| 0 <= k < |a + b| && Contains(s, (a + b)[k]);
      if k >= |a| {
        assert (a + b)[k] == b[k - |a|];
      }
    }
    if ContainsAny(s, a) {
      var k :| 0 <= k < |a| && Contains(s, a[k]);
      assert (a + b)[k] == a[k];
    }
    if ContainsAny(s, b) {
      var k :| 0 <= k < |b| && Contains(s, b[k]);
      assert (a + b)[|a| + k] == b[k];
    }
  }

  /**
   * The last step blocks exactly the URLs whose lower-cased text contains one
   * of the markers or one of the engine's loaded patterns, whatever the
   * resource type, the page or the third-party flag.
   */
  lemma LastStepBySubstring(svc: AdblockService, req: Request, documentUrl: string)
    ensures EngineOrHeuristicBlocks(svc, req, documentUrl) <==>
            ContainsAny(Lower(req.uri), LastStepMarkers()) || HasPattern(svc.engine, Lower(req.uri))
  {
    var u := Lower(req.uri);
    EngineBlocksBySubstring(svc.engine, AdblockRequest(req.uri, documentUrl,
      ElementTypeOf(EngineType(req.context)), IsThirdParty(req.uri, documentUrl)));
    ContainsAnyAppend(u, AdPathMarkers, KnownHosts);
    ContainsAnyAppend(u, AdPathMarkers + KnownHosts, AdUrlMarkers);
  }

  /** A custom URL rule of the page blocks a resource of any registered context, a top-level document included. */
  lemma CustomRuleBlocksAnyContext(req: Request, source: Option<string>, opt: Options, m: RuleMap,
                                   svc: AdblockService, k: nat)
    requires req.context in FilteredContexts && !IsChallengeResource(req.uri)
    requires UriHost(DocumentUrl(req, source)).Some?
    requires !ListHasIgnoreCase(opt.siteAllowlist, UriHost(DocumentUrl(req, source)).value)
    requires k < |RulesFor(m, UriHost(DocumentUrl(req, source)).value)|
    requires UrlPatternMatch(req.uri, RulesFor(m, UriHost(DocumentUrl(req, source)).value)[k])
    ensures Decide(req, source, opt, Some(m), svc) == Deny(CustomRule)
  {
  }

  // ---------------------------------------------------------------- responses

  datatype WebResponse = WebResponse(status: int, reason: string, headers: string)

  const BlockedResponse: WebResponse := WebResponse(403, "Blocked", "Content-Type: text/plain")

  /** The event arguments: the request, and the response the handler may set. */
  class ResourceRequestedArgs {
    const request: Request
    var response: Option<WebResponse>

    constructor (request: Request)
      ensures this.request == request && response == None
    {
      this.request := request;
      response := None;
    }
  }

  /** Block: the 403 response, unless the options ask for a dry run. */
  method Block(e: ResourceRequestedArgs, opt: Options)
    modifies e
    ensures opt.dryRun ==> e.response == old(e.response)
    ensures !opt.dryRun ==> e.response == Some(BlockedResponse)
  {
    if !opt.dryRun {
      e.response := Some(BlockedResponse);
    }
  }

  /** The rules of the store, when the handler has one. */
  function StoreRules(store: CosmeticRuleStore?): Option<RuleMap>
    reads store
  {
    if store == null then None else Some(store.urlRules)
  }

  /** The handler: the request is answered with the 403 response exactly when it is denied and this is no dry run. */
  method OnWebResourceRequested(e: ResourceRequestedArgs, source: Option<string>, opt: Options,
                                store: CosmeticRuleStore?, svc: AdblockService)
    modifies e
    ensures var v := Decide(e.request, source, opt, StoreRules(store), svc);
            e.response == if v.Deny? && !opt.dryRun then Some(BlockedResponse) else old(e.response)
  {
    var v := Decide(e.request, source, opt, StoreRules(store), svc);
    if v.Deny? {
      Block(e, opt);
    }
  }
}
