/**
 * HttpFetcher: HTTP download with per-host throttling, challenge detection
 * and a fallback to the embedded browser (WebView2), which also learns which
 * hosts need it.
 *
 * The clock, the random generator, the HTTP stack and the WebView2 helpers
 * are inputs: the caller supplies the clock readings and random draws, and a
 * Script supplies, in order, what SendAsync, FetchHtmlAsync,
 * WarmUpCookiesAsync and SolveCloudflareInteractivelyAsync answer.
 */
module HttpFetcher {
  import opened Text
  import opened Urls

  // ---------------------------------------------------------------- responses

  /** What the fetcher sees of an HTTP response: status, Server product tokens, header names, decoded body. */
  datatype Response = Response(status: int, server: seq<string>, headerNames: seq<string>, body: string)

  predicate IsSuccess(status: int) { 200 <= status < 300 }

  /** string.Join(" ", tokens). */
  function Join(tokens: seq<string>): string
  {
    if tokens == [] then ""
    else if |tokens| == 1 then tokens[0]
    else Join(tokens[..|tokens| - 1]) + " " + tokens[|tokens| - 1]
  }

  /** HttpHeaders.TryGetValues: header names compare without regard to case. */
  predicate HasHeader(resp: Response, name: string)
  {
    exists k | 0 <= k < |resp.headerNames| :: EqIgnoreCase(resp.headerNames[k], name)
  }

  const ServerMarkers: seq<string> := ["cloudflare", "ddos", "sucuri"]
  const ChallengeHeaders: seq<string> := ["cf-ray", "cf-cache-status", "x-sucuri-id"]

  /** LooksLikeJsChallenge: a protection vendor in the Server header, or one of its headers. */
  predicate LooksLikeJsChallenge(resp: Response)
  {
    ContainsAny(Lower(Join(resp.server)), ServerMarkers)
    || exists k | 0 <= k < |ChallengeHeaders| :: HasHeader(resp, ChallengeHeaders[k])
  }

  /** The header test looks at headers only: status and body do not matter. */
  lemma LooksLikeJsChallengeIgnoresStatusAndBody(resp: Response, status: int, body: string)
    ensures LooksLikeJsChallenge(resp) == LooksLikeJsChallenge(resp.(status := status, body := body))
  {
  }

  const BodyMarkers: seq<string> := [
    "challenges.cloudflare.com",
    "cf-chl-",
    "please verify you are human",
    "bestätigen sie, dass sie ein mensch sind",
    "checking your browser before accessing",
    "just a moment"]

  /** BodyLooksLikeChallenge: a non-empty body whose lower-cased text holds a challenge marker. */
  predicate BodyLooksLikeChallenge(html: string)
  {
    html != [] && ContainsAny(Lower(html), BodyMarkers)
  }

  /** The body test ignores case. */
  lemma BodyChallengeIgnoresCase(html: string)
    ensures BodyLooksLikeChallenge(html) == BodyLooksLikeChallenge(Lower(html))
  {
    LowerIsLowered(html);
  }

  /** A Cloudflare interstitial page is recognized. */
  lemma BodyChallengeExample()
    ensures BodyLooksLikeChallenge("<title>Just a moment...</title>")
  {
    var low := Lower("<title>Just a moment...</title>");
    var p, m, q := "<title>", BodyMarkers[5], "...</title>";
    assert low == p + m + q;
    assert (p + m + q)[|p|..|p| + |m|] == m;
    assert HasAt(low, m, |p|);
  }

  // ---------------------------------------------------------------- throttling

  const MinDelayMs: int := 900

  /** How long ThrottleAsync waits: until the host's reserved time, or not at all. */
  function ThrottleWait(slots: map<string, int>, key: string, now: int): (wait: nat)
    ensures key in slots ==> now + wait >= slots[key]
    ensures wait > 0 ==> key in slots && now + wait == slots[key]
  {
    if key in slots && slots[key] > now then slots[key] - now else 0
  }

  /**
   * Two throttled requests to the same host, the second issued after the first
   * was dispatched, are dispatched at least the minimum delay plus the
   * smallest jitter apart.
   */
  lemma ThrottleSpacing(slots: map<string, int>, key: string,
                        now1: int, late1: nat, jitter1: int,
                        now2: int, late2: nat)
    requires 50 <= jitter1
    requires now2 >= now1 + ThrottleWait(slots, key, now1) + late1
    ensures var d1 := now1 + ThrottleWait(slots, key, now1) + late1;
            var slots2 := slots[key := d1 + MinDelayMs + jitter1];
            now2 + ThrottleWait(slots2, key, now2) + late2 >= d1 + MinDelayMs + 50
  {
  }

  // ---------------------------------------------------------------- the script

  /** What SendAsync does: answer, throw InvalidOperationException, or throw anything else. */
  datatype Send = Reply(resp: Response) | InvalidOperation | NetworkError

  datatype WarmUp = Warmed | NotWarmed | WarmUpThrew

  /**
   * The answers of the collaborators, in call order. Past the end of a list,
   * SendAsync fails, FetchHtmlAsync returns nothing, the warm-up and the
   * interactive solve report failure.
   */
  datatype Script = Script(sends: seq<Send>, renders: seq<string>, warmUps: seq<WarmUp>,
                           solves: seq<bool>, noise: nat -> int)

  function At<T>(s: seq<T>, i: nat, default: T): T
  {
    if i < |s| then s[i] else default
  }

  // ---------------------------------------------------------------- the protocol

  datatype Event =
    | Throttled(wait: int)
    | Rendered(ok: bool)
    | Sent(attempt: int, outcome: Send)
    | SolveOffered(solved: bool)
    | WarmUpTried(guarded: bool, result: WarmUp)
    | Paused(ms: int)
    | Backoff(attempt: int, ms: int)
    | FinalRendered(ok: bool)

  datatype Source = HttpBody | KnownJsHostRender | FallbackRender

  datatype FetchError = InvalidUrl | SendFailed | SendInvalid | StatusFailed(code: int) | WarmUpFailed | Exhausted

  datatype FetchResult = Fetched(html: string, source: Source) | Failed(error: FetchError)

  const MaxTry: int := 3

  function Pow2(k: nat): (r: nat)
    ensures r >= 1
  {
    if k == 0 then 1 else 2 * Pow2(k - 1)
  }

  /** The deterministic part of the backoff before attempt + 1. */
  function BackoffBase(attempt: int): int
    requires attempt >= 1
  {
    400 * Pow2(attempt - 1)
  }

  predicate BackoffWellFormed(e: Event)
  {
    e.Backoff? ==> 1 <= e.attempt < MaxTry && BackoffBase(e.attempt) <= e.ms < BackoffBase(e.attempt) + 200
  }

  /** Guarded cookie warm-ups that succeeded. */
  function SuccessfulWarmUps(trace: seq<Event>): nat
  {
    if trace == [] then 0
    else SuccessfulWarmUps(trace[..|trace| - 1])
         + (if trace[|trace| - 1] == WarmUpTried(true, Warmed) then 1 else 0)
  }

  lemma SuccessfulWarmUpsAppend(trace: seq<Event>, e: Event)
    ensures SuccessfulWarmUps(trace + [e]) == SuccessfulWarmUps(trace) + (if e == WarmUpTried(true, Warmed) then 1 else 0)
  {
    assert (trace + [e])[..|trace|] == trace;
  }

  /** A trace satisfies the fetcher's step rules: well-formed backoffs, no last-chance render. */
  predicate StepEvents(events: seq<Event>)
  {
    forall k | 0 <= k < |events| :: BackoffWellFormed(events[k]) && !events[k].FinalRendered?
  }

  /** No request is sent in these steps. */
  predicate NoSends(events: seq<Event>)
  {
    forall k | 0 <= k < |events| :: !events[k].Sent?
  }

  /** A reply with a status that is neither a success nor 403/429: EnsureSuccessStatusCode throws. */
  predicate FailingSend(s: Send)
  {
    s.Reply? && !IsSuccess(s.resp.status) && s.resp.status != 403 && s.resp.status != 429
  }

  /** A reply that takes the 403/429 branch. */
  predicate RefusedSend(s: Send)
  {
    s.Reply? && (s.resp.status == 403 || s.resp.status == 429)
  }

  lemma {:induction false} SuccessfulWarmUpsConcat(a: seq<Event>, b: seq<Event>)
    ensures SuccessfulWarmUps(a + b) == SuccessfulWarmUps(a) + SuccessfulWarmUps(b)
  {
    if b != [] {
      var b' := b[..|b| - 1];
      assert a + b == (a + b') + [b[|b| - 1]];
      SuccessfulWarmUpsConcat(a, b');
      SuccessfulWarmUpsAppend(a + b', b[|b| - 1]);
      SuccessfulWarmUpsAppend(b', b[|b| - 1]);
      assert b' + [b[|b| - 1]] == b;
    } else {
      assert a + b == a;
    }
  }

  /** events + [e], with its count of successful guarded warm-ups. */
  function Push(events: seq<Event>, e: Event): (r: seq<Event>)
    ensures r == events + [e]
    ensures |r| == |events| + 1 && r[|events|] == e
    ensures forall k | 0 <= k < |events| :: r[k] == events[k]
    ensures StepEvents(events) && BackoffWellFormed(e) && !e.FinalRendered? ==> StepEvents(r)
    ensures NoSends(events) && !e.Sent? ==> NoSends(r)
    ensures SuccessfulWarmUps(r) == SuccessfulWarmUps(events) + (if e == WarmUpTried(true, Warmed) then 1 else 0)
  {
    SuccessfulWarmUpsAppend(events, e);
    events + [e]
  }

  /** How far each list of the script has been consumed. */
  datatype Cursor = Cursor(sends: nat, renders: nat, warmUps: nat, solves: nat, noise: nat)

  /** How one pass of the retry loop ends. */
  datatype Step =
    | Done(result: FetchResult)   // return or throw
    | Retry                       // attempt--; continue: the same attempt number again
    | NextAttempt                 // backoff, then the next attempt
    | GiveUp                      // break: on to the last-chance render

  /** The solve answers still to come, the measure that bounds the retries. */
  function SolvesLeft(script: Script, c: Cursor): nat
  {
    if c.solves < |script.solves| then |script.solves| - c.solves else 0
  }

  /** a + b, with the step rules and the warm-up count carried over. */
  function Concat(a: seq<Event>, b: seq<Event>): (r: seq<Event>)
    ensures r == a + b
    ensures StepEvents(a) && StepEvents(b) ==> StepEvents(r)
    ensures NoSends(a) && NoSends(b) ==> NoSends(r)
    ensures |r| == |a| + |b| && r[..|a|] == a && r[|a|..] == b
    ensures SuccessfulWarmUps(r) == SuccessfulWarmUps(a) + SuccessfulWarmUps(b)
    ensures a != [] ==> r[0] == a[0]
  {
    SuccessfulWarmUpsConcat(a, b);
    a + b
  }

  /**
   * The interactive solve both challenge paths offer: on success an unguarded
   * warm-up, a pause and a retry of the same attempt; otherwise a browser
   * capture, which ends the call when it returns a page. None: carry on.
   */
  method OfferSolve(c: Cursor, script: Script)
    returns (step: Option<Step>, c': Cursor, events: seq<Event>)
    ensures StepEvents(events) && NoSends(events) && SuccessfulWarmUps(events) == 0
    ensures c'.solves == c.solves + 1 && c'.sends == c.sends
    ensures step.Some? ==> step.value.Retry? || step.value == Done(Failed(WarmUpFailed))
                           || (step.value.Done? && step.value.result.Fetched?
                               && step.value.result.source == FallbackRender && step.value.result.html != "")
    ensures step == Some(Retry) ==> SolvesLeft(script, c') < SolvesLeft(script, c)
  {
    c' := c;
    var solved := At(script.solves, c'.solves, false);
    c' := c'.(solves := c'.solves + 1);
    events := Push([], SolveOffered(solved));
    if solved {
      var w := At(script.warmUps, c'.warmUps, NotWarmed);
      c' := c'.(warmUps := c'.warmUps + 1);
      events := Push(events, WarmUpTried(false, w));
      if w == WarmUpThrew {
        step := Some(Done(Failed(WarmUpFailed)));
      } else {
        events := Push(events, Paused(600));
        step := Some(Retry);
      }
    } else {
      var html := At(script.renders, c'.renders, "");
      c' := c'.(renders := c'.renders + 1);
      events := Push(events, Rendered(html != ""));
      step := if html != "" then Some(Done(Fetched(html, FallbackRender))) else None;
    }
  }

  /**
   * The guarded cookie warm-up (once per call) and then the browser capture
   * of the 403/429 path; the capture ends the call when it returns a page,
   * otherwise the loop backs off or, after the last attempt, ends.
   */
  method WarmUpOrCapture(attempt: int, warmed: bool, c: Cursor, script: Script)
    returns (step: Step, warmedOut: bool, c': Cursor, events: seq<Event>)
    requires 1 <= attempt <= MaxTry
    requires forall k: nat :: 0 <= script.noise(k) < 200
    ensures StepEvents(events) && NoSends(events)
    ensures warmed ==> warmedOut
    ensures SuccessfulWarmUps(events) == if warmedOut && !warmed then 1 else 0
    ensures c'.solves == c.solves && c'.sends == c.sends
    ensures step.Retry? ==> warmedOut && !warmed
    ensures step.NextAttempt? ==> attempt < MaxTry && warmedOut == warmed
    ensures step.GiveUp? ==> attempt == MaxTry
    ensures step.Done? ==> step.result.Fetched? && step.result.source == FallbackRender && step.result.html != ""
  {
    warmedOut := warmed;
    c' := c;
    events := [];
    if !warmed {
      var w := At(script.warmUps, c'.warmUps, NotWarmed);
      c' := c'.(warmUps := c'.warmUps + 1);
      events := Push(events, WarmUpTried(true, w));
      warmedOut := w == Warmed;
      if warmedOut {
        events := Push(events, Paused(600));
        return Retry, warmedOut, c', events;
      }
    }
    var html := At(script.renders, c'.renders, "");
    c' := c'.(renders := c'.renders + 1);
    events := Push(events, Rendered(html != ""));
    if html != "" {
      step := Done(Fetched(html, FallbackRender));
    } else if attempt == MaxTry {
      step := GiveUp;
    } else {
      var ms := BackoffBase(attempt) + script.noise(c'.noise);
      c' := c'.(noise := c'.noise + 1);
      events := Push(events, Backoff(attempt, ms));
      step := NextAttempt;
    }
  }

  /**
   * One pass of the retry loop of GetStringSmartAsync (the for-body), given
   * the attempt number, the warmed flag and the script position.
   */
  method AttemptOnce(attempt: int, warmed: bool, c: Cursor, script: Script)
    returns (step: Step, warmedOut: bool, c': Cursor, events: seq<Event>)
    requires 1 <= attempt <= MaxTry
    requires forall k: nat :: 0 <= script.noise(k) < 200
    ensures events != [] && events[0] == Sent(attempt, At(script.sends, c.sends, NetworkError))
    ensures StepEvents(events) && NoSends(events[1..])
    // how the reply decides the pass
    ensures var s := At(script.sends, c.sends, NetworkError);
            s.NetworkError? ==> step == Done(Failed(SendFailed)) && events == [Sent(attempt, s)]
    ensures var s := At(script.sends, c.sends, NetworkError);
            s.InvalidOperation? ==> step.Done? && (step.result == Failed(SendInvalid) || step.result.Fetched?)
    ensures var s := At(script.sends, c.sends, NetworkError);
            FailingSend(s) ==> step == Done(Failed(StatusFailed(s.resp.status))) && events == [Sent(attempt, s)]
    ensures var s := At(script.sends, c.sends, NetworkError);
            s.Reply? && IsSuccess(s.resp.status) && !BodyLooksLikeChallenge(s.resp.body) ==>
              step == Done(Fetched(s.resp.body, HttpBody)) && events == [Sent(attempt, s)]
    ensures var s := At(script.sends, c.sends, NetworkError);
            step.NextAttempt? || step.GiveUp? ==> RefusedSend(s)
    ensures var s := At(script.sends, c.sends, NetworkError);
            step.Retry? ==> RefusedSend(s) || (s.Reply? && IsSuccess(s.resp.status) && BodyLooksLikeChallenge(s.resp.body))
    ensures warmed ==> warmedOut
    ensures SuccessfulWarmUps(events) == if warmedOut && !warmed then 1 else 0
    ensures c'.solves >= c.solves
    ensures step.Retry? ==> SolvesLeft(script, c') < SolvesLeft(script, c) || (warmedOut && !warmed)
    ensures step.NextAttempt? ==> attempt < MaxTry && warmedOut == warmed
    ensures step.GiveUp? ==> attempt == MaxTry
    ensures step.Done? ==> !(step.result.Fetched? && step.result.source == KnownJsHostRender)
    ensures step.Done? ==> step.result != Failed(InvalidUrl) && step.result != Failed(Exhausted)
    ensures step.Done? && step.result.Fetched? && step.result.source == FallbackRender ==> step.result.html != ""
    ensures step.Done? && step.result.Fetched? && step.result.source == HttpBody ==>
              exists k | 0 <= k < |script.sends| ::
                script.sends[k].Reply? && IsSuccess(script.sends[k].resp.status) &&
                script.sends[k].resp.body == step.result.html
    ensures step.Done? && step.result.Failed? && step.result.error.StatusFailed? ==>
              var code := step.result.error.code;
              !IsSuccess(code) && code != 403 && code != 429 &&
              events[|events| - 1].Sent? && events[|events| - 1].outcome.Reply? &&
              events[|events| - 1].outcome.resp.status == code
  {
    warmedOut := warmed;
    c' := c;
    var send := At(script.sends, c.sends, NetworkError);
    c' := c'.(sends := c.sends + 1);
    events := Push([], Sent(attempt, send));

    if send.NetworkError? {
      return Done(Failed(SendFailed)), warmedOut, c', events;
    }
    if send.InvalidOperation? {
      var html := At(script.renders, c'.renders, "");
      c' := c'.(renders := c'.renders + 1);
      events := Push(events, Rendered(html != ""));
      step := if html != "" then Done(Fetched(html, FallbackRender)) else Done(Failed(SendInvalid));
      return;
    }

    var resp := send.resp;
    if resp.status == 403 || resp.status == 429 {
      if LooksLikeJsChallenge(resp) {
        var solveStep, more;
        solveStep, c', more := OfferSolve(c', script);
        events := Concat(events, more);
        if solveStep.Some? {
          return solveStep.value, warmedOut, c', events;
        }
      }
      var more;
      step, warmedOut, c', more := WarmUpOrCapture(attempt, warmed, c', script);
      events := Concat(events, more);
      return;
    }

    if !IsSuccess(resp.status) {
      return Done(Failed(StatusFailed(resp.status))), warmedOut, c', events;
    }

    assert script.sends[c.sends] == send;
    step := Done(Fetched(resp.body, HttpBody));
    if BodyLooksLikeChallenge(resp.body) {
      var solveStep, more;
      solveStep, c', more := OfferSolve(c', script);
      events := Concat(events, more);
      if solveStep.Some? {
        step := solveStep.value;
      }
    }
  }

  /** After appending one pass, its request is the only new send, right after the old trace. */
  lemma NewSendsAreFirst(before: seq<Event>, events: seq<Event>, trace: seq<Event>)
    requires events != [] && NoSends(events[1..]) && trace == before + events
    ensures trace[|before|] == events[0]
    ensures forall k | |before| < k < |trace| :: !trace[k].Sent?
  {
    forall k | |before| < k < |trace| ensures !trace[k].Sent? {
      assert trace[k] == events[1..][k - |before| - 1];
    }
  }

  /**
   * The retry loop of GetStringSmartAsync: attempts 1 to MaxTry, each pass as
   * AttemptOnce. Returns the result when a pass ends the call, or None when the
   * last attempt gave up; trace is what came before the loop plus its steps.
   */
  method RetryLoop(wait: int, c: Cursor, script: Script, before: seq<Event>)
    returns (done: Option<FetchResult>, c': Cursor, trace: seq<Event>)
    requires forall k: nat :: 0 <= script.noise(k) < 200
    requires before != [] && before[0] == Throttled(wait)
    requires StepEvents(before) && NoSends(before) && SuccessfulWarmUps(before) == 0
    ensures done.Some? ==> TraceOutcome(wait, script, done.value, trace)
    ensures done.Some? ==> !(done.value.Fetched? && done.value.source == KnownJsHostRender)
    ensures done.None? ==> GaveUpTrace(wait, trace)
    // the loop keeps the steps before it, and its first step is attempt 1's request on the next scripted send
    ensures |trace| > |before| && trace[..|before|] == before
    ensures trace[|before|] == Sent(1, At(script.sends, c.sends, NetworkError))
  {
    c' := c;
    trace := before;
    var attempt := 1;
    var warmed := false;
    while attempt <= MaxTry
      invariant 1 <= attempt <= MaxTry
      invariant trace != [] && trace[0] == Throttled(wait)
      invariant forall k | 0 <= k < |trace| && trace[k].Sent? :: !FailingSend(trace[k].outcome)
      invariant SuccessfulWarmUps(trace) == if warmed then 1 else 0
      invariant StepEvents(trace)
      invariant |trace| >= |before| && trace[..|before|] == before
      invariant |trace| == |before| ==> attempt == 1 && c' == c
      invariant |trace| > |before| ==> trace[|before|] == Sent(1, At(script.sends, c.sends, NetworkError))
      decreases SolvesLeft(script, c'), (if warmed then 0 else 1), MaxTry + 1 - attempt
    {
      var step, warmedOut, cNext, events := AttemptOnce(attempt, warmed, c', script);
      ghost var prior, s := trace, At(script.sends, c'.sends, NetworkError);
      trace := Concat(trace, events);
      NewSendsAreFirst(prior, events, trace);
      match step {
        case Done(result) =>
          DoneTrace(wait, script, prior, events, trace, result, attempt, s, warmed, warmedOut);
          return Some(result), cNext, trace;
        case Retry =>
        case NextAttempt =>
          attempt := attempt + 1;
        case GiveUp =>
          assert trace[|prior|] == events[0];
          return None, cNext, trace;
      }
      warmed, c' := warmedOut, cNext;
    }
    assert false;
  }

  /** The steps of a retry loop whose last attempt gave up after a 403/429 reply. */
  ghost predicate GaveUpTrace(wait: int, trace: seq<Event>)
  {
    && trace != [] && trace[0] == Throttled(wait)
    && (forall k | 0 <= k < |trace| && trace[k].Sent? :: !FailingSend(trace[k].outcome))
    && SuccessfulWarmUps(trace) <= 1
    && StepEvents(trace)
    && exists k | 0 <= k < |trace| :: trace[k].Sent? && trace[k].attempt == MaxTry && RefusedSend(trace[k].outcome)
  }

  /** The last-chance render after the loop gave up leaves a trace with every promise kept. */
  lemma FinalTrace(wait: int, script: Script, before: seq<Event>, trace: seq<Event>, r: FetchResult, html: string)
    requires GaveUpTrace(wait, before)
    requires trace == before + [FinalRendered(html != "")]
    requires r == if html != "" then Fetched(html, FallbackRender) else Failed(Exhausted)
    ensures TraceOutcome(wait, script, r, trace)
  {
    forall k | 0 <= k < |trace| ensures BackoffWellFormed(trace[k]) {
      if k < |before| { assert trace[k] == before[k]; }
    }
    forall k | 0 <= k < |trace| - 1 ensures !trace[k].FinalRendered? {
      assert trace[k] == before[k];
    }
    SuccessfulWarmUpsAppend(before, FinalRendered(html != ""));
    var k :| 0 <= k < |before| && before[k].Sent? && before[k].attempt == MaxTry && RefusedSend(before[k].outcome);
    assert trace[k] == before[k];
  }

  /** The host key of a normalized address (hosts compare without regard to case). */
  function HostKey(url: string): string
    requires ParseAbsolute(url).Some?
  {
    Lower(ParseAbsolute(url).value.host)
  }

  class Fetcher {
    /** _perHostNext: the earliest time (ms) the next request to a host may go out. */
    var perHostNext: map<string, int>
    /** _jsFallbackHosts: hosts learned to need the browser. */
    var jsFallbackHosts: set<string>
    /** The static JsOnlyHosts registry. */
    var jsOnlyHosts: set<string>

    constructor ()
      ensures perHostNext == map[] && jsFallbackHosts == {} && jsOnlyHosts == {}
    {
      perHostNext := map[];
      jsFallbackHosts := {};
      jsOnlyHosts := {};
    }

    /** RegisterJsOnlyHost: remember a non-blank host, ignoring case. */
    method RegisterJsOnlyHost(host: string)
      modifies this
      ensures jsOnlyHosts == if IsBlank(host) then old(jsOnlyHosts) else old(jsOnlyHosts) + {Lower(host)}
      ensures perHostNext == old(perHostNext) && jsFallbackHosts == old(jsFallbackHosts)
    {
      if !IsBlank(host) {
        jsOnlyHosts := jsOnlyHosts + {Lower(host)};
      }
    }

    /**
     * ThrottleAsync: wait until the host's reserved time, then reserve the
     * next slot the minimum delay plus a jitter in [50, 250) ms after the
     * moment the wait ended (now + wait + late).
     */
    method Throttle(key: string, now: int, late: nat, jitter: int) returns (wait: nat)
      requires 50 <= jitter < 250
      modifies this
      ensures wait == ThrottleWait(old(perHostNext), key, now)
      ensures perHostNext == old(perHostNext)[key := now + wait + late + MinDelayMs + jitter]
      ensures jsFallbackHosts == old(jsFallbackHosts) && jsOnlyHosts == old(jsOnlyHosts)
    {
      var next := if key in perHostNext then perHostNext[key] else now;
      wait := if next > now then next - now else 0;
      perHostNext := perHostNext[key := now + wait + late + MinDelayMs + jitter];
    }

    /**
     * GetStringSmartAsync. Returns the page and the sequence of steps taken.
     * now, late and jitter feed the throttle; the script answers everything else.
     */
    method GetStringSmart(rawUrl: string, now: int, late: nat, jitter: int, script: Script)
      returns (r: FetchResult, trace: seq<Event>)
      requires 50 <= jitter < 250
      requires forall k: nat :: 0 <= script.noise(k) < 200
      modifies this
      // an address that cannot be made absolute fails before anything else happens
      ensures r == Failed(InvalidUrl) <==> NormalizeUrl(rawUrl).None?
      ensures NormalizeUrl(rawUrl).None? ==>
                trace == [] && perHostNext == old(perHostNext) && jsFallbackHosts == old(jsFallbackHosts)
      ensures jsOnlyHosts == old(jsOnlyHosts)
      // everything else is the fetch of the normalized address's host
      ensures NormalizeUrl(rawUrl).Some? ==>
                FetchOutcome(HostKey(NormalizeUrl(rawUrl).value), now, late, jitter, script,
                             old(perHostNext), old(jsFallbackHosts), old(jsOnlyHosts),
                             r, trace, perHostNext, jsFallbackHosts)
    {
      var normalized := NormalizeUrl(rawUrl);
      if normalized.None? {
        r, trace := Failed(InvalidUrl), [];
        return;
      }
      r, trace := FetchHost(HostKey(normalized.value), now, late, jitter, script);
    }

    /** GetStringSmartAsync after the address has been normalized: key is its host. */
    method FetchHost(key: string, now: int, late: nat, jitter: int, script: Script)
      returns (r: FetchResult, trace: seq<Event>)
      requires 50 <= jitter < 250
      requires forall k: nat :: 0 <= script.noise(k) < 200
      modifies this
      ensures jsOnlyHosts == old(jsOnlyHosts)
      ensures FetchOutcome(key, now, late, jitter, script, old(perHostNext), old(jsFallbackHosts), old(jsOnlyHosts),
                           r, trace, perHostNext, jsFallbackHosts)
    {
      var wait := Throttle(key, now, late, jitter);
      trace := Push([], Throttled(wait));
      var c := Cursor(0, 0, 0, 0, 0);

      if key in jsOnlyHosts || key in jsFallbackHosts {
        var html := At(script.renders, c.renders, "");
        c := c.(renders := c.renders + 1);
        trace := Push(trace, Rendered(html != ""));
        if html != "" {
          r := Fetched(html, KnownJsHostRender);
          return;
        }
      }

      var done;
      done, c, trace := RetryLoop(wait, c, script, trace);
      if done.Some? {
        r := done.value;
        if r.Fetched? && r.source == FallbackRender {
          jsFallbackHosts := jsFallbackHosts + {key};
        }
        return;
      }

      ghost var before := trace;
      var html := At(script.renders, c.renders, "");
      trace := Push(trace, FinalRendered(html != ""));
      if html != "" {
        jsFallbackHosts := jsFallbackHosts + {key};
        r := Fetched(html, FallbackRender);
      } else {
        r := Failed(Exhausted);
      }
      FinalTrace(wait, script, before, trace, r, html);
    }
  }

  /**
   * What a fetch of host key promises, given the state before (slots,
   * learned, registered) and after (slots', learned').
   */
  ghost predicate FetchOutcome(key: string, now: int, late: nat, jitter: int, script: Script,
                               slots: map<string, int>, learned: set<string>, registered: set<string>,
                               r: FetchResult, trace: seq<Event>,
                               slots': map<string, int>, learned': set<string>)
  {
    var wait := ThrottleWait(slots, key, now);
    // the throttle runs exactly once, first
    && slots' == slots[key := now + wait + late + MinDelayMs + jitter]
    // the host is learned exactly when the page came from a browser fallback
    && learned' == (if r.Fetched? && r.source == FallbackRender then learned + {key} else learned)
    // the first render is for known hosts only
    && (r.Fetched? && r.source == KnownJsHostRender ==> key in registered || key in learned)
    // a known host is rendered first, and a page from that render is returned without any request
    && (key in registered || key in learned ==> |trace| >= 2 && trace[1] == Rendered(At(script.renders, 0, "") != ""))
    && ((key in registered || key in learned) && At(script.renders, 0, "") != "" ==>
          r == Fetched(At(script.renders, 0, ""), KnownJsHostRender) && trace == [Throttled(wait), Rendered(true)])
    // otherwise the requests start right after the throttle, or after the failed render, with attempt 1
    && (!((key in registered || key in learned) && At(script.renders, 0, "") != "") ==>
          var n := if key in registered || key in learned then 2 else 1;
          |trace| > n && trace[n] == Sent(1, At(script.sends, 0, NetworkError)))
    && TraceOutcome(wait, script, r, trace)
  }

  /** What the steps of a fetch and its result promise, whatever the fetcher's state. */
  ghost predicate TraceOutcome(wait: int, script: Script, r: FetchResult, trace: seq<Event>)
  {
    && trace != [] && trace[0] == Throttled(wait)
    && r != Failed(InvalidUrl)
    // a page from the browser is never empty
    && (r.Fetched? && r.source != HttpBody ==> r.html != "")
    // a page from HTTP is the body of a successful response
    && (r.Fetched? && r.source == HttpBody ==>
          exists k | 0 <= k < |script.sends| ::
            script.sends[k].Reply? && IsSuccess(script.sends[k].resp.status) &&
            script.sends[k].resp.body == r.html)
    // a StatusFailed result is the status of the last reply, neither a success nor 403/429
    && (r.Failed? && r.error.StatusFailed? ==>
          var code := r.error.code;
          !IsSuccess(code) && code != 403 && code != 429 &&
          trace[|trace| - 1].Sent? && trace[|trace| - 1].outcome.Reply? &&
          trace[|trace| - 1].outcome.resp.status == code)
    // and such a status is never retried: it is the last step and the result
    && (forall k | 0 <= k < |trace| && trace[k].Sent? && FailingSend(trace[k].outcome) ::
          k == |trace| - 1 && r == Failed(StatusFailed(trace[k].outcome.resp.status)))
    // at most one guarded warm-up succeeds
    && SuccessfulWarmUps(trace) <= 1
    // backoffs follow 400 * 2^(attempt - 1) ms plus up to 200 ms of noise, after attempts 1 and 2 only
    && (forall k | 0 <= k < |trace| :: BackoffWellFormed(trace[k]))
    // the last-chance render happens at most once, as the final step
    && (forall k | 0 <= k < |trace| - 1 :: !trace[k].FinalRendered?)
    // the call is exhausted exactly when the last-chance render fails
    && (r == Failed(Exhausted) <==> trace[|trace| - 1] == FinalRendered(false))
    && (trace[|trace| - 1] == FinalRendered(true) ==> r.Fetched? && r.source == FallbackRender)
    // the last-chance render only follows a 403/429 reply to the last attempt
    && (trace[|trace| - 1].FinalRendered? ==>
          exists k | 0 <= k < |trace| - 1 ::
            trace[k].Sent? && trace[k].attempt == MaxTry && RefusedSend(trace[k].outcome))
  }

  /** A pass of the retry loop that ends the call leaves a trace with every promise kept. */
  lemma DoneTrace(wait: int, script: Script, before: seq<Event>, events: seq<Event>, trace: seq<Event>,
                  result: FetchResult, attempt: int, s: Send, warmed: bool, warmedOut: bool)
    requires before != [] && before[0] == Throttled(wait) && StepEvents(before)
    requires forall k | 0 <= k < |before| && before[k].Sent? :: !FailingSend(before[k].outcome)
    requires SuccessfulWarmUps(before) == if warmed then 1 else 0
    requires events != [] && events[0] == Sent(attempt, s) && StepEvents(events) && NoSends(events[1..])
    requires SuccessfulWarmUps(events) == if warmedOut && !warmed then 1 else 0
    requires result != Failed(InvalidUrl) && result != Failed(Exhausted)
    requires result.Fetched? && result.source != HttpBody ==> result.html != ""
    requires result.Fetched? && result.source == HttpBody ==>
               exists k | 0 <= k < |script.sends| ::
                 script.sends[k].Reply? && IsSuccess(script.sends[k].resp.status) &&
                 script.sends[k].resp.body == result.html
    requires result.Failed? && result.error.StatusFailed? ==>
               var code := result.error.code;
               !IsSuccess(code) && code != 403 && code != 429 &&
               events[|events| - 1].Sent? && events[|events| - 1].outcome.Reply? &&
               events[|events| - 1].outcome.resp.status == code
    requires FailingSend(s) ==> result == Failed(StatusFailed(s.resp.status)) && events == [Sent(attempt, s)]
    requires trace == before + events
    ensures TraceOutcome(wait, script, result, trace)
  {
    NewSendsAreFirst(before, events, trace);
    SuccessfulWarmUpsConcat(before, events);
    assert trace[|trace| - 1] == events[|events| - 1];
    forall k | 0 <= k < |trace| ensures BackoffWellFormed(trace[k]) && !trace[k].FinalRendered? {
      if k < |before| { assert trace[k] == before[k]; } else { assert trace[k] == events[k - |before|]; }
    }
    forall k | 0 <= k < |trace| && trace[k].Sent? && FailingSend(trace[k].outcome)
      ensures k == |trace| - 1 && result == Failed(StatusFailed(trace[k].outcome.resp.status))
    {
    }
  }
}
