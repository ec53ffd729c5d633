/**
 * The tracking browser window: the navigation guard that keeps the reader on
 * the series' site unless the user allows another host, the buttons of the
 * confirmation dialog, and reading the current chapter off the address with
 * the entry's chapter template. The chapter only ever goes up here.
 */
module Browser {
  import opened Text
  import opened Urls
  import opened Entry
  import opened HostLists
  import opened AppSettings
  import opened ChapterParse
  import opened UpdateScan

  // ---------------------------------------------------------------- the navigation guard

  /** IsSameBaseOrSubdomain: the same host, or a host below it at a dot, ignoring case. */
  predicate IsSameBaseOrSubdomain(targetHost: string, baseHost: string)
  {
    EqIgnoreCase(targetHost, baseHost) || EndsWithIgnoreCase(targetHost, "." + baseHost)
  }

  /** A host other than the base passes only with a dot right before the base's name. */
  lemma SubdomainNeedsDot(targetHost: string, baseHost: string)
    requires IsSameBaseOrSubdomain(targetHost, baseHost) && !EqIgnoreCase(targetHost, baseHost)
    ensures |targetHost| > |baseHost|
    ensures targetHost[|targetHost| - |baseHost| - 1] == '.'
    ensures EqIgnoreCase(targetHost[|targetHost| - |baseHost|..], baseHost)
  {
    var n := |targetHost| - |baseHost| - 1;
    var tail := targetHost[n..];
    LowerAppend(".", baseHost);
    assert Lower(tail) == Lower(".") + Lower(baseHost);
    assert Lower(tail)[0] == '.';
    assert LowerChar(targetHost[n]) == '.';
    assert tail[1..] == targetHost[n + 1..];
    LowerSlice(tail, 1, |tail|);
    assert Lower(tail)[1..] == Lower(baseHost);
  }

  /** A look-alike host that merely ends in the same letters is foreign. */
  lemma LookAlikeIsForeign()
    ensures !IsSameBaseOrSubdomain("evilexample.com", "example.com")
  {
    var t := "evilexample.com";
    if IsSameBaseOrSubdomain(t, "example.com") {
      assert !EqIgnoreCase(t, "example.com") by {
        assert |Lower(t)| != |Lower("example.com")|;
      }
      SubdomainNeedsDot(t, "example.com");
    }
  }

  /** A real subdomain passes, whatever its case. */
  lemma SubdomainPasses()
    ensures IsSameBaseOrSubdomain("www.Example.com", "example.com")
  {
    var t := "www.Example.com";
    var tail := t[3..];
    assert tail == "." + "E" + "xample.com";
    LowerAppend("." + "E", "xample.com");
    LowerAppend(".", "E");
    LoweredIsFixed(".");
    LoweredIsFixed("xample.com");
    assert Lower("E") == "e";
    LowerAppend(".", "example.com");
    LoweredIsFixed("example.com");
    assert ".e" + "xample.com" == "." + "example.com";
  }

  /** Addresses the guard never stops: none at all, about:, edge:// and data:. */
  predicate IsTechnicalUri(uri: string)
  {
    IsBlank(uri) || StartsWithIgnoreCase(uri, "about:") || StartsWithIgnoreCase(uri, "edge://")
    || StartsWithIgnoreCase(uri, "data:")
  }

  /** The start host: that of the normalized start address, when it has one. */
  function StartHost(startUrl: string): (r: Option<string>)
    ensures r.Some? ==> r.value != ""
  {
    TryGetHost(NormalizeUrlOrSelf(startUrl))
  }

  datatype Navigation = Proceed | Cancel | CancelAndAsk(targetHost: string)

  /**
   * The NavigationStarting guard, in its order: re-entry and technical
   * addresses pass, no start host means no guard, a target without host is
   * cancelled, the start site and its subdomains pass, then the block list,
   * then the allow list, and everything else is stopped with a question.
   */
  function NavigationDecision(confirming: bool, uri: string, startHost: Option<string>,
                              blocked: seq<string>, allowed: seq<string>): (r: Navigation)
    ensures confirming || IsTechnicalUri(uri) || startHost.None? ==> r == Proceed
    ensures !confirming && !IsTechnicalUri(uri) && startHost.Some? && TryGetHost(uri).None? ==> r == Cancel
    ensures r != Proceed && r != Cancel ==>
              TryGetHost(uri) == Some(r.targetHost) && startHost.Some? &&
              !IsSameBaseOrSubdomain(r.targetHost, startHost.value) &&
              !ListHasIgnoreCase(blocked, r.targetHost) && !ListHasIgnoreCase(allowed, r.targetHost)
    ensures startHost.Some? && TryGetHost(uri).Some? && IsSameBaseOrSubdomain(TryGetHost(uri).value, startHost.value) ==>
              r == Proceed
    ensures (!confirming && !IsTechnicalUri(uri) && startHost.Some? && TryGetHost(uri).Some? &&
             !IsSameBaseOrSubdomain(TryGetHost(uri).value, startHost.value) &&
             ListHasIgnoreCase(blocked, TryGetHost(uri).value)) ==> r == Cancel
    // past the block list, an allowed host passes and any other is stopped with a question
    ensures (!confirming && !IsTechnicalUri(uri) && startHost.Some? && TryGetHost(uri).Some? &&
             !IsSameBaseOrSubdomain(TryGetHost(uri).value, startHost.value) &&
             !ListHasIgnoreCase(blocked, TryGetHost(uri).value)) ==>
              r == if ListHasIgnoreCase(allowed, TryGetHost(uri).value) then Proceed else CancelAndAsk(TryGetHost(uri).value)
  {
    if confirming || IsTechnicalUri(uri) then Proceed
    else
      match startHost
      case None => Proceed
      case Some(start) =>
        match TryGetHost(uri)
        case None => Cancel
        case Some(target) =>
          if IsSameBaseOrSubdomain(target, start) then Proceed
          else if ListHasIgnoreCase(blocked, target) then Cancel
          else if ListHasIgnoreCase(allowed, target) then Proceed
          else CancelAndAsk(target)
  }

  /** After the Block choice the same address is cancelled without asking; after Allow it passes. */
  lemma ChoiceSticks(uri: string, start: string, blocked: seq<string>, allowed: seq<string>)
    requires !IsTechnicalUri(uri) && TryGetHost(uri).Some?
    requires !IsSameBaseOrSubdomain(TryGetHost(uri).value, start)
    ensures var t := TryGetHost(uri).value;
            NavigationDecision(false, uri, Some(start), WithHost(blocked, t), Without(allowed, t)) == Cancel &&
            NavigationDecision(false, uri, Some(start), Without(blocked, t), WithHost(allowed, t)) == Proceed
  {
  }

  /** ConfirmNavigateResult. */
  datatype ConfirmNavigateResult = Yes | No | Block | Allow

  /**
   * The dialog's outcome (None when it was closed): Yes navigates once, Block
   * and Allow move the host between the lists and save, Allow also navigates.
   * The navigation runs with the re-entry flag set, which the guard lets pass.
   */
  method ApplyChoice(choice: Option<ConfirmNavigateResult>, target: string, s: Settings) returns (navigate: bool)
    requires s.Valid()
    modifies s, s.externalAllowedHosts, s.externalBlockedHosts
    ensures s.OnlySavesChanged()
    ensures navigate <==> choice == Some(Yes) || choice == Some(Allow)
    ensures choice == Some(Block) ==>
              s.externalBlockedHosts.hosts == WithHost(old(s.externalBlockedHosts.hosts), target) &&
              s.externalAllowedHosts.hosts == Without(old(s.externalAllowedHosts.hosts), target) &&
              s.saves == old(s.saves) + 1
    ensures choice == Some(Allow) ==>
              s.externalAllowedHosts.hosts == WithHost(old(s.externalAllowedHosts.hosts), target) &&
              s.externalBlockedHosts.hosts == Without(old(s.externalBlockedHosts.hosts), target) &&
              s.saves == old(s.saves) + 1
    ensures choice != Some(Block) && choice != Some(Allow) ==>
              s.externalAllowedHosts.hosts == old(s.externalAllowedHosts.hosts) &&
              s.externalBlockedHosts.hosts == old(s.externalBlockedHosts.hosts) &&
              s.saves == old(s.saves)
  {
    navigate := false;
    match choice {
      case None =>
      case Some(Yes) =>
        navigate := true;
      case Some(No) =>
      case Some(Block) =>
        AddHostUnique(s.externalBlockedHosts, target);
        RemoveHost(s.externalAllowedHosts, target);
        s.saves := s.saves + 1;
      case Some(Allow) =>
        AddHostUnique(s.externalAllowedHosts, target);
        RemoveHost(s.externalBlockedHosts, target);
        s.saves := s.saves + 1;
        navigate := true;
    }
  }

  // ---------------------------------------------------------------- chapter updates

  /** TryUpdateChapter: take the found chapter only when it is higher. */
  method TryUpdateChapter(m: MangaEntry, found: int32)
    modifies m
    ensures m.View() == old(m.View()).(chapter := if found > old(m.chapter) then found else old(m.chapter))
    ensures m.chapter >= old(m.chapter) && m.chapter >= found
  {
    if found > m.chapter {
      var _ := m.SetChapter(found);
    }
  }

  /** string.Split on the placeholder: the literal pieces around each "$chapter". */
  function SplitOn(s: string, pat: string): (r: seq<string>)
    requires |pat| > 0
    ensures |r| >= 1
    ensures !Contains(s, pat) ==> r == [s]
    ensures Contains(s, pat) ==> |r| >= 2
    decreases |s|
  {
    IndexOfFindsContained(s, pat);
    var i := IndexOf(s, pat, 0);
    if i < 0 then [s] else [s[..i]] + SplitOn(s[i + |pat|..], pat)
  }

  /** The pieces joined with a replacement in between. */
  function JoinWith(pieces: seq<string>, rep: string): string
    requires |pieces| >= 1
  {
    if |pieces| == 1 then pieces[0] else pieces[0] + rep + JoinWith(pieces[1..], rep)
  }

  /** Splitting at the placeholder and filling in the gaps is string.Replace. */
  lemma {:induction false} SplitOnJoin(s: string, pat: string, rep: string)
    requires |pat| > 0
    ensures JoinWith(SplitOn(s, pat), rep) == ReplaceAll(s, pat, rep)
    decreases |s|
  {
    var i := IndexOf(s, pat, 0);
    if i >= 0 {
      var rest := s[i + |pat|..];
      SplitOnJoin(rest, pat, rep);
      var pieces := SplitOn(s, pat);
      assert pieces == [s[..i]] + SplitOn(rest, pat);
      assert pieces[1..] == SplitOn(rest, pat);
      assert JoinWith(pieces, rep) == s[..i] + rep + JoinWith(SplitOn(rest, pat), rep);
    }
  }

  /** [hi, hi - 1, ..., lo]. */
  function Descending(hi: int, lo: nat): (r: seq<nat>)
    ensures |r| == if hi >= lo then hi - lo + 1 else 0
    ensures forall k | 0 <= k < |r| :: r[k] == hi - k
    decreases hi - lo
  {
    if hi < lo then [] else [hi as nat] + Descending(hi - 1, lo)
  }

  /**
   * Where (\d+(?:\.\d+)?) starting at s can end, in the order backtracking
   * tries them: the fraction from longest to shortest, then the integer part
   * from longest to shortest.
   */
  function NumberEnds(t: string, s: nat): (r: seq<nat>)
    requires s <= |t|
    ensures forall k | 0 <= k < |r| :: s < r[k] <= |t|
    ensures forall a, b | 0 <= a < b < |r| :: r[a] > r[b]
    ensures forall e | s < e <= RunEnd(t, s, IsDigit) :: e in r
  {
    var d := RunEnd(t, s, IsDigit);
    var whole := Descending(d, s + 1);
    if d + 1 < |t| && t[d] == '.' && IsDigit(t[d + 1]) then
      var fraction := Descending(RunEnd(t, d + 1, IsDigit), d + 2);
      var r := fraction + whole;
      assert forall e | s < e <= d :: e in r by {
        forall e | s < e <= d ensures e in r {
          assert whole[d - e] == e;
          assert r[|fraction| + d - e] == e;
        }
      }
      r
    else
      assert forall e | s < e <= d :: e in whole by {
        forall e | s < e <= d ensures e in whole {
          assert whole[d - e] == e;
        }
      }
      whole
  }

  /** The rest of the pattern, pieces[0] then (number, piece) pairs, matches from p on. */
  predicate RestMatches(t: string, pieces: seq<string>, p: nat)
    requires p <= |t|
    decreases |pieces|
  {
    |pieces| > 0 && HasAt(t, pieces[0], p) &&
    (|pieces| == 1 ||
     var ends := NumberEnds(t, p + |pieces[0]|);
     exists k | 0 <= k < |ends| :: RestMatches(t, pieces[1..], ends[k]))
  }

  /** The first end, in backtracking order, after which the rest of the pattern matches. */
  function FirstEnd(t: string, ends: seq<nat>, rest: seq<string>): (r: Option<nat>)
    requires forall k | 0 <= k < |ends| :: ends[k] <= |t|
    ensures r.Some? ==> r.value < |ends| && RestMatches(t, rest, ends[r.value])
    ensures r.Some? ==> forall k | 0 <= k < r.value :: !RestMatches(t, rest, ends[k])
    ensures r.None? ==> forall k | 0 <= k < |ends| :: !RestMatches(t, rest, ends[k])
  {
    if ends == [] then None
    else if RestMatches(t, rest, ends[0]) then Some(0)
    else
      match FirstEnd(t, ends[1..], rest)
      case None => None
      case Some(k) => Some(k + 1)
  }

  /** A match of the template pattern starting at i: the bounds of its first group. */
  function GroupAt(t: string, pieces: seq<string>, i: nat): (r: Option<(nat, nat)>)
    requires |pieces| >= 2 && i <= |t|
    ensures r.Some? ==> i + |pieces[0]| == r.value.0 < r.value.1 <= |t| && HasAt(t, pieces[0], i)
  {
    if !HasAt(t, pieces[0], i) then None
    else
      var s := i + |pieces[0]|;
      var ends := NumberEnds(t, s);
      match FirstEnd(t, ends, pieces[1..])
      case None => None
      case Some(k) => Some((s, ends[k]))
  }

  /** Regex.Match: the leftmost start at or after i where the pattern matches. */
  function FirstGroup(t: string, pieces: seq<string>, i: nat): (r: Option<(nat, nat)>)
    requires |pieces| >= 2 && i <= |t|
    ensures r.Some? ==> r.value.0 < r.value.1 <= |t|
    decreases |t| - i
  {
    match GroupAt(t, pieces, i)
    case Some(g) => Some(g)
    case None => if i == |t| then None else FirstGroup(t, pieces, i + 1)
  }

  /**
   * CoreWebView2_SourceChanged's reading of the address: the template with
   * each "$chapter" turned into (\d+(?:\.\d+)?), matched case-sensitively, the
   * first group parsed and rounded down. An int cast out of range is left out.
   */
  function ChapterFromUrl(template: string, url: string): (r: Option<int32>)
    ensures r.Some? ==> r.value >= 0
    ensures !Contains(template, Placeholder) ==> r.None?
  {
    if IsBlank(template) || !Contains(template, Placeholder) then None
    else
      var pieces := SplitOn(template, Placeholder);
      match FirstGroup(url, pieces, 0)
      case None => None
      case Some(g) =>
        match ParseDouble(url[g.0..g.1])
        case None => None
        case Some(v) =>
          var n := v.Floor;
          if 0 <= n <= MaxInt32 as int then Some(n as int32) else None
  }

  /** The digits of RunValue are the digits of DigitsValue. */
  lemma {:induction false} RunValueIsDigitsValue(t: string, j: nat)
    requires j <= |t| && forall k | 0 <= k < j :: IsDigit(t[k])
    ensures AllDigits(t[..j]) && RunValue(t, 0, j) == DigitsValue(t[..j])
  {
    if j > 0 {
      RunValueIsDigitsValue(t, j - 1);
      assert t[..j][..j - 1] == t[..j - 1];
    }
  }

  /** double.TryParse of a run of digits gives its value. */
  lemma ParseDigits(d: string)
    requires d != [] && AllDigits(d)
    ensures ParseDouble(d) == Some(DigitsValue(d) as real)
  {
    var a := RunEnd(d, 0, IsNumberWhite);
    assert a == 0;
    var b := RunStartBack(d, a, |d|, IsNumberWhite);
    assert b == |d|;
    assert d[a..b] == d;
    assert ParseDouble(d) == ParseSigned(d);
    assert ParseSigned(d) == ParseUnsigned(d);
    ParseUnsignedDigits(d);
  }

  lemma ParseUnsignedDigits(d: string)
    requires d != [] && AllDigits(d)
    ensures ParseUnsigned(d) == Some(DigitsValue(d) as real)
  {
    var d1 := RunEnd(d, 0, IsDigit);
    assert d1 == |d|;
    RunValueIsDigitsValue(d, |d|);
    assert d[..|d|] == d;
    assert d[d1..] == [];
    assert ParseExponent([]) == Some(0);
    assert Scale(0) == 1.0;
  }

  /** A template with a single placeholder splits into the text before and after it. */
  lemma SplitSingle(p: string, q: string)
    requires IndexOf(p + Placeholder + q, Placeholder, 0) == |p|
    requires !Contains(q, Placeholder)
    ensures Contains(p + Placeholder + q, Placeholder) && !IsBlank(p + Placeholder + q)
    ensures SplitOn(p + Placeholder + q, Placeholder) == [p, q]
  {
    var template := p + Placeholder + q;
    assert HasAt(template, Placeholder, |p|);
    assert template[|p|] == '$';
    assert template[..|p|] == p;
    assert template[|p| + |Placeholder|..] == q;
  }

  /** Backtracking stops at the given end when every end tried before it is too long for q to follow. */
  lemma FirstEndAt(t: string, ends: seq<nat>, q: string, e: nat)
    requires forall k | 0 <= k < |ends| :: ends[k] <= |t|
    requires e in ends && RestMatches(t, [q], e)
    requires forall a, b | 0 <= a < b < |ends| :: ends[a] > ends[b]
    requires |t| == e + |q|
    ensures FirstEnd(t, ends, [q]).Some? && ends[FirstEnd(t, ends, [q]).value] == e
  {
    var first := FirstEnd(t, ends, [q]);
    var kE :| 0 <= kE < |ends| && ends[kE] == e;
    assert first.Some?;
  }

  /** A run of digits from s to e makes RunEnd reach e at least. */
  lemma RunEndCovers(t: string, s: nat, e: nat)
    requires s <= e <= |t|
    requires forall k | s <= k < e :: IsDigit(t[k])
    ensures RunEnd(t, s, IsDigit) >= e
  {
  }

  /** The address p + digits + q: p at the start, the digits after it, q at their end. */
  lemma BuiltPieces(p: string, d: string, q: string)
    requires d != [] && AllDigits(d)
    ensures HasAt(p + d + q, p, 0)
    ensures RunEnd(p + d + q, |p|, IsDigit) >= |p| + |d|
    ensures RestMatches(p + d + q, [q], |p| + |d|)
  {
    var url := p + d + q;
    var s: nat := |p|;
    var e: nat := |p| + |d|;
    assert url[..|p|] == p;
    assert forall k | s <= k < e :: IsDigit(url[k]) by {
      forall k | s <= k < e ensures IsDigit(url[k]) {
        assert url[k] == d[k - s];
      }
    }
    RunEndCovers(url, s, e);
    assert url[e..e + |q|] == q;
  }

  /** In p + digits + q the pattern p(number)q matches from the start with exactly the digits as its group. */
  lemma GroupOfBuilt(p: string, d: string, q: string)
    requires d != [] && AllDigits(d)
    ensures FirstGroup(p + d + q, [p, q], 0) == Some((|p|, |p| + |d|))
  {
    var url := p + d + q;
    var s: nat := |p|;
    var e: nat := |p| + |d|;
    BuiltPieces(p, d, q);
    var ends := NumberEnds(url, s);
    FirstEndAt(url, ends, q, e);
    assert [p, q][1..] == [q];
    assert GroupAt(url, [p, q], 0) == Some((s, e));
  }

  /**
   * A template with one "$chapter" gives back, from the address BuildChapterUrl
   * makes of it, the chapter it was built with.
   */
  lemma ChapterFromBuiltUrl(p: string, q: string, n: int)
    requires IndexOf(p + Placeholder + q, Placeholder, 0) == |p|
    requires !Contains(q, Placeholder)
    requires 0 <= n <= MaxInt32 as int
    ensures ChapterFromUrl(p + Placeholder + q, BuildChapterUrl(p + Placeholder + q, n)) == Some(n as int32)
  {
    var template := p + Placeholder + q;
    SplitSingle(p, q);
    var d := NatToString(n);
    var url := p + d + q;
    BuildChapterUrlSingle(p, q, n);
    assert BuildChapterUrl(template, n) == url;
    GroupOfBuilt(p, d, q);
    assert url[|p|..|p| + |d|] == d;
    NatToStringRoundTrip(n);
    ParseDigits(d);
    assert (n as real).Floor == n;
  }

  /** CoreWebView2_SourceChanged: a chapter read off the address is taken when it is higher. */
  method OnSourceChanged(m: MangaEntry, newUrl: string)
    modifies m
    ensures ChapterFromUrl(old(m.chapterUrlTemplate), newUrl).None? ==> m.View() == old(m.View())
    ensures ChapterFromUrl(old(m.chapterUrlTemplate), newUrl).Some? ==>
              var c := ChapterFromUrl(old(m.chapterUrlTemplate), newUrl).value;
              m.View() == old(m.View()).(chapter := if c > old(m.chapter) then c else old(m.chapter))
  {
    match ChapterFromUrl(m.chapterUrlTemplate, newUrl)
    case None =>
    case Some(c) => TryUpdateChapter(m, c);
  }
}
