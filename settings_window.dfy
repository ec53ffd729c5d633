/**
 * The settings window: the combo-box indices of the enum settings, the
 * allow and deny text boxes turned into normalized lists on saving, and the
 * buttons that edit the navigation allow and block lists.
 */
module SettingsWindow {
  import opened Text
  import opened HostLists
  import opened AppSettings

  // ---------------------------------------------------------------- enum <-> index

  /** LinkBehaviorBox.SelectedIndex when the window opens. */
  function LinkModeIndex(m: LinkOpenMode): (i: nat)
    ensures i <= 2
  {
    match m
    case Ask => 0
    case OpenChapter => 1
    case OpenMain => 2
  }

  /** The LinkOpenBehavior that saving makes of the selected index; anything unknown is Ask. */
  function IndexLinkMode(i: int): (m: LinkOpenMode)
    ensures 0 <= i <= 2 ==> LinkModeIndex(m) == i
    ensures !(0 <= i <= 2) ==> m == Ask
  {
    if i == 1 then OpenChapter else if i == 2 then OpenMain else Ask
  }

  lemma LinkModeRoundTrip(m: LinkOpenMode)
    ensures IndexLinkMode(LinkModeIndex(m)) == m
  {
  }

  /** LanguageBox.SelectedIndex: German 0, English 1. */
  function LanguageIndex(l: LanguageMode): (i: nat)
    ensures i <= 1
  {
    if l == German then 0 else 1
  }

  function IndexLanguage(i: int): (l: LanguageMode)
    ensures 0 <= i <= 1 ==> LanguageIndex(l) == i
    ensures l == German <==> i == 0
  {
    if i == 0 then German else English
  }

  lemma LanguageRoundTrip(l: LanguageMode)
    ensures IndexLanguage(LanguageIndex(l)) == l
  {
  }

  // ---------------------------------------------------------------- line lists

  /** Length of the separator at i: "\r\n" is tried before "\n"; 0 for none. */
  function BreakLength(s: string, i: nat): (n: nat)
    requires i < |s|
    ensures n <= 2 && i + n <= |s|
    ensures n > 0 <==> s[i] == '\n' || (s[i] == '\r' && i + 1 < |s| && s[i + 1] == '\n')
  {
    if s[i] == '\r' && i + 1 < |s| && s[i + 1] == '\n' then 2
    else if s[i] == '\n' then 1
    else 0
  }

  /** The first separator at or after i, or |s|. */
  function FirstBreak(s: string, i: nat): (r: nat)
    requires i <= |s|
    ensures i <= r <= |s|
    ensures forall k | i <= k < r :: BreakLength(s, k) == 0
    ensures r < |s| ==> BreakLength(s, r) > 0
    decreases |s| - i
  {
    if i == |s| || BreakLength(s, i) > 0 then i else FirstBreak(s, i + 1)
  }

  /** string.Split(new[] { "\r\n", "\n" }, StringSplitOptions.RemoveEmptyEntries). */
  function SplitLines(s: string): (r: seq<string>)
    ensures forall k | 0 <= k < |r| :: r[k] != "" && '\n' !in r[k]
    decreases |s|
  {
    var b := FirstBreak(s, 0);
    var piece := s[..b];
    assert '\n' !in piece by {
      forall k | 0 <= k < |piece| ensures piece[k] != '\n' {
        assert BreakLength(s, k) == 0;
      }
    }
    var first := if piece == "" then [] else [piece];
    if b == |s| then first else first + SplitLines(s[b + BreakLength(s, b)..])
  }

  /** Select(x => x.Trim()). */
  function TrimAll(lines: seq<string>): (r: seq<string>)
    ensures |r| == |lines|
    ensures forall k | 0 <= k < |lines| :: r[k] == Trim(lines[k])
  {
    if lines == [] then [] else [Trim(lines[0])] + TrimAll(lines[1..])
  }

  /** Where(x => x.Length > 0). */
  function NonEmpty(lines: seq<string>): (r: seq<string>)
    ensures forall x :: x in r <==> x in lines && x != ""
  {
    if lines == [] then []
    else if lines[0] == "" then NonEmpty(lines[1..])
    else [lines[0]] + NonEmpty(lines[1..])
  }

  /** Save_Click's pipeline for the ad-block allow and deny text boxes. */
  function ParseLineList(text: string): (r: seq<string>)
  {
    DistinctIgnoreCase(NonEmpty(TrimAll(SplitLines(text))))
  }

  /**
   * The parsed list is free of duplicates, blank and untrimmed entries, and
   * covers every non-blank line; of the trimmed non-empty lines it keeps the
   * first of each class, comparing ignoring case, in the order of the text.
   */
  lemma ParseLineListSound(text: string)
    ensures ParseLineList(text) == FirstsIgnoreCase(NonEmpty(TrimAll(SplitLines(text))))
    ensures var r := ParseLineList(text);
            NoCaseDuplicates(r) &&
            (forall x | x in r :: x != "" && '\n' !in x && exists line | line in SplitLines(text) :: x == Trim(line)) &&
            (forall line | line in SplitLines(text) && !IsBlank(line) :: ListHasIgnoreCase(r, Trim(line)))
  {
    var lines := SplitLines(text);
    var trimmed := TrimAll(lines);
    var kept := NonEmpty(trimmed);
    DistinctIgnoreCaseSound(kept);
    DistinctIgnoreCaseKeepsFirsts(kept);
    var r := ParseLineList(text);
    forall x | x in r ensures x != "" && '\n' !in x && exists line | line in lines :: x == Trim(line) {
      assert x in kept && x in trimmed;
      var k :| 0 <= k < |trimmed| && trimmed[k] == x;
      assert lines[k] in lines;
      TrimInside(lines[k]);
    }
    forall line | line in lines && !IsBlank(line) ensures ListHasIgnoreCase(r, Trim(line)) {
      var k :| 0 <= k < |lines| && lines[k] == line;
      assert trimmed[k] == Trim(line);
      assert Trim(line) in kept;
      var j :| 0 <= j < |kept| && kept[j] == Trim(line);
    }
  }

  /** Trimming takes a piece from inside the string. */
  lemma TrimInside(s: string)
    ensures '\n' !in s ==> '\n' !in Trim(s)
  {
    TrimStartIsSuffix(s);
    TrimEndIsPrefix(TrimStart(s));
    var t := TrimStart(s);
    if '\n' !in s {
      forall k | 0 <= k < |Trim(s)| ensures Trim(s)[k] != '\n' {
        assert Trim(s)[k] == t[k] == s[|s| - |t| + k];
      }
    }
  }

  /** string.Join(Environment.NewLine, list), with the Windows new line. */
  function JoinLines(list: seq<string>): string
  {
    if list == [] then ""
    else if |list| == 1 then list[0]
    else list[0] + "\r\n" + JoinLines(list[1..])
  }

  /** An entry as the pipeline leaves it: non-empty, trimmed, on one line. */
  predicate CleanEntry(x: string)
  {
    x != "" && Trim(x) == x && '\n' !in x
  }

  /** Splitting the joined text gives the entries back. */
  lemma {:induction false} SplitJoinLines(list: seq<string>)
    requires forall k | 0 <= k < |list| :: CleanEntry(list[k])
    ensures SplitLines(JoinLines(list)) == list
  {
    if list != [] {
      var e := list[0];
      var s := JoinLines(list);
      assert !IsWhiteSpace(e[|e| - 1]);
      assert forall k | 0 <= k < |e| :: BreakLength(s, k) == 0 by {
        forall k | 0 <= k < |e| ensures BreakLength(s, k) == 0 {
          assert s[k] == e[k];
          if k + 1 < |e| {
            assert s[k + 1] == e[k + 1];
          }
        }
      }
      if |list| == 1 {
        FirstBreakPast(s, 0);
        assert s[..|s|] == s;
      } else {
        FirstBreakAt(s, 0, |e|);
        assert BreakLength(s, |e|) == 2;
        assert s[..|e|] == e;
        assert s[|e| + 2..] == JoinLines(list[1..]);
        SplitJoinLines(list[1..]);
      }
    }
  }

  lemma {:induction false} FirstBreakAt(s: string, i: nat, b: nat)
    requires i <= b < |s|
    requires forall k | i <= k < b :: BreakLength(s, k) == 0
    requires BreakLength(s, b) > 0
    ensures FirstBreak(s, i) == b
    decreases b - i
  {
    if i < b {
      FirstBreakAt(s, i + 1, b);
    }
  }

  lemma {:induction false} FirstBreakPast(s: string, i: nat)
    requires i <= |s|
    requires forall k | i <= k < |s| :: BreakLength(s, k) == 0
    ensures FirstBreak(s, i) == |s|
    decreases |s| - i
  {
    if i < |s| {
      FirstBreakPast(s, i + 1);
    }
  }

  /**
   * Opening the window and saving it gives back a list that the pipeline has
   * already normalized.
   */
  lemma ParseJoinedLines(list: seq<string>)
    requires forall k | 0 <= k < |list| :: CleanEntry(list[k])
    requires NoCaseDuplicates(list)
    ensures ParseLineList(JoinLines(list)) == list
  {
    SplitJoinLines(list);
    assert TrimAll(list) == list;
    NonEmptyOfNonEmpty(list);
    DistinctIgnoreCaseOfDistinct(list);
  }

  lemma {:induction false} NonEmptyOfNonEmpty(list: seq<string>)
    requires forall k | 0 <= k < |list| :: list[k] != ""
    ensures NonEmpty(list) == list
  {
    if list != [] {
      NonEmptyOfNonEmpty(list[1..]);
    }
  }

  // ---------------------------------------------------------------- the window

  /** What the window's controls hold when Save is clicked. */
  datatype SettingsForm = SettingsForm(
    linkBehaviorIndex: int, useSystemBrowser: bool, languageIndex: int,
    adblockEnabled: bool, adblockDryRun: bool, adblockBlockNewWindows: bool,
    adblockPopupSameTab: bool, adblockBlockOverlays: bool,
    allowlistText: string, denylistText: string)

  /** The controls as the window's constructor fills them. */
  function FormOf(s: Settings): (f: SettingsForm)
    reads s
    ensures IndexLinkMode(f.linkBehaviorIndex) == s.linkOpenBehavior
    ensures IndexLanguage(f.languageIndex) == s.language
  {
    SettingsForm(LinkModeIndex(s.linkOpenBehavior), s.useSystemBrowser, LanguageIndex(s.language),
      s.adblockEnabled, s.adblockDryRun, s.adblockBlockNewWindows,
      s.adblockPopupOpenInSameTab, s.adblockBlockInPageOverlays,
      JoinLines(s.adblockSiteAllowlist), JoinLines(s.adblockHardBlockDomainPatterns))
  }

  /** Save_Click: copy the controls into the settings and save them. */
  method SaveClick(f: SettingsForm, s: Settings)
    modifies s
    ensures s.linkOpenBehavior == IndexLinkMode(f.linkBehaviorIndex)
    ensures s.useSystemBrowser == f.useSystemBrowser && s.language == IndexLanguage(f.languageIndex)
    ensures s.adblockEnabled == f.adblockEnabled && s.adblockDryRun == f.adblockDryRun
    ensures s.adblockBlockNewWindows == f.adblockBlockNewWindows
    ensures s.adblockPopupOpenInSameTab == f.adblockPopupSameTab
    ensures s.adblockBlockInPageOverlays == f.adblockBlockOverlays
    ensures s.adblockSiteAllowlist == ParseLineList(f.allowlistText)
    ensures s.adblockHardBlockDomainPatterns == ParseLineList(f.denylistText)
    // the dialog has no field for the external host lists: they keep their entries
    ensures s.externalAllowedHosts.hosts == old(s.externalAllowedHosts.hosts)
    ensures s.externalBlockedHosts.hosts == old(s.externalBlockedHosts.hosts)
    ensures s.saves == old(s.saves) + 1
  {
    s.linkOpenBehavior := IndexLinkMode(f.linkBehaviorIndex);
    s.useSystemBrowser := f.useSystemBrowser;
    s.language := IndexLanguage(f.languageIndex);
    s.adblockEnabled := f.adblockEnabled;
    s.adblockDryRun := f.adblockDryRun;
    s.adblockBlockNewWindows := f.adblockBlockNewWindows;
    s.adblockPopupOpenInSameTab := f.adblockPopupSameTab;
    s.adblockBlockInPageOverlays := f.adblockBlockOverlays;
    s.adblockSiteAllowlist := ParseLineList(f.allowlistText);
    s.adblockHardBlockDomainPatterns := ParseLineList(f.denylistText);
    s.saves := s.saves + 1;
  }

  /** AddAllowed_Click: the trimmed input into the allow list (once) and out of the block list. */
  method AddAllowed(input: string, s: Settings)
    requires s.Valid()
    modifies s.externalAllowedHosts, s.externalBlockedHosts
    ensures var host := Trim(input);
            if host == "" then
              s.externalAllowedHosts.hosts == old(s.externalAllowedHosts.hosts) &&
              s.externalBlockedHosts.hosts == old(s.externalBlockedHosts.hosts)
            else
              s.externalAllowedHosts.hosts == WithHost(old(s.externalAllowedHosts.hosts), host) &&
              s.externalBlockedHosts.hosts == Without(old(s.externalBlockedHosts.hosts), host)
  {
    var host := Trim(input);
    if host == "" {
      return;
    }
    if !ListHasIgnoreCase(s.externalAllowedHosts.hosts, host) {
      s.externalAllowedHosts.hosts := s.externalAllowedHosts.hosts + [host];
    }
    s.externalBlockedHosts.hosts := Without(s.externalBlockedHosts.hosts, host);
  }

  /** AddBlocked_Click: the mirror image of AddAllowed. */
  method AddBlocked(input: string, s: Settings)
    requires s.Valid()
    modifies s.externalAllowedHosts, s.externalBlockedHosts
    ensures var host := Trim(input);
            if host == "" then
              s.externalAllowedHosts.hosts == old(s.externalAllowedHosts.hosts) &&
              s.externalBlockedHosts.hosts == old(s.externalBlockedHosts.hosts)
            else
              s.externalBlockedHosts.hosts == WithHost(old(s.externalBlockedHosts.hosts), host) &&
              s.externalAllowedHosts.hosts == Without(old(s.externalAllowedHosts.hosts), host)
  {
    var host := Trim(input);
    if host == "" {
      return;
    }
    if !ListHasIgnoreCase(s.externalBlockedHosts.hosts, host) {
      s.externalBlockedHosts.hosts := s.externalBlockedHosts.hosts + [host];
    }
    s.externalAllowedHosts.hosts := Without(s.externalAllowedHosts.hosts, host);
  }

  /** RemoveAllowed_Click: every entry equal to the selection goes; no selection, no change. */
  method RemoveAllowed(selected: Option<string>, s: Settings)
    modifies s.externalAllowedHosts
    ensures selected.None? ==> s.externalAllowedHosts.hosts == old(s.externalAllowedHosts.hosts)
    ensures selected.Some? ==> s.externalAllowedHosts.hosts == Without(old(s.externalAllowedHosts.hosts), selected.value)
  {
    if selected.Some? {
      s.externalAllowedHosts.hosts := Without(s.externalAllowedHosts.hosts, selected.value);
    }
  }

  /** RemoveBlocked_Click. */
  method RemoveBlocked(selected: Option<string>, s: Settings)
    modifies s.externalBlockedHosts
    ensures selected.None? ==> s.externalBlockedHosts.hosts == old(s.externalBlockedHosts.hosts)
    ensures selected.Some? ==> s.externalBlockedHosts.hosts == Without(old(s.externalBlockedHosts.hosts), selected.value)
  {
    if selected.Some? {
      s.externalBlockedHosts.hosts := Without(s.externalBlockedHosts.hosts, selected.value);
    }
  }
}
