# MangaTracker core in Dafny

MangaTracker is a Windows desktop application that keeps a list of manga series. For each series it stores a title, the last chapter read, a status, the series page and an optional chapter URL template. It checks the series pages for newer chapters and opens chapter pages in an embedded browser. The browser has a navigation guard and an ad blocker.

This project models the logic behind those features and proves what it promises:

- **Chapter numbers.** The reading of chapter numbers from link texts and addresses (`ChapterParse`). Picking the latest chapter from a series page (`ChapterExtract`). Finding the link of the stored chapter (`ChapterLink`).
- **Update scan.** The probe for the next chapter, the background page fetch, the per-entry update rule and the scan over the whole list (`UpdateScan`, `MainWindow`).
- **List and entry state.** The list operations of the main window: delete and undo, chapter up and down, the filter (`MainWindow`). The tracked entry with its change notification (`Entry`).
- **HTTP fetcher.** The per-host throttle, the challenge detectors and the retry and escalation loop of `GetStringSmartAsync` (`HttpFetcher`). The store of hosts that must be read through the browser (`HostStrategy`).
- **Navigation and settings.** The navigation guard of the browser window, its host lists, and reading the chapter back out of an address (`Browser`, `HostLists`). The list parsing and the enum mappings of the settings window (`SettingsWindow`, `AppSettings`).
- **Ad blocking.** Filter-file loading and the simple engine (`AdblockService`). The per-host custom rules (`CosmeticRules`). The wildcard patterns and the ordered decision of the request handler (`WebAdblock`).

Shared string and address helpers sit in `Text` and `Urls`.

Outside effects become inputs:

- **Network and browser calls.** The network is a function from address to reply. The browser calls (render, cookie warm-up, interactive solve) are finite scripts; past their end they fail.
- **Documents and time.** A parsed HTML document maps each XPath selector to its list of `(href, text)` nodes. Clocks and random jitter are parameters with the source's ranges.
- **Saving.** Saving to disk is a ghost counter `saves` on the object that would save.
- **Numbers.** Chapter values are `real`. The C# `int` chapter is an `int32` newtype with explicit wrap-around where the code increments it.
- **Regular expressions.** The built-in patterns are hand-written scanners that follow .NET's backtracking order. A custom regular expression is an oracle giving the groups of each match.

Behaviour of the code that is easy to miss:

- The host normalization `Norm` is not idempotent in general. Space inside a name breaks it: see `HostStrategy.NormNotIdempotent`. It is idempotent for hosts without white space.
- On a 403/429 with vendor headers the fetcher first offers the interactive solve and a browser capture. Only then does it try the cookie warm-up. A failed guarded warm-up is tried again on the next 403/429, so warm-up is not limited to once per call. What holds is that at most one guarded warm-up succeeds per call.
- Hosts learned by the fetcher go into its own set, not into the host strategy store.
- The throttle reads and writes its slot in two separate steps. It is not an atomic reservation.
- The update scan awaits each entry in turn. It does not run the entries concurrently.
- The request handler checks the page's custom URL rules and the hard denylist before it checks for a top-level document. Those two stages can therefore block a top-level document: see `WebAdblock.CustomRuleBlocksAnyContext` and the `Decide` contract.

## Model

| member | source | states |
|---|---|---|
| Text.Lower | Services/ChapterTracking/HostStrategy.cs:48 | ToLowerInvariant keeps the length and folds every character by LowerChar |
| Text.LowerIsLowered | Services/ChapterTracking/HostStrategy.cs:48 | a lower-cased string has no upper-case letter and lower-casing it again changes nothing |
| Text.EqIgnoreCaseOfLowered | Services/ChapterTracking/HostStrategy.cs:25-30 | between strings already in lower case, ordinal-ignore-case equality is plain equality |
| Text.Trim | SettingsWindow.xaml.cs:116 | string.Trim leaves no white space at either end, and gives "" exactly for a blank string |
| Text.TrimIsMiddle | SettingsWindow.xaml.cs:116 | the trimmed text is a contiguous piece of the input with only white space cut off before and after it |
| Text.TrimOfTrimmed | SettingsWindow.xaml.cs:138 | a string with no white space at either end is its own trim |
| Text.TrimEndChar | Services/ChapterTracking/HostStrategy.cs:48 | TrimEnd('.') removes exactly the trailing run of the character and leaves a prefix |
| Text.TrimChars | Services/Adblock/AdblockService.cs:134 | Trim(chars) leaves none of the characters at either end and never lengthens the text |
| Text.TrimCharsIsMiddle | Services/Adblock/AdblockService.cs:134 | the result is a contiguous piece of the input with only characters of the set cut off before and after it |
| Text.IndexOf | MainWindow.xaml.cs:215 | the first occurrence at or after the start position, or -1 when there is none |
| Text.IndexOfFindsContained | MainWindow.xaml.cs:215 | IndexOf finds a position exactly when the text contains the pattern |
| Text.ReplaceAll | MainWindow.xaml.cs:215 | string.Replace leaves a text without the pattern unchanged |
| Text.ReplaceAllOnce | MainWindow.xaml.cs:215 | with a single occurrence, Replace puts the replacement exactly in its place |
| Text.IntToStringRoundTrip | MainWindow.xaml.cs:213 | invariant integer formatting starts with '-' exactly for a negative number, and the digits after it read back as the magnitude |
| Text.NatToStringRoundTrip | MainWindow.xaml.cs:213 | reading back the digits of a formatted natural number gives the number |
| Urls.ParseAbsolute | MainWindow.xaml.cs:1124 | an absolute address has a scheme; http and https need a host; hosts come back lower-cased |
| Urls.NormalizeUrl | MainWindow.xaml.cs:1121-1129 | an absolute trimmed text is returned as it is; otherwise "https://" plus it when that parses with a host; it fails (the throw) exactly when neither holds |
| Urls.NormalizeUrlIdempotent | Services/ChapterTracking/HttpFetcher.cs:102-110 | normalizing an already normalized address gives it back |
| Urls.NormalizeUrlOrSelfIdempotent | BrowserWindow.xaml.cs:502-510 | the browser window's variant, which falls back to its input where the other throws, changes nothing when applied a second time |
| Urls.TryGetHost | BrowserWindow.xaml.cs:512-521 | a host is found exactly when the address is absolute with a non-empty host, and it is that host |
| Urls.ResolveRelativeKeepsHost | MainWindow.xaml.cs:1060 | a relative link resolved against a page keeps the page's host |
| Entry.Wrap32 | MainWindow.xaml.cs:906 | unchecked C# int arithmetic: the value itself in range, otherwise equal modulo 2^32 |
| Entry.SetField | MangaEntry.cs:62-69 | the field takes the new value; a change is reported exactly when the value differs |
| Entry.SetFieldTwice | MangaEntry.cs:62-69 | setting a property to the value it just received reports no change |
| Entry.MangaEntry.constructor | MangaEntry.cs:9-16 | a new entry has empty strings, chapter 0, no news flag, null selector and expression, and no notifications |
| Entry.MangaEntry.SetTitle | MangaEntry.cs:18-22 | only the title changes; one PropertyChanged("Title") exactly when the value differs |
| Entry.MangaEntry.SetChapter | MangaEntry.cs:24-28 | only the chapter changes; one PropertyChanged("Chapter") exactly when the value differs |
| Entry.MangaEntry.SetStatus | MangaEntry.cs:30-34 | only the status changes; one PropertyChanged("Status") exactly when the value differs |
| Entry.MangaEntry.SetUrl | MangaEntry.cs:36-40 | only the address changes; one PropertyChanged("Url") exactly when the value differs |
| Entry.MangaEntry.SetChapterUrlTemplate | MangaEntry.cs:42-47 | only the template changes; one PropertyChanged exactly when the value differs |
| Entry.MangaEntry.SetHasNewChapter | MangaEntry.cs:49-53 | only the news flag changes; one PropertyChanged exactly when the value differs |
| Entry.MangaEntry.SetLatestChapterXPath | MangaEntry.cs:15 | the auto-property changes only its own value and raises nothing |
| Entry.MangaEntry.SetChapterNumberRegex | MangaEntry.cs:16 | the auto-property changes only its own value and raises nothing |
| ChapterParse.TryNum | MainWindow.xaml.cs:638-639 | a value TryNum accepts lies in (0, 20000] |
| ChapterParse.BestValueIsMax | MainWindow.xaml.cs:646-649 | the fold of Math.Max from -1 is the largest present value, or -1 when none is present |
| ChapterParse.BestOfIsMax | MainWindow.xaml.cs:646-651 | a rule's best is the largest valid capture value, and it is positive exactly when some capture is valid |
| ChapterParse.GroupsMaxIsMax | MainWindow.xaml.cs:624-630 | the fold over one match's groups bounds every group value and is one of them, or -1 |
| ChapterParse.MatchesMaxIsMax | MainWindow.xaml.cs:622-631 | the fold over all matches bounds every group value of every match and is one of them, or -1 |
| ChapterParse.MatchesBestIsMax | MainWindow.xaml.cs:618-631 | the custom expression's best is the largest counted group value over all matches, or -1 |
| ChapterParse.KeywordListsOk | MainWindow.xaml.cs:644 | the keyword alternatives are non-empty lower-case letter words, as the scanners need |
| ChapterParse.NumberEnd | MainWindow.xaml.cs:644 | the greedy \d+(?:\.\d+)? at a position is non-empty exactly when a digit starts there |
| ChapterParse.BoundedNumberEnd | MainWindow.xaml.cs:644 | a number followed by a word boundary is non-empty and lies inside the text |
| ChapterParse.MatchA | MainWindow.xaml.cs:643-645 | a match of rule a (keyword, then number) captures a span inside the text after a letter |
| ChapterParse.ScanA | MainWindow.xaml.cs:643-649 | Regex.Matches for rule a yields captures only from a text with a letter |
| ChapterParse.MatchB | MainWindow.xaml.cs:656-658 | a match of rule b (number, then keyword) captures the number at the match start |
| ChapterParse.ScanB | MainWindow.xaml.cs:656-662 | Regex.Matches for rule b yields captures only from a text with a letter |
| ChapterParse.MatchC | MainWindow.xaml.cs:669-671 | a match of rule c (address keyword, separators, number, separator or end) captures a span inside the text |
| ChapterParse.ScanC | MainWindow.xaml.cs:669-675 | Regex.Matches for rule c yields captures only from a text with a letter |
| ChapterParse.MatchD | MainWindow.xaml.cs:682 | a match of rule d (query key "=", number) captures a span after the separator |
| ChapterParse.FirstD | MainWindow.xaml.cs:682-684 | Regex.Match for rule d yields a capture only from a text with a letter |
| ChapterParse.CustomBest | MainWindow.xaml.cs:621-631 | the nested loops over matches and groups (last group first) compute the largest counted value |
| ChapterParse.RuleBest | MainWindow.xaml.cs:646-649 | the loop of one built-in rule computes the largest valid capture, from -1 |
| ChapterParse.ParseChapterNumber | MainWindow.xaml.cs:613-689 | the method's loops compute the chapter-number ladder: the custom expression, strict cut-off, then rules a to d |
| ChapterParse.ChapterNumberBounds | MainWindow.xaml.cs:632-639 | every result is positive; without a custom expression it also lies in (0, 20000] |
| ChapterParse.NoKeywordNoChapter | MainWindow.xaml.cs:687-688 | without letters and without a custom expression no chapter is found: there is no bare-number fallback |
| ChapterParse.BareYearIsNotAChapter | MainWindow.xaml.cs:687-688 | "2025" alone gives null in both modes |
| ChapterParse.CustomValueUncapped | MainWindow.xaml.cs:632-633 | a positive custom best is returned as it is, above 20000 too, and is the value of some non-blank group |
| ChapterParse.StrictWithoutCustomMatchIsNone | MainWindow.xaml.cs:634-635 | a strict call whose custom expression does not match gives null without trying the built-in rules |
| ChapterParse.CustomWithoutValueFallsThrough | MainWindow.xaml.cs:632-636 | custom matches without a positive value fall through to the built-in rules |
| ChapterParse.FirstRuleWins | MainWindow.xaml.cs:641-652 | when rule a yields a valid value it decides, and the result is its largest valid capture |
| ChapterParse.SecondRuleWins | MainWindow.xaml.cs:654-665 | when rule a yields no valid value and rule b does, rule b decides with its largest valid capture |
| ChapterParse.ThirdRuleWins | MainWindow.xaml.cs:667-678 | when rules a and b yield no valid value and rule c does, rule c decides with its largest valid capture |
| ChapterParse.FirstDAtLeftmost | MainWindow.xaml.cs:682 | Regex.Match for rule d returns the capture of the leftmost position where rule d matches |
| ChapterParse.FirstDWithoutMatch | MainWindow.xaml.cs:682-683 | where rule d matches at no position, Regex.Match for it finds nothing |
| ChapterParse.FourthRuleTakesFirstMatch | MainWindow.xaml.cs:680-688 | when rules a to c yield no valid value, the result is TryNum of rule d's leftmost capture, or null when rule d matches nowhere |
| ChapterParse.ChapterTwelve | MainWindow.xaml.cs:641-652 | "Chapter 12" reads as chapter 12 |
| ChapterExtract.SameSeriesNeedsHostAndPrefix | MainWindow.xaml.cs:525-550 | with a page address, a passing link resolves to the same host (ignoring case), below the series path, with a chapter-like path |
| ChapterExtract.NoPageUrlKeepsEveryLink | MainWindow.xaml.cs:527-528 | with no page address, a page address of only white space, or a blank href, every link passes |
| ChapterExtract.NodeValue | MainWindow.xaml.cs:562-578 | a node's candidate lies in (0, 20000] |
| ChapterExtract.TextBeforeHref | MainWindow.xaml.cs:562-578 | a node text that reads as a chapter decides the node's candidate, whatever the href says |
| ChapterExtract.KeptSound | MainWindow.xaml.cs:557-579 | a value is kept exactly when some node yields it |
| ChapterExtract.NodeCandidatesSound | MainWindow.xaml.cs:552-580 | every candidate comes from a node that passed the series filter, and every such node adds its value |
| ChapterExtract.PooledFromNodes | MainWindow.xaml.cs:583-597 | every pooled value is the value of some node |
| ChapterExtract.PooledInRange | MainWindow.xaml.cs:583-597 | every pooled candidate lies in (0, 20000] |
| ChapterExtract.PooledAppend | MainWindow.xaml.cs:596-597 | pooling over two lists of selectors is the first pool followed by the second |
| ChapterExtract.PooledCons | MainWindow.xaml.cs:596-597 | one selector in front of others contributes its values first |
| ChapterExtract.PooledStep | MainWindow.xaml.cs:596-597 | one turn of the selector loop extends the pooled prefix by one selector |
| ChapterExtract.CustomSelectorPooled | MainWindow.xaml.cs:583-597 | the custom selector's candidates come first and are pooled with the fixed ones, not returned alone |
| ChapterExtract.BlankCustomSelectorIgnored | MainWindow.xaml.cs:583 | a missing or blank custom selector is not visited |
| ChapterExtract.SeqMaxIsMax | MainWindow.xaml.cs:604 | the maximum of a non-empty list is in it and bounds it |
| ChapterExtract.LatestChapterIsMax | MainWindow.xaml.cs:601-606 | null exactly without candidates; otherwise the largest candidate, in (0, 20000] |
| ChapterExtract.AddFromNodes | MainWindow.xaml.cs:552-580 | the loop appends the candidate of every passing node, in order |
| ChapterExtract.AddFromFixed | MainWindow.xaml.cs:587-597 | the loop over the fixed selectors appends their pool |
| ChapterExtract.ExtractLatestChapter | MainWindow.xaml.cs:521-607 | the method returns the latest chapter of the pooled candidates |
| ChapterLink.ToAbsoluteUri | MainWindow.xaml.cs:1054-1061 | an absolute href wins; with an unparsable page the href stays as given; otherwise relative resolution |
| ChapterLink.FirstMatch | MainWindow.xaml.cs:1086-1095 | the foreach finds the first anchor whose href or text matches, and none exactly when no anchor matches |
| ChapterLink.ResolveChapterLinkIsFirstExact | MainWindow.xaml.cs:1063-1099 | a found link is that of the first anchor naming exactly the stored chapter, among the Madara chapter anchors when the page has any and among all anchors otherwise (LinkNodes); without one the result is null |
| ChapterLink.ExactMatchEndsTheNumber | MainWindow.xaml.cs:1082-1084 | a match ends on the wanted digits with no further digit after them |
| ChapterLink.ExactMatchChapterTwelve | MainWindow.xaml.cs:1082-1084 | "Chapter-12" in an address matches chapter 12 |
| ChapterLink.ExactMatchNotAPrefix | MainWindow.xaml.cs:1082-1084 | chapter 12 does not match the text of chapter 123 |
| ChapterLink.OpenTarget | MainWindow.xaml.cs:772-816 | a resolved absolute link is opened; a resolved relative one is opened unless blank, and then nothing is opened; with no link the template with the stored chapter is opened unless blank; a resolved target is always the given link |
| UpdateScan.BuildChapterUrl | MainWindow.xaml.cs:210-216 | a template without "$chapter" is returned unchanged |
| UpdateScan.BuildChapterUrlSingle | MainWindow.xaml.cs:210-216 | a template with one "$chapter" becomes its prefix, the chapter's digits and its suffix |
| UpdateScan.HeadStep | MainWindow.xaml.cs:251-263 | HEAD: 2xx or redirect means found; a refusal (403/405/429) without vendor headers or an exception goes on to GET; else not found |
| UpdateScan.GetStep | MainWindow.xaml.cs:274-285 | the ranged GET finds the chapter exactly on 2xx or a redirect |
| UpdateScan.ProbeChapter | MainWindow.xaml.cs:225-226 | the probed chapter is Chapter + 1 below int.MaxValue; at int.MaxValue it is the out-of-range cast's answer |
| UpdateScan.ProbeAddress | MainWindow.xaml.cs:210-226 | for a template with one "$chapter" the probed address holds the next chapter's digits, or at int.MaxValue the cast's answer |
| UpdateScan.ProbeNextIff | MainWindow.xaml.cs:220-287 | the probe of ProbeChapter's address succeeds exactly on a 2xx or redirect answer to HEAD, or to the GET after a HEAD refusal |
| UpdateScan.ProbeChallengeAndPlainRefusal | MainWindow.xaml.cs:253-261 | vendor headers end the probe without GET; a plain 403 goes on to GET |
| UpdateScan.GetHtmlIff | MainWindow.xaml.cs:288-491 | a page comes back exactly from a 2xx without challenge signs on a host that is not JS-only, and it is the body |
| UpdateScan.GetHtmlRefuses | MainWindow.xaml.cs:288-401 | a JS-only host fails without a request, and 403 or 429 always fails |
| UpdateScan.NextChapterMonotone | MainWindow.xaml.cs:173-174 | after a newer value the chapter stays or moves up by exactly one, only when latest is chapter + 1 |
| UpdateScan.AppliedRule | MainWindow.xaml.cs:130-177 | skipped entries stay; the news flag is set exactly on a report; the chapter never decreases; nothing else changes |
| UpdateScan.FlaggedOrBlankSkipped | MainWindow.xaml.cs:130-133 | flagged entries and entries without an address are skipped |
| UpdateScan.ScanEntry | MainWindow.xaml.cs:128-177 | scanning one entry applies the update rule to it and reports whether its title is collected |
| MainWindow.RemoveAt | MainWindow.xaml.cs:858 | List.RemoveAt shifts the later elements down by one |
| MainWindow.InsertAt | MainWindow.xaml.cs:877 | List.Insert puts the element at the index and shifts the later ones up |
| MainWindow.InsertRemoved | MainWindow.xaml.cs:849-887 | inserting an element where it was removed restores the list |
| MainWindow.IndexOfEntry | MainWindow.xaml.cs:853 | IndexOf is the first position of the entry, or -1 exactly when it is absent |
| MainWindow.ClampIndex | MainWindow.xaml.cs:874-875 | an index out of range becomes the end; one in range stays |
| MainWindow.StaleIndexAppends | MainWindow.xaml.cs:874-875 | inserting at the clamped form of an out-of-range index appends the entry at the end |
| MainWindow.UndoRestores | MainWindow.xaml.cs:849-887 | an undo straight after a delete restores the identical list |
| MainWindow.FilteredMembers | MainWindow.xaml.cs:938-961 | an entry is listed exactly when it is in the collection and passes the status and search filter |
| MainWindow.FilteredIsSubsequence | MainWindow.xaml.cs:956-960 | the shown entries are the list's entries at strictly increasing positions, and a position is among them exactly when its entry passes the filter |
| MainWindow.FilteredKeepsAll | MainWindow.xaml.cs:956-960 | the filter never lengthens the list, and keeps it whole exactly when every entry passes |
| MainWindow.AllTabShowsEverything | MainWindow.xaml.cs:945-954 | on the "All" tab with no search text every entry is listed |
| MainWindow.Views | MainWindow.xaml.cs:126 | the snapshot of the entries' fields, one per entry |
| MainWindow.OutcomeAt | MainWindow.xaml.cs:126-187 | the k-th scan outcome is the outcome of scanning the k-th entry |
| MainWindow.TitlesOfSnoc | MainWindow.xaml.cs:176 | one more scanned entry appends its title exactly when it is reported |
| MainWindow.ScanNext | MainWindow.xaml.cs:128-177 | one turn of the scan loop updates entry i by the rule, leaves the others alone and extends the titles |
| MainWindow.ScanAll | MainWindow.xaml.cs:124-187 | every entry is updated by the rule from its old state, and the titles are those reported, in list order |
| MainWindow.MainWindow.constructor | MainWindow.xaml.cs:35-49 | an empty list, empty view, empty undo stack and the "All" tab |
| MainWindow.MainWindow.ApplyFilter | MainWindow.xaml.cs:938-961 | the view is refilled with exactly the filtered entries and nothing else changes |
| MainWindow.MainWindow.DeleteInline | MainWindow.xaml.cs:849-864 | an entry in the list is pushed with its index, removed, the view refreshed and the list saved; otherwise nothing changes |
| MainWindow.MainWindow.UndoDelete | MainWindow.xaml.cs:867-887 | the last deletion is popped and re-inserted at its index or at the end, then refresh and save; an empty stack changes nothing |
| MainWindow.MainWindow.ChapterUp | MainWindow.xaml.cs:902-909 | the chapter goes up by one with int wrap-around, and the list is saved |
| MainWindow.MainWindow.ChapterDown | MainWindow.xaml.cs:911-921 | the chapter goes down by one only from above 1, with a save; otherwise nothing changes |
| MainWindow.MainWindow.CheckForAllUpdates | MainWindow.xaml.cs:121-205 | every entry is scanned in order by the rule, the reported titles are collected, and one save follows exactly when there are any |
| HostStrategy.Norm | Services/ChapterTracking/HostStrategy.cs:48 | a normalized host is lower case, no longer than the input, and never ends in '.' |
| HostStrategy.NormIsMiddle | Services/ChapterTracking/HostStrategy.cs:48 | a normalized host is the lower-cased form of a contiguous piece of the input, with only white space cut off before it and only white space and dots after it |
| HostStrategy.NormIdempotent | Services/ChapterTracking/HostStrategy.cs:48 | Norm is idempotent on hosts without white space |
| HostStrategy.NormNotIdempotent | Services/ChapterTracking/HostStrategy.cs:48 | Norm("a. .") is "a. " and normalizing that again gives "a" |
| HostStrategy.NormalizedHostsSound | Services/ChapterTracking/HostStrategy.cs:19-22 | the rebuilt list has no duplicates and only lower-case hosts |
| HostStrategy.NormalizedHostsMembers | Services/ChapterTracking/HostStrategy.cs:20-21 | a host is in the rebuilt list exactly when it is the Norm of a non-blank entry |
| HostStrategy.DistinctLoweredNoCaseDuplicates | Services/ChapterTracking/HostStrategy.cs:13 | distinct lower-case hosts are distinct under OrdinalIgnoreCase too |
| HostStrategy.SyncedListLacks | Services/ChapterTracking/HostStrategy.cs:41 | a lowered host missing from the mirrored set is missing from the list in every spelling |
| HostStrategy.HostStrategyStore.constructor | Services/ChapterTracking/HostStrategy.cs:13 | an empty set beside the given settings list |
| HostStrategy.HostStrategyStore.IsJsOnly | Services/ChapterTracking/HostStrategy.cs:25-30 | a blank host is never JS-only |
| HostStrategy.HostStrategyStore.IsJsOnlyIsMembership | Services/ChapterTracking/HostStrategy.cs:25-30 | IsJsOnly is exactly: not blank and its Norm is in the set |
| HostStrategy.HostStrategyStore.InitializeFromSettings | Services/ChapterTracking/HostStrategy.cs:16-23 | the set and the settings list become the normalized, deduplicated non-blank entries, in first-occurrence order and free of case duplicates; nothing is saved |
| HostStrategy.HostStrategyStore.MarkJsOnly | Services/ChapterTracking/HostStrategy.cs:33-46 | a non-blank host becomes JS-only; only a new host changes the set and saves, and is appended to the settings list (created when null) unless some spelling of it is there; an old host leaves the list alone; sync, with no case duplicates, is kept |
| HttpFetcher.LooksLikeJsChallengeIgnoresStatusAndBody | Services/ChapterTracking/HttpFetcher.cs:114-124 | the header test depends on the headers only, not on the status or the body |
| HttpFetcher.BodyChallengeIgnoresCase | Services/ChapterTracking/HttpFetcher.cs:126-138 | the body test gives the same answer for the lower-cased body |
| HttpFetcher.BodyChallengeExample | Services/ChapterTracking/HttpFetcher.cs:137 | a Cloudflare "Just a moment" page is recognized |
| HttpFetcher.ThrottleWait | Services/ChapterTracking/HttpFetcher.cs:81-89 | the wait reaches the host's reserved time; an unused host waits zero |
| HttpFetcher.ThrottleSpacing | Services/ChapterTracking/HttpFetcher.cs:79-92 | two throttled requests to one host, one after the other, are dispatched at least 950 ms apart |
| HttpFetcher.SuccessfulWarmUpsConcat | Services/ChapterTracking/HttpFetcher.cs:250-273 | successful guarded warm-ups add up over joined traces |
| HttpFetcher.OfferSolve | Services/ChapterTracking/HttpFetcher.cs:224-247 | a solve retries the same attempt, using up the script; otherwise a non-empty capture ends the call |
| HttpFetcher.WarmUpOrCapture | Services/ChapterTracking/HttpFetcher.cs:250-296 | the guarded warm-up succeeds at most once and retries; then a capture ends the call, or a backoff or the loop's end follows |
| HttpFetcher.AttemptOnce | Services/ChapterTracking/HttpFetcher.cs:174-347 | one attempt is decided by its reply: a network error fails with SendFailed, a status other than 2xx/403/429 fails at once with that status, a 2xx body without challenge marks is the page; only a 403/429 moves to the next attempt or gives up, and a retry follows only a 403/429 or a challenge body; captures are non-empty |
| HttpFetcher.Fetcher.constructor | Services/ChapterTracking/HttpFetcher.cs:20-41 | no throttle slots and no JS-only hosts |
| HttpFetcher.Fetcher.RegisterJsOnlyHost | Services/ChapterTracking/HttpFetcher.cs:96-100 | a non-blank host joins the registry, ignoring case; nothing else changes |
| HttpFetcher.Fetcher.Throttle | Services/ChapterTracking/HttpFetcher.cs:79-92 | the wait is the reserved time's distance; only the host's slot moves to the dispatch time + 900 ms + jitter |
| HttpFetcher.Fetcher.GetStringSmart | Services/ChapterTracking/HttpFetcher.cs:140-365 | an address that cannot be normalized fails with no effect; otherwise the fetch of its host with all guarantees below |
| HttpFetcher.Fetcher.FetchHost | Services/ChapterTracking/HttpFetcher.cs:151-364 | throttle once first; a registered or learned host is rendered next, and a non-empty page from that render is returned with no request; otherwise the requests start with attempt 1; learned host exactly after a browser fallback page; bodies from 2xx; a status other than 2xx/403/429 is never retried and is the result; at most one warm-up success; backoff 400·2^(a-1)+[0,200) ms; final render last, only after a 403/429 to attempt 3, and Exhausted exactly when it fails |
| HttpFetcher.RetryLoop | Services/ChapterTracking/HttpFetcher.cs:173-347 | the attempts 1 to 3 either end the call with a result meeting every trace promise, or give up after a 403/429 to attempt 3 |
| HttpFetcher.DoneTrace | Services/ChapterTracking/HttpFetcher.cs:173-347 | a pass that ends the call leaves a trace keeping every promise: failing statuses only last, one warm-up success at most, backoffs well formed |
| HttpFetcher.FinalTrace | Services/ChapterTracking/HttpFetcher.cs:350-364 | the last-chance render after giving up is the last step; an empty page is Exhausted and a non-empty one a fallback page |
| HostLists.Without | BrowserWindow.xaml.cs:537-540 | RemoveAll keeps exactly the entries not equal to the host ignoring case |
| HostLists.WithoutAppend | BrowserWindow.xaml.cs:539 | removal works part by part, keeping the order of the kept entries |
| HostLists.WithoutAbsent | BrowserWindow.xaml.cs:539 | a list without the host is left as it is |
| HostLists.WithHost | BrowserWindow.xaml.cs:531-535 | AddHostUnique: the host is present afterwards, appended exactly when no spelling of it was there |
| HostLists.DistinctIgnoreCaseSound | SettingsWindow.xaml.cs:118 | Distinct(OrdinalIgnoreCase) keeps one of each case-insensitive class, only given entries, and every class |
| HostLists.DistinctIgnoreCaseKeepsFirsts | SettingsWindow.xaml.cs:118 | Distinct(OrdinalIgnoreCase) is the list filtered to the entries with no equal entry before them, in list order |
| HostLists.DistinctIgnoreCaseOfDistinct | SettingsWindow.xaml.cs:118 | a list already free of duplicates is kept as it is |
| HostLists.WithHostNoDuplicates | BrowserWindow.xaml.cs:531-535 | AddHostUnique never creates a case-insensitive duplicate |
| HostLists.WithoutNoDuplicates | BrowserWindow.xaml.cs:537-540 | removal keeps a list free of duplicates |
| HostLists.PreferHost | BrowserWindow.xaml.cs:228-242 | after Block or Allow the host is in exactly the chosen list, and neither list gains a duplicate |
| HostLists.HostList.constructor | AppSettings.cs:31-32 | a list object holding the given hosts |
| HostLists.ContainsHost | BrowserWindow.xaml.cs:542-548 | the foreach finds the host exactly when some entry equals it ignoring case |
| HostLists.AddHostUnique | BrowserWindow.xaml.cs:531-535 | the list becomes WithHost of its old contents |
| HostLists.RemoveHost | BrowserWindow.xaml.cs:537-540 | the list becomes Without of its old contents |
| AppSettings.Settings.constructor | AppSettings.cs:13-32 | the static properties' initial values: Ask, German, ad blocking on, no dry run, empty lists |
| Browser.SubdomainNeedsDot | BrowserWindow.xaml.cs:524-529 | a host other than the base passes only with a dot right before the base's name |
| Browser.LookAlikeIsForeign | BrowserWindow.xaml.cs:524-529 | "evilexample.com" is not a subdomain of "example.com" |
| Browser.SubdomainPasses | BrowserWindow.xaml.cs:524-529 | "www.Example.com" passes for "example.com" |
| Browser.StartHost | BrowserWindow.xaml.cs:58-60 | the start host, when there is one, is non-empty |
| Browser.NavigationDecision | BrowserWindow.xaml.cs:165-251 | re-entry, technical addresses or no start host pass; no host cancels; same site passes; a blocked host cancels; past those, an allowed host passes and any other host is stopped with a question naming it |
| Browser.ChoiceSticks | BrowserWindow.xaml.cs:228-242 | after Block the same address is cancelled without asking; after Allow it passes |
| Browser.ApplyChoice | BrowserWindow.xaml.cs:208-244 | Yes and Allow navigate; Block and Allow move the host between the lists and save once; other choices change nothing |
| Browser.TryUpdateChapter | BrowserWindow.xaml.cs:492-500 | the chapter becomes the larger of the old and the found value; nothing else changes |
| Browser.SplitOn | BrowserWindow.xaml.cs:469 | splitting at the placeholder gives the text itself when it is absent, and at least two pieces when it is present |
| Browser.SplitOnJoin | BrowserWindow.xaml.cs:468-469 | splitting at the placeholder and joining with the group pattern is string.Replace |
| Browser.NumberEnds | BrowserWindow.xaml.cs:469 | the possible ends of (\d+(?:\.\d+)?) in backtracking order: decreasing, covering every integer end |
| Browser.FirstEnd | BrowserWindow.xaml.cs:470 | backtracking stops at the first end after which the rest of the pattern matches |
| Browser.FirstGroup | BrowserWindow.xaml.cs:470-474 | Regex.Match's first group lies inside the address |
| Browser.ChapterFromUrl | BrowserWindow.xaml.cs:464-480 | a chapter read off the address is non-negative; a template without "$chapter" gives none |
| Browser.ParseDigits | BrowserWindow.xaml.cs:475 | double.TryParse of a digit run gives its value |
| Browser.GroupOfBuilt | BrowserWindow.xaml.cs:470-474 | in prefix + digits + suffix the pattern's first group is exactly the digits |
| Browser.ChapterFromBuiltUrl | BrowserWindow.xaml.cs:464-480 | for a template with one "$chapter", the address BuildChapterUrl makes of chapter n reads back as n |
| Browser.OnSourceChanged | BrowserWindow.xaml.cs:455-488 | a chapter read off the new address is taken when it is higher; otherwise the entry is unchanged |
| SettingsWindow.LinkModeIndex | SettingsWindow.xaml.cs:21-27 | the combo index of the link mode is 0, 1 or 2 |
| SettingsWindow.IndexLinkMode | SettingsWindow.xaml.cs:98-103 | indices 0 to 2 map back to their mode; any other index means Ask |
| SettingsWindow.LinkModeRoundTrip | SettingsWindow.xaml.cs:98-103 | mode to index to mode is the identity |
| SettingsWindow.LanguageIndex | SettingsWindow.xaml.cs:29 | the language combo index is 0 or 1 |
| SettingsWindow.IndexLanguage | SettingsWindow.xaml.cs:105 | index 0 is German and any other index English |
| SettingsWindow.LanguageRoundTrip | SettingsWindow.xaml.cs:105 | language to index to language is the identity |
| SettingsWindow.SplitLines | SettingsWindow.xaml.cs:115 | Split on "\r\n" and "\n" without empty entries gives non-empty pieces without line feeds |
| SettingsWindow.TrimAll | SettingsWindow.xaml.cs:116 | every piece is trimmed, in place |
| SettingsWindow.NonEmpty | SettingsWindow.xaml.cs:117 | exactly the non-empty pieces are kept |
| SettingsWindow.ParseLineListSound | SettingsWindow.xaml.cs:114-119 | the parsed list is the first of each case-insensitive class of the trimmed non-empty lines, in text order: no case duplicates, only trimmed non-empty lines, every non-blank line covered |
| SettingsWindow.SplitJoinLines | SettingsWindow.xaml.cs:32-39 | splitting the text the window shows gives the entries back |
| SettingsWindow.ParseJoinedLines | SettingsWindow.xaml.cs:114-126 | opening and saving the window keeps an already clean list as it is |
| SettingsWindow.FormOf | SettingsWindow.xaml.cs:21-39 | the controls as the window fills them map back to the stored mode and language |
| SettingsWindow.SaveClick | SettingsWindow.xaml.cs:95-131 | every setting takes its control's value, the lists are parsed, the external host lists keep their entries, and the settings are saved once |
| SettingsWindow.AddAllowed | SettingsWindow.xaml.cs:136-148 | blank input changes nothing; otherwise the host is allowed once and removed from the blocked list |
| SettingsWindow.AddBlocked | SettingsWindow.xaml.cs:150-162 | blank input changes nothing; otherwise the host is blocked once and removed from the allowed list |
| SettingsWindow.RemoveAllowed | SettingsWindow.xaml.cs:164-171 | every spelling of the selection leaves the allowed list; no selection changes nothing |
| SettingsWindow.RemoveBlocked | SettingsWindow.xaml.cs:173-180 | every spelling of the selection leaves the blocked list; no selection changes nothing |
| AdblockService.ElementTypeOf | Services/Adblock/AdblockService.cs:43-54 | Xhr and Fetch both become XmlHttpRequest; only Subdocument becomes Subdocument; only Other becomes Other |
| AdblockService.MapContext | Services/Adblock/AdblockService.cs:65-76 | the Document context and every unlisted one become Other; nothing becomes Subdocument |
| AdblockService.FilterLines | Services/Adblock/AdblockService.cs:27-35 | the kept patterns are exactly the trimmed lines that are not empty, comments, cosmetic rules or exceptions |
| AdblockService.LoadedPatternsSound | Services/Adblock/AdblockService.cs:20-36 | a pattern is loaded exactly when it is a kept trimmed line of an existing file |
| AdblockService.Dotted | Services/Adblock/AdblockService.cs:135 | exactly the patterns with a '.' are kept |
| AdblockService.SimpleEngineOfSound | Services/Adblock/AdblockService.cs:131-138 | the engine's patterns are trimmed dotted extras, one per case-insensitive class, covering every such extra |
| AdblockService.EngineBlocksBySubstring | Services/Adblock/AdblockService.cs:140-161 | the engine blocks exactly the URLs whose lower-cased text has an ad path, a known host or a loaded pattern |
| AdblockService.EngineIgnoresContext | Services/Adblock/AdblockService.cs:140-161 | the engine's verdict ignores the document, the element type and the third-party flag |
| AdblockService.NewAdblockService | Services/Adblock/AdblockService.cs:20-39 | the service's engine is built from the patterns loaded from the files |
| AdblockService.ShouldBlockOnlyByUrl | Services/Adblock/AdblockService.cs:41-63 | the service's verdict depends on the resource URL alone |
| AdblockService.IsSameSiteReflexiveSymmetric | Services/Adblock/AdblockService.cs:89-94 | same-site is reflexive up to case and symmetric |
| AdblockService.SubdomainIsSameSite | Services/Adblock/AdblockService.cs:89-94 | a dotted subdomain is the same site as its parent in any spelling |
| AdblockService.IsThirdPartyCases | Services/Adblock/AdblockService.cs:78-87 | an unparsable address is third-party; otherwise third-party exactly when not same-site; symmetric |
| CosmeticRules.RulesFor | Services/Adblock/CosmeticRuleStore.cs:54-62 | an unknown host has no rules |
| CosmeticRules.SetAdd | Services/Adblock/CosmeticRuleStore.cs:49 | HashSet.Add adds the value, does nothing when present, and keeps the set distinct |
| CosmeticRules.WithRule | Services/Adblock/CosmeticRuleStore.cs:39-52 | blank host or value changes nothing; every spelling of the host gains the trimmed value; other hosts stay the same |
| CosmeticRules.WithRuleKeepsDistinct | Services/Adblock/CosmeticRuleStore.cs:46-49 | every host's set stays free of duplicates |
| CosmeticRules.CssLine | Services/Adblock/CosmeticRuleStore.cs:72 | a rule's line starts with its selector |
| CosmeticRules.CssHasEveryLine | Services/Adblock/CosmeticRuleStore.cs:64-74 | the style sheet is empty exactly without selectors and holds a hiding line for each |
| CosmeticRules.CosmeticRuleStore.constructor | Services/Adblock/CosmeticRuleStore.cs:18-36 | a store with two empty maps |
| CosmeticRules.CosmeticRuleStore.AddRule | Services/Adblock/CosmeticRuleStore.cs:39-52 | the cosmetic map becomes WithRule of the old one, URL rules stay, and a save follows exactly for a non-blank call |
| CosmeticRules.CosmeticRuleStore.GetRules | Services/Adblock/CosmeticRuleStore.cs:54-62 | the host's selectors, or none |
| CosmeticRules.CosmeticRuleStore.BuildCssForHost | Services/Adblock/CosmeticRuleStore.cs:64-74 | the loop writes the style sheet of the host's selectors |
| CosmeticRules.CosmeticRuleStore.AddUrlRule | Services/Adblock/CosmeticRuleStore.cs:77-88 | the URL-rule map becomes WithRule of the old one, cosmetic rules stay, and a save follows exactly for a non-blank call |
| CosmeticRules.CosmeticRuleStore.GetUrlRules | Services/Adblock/CosmeticRuleStore.cs:90-98 | the host's URL patterns, or none |
| CosmeticRules.AddRuleThenGet | Services/Adblock/CosmeticRuleStore.cs:39-62 | after AddRule every spelling of the host finds the trimmed selector, and adding it again changes nothing |
| CosmeticRules.SelectorsAreCaseSensitive | Services/Adblock/CosmeticRuleStore.cs:39-52 | ".Ad" and ".ad" are kept as two selectors |
| WebAdblock.AnchoredMatchOfLineFree | Services/Adblock/WebView2Adblock.cs:385-386 | on text without line feeds the anchored regex is the plain glob match |
| WebAdblock.GlobLiteral | Services/Adblock/WebView2Adblock.cs:383-386 | a pattern without wildcards matches exactly its own text, ignoring case |
| WebAdblock.GlobStar | Services/Adblock/WebView2Adblock.cs:383-384 | "*" matches exactly the texts without a line feed, the empty one included |
| WebAdblock.GlobQuestion | Services/Adblock/WebView2Adblock.cs:383-384 | "?" matches exactly one character other than a line feed |
| WebAdblock.GlobLeadingStar | Services/Adblock/WebView2Adblock.cs:383-386 | a leading "*" matches some line-free prefix, then the rest of the pattern |
| WebAdblock.GlobStarSuffix | Services/Adblock/WebView2Adblock.cs:383-386 | "*" + literal matches the line-free texts ending in the literal, ignoring case |
| WebAdblock.StarDotNeedsSubdomain | Services/Adblock/WebView2Adblock.cs:406-415 | "*.infolinks.com" matches its subdomains but not infolinks.com itself |
| WebAdblock.HostPart | Services/Adblock/WebView2Adblock.cs:409-410 | the part of the pattern before its first "/", the whole pattern without one |
| WebAdblock.UrlPatternMatchCases | Services/Adblock/WebView2Adblock.cs:364-387 | blank gives false; otherwise the whole-URL glob, or the host glob for a pattern without "/" |
| WebAdblock.MatchesAnyEmpty | Services/Adblock/WebView2Adblock.cs:389-404 | no patterns, no match |
| WebAdblock.MatchesAnyIgnoresPath | Services/Adblock/WebView2Adblock.cs:395-399 | a pattern whose host part matches the URL's host hits the URL, whatever its path |
| WebAdblock.YandexPatternHitsWholeHost | Services/Adblock/WebView2Adblock.cs:68 | the "yandex.ru/ads/*" entry's host part matches every address on yandex.ru |
| WebAdblock.HardPatterns | Services/Adblock/WebView2Adblock.cs:89-91 | the configured denylist when it has entries, otherwise the built-in non-empty one |
| WebAdblock.Decide | Services/Adblock/WebView2Adblock.cs:108-174 | challenge resources pass; allowlisted pages pass; custom rules, then third-party denylist; past the custom rules (PastCustomRules) a third-party match on the denylist is denied, and otherwise a top-level document passes, an untyped resource passes, and anything else is left to the engine or heuristic stage |
| WebAdblock.ContainsAnyAppend | Services/Adblock/WebView2Adblock.cs:417-428 | a marker list split in two is tried part by part |
| WebAdblock.LastStepBySubstring | Services/Adblock/WebView2Adblock.cs:159-163 | the last stage blocks exactly on a marker or a loaded pattern in the lower-cased URL |
| WebAdblock.CustomRuleBlocksAnyContext | Services/Adblock/WebView2Adblock.cs:125-136 | a matching custom URL rule of the page blocks a resource of every registered context, top-level documents included |
| WebAdblock.ResourceRequestedArgs.constructor | Services/Adblock/WebView2Adblock.cs:108-112 | an event for the request with no response yet |
| WebAdblock.Block | Services/Adblock/WebView2Adblock.cs:307-319 | with DryRun the response stays as it was; otherwise it becomes the 403 "Blocked" response |
| WebAdblock.OnWebResourceRequested | Services/Adblock/WebView2Adblock.cs:108-174 | the event is answered with 403 exactly when the decision denies it and this is no dry run |

## Left out

- HTTP, WebView2 and the file system: every reply, rendered page, warm-up and solve comes from an oracle or a finite script. The charset decoding of bodies is not modelled. Neither is reading and writing the settings, rule and list files; a save is a counter.
- Services/ChapterTracking/WebView2HtmlFetcher.cs is not part of this model. Its render, warm-up and interactive solve are the script's answers.
- HttpFetcher.Fetcher.GetStringSmart: an interactive solve that keeps succeeding repeats the same attempt without bound. In the model the solve script is finite, which ends that path. Termination of the unbounded case is not claimed.
- HttpFetcher.Fetcher.RegisterJsOnlyHost: JsOnlyHosts is a static dictionary shared by every HttpFetcher (HttpFetcher.cs:38), while the model gives each Fetcher its own registry set. No code in the repository registers a host, so no behaviour depends on the sharing.
- HttpFetcher.Fetcher.FetchHost: states "at most one guarded warm-up succeeds" rather than "warm-up at most once". A failed guarded warm-up is tried again on the next 403/429.
- Concurrency, cancellation, Dispatcher and locks: the model is sequential. HttpFetcher.Fetcher.Throttle is not claimed to be atomic.
- Floating point: chapter values are reals. The epsilon comparisons (chapter + 1 within 0.0001, the whole-number test of BuildChapterUrl, the 1e-9 before Math.Floor) are exact comparisons. NaN and infinities are not modelled, and neither is double rounding of long digit strings.
- UpdateScan.RoundToInt32: C# leaves the result of casting an out-of-range double to int unspecified, so the runtime's answer is the input castOverflow of the scan's surroundings rather than a fixed value.
- UpdateScan.BuildChapterUrl: only whole chapter numbers are formatted. "0.##" formatting of fractional chapters is left out, because the callers only pass int chapters.
- Browser.ChapterFromUrl: the int cast of a value above int.MaxValue is not modelled (such a value gives none).
- .NET Regex: only the patterns the code writes out are modelled: the four chapter rules, the exact-chapter matcher, the address template and the adblock wildcards. A custom chapter expression is an oracle, and an invalid expression's exception is not modelled.
- Unicode: case folding covers ASCII and Latin-1 upper-case letters; \d is the ASCII digits; \b and \w use ASCII and Latin-1 letters, digits and '_'.
- HtmlAgilityPack and XPath: a document maps each selector to its nodes. An invalid custom XPath's exception is not modelled.
- Uri: Urls.ParseAbsolute is a simplified parser (scheme, authority, path), and relative resolution follows section 5.2 of RFC 3986 for the common forms only. Urls.NormalizeUrl returns "https://" + text instead of Uri.ToString() of it, which may differ in escaping and a trailing '/'.
- Culture: string.StartsWith without a comparison is treated as ordinal.
- The embedded JavaScript (chapter detector, element picker, popup and overlay guards) and the CSS injection of the browser window run in the browser and are not modelled; nor are the picker's message handlers or the popup handler.
- The dead statements after the throw in GetHtmlAsync and the `#if false` blocks do not run and are not modelled.
- The MainWindow list holds each entry object once; MainWindow.MainWindow.CheckForAllUpdates requires distinct entries, since the same object twice would be scanned twice in place.
- Logging, message boxes, the undo button caption and the other windows of the application are UI and not modelled.
