/**
 * The main window's list of tracked series: the entries (AllMangas), the
 * filtered view the list shows (MangaListItems), the stack of deleted entries
 * with their former positions, the status tab and search text that drive the
 * filter, and the update scan over all entries.
 */
module MainWindow {
  import opened Text
  import opened Entry
  import opened HostStrategy
  import opened ChapterExtract
  import opened UpdateScan

  // ---------------------------------------------------------------- list positions

  /** List.RemoveAt. */
  function RemoveAt<T>(s: seq<T>, i: nat): (r: seq<T>)
    requires i < |s|
    ensures |r| == |s| - 1
    ensures forall k | 0 <= k < i :: r[k] == s[k]
    ensures forall k | i <= k < |r| :: r[k] == s[k + 1]
  {
    s[..i] + s[i + 1..]
  }

  /** List.Insert. */
  function InsertAt<T>(s: seq<T>, i: nat, x: T): (r: seq<T>)
    requires i <= |s|
    ensures |r| == |s| + 1 && r[i] == x
    ensures forall k | 0 <= k < i :: r[k] == s[k]
    ensures forall k | i < k < |r| :: r[k] == s[k - 1]
  {
    s[..i] + [x] + s[i..]
  }

  /** Putting an element back where it was taken from restores the list. */
  lemma InsertRemoved<T>(s: seq<T>, i: nat)
    requires i < |s|
    ensures InsertAt(RemoveAt(s, i), i, s[i]) == s
  {
    var r := InsertAt(RemoveAt(s, i), i, s[i]);
    assert forall k | 0 <= k < |s| :: r[k] == s[k];
  }

  /** Collection.IndexOf: the first position holding the entry, or -1. */
  function IndexOfEntry(s: seq<MangaEntry>, m: MangaEntry): (r: int)
    ensures r == -1 <==> m !in s
    ensures r != -1 ==> 0 <= r < |s| && s[r] == m && forall k | 0 <= k < r :: s[k] != m
  {
    if s == [] then -1
    else if s[0] == m then 0
    else
      var r := IndexOfEntry(s[1..], m);
      if r == -1 then -1 else r + 1
  }

  /** The index guard of UndoDelete_Click: out of range means the end. */
  function ClampIndex(index: int, count: nat): (r: nat)
    ensures r <= count
    ensures 0 <= index <= count ==> r == index
    ensures index < 0 || index > count ==> r == count
  {
    if index < 0 || index > count then count else index
  }

  /** An undo whose stored index is out of range appends the entry at the end. */
  lemma StaleIndexAppends<T>(all: seq<T>, index: int, x: T)
    requires index < 0 || index > |all|
    ensures InsertAt(all, ClampIndex(index, |all|), x) == all + [x]
  {
    assert all[..|all|] == all;
  }

  /** An undo straight after a delete gives back the identical list. */
  lemma UndoRestores(s: seq<MangaEntry>, m: MangaEntry)
    requires m in s
    ensures var i := IndexOfEntry(s, m);
            InsertAt(RemoveAt(s, i), ClampIndex(i, |s| - 1), m) == s
  {
    InsertRemoved(s, IndexOfEntry(s, m));
  }

  // ---------------------------------------------------------------- the filter

  /** The status tab ("All" shows every status) and the lower-cased search text in the title. */
  predicate Shown(m: MangaEntry, status: string, search: string)
    reads m
  {
    (EqIgnoreCase(status, "All") || EqIgnoreCase(m.status, status))
    && (IsBlank(Lower(search)) || Contains(Lower(m.title), Lower(search)))
  }

  /** ApplyFilter's query: the shown entries, in list order. */
  function Filtered(list: seq<MangaEntry>, status: string, search: string): seq<MangaEntry>
    reads set m | m in list
  {
    if list == [] then []
    else
      var prev := Filtered(list[..|list| - 1], status, search);
      var m := list[|list| - 1];
      if Shown(m, status, search) then prev + [m] else prev
  }

  /** An entry is listed exactly when it is in the collection and passes the filter. */
  lemma {:induction false} FilteredMembers(list: seq<MangaEntry>, status: string, search: string, m: MangaEntry)
    ensures m in Filtered(list, status, search) <==> m in list && Shown(m, status, search)
  {
    if list != [] {
      var init := list[..|list| - 1];
      FilteredMembers(init, status, search, m);
      assert list == init + [list[|list| - 1]];
    }
  }

  /** Whether each entry passes the filter, position by position. */
  function ShownFlags(list: seq<MangaEntry>, status: string, search: string): (fl: seq<bool>)
    reads set m | m in list
    ensures |fl| == |list|
  {
    if list == [] then []
    else ShownFlags(list[..|list| - 1], status, search) + [Shown(list[|list| - 1], status, search)]
  }

  /** The elements of xs whose flag is set, in order. */
  function Select<T>(xs: seq<T>, fl: seq<bool>): seq<T>
    requires |fl| == |xs|
  {
    if xs == [] then []
    else Select(xs[..|xs| - 1], fl[..|fl| - 1]) + (if fl[|fl| - 1] then [xs[|xs| - 1]] else [])
  }

  /** The positions whose flag is set, in increasing order. */
  function Positions(fl: seq<bool>): (ps: seq<nat>)
    ensures forall j | 0 <= j < |ps| :: ps[j] < |fl|
  {
    if fl == [] then []
    else Positions(fl[..|fl| - 1]) + (if fl[|fl| - 1] then [|fl| - 1] else [])
  }

  /** The positions of the entries that pass the filter, in increasing order. */
  function ShownPositions(list: seq<MangaEntry>, status: string, search: string): (ps: seq<nat>)
    reads set m | m in list
    ensures forall j | 0 <= j < |ps| :: ps[j] < |list|
  {
    Positions(ShownFlags(list, status, search))
  }

  /** The flagged positions come in increasing order, and a position is among them exactly when its flag is set. */
  lemma {:induction false} PositionsSound(fl: seq<bool>)
    ensures var ps := Positions(fl);
            (forall j, j' | 0 <= j < j' < |ps| :: ps[j] < ps[j']) &&
            (forall k | 0 <= k < |fl| :: fl[k] <==> k in ps)
  {
    if fl != [] {
      var n := |fl| - 1;
      var flI := fl[..n];
      PositionsSound(flI);
      var ps, psI := Positions(fl), Positions(flI);
      assert forall k | 0 <= k < n :: fl[k] == flI[k];
      if fl[n] {
        assert ps == psI + [n];
        forall k | 0 <= k < |fl| ensures fl[k] <==> k in ps {
          if k < n { assert (k in ps) == (k in psI); }
        }
      } else {
        assert ps == psI;
      }
    }
  }

  /** Selecting by flags picks the elements at the flagged positions. */
  lemma {:induction false} SelectAtPositions<T>(xs: seq<T>, fl: seq<bool>)
    requires |fl| == |xs|
    ensures var s, ps := Select(xs, fl), Positions(fl);
            |ps| == |s| && (forall j | 0 <= j < |s| :: s[j] == xs[ps[j]])
  {
    if xs != [] {
      var n := |xs| - 1;
      var xsI, flI := xs[..n], fl[..n];
      SelectAtPositions(xsI, flI);
      var s, ps := Select(xs, fl), Positions(fl);
      var sI, psI := Select(xsI, flI), Positions(flI);
      if fl[n] {
        assert s == sI + [xs[n]] && ps == psI + [n];
        forall j | 0 <= j < |s| ensures s[j] == xs[ps[j]] {
          if j < |sI| { assert s[j] == sI[j] && ps[j] == psI[j] && xs[psI[j]] == xsI[psI[j]]; }
        }
      } else {
        assert s == sI && ps == psI;
      }
    }
  }

  /** Selecting by flags drops nothing exactly when every flag is set. */
  lemma {:induction false} SelectAll<T>(xs: seq<T>, fl: seq<bool>)
    requires |fl| == |xs|
    ensures |Select(xs, fl)| <= |xs|
    ensures Select(xs, fl) == xs <==> forall k | 0 <= k < |fl| :: fl[k]
  {
    if xs != [] {
      var n := |xs| - 1;
      var xsI, flI := xs[..n], fl[..n];
      SelectAll(xsI, flI);
      var s, sI := Select(xs, fl), Select(xsI, flI);
      if fl[n] {
        assert s == sI + [xs[n]];
        if forall k | 0 <= k < |fl| :: fl[k] {
          assert forall k | 0 <= k < n :: flI[k] by {
            forall k | 0 <= k < n ensures flI[k] { assert flI[k] == fl[k]; }
          }
          assert xs == xsI + [xs[n]];
        } else {
          var k :| 0 <= k < |fl| && !fl[k];
          assert k < n && !flI[k];
        }
      } else {
        assert s == sI;
        assert !fl[|fl| - 1];
      }
    }
  }

  /** ShownFlags holds exactly the filter's verdict on each entry. */
  lemma {:induction false} ShownFlagsAt(list: seq<MangaEntry>, status: string, search: string)
    ensures forall k | 0 <= k < |list| :: ShownFlags(list, status, search)[k] == Shown(list[k], status, search)
  {
    if list != [] {
      var init := list[..|list| - 1];
      ShownFlagsAt(init, status, search);
      assert forall k | 0 <= k < |init| :: list[k] == init[k];
    }
  }

  /** Filtered is the selection of the entries by their flags. */
  lemma {:induction false} FilteredIsSelect(list: seq<MangaEntry>, status: string, search: string)
    ensures Filtered(list, status, search) == Select(list, ShownFlags(list, status, search))
  {
    if list != [] {
      var init := list[..|list| - 1];
      FilteredIsSelect(init, status, search);
      var fl := ShownFlags(list, status, search);
      assert fl[..|fl| - 1] == ShownFlags(init, status, search);
    }
  }

  /** The filter keeps list order: it picks the entries at the passing positions, in increasing order. */
  lemma FilteredIsSubsequence(list: seq<MangaEntry>, status: string, search: string)
    ensures var f, ps := Filtered(list, status, search), ShownPositions(list, status, search);
            |ps| == |f| &&
            (forall j, j' | 0 <= j < j' < |ps| :: ps[j] < ps[j']) &&
            (forall j | 0 <= j < |f| :: f[j] == list[ps[j]]) &&
            (forall k | 0 <= k < |list| :: Shown(list[k], status, search) <==> k in ps)
  {
    var fl := ShownFlags(list, status, search);
    FilteredIsSelect(list, status, search);
    PositionsSound(fl);
    SelectAtPositions(list, fl);
    ShownFlagsAt(list, status, search);
    var ps := ShownPositions(list, status, search);
    assert ps == Positions(fl);
    forall k | 0 <= k < |list| ensures Shown(list[k], status, search) <==> k in ps {
      assert fl[k] == Shown(list[k], status, search);
    }
  }

  /** The filter never lengthens the list, and it keeps the whole list exactly when every entry passes. */
  lemma FilteredKeepsAll(list: seq<MangaEntry>, status: string, search: string)
    ensures |Filtered(list, status, search)| <= |list|
    ensures Filtered(list, status, search) == list <==> forall k | 0 <= k < |list| :: Shown(list[k], status, search)
  {
    var fl := ShownFlags(list, status, search);
    FilteredIsSelect(list, status, search);
    SelectAll(list, fl);
    ShownFlagsAt(list, status, search);
    assert (forall k | 0 <= k < |fl| :: fl[k]) <==> (forall k | 0 <= k < |list| :: Shown(list[k], status, search));
  }

  /** On the "All" tab without search text every entry is listed. */
  lemma AllTabShowsEverything(list: seq<MangaEntry>, search: string)
    requires IsBlank(search)
    ensures Filtered(list, "All", search) == list
  {
    assert EqIgnoreCase("All", "All");
    assert IsBlank(Lower(search));
    FilteredKeepsAll(list, "All", search);
  }

  /** The entries' views, for stating what the scan does. */
  function Views(es: seq<MangaEntry>): (r: seq<EntryView>)
    reads set m | m in es
    ensures |r| == |es|
    ensures forall k | 0 <= k < |es| :: r[k] == es[k].View()
  {
    if es == [] then [] else Views(es[..|es| - 1]) + [es[|es| - 1].View()]
  }

  /** The outcome of scanning each entry. */
  function Outcomes(vs: seq<EntryView>, store: HostStrategyStore, net: Network, parse: string -> Document,
                    engine: RegexEngine): (os: seq<ScanOutcome>)
    reads store
    ensures |os| == |vs|
  {
    if vs == [] then []
    else Outcomes(vs[..|vs| - 1], store, net, parse, engine) + [ScanOf(vs[|vs| - 1], store, net, parse, engine)]
  }

  lemma {:induction false} OutcomeAt(vs: seq<EntryView>, k: nat, store: HostStrategyStore, net: Network,
                                     parse: string -> Document, engine: RegexEngine)
    requires k < |vs|
    ensures Outcomes(vs, store, net, parse, engine)[k] == ScanOf(vs[k], store, net, parse, engine)
  {
    if k < |vs| - 1 {
      OutcomeAt(vs[..|vs| - 1], k, store, net, parse, engine);
    }
  }

  /** The titles of the entries whose outcome is reported, in list order. */
  function TitlesOf(vs: seq<EntryView>, os: seq<ScanOutcome>): seq<string>
    requires |os| == |vs|
  {
    if vs == [] then []
    else
      var prev := TitlesOf(vs[..|vs| - 1], os[..|os| - 1]);
      if Reported(vs[|vs| - 1], os[|os| - 1]) then prev + [vs[|vs| - 1].title] else prev
  }

  /** Extending the scanned prefix by one entry appends its title exactly when it is reported. */
  lemma TitlesOfSnoc(vs: seq<EntryView>, os: seq<ScanOutcome>, i: nat)
    requires i < |vs| == |os|
    ensures TitlesOf(vs[..i + 1], os[..i + 1]) ==
            TitlesOf(vs[..i], os[..i]) + (if Reported(vs[i], os[i]) then [vs[i].title] else [])
  {
    assert vs[..i + 1][..i] == vs[..i] && os[..i + 1][..i] == os[..i];
  }

  /** The titles the scan reports, in list order. */
  function ReportedTitles(vs: seq<EntryView>, store: HostStrategyStore, net: Network, parse: string -> Document,
                          engine: RegexEngine): seq<string>
    reads store
  {
    TitlesOf(vs, Outcomes(vs, store, net, parse, engine))
  }

  predicate DistinctEntries(es: seq<MangaEntry>)
  {
    forall i, j | 0 <= i < j < |es| :: es[i] != es[j]
  }

  /** The entries before position i are scanned, the others are as they were. */
  ghost predicate ScannedUpTo(entries: seq<MangaEntry>, v0: seq<EntryView>, outcomes: seq<ScanOutcome>, i: nat)
    reads set m | m in entries
  {
    |v0| == |entries| == |outcomes| && i <= |entries| &&
    (forall k | 0 <= k < i :: entries[k].View() == Applied(v0[k], outcomes[k])) &&
    (forall k | i <= k < |entries| :: entries[k].View() == v0[k])
  }

  /** One turn of the scan loop: entry i is scanned and its title reported if it qualifies. */
  method ScanNext(entries: seq<MangaEntry>, i: nat, ghost v0: seq<EntryView>, ghost outcomes: seq<ScanOutcome>,
                  titles: seq<string>, store: HostStrategyStore, net: Network, parse: string -> Document,
                  engine: RegexEngine)
    returns (titles': seq<string>)
    requires DistinctEntries(entries) && i < |entries|
    requires outcomes == Outcomes(v0, store, net, parse, engine)
    requires ScannedUpTo(entries, v0, outcomes, i)
    requires titles == TitlesOf(v0[..i], outcomes[..i])
    modifies entries[i]
    ensures ScannedUpTo(entries, v0, outcomes, i + 1)
    ensures titles' == TitlesOf(v0[..i + 1], outcomes[..i + 1])
  {
    var m := entries[i];
    var title := m.title;
    OutcomeAt(v0, i, store, net, parse, engine);
    label before:
    var reported := ScanEntry(m, store, net, parse, engine);
    forall k | 0 <= k < |entries| && k != i
      ensures entries[k].View() == old@before(entries[k].View())
    {
      assert entries[k] != m;
    }
    TitlesOfSnoc(v0, outcomes, i);
    titles' := titles;
    if reported {
      titles' := titles + [title];
    }
  }

  /** The loop of CheckForAllUpdatesAsync over a snapshot of the list: every entry scanned once, in order. */
  method ScanAll(entries: seq<MangaEntry>, store: HostStrategyStore, net: Network, parse: string -> Document,
                 engine: RegexEngine)
    returns (titles: seq<string>)
    requires DistinctEntries(entries)
    modifies set m | m in entries
    ensures forall k | 0 <= k < |entries| ::
              entries[k].View() == Applied(old(entries[k].View()), ScanOf(old(entries[k].View()), store, net, parse, engine))
    ensures titles == ReportedTitles(old(Views(entries)), store, net, parse, engine)
  {
    ghost var v0 := Views(entries);
    ghost var outcomes := Outcomes(v0, store, net, parse, engine);
    titles := [];
    for i := 0 to |entries|
      invariant ScannedUpTo(entries, v0, outcomes, i)
      invariant titles == TitlesOf(v0[..i], outcomes[..i])
    {
      titles := ScanNext(entries, i, v0, outcomes, titles, store, net, parse, engine);
    }
    assert v0[..|entries|] == v0 && outcomes[..|entries|] == outcomes;
    forall k | 0 <= k < |entries| ensures outcomes[k] == ScanOf(v0[k], store, net, parse, engine) {
      OutcomeAt(v0, k, store, net, parse, engine);
    }
  }

  class MainWindow {
    var all: seq<MangaEntry>
    var items: seq<MangaEntry>
    /** _deletedStack; its top is the last element. */
    var deleted: seq<(MangaEntry, int)>
    var statusFilter: string
    var searchText: string
    /** How often SaveMangaList has run. */
    ghost var saves: nat

    constructor ()
      ensures all == [] && items == [] && deleted == []
      ensures statusFilter == "All" && searchText == "" && saves == 0
    {
      all := [];
      items := [];
      deleted := [];
      statusFilter := "All";
      searchText := "";
      saves := 0;
    }

    /** ApplyFilter: MangaListItems cleared and refilled with the entries that pass the filter. */
    method ApplyFilter()
      modifies this
      ensures items == Filtered(all, statusFilter, searchText)
      ensures all == old(all) && deleted == old(deleted) && saves == old(saves)
      ensures statusFilter == old(statusFilter) && searchText == old(searchText)
    {
      var text := Lower(searchText);
      var filtered: seq<MangaEntry> := [];
      for i := 0 to |all|
        invariant filtered == Filtered(all[..i], statusFilter, searchText)
      {
        assert all[..i + 1][..i] == all[..i];
        var m := all[i];
        var statusOk := EqIgnoreCase(statusFilter, "All") || EqIgnoreCase(m.status, statusFilter);
        var textOk := IsBlank(text) || Contains(Lower(m.title), text);
        if statusOk && textOk {
          filtered := filtered + [m];
        }
      }
      assert all[..|all|] == all;
      items := filtered;
    }

    /** DeleteInline_Click: remember the entry and its position, remove it, refresh and save. */
    method DeleteInline(m: MangaEntry)
      modifies this
      ensures statusFilter == old(statusFilter) && searchText == old(searchText)
      ensures m in old(all) ==>
                var i := IndexOfEntry(old(all), m);
                all == RemoveAt(old(all), i) && deleted == old(deleted) + [(m, i)] &&
                items == Filtered(all, statusFilter, searchText) && saves == old(saves) + 1
      ensures m !in old(all) ==>
                all == old(all) && deleted == old(deleted) && items == old(items) && saves == old(saves)
    {
      var index := IndexOfEntry(all, m);
      if index >= 0 {
        var rest := RemoveAt(all, index);
        deleted := deleted + [(m, index)];
        all := rest;
        ApplyFilter();
        saves := saves + 1;
      }
    }

    /**
     * UndoDelete_Click: pop the last deletion and insert the entry at its old
     * position, or at the end when that position no longer exists.
     */
    method UndoDelete()
      modifies this
      ensures statusFilter == old(statusFilter) && searchText == old(searchText)
      ensures old(deleted) == [] ==>
                all == old(all) && deleted == old(deleted) && items == old(items) && saves == old(saves)
      ensures old(deleted) != [] ==>
                var (item, index) := old(deleted)[|old(deleted)| - 1];
                all == InsertAt(old(all), ClampIndex(index, |old(all)|), item) &&
                deleted == old(deleted)[..|old(deleted)| - 1] &&
                items == Filtered(all, statusFilter, searchText) && saves == old(saves) + 1
    {
      if |deleted| > 0 {
        var (item, index) := deleted[|deleted| - 1];
        deleted := deleted[..|deleted| - 1];
        if index < 0 || index > |all| {
          index := |all|;
        }
        all := InsertAt(all, index, item);
        ApplyFilter();
        saves := saves + 1;
      }
    }

    /** ChapterUp_Click: Chapter++ (wrapping like C# int) and save. */
    method ChapterUp(m: MangaEntry)
      modifies this, m
      ensures m.View() == old(m.View()).(chapter := Wrap32(old(m.chapter) as int + 1))
      ensures all == old(all) && items == old(items) && deleted == old(deleted) && saves == old(saves) + 1
      ensures statusFilter == old(statusFilter) && searchText == old(searchText)
    {
      var _ := m.SetChapter(Wrap32(m.chapter as int + 1));
      saves := saves + 1;
    }

    /** ChapterDown_Click: Chapter-- only above 1, so it never goes below 1 from there. */
    method ChapterDown(m: MangaEntry)
      modifies this, m
      ensures old(m.chapter) > 1 ==> m.View() == old(m.View()).(chapter := old(m.chapter) - 1) && saves == old(saves) + 1
      ensures old(m.chapter) <= 1 ==> m.View() == old(m.View()) && saves == old(saves)
      ensures m.chapter >= 1 || m.chapter == old(m.chapter)
      ensures all == old(all) && items == old(items) && deleted == old(deleted)
      ensures statusFilter == old(statusFilter) && searchText == old(searchText)
    {
      if m.chapter > 1 {
        var _ := m.SetChapter(m.chapter - 1);
        saves := saves + 1;
      }
    }

    /**
     * CheckForAllUpdatesAsync: scan every entry in list order, collect the
     * titles with news, and save once when there are any.
     */
    method CheckForAllUpdates(store: HostStrategyStore, net: Network, parse: string -> Document, engine: RegexEngine)
      returns (titles: seq<string>)
      requires DistinctEntries(all)
      modifies this, set m | m in all
      ensures all == old(all) && items == old(items) && deleted == old(deleted)
      ensures statusFilter == old(statusFilter) && searchText == old(searchText)
      ensures forall k | 0 <= k < |all| ::
                all[k].View() == Applied(old(all[k].View()), ScanOf(old(all[k].View()), store, net, parse, engine))
      ensures titles == ReportedTitles(old(Views(all)), store, net, parse, engine)
      ensures saves == old(saves) + (if titles != [] then 1 else 0)
    {
      titles := ScanAll(all, store, net, parse, engine);
      if |titles| > 0 {
        saves := saves + 1;
      }
    }
  }
}
