/**
 * A tracked series (MangaEntry). Every observable property goes through
 * SetField: an assignment of an equal value is ignored, any other one stores
 * the value and raises PropertyChanged with the property's name.
 */
module Entry {
  import opened Text

  /** A C# int. */
  newtype int32 = x: int | -0x8000_0000 <= x < 0x8000_0000

  const MaxInt32: int32 := 0x7fff_ffff
  const MinInt32: int32 := -0x8000_0000

  /** C# int addition without overflow checks. */
  function Wrap32(x: int): (r: int32)
    ensures MinInt32 as int <= x <= MaxInt32 as int ==> r as int == x
    ensures (r as int - x) % 0x1_0000_0000 == 0
  {
    var m := (x - MinInt32 as int) % 0x1_0000_0000;
    (m + MinInt32 as int) as int32
  }

  /** The outcome of SetField: the field's new value and whether it changed. */
  datatype Assignment<T> = Assignment(value: T, changed: bool)

  /** SetField: compare with the default equality, assign, report a change. */
  function SetField<T(==)>(field: T, value: T): (r: Assignment<T>)
    ensures r.value == value
    ensures r.changed <==> field != value
  {
    if field == value then Assignment(field, false) else Assignment(value, true)
  }

  /** Setting a property to the value it just received raises nothing. */
  lemma SetFieldTwice<T>(field: T, value: T)
    ensures !SetField(SetField(field, value).value, value).changed
  {
  }

  /** The names PropertyChanged carries for a set of changes. */
  function Notified(changed: bool, name: string): seq<string>
  {
    if changed then [name] else []
  }

  /** The state of an entry as one value. */
  datatype EntryView = EntryView(
    title: string,
    chapter: int32,
    status: string,
    url: string,
    chapterUrlTemplate: string,
    hasNewChapter: bool,
    latestChapterXPath: Option<string>,
    chapterNumberRegex: Option<string>)

  class MangaEntry {
    var title: string
    var chapter: int32
    var status: string
    var url: string
    var chapterUrlTemplate: string
    var hasNewChapter: bool
    var latestChapterXPath: Option<string>
    var chapterNumberRegex: Option<string>
    /** The property names PropertyChanged has been raised with, in order. */
    ghost var notified: seq<string>

    function View(): EntryView
      reads this
    {
      EntryView(title, chapter, status, url, chapterUrlTemplate, hasNewChapter,
                latestChapterXPath, chapterNumberRegex)
    }

    constructor ()
      ensures View() == EntryView("", 0, "", "", "", false, None, None)
      ensures notified == []
    {
      title := "";
      chapter := 0;
      status := "";
      url := "";
      chapterUrlTemplate := "";
      hasNewChapter := false;
      latestChapterXPath := None;
      chapterNumberRegex := None;
      notified := [];
    }

    method SetTitle(value: string) returns (changed: bool)
      modifies this
      ensures changed <==> old(title) != value
      ensures View() == old(View()).(title := value)
      ensures notified == old(notified) + Notified(changed, "Title")
    {
      var a := SetField(title, value);
      title := a.value;
      changed := a.changed;
      notified := notified + Notified(changed, "Title");
    }

    method SetChapter(value: int32) returns (changed: bool)
      modifies this
      ensures changed <==> old(chapter) != value
      ensures View() == old(View()).(chapter := value)
      ensures notified == old(notified) + Notified(changed, "Chapter")
    {
      var a := SetField(chapter, value);
      chapter := a.value;
      changed := a.changed;
      notified := notified + Notified(changed, "Chapter");
    }

    method SetStatus(value: string) returns (changed: bool)
      modifies this
      ensures changed <==> old(status) != value
      ensures View() == old(View()).(status := value)
      ensures notified == old(notified) + Notified(changed, "Status")
    {
      var a := SetField(status, value);
      status := a.value;
      changed := a.changed;
      notified := notified + Notified(changed, "Status");
    }

    method SetUrl(value: string) returns (changed: bool)
      modifies this
      ensures changed <==> old(url) != value
      ensures View() == old(View()).(url := value)
      ensures notified == old(notified) + Notified(changed, "Url")
    {
      var a := SetField(url, value);
      url := a.value;
      changed := a.changed;
      notified := notified + Notified(changed, "Url");
    }

    method SetChapterUrlTemplate(value: string) returns (changed: bool)
      modifies this
      ensures changed <==> old(chapterUrlTemplate) != value
      ensures View() == old(View()).(chapterUrlTemplate := value)
      ensures notified == old(notified) + Notified(changed, "ChapterUrlTemplate")
    {
      var a := SetField(chapterUrlTemplate, value);
      chapterUrlTemplate := a.value;
      changed := a.changed;
      notified := notified + Notified(changed, "ChapterUrlTemplate");
    }

    method SetHasNewChapter(value: bool) returns (changed: bool)
      modifies this
      ensures changed <==> old(hasNewChapter) != value
      ensures View() == old(View()).(hasNewChapter := value)
      ensures notified == old(notified) + Notified(changed, "HasNewChapter")
    {
      var a := SetField(hasNewChapter, value);
      hasNewChapter := a.value;
      changed := a.changed;
      notified := notified + Notified(changed, "HasNewChapter");
    }

    /** LatestChapterXPath and ChapterNumberRegex are plain auto-properties: no notification. */
    method SetLatestChapterXPath(value: Option<string>)
      modifies this
      ensures View() == old(View()).(latestChapterXPath := value)
      ensures notified == old(notified)
    {
      latestChapterXPath := value;
    }

    method SetChapterNumberRegex(value: Option<string>)
      modifies this
      ensures View() == old(View()).(chapterNumberRegex := value)
      ensures notified == old(notified)
    {
      chapterNumberRegex := value;
    }
  }
}
