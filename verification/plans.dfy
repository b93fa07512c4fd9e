/** Reading-plan construction: the sequential plan (every catalog chapter in
    order, three a day, each day's chapters grouped into runs), the length of
    a custom plan, and the clamp that picks today's day number. The database
    rows are represented by the values that would be inserted. */
module Plans {
  import opened Books
  import opened McCheyne
  import TextUtil

  /** A stored plan entry: a reading section on one day of a plan. */
  datatype PlanEntry = PlanEntry(dayNumber: int, bookCode: string, chapterStart: int, chapterEnd: int, completed: bool)

  // ---------------------------------------------------------------------
  // The chapter list

  /** The chapters a book contributes: 1 up to its chapter count, none when
      the count is below 1. */
  function BookRun(b: BookInfo): seq<ChapterRef> {
    ChapterRun(b.code, if b.chapterCount < 0 then 0 else b.chapterCount)
  }

  /** The chapters of `books`, book by book. */
  function ChaptersOf(books: seq<BookInfo>): seq<ChapterRef> {
    if books == [] then [] else BookRun(books[0]) + ChaptersOf(books[1..])
  }

  function CatalogChapters(): seq<ChapterRef> {
    ChaptersOf(AllBooks())
  }

  /** The nested loop of `CreateSequentialPlan` that lists every chapter of
      every book, in order. */
  method CollectChapters(books: seq<BookInfo>) returns (chapters: seq<ChapterRef>)
    ensures chapters == ChaptersOf(books)
  {
    chapters := [];
    assert books[0..] == books;
    for k := 0 to |books|
      invariant chapters + ChaptersOf(books[k..]) == ChaptersOf(books)
    {
      var b := books[k];
      var before := chapters;
      chapters := AppendChapterRun(chapters, b.code, if b.chapterCount < 0 then 0 else b.chapterCount);
      assert books[k..][1..] == books[k + 1..];
      assert ChaptersOf(books[k..]) == BookRun(b) + ChaptersOf(books[k + 1..]);
      TextUtil.AppendAssoc(before, BookRun(b), ChaptersOf(books[k + 1..]));
    }
  }

  // ---------------------------------------------------------------------
  // Days

  /** The number of days: the chapter count divided by three, rounded up. */
  function TotalDays(n: nat): (r: nat)
    ensures 3 * r >= n
    ensures r > 0 ==> 3 * (r - 1) < n
  {
    (n + 3 - 1) / 3
  }

  /** How many of `n` chapters the first `k` days read: three a day, the
      last day possibly fewer. */
  function Covered(k: nat, n: nat): nat {
    if 3 * k > n then n else 3 * k
  }

  /** The chapters read on day `d` (0-based). */
  function DayChapters(chs: seq<ChapterRef>, d: nat): (r: seq<ChapterRef>)
    requires d < TotalDays(|chs|)
    ensures 1 <= |r| <= 3
  {
    chs[3 * d..Covered(d + 1, |chs|)]
  }

  /** The first `k` days of the sequential plan of a chapter list: day by
      day, that day's chapters grouped into runs. */
  function PlanUpTo(chs: seq<ChapterRef>, k: nat): (r: seq<seq<Entry>>)
    requires k <= TotalDays(|chs|)
    ensures |r| == k
    ensures forall d :: 0 <= d < k ==> r[d] == Grouped(DayChapters(chs, d))
  {
    if k == 0 then [] else PlanUpTo(chs, k - 1) + [Grouped(DayChapters(chs, k - 1))]
  }

  function Plan(chs: seq<ChapterRef>): seq<seq<Entry>> {
    PlanUpTo(chs, TotalDays(|chs|))
  }

  /** The grouping loop of one day over that day's chapters: a running
      current entry, with the empty book code standing for "none yet"; a
      chapter that continues the current entry extends it, any other closes
      it and opens a new one, and the final entry is emitted after the loop. */
  method GroupDay(day: seq<ChapterRef>) returns (entries: seq<Entry>)
    requires forall k :: 0 <= k < |day| ==> day[k].bookCode != ""
    ensures entries == Grouped(day)
  {
    entries := [];
    var curBook, curStart, curEnd := "", 0, 0;
    for i := 0 to |day|
      invariant curBook == "" <==> i == 0
      invariant curBook == "" ==> entries == []
      invariant Pending(entries, curBook, curStart, curEnd) == Grouped(day[..i])
    {
      var ref := day[i];
      GroupedPrefixStep(day, i);
      PendingStep(entries, curBook, curStart, curEnd, ref);
      if ref.bookCode == curBook && ref.chapter == curEnd + 1 {
        curEnd := ref.chapter;
      } else {
        if curBook != "" {
          entries := entries + [Entry(curBook, curStart, curEnd)];
        }
        curBook, curStart, curEnd := ref.bookCode, ref.chapter, ref.chapter;
      }
    }
    if curBook != "" {
      entries := entries + [Entry(curBook, curStart, curEnd)];
    }
    assert day[..|day|] == day;
  }

  /** The entries so far together with the open run, if there is one. */
  function Pending(entries: seq<Entry>, curBook: string, curStart: int, curEnd: int): seq<Entry> {
    if curBook == "" then entries else entries + [Entry(curBook, curStart, curEnd)]
  }

  /** One step of the grouping loop on the pending entries: a continuing
      chapter extends the open run; any other closes it (the entries become
      the pending ones) and opens a run of its own. */
  lemma PendingStep(entries: seq<Entry>, curBook: string, curStart: int, curEnd: int, x: ChapterRef)
    requires x.bookCode != "" && (curBook == "" ==> entries == [])
    ensures var p := Pending(entries, curBook, curStart, curEnd);
      && (x.bookCode == curBook && x.chapter == curEnd + 1 ==>
            AddChapter(p, x) == Pending(entries, curBook, curStart, x.chapter))
      && (!(x.bookCode == curBook && x.chapter == curEnd + 1) ==>
            AddChapter(p, x) == Pending(p, x.bookCode, x.chapter, x.chapter))
  {
    if curBook != "" {
      RunStep(entries, Entry(curBook, curStart, curEnd), x);
    }
  }

  lemma {:induction false} CodesOf(books: seq<BookInfo>)
    requires forall j :: 0 <= j < |books| ==> books[j].code != ""
    ensures forall j :: 0 <= j < |ChaptersOf(books)| ==> ChaptersOf(books)[j].bookCode != ""
  {
    if books != [] {
      CodesOf(books[1..]);
    }
  }

  lemma CatalogCodes()
    ensures forall j :: 0 <= j < |CatalogChapters()| ==> CatalogChapters()[j].bookCode != ""
  {
    CatalogNonEmpty();
    CodesOf(AllBooks());
  }

  /** The day loop of `CreateSequentialPlan`: day `d` (0-based) takes
      chapters `3d` up to `3d + 3`, or to the end of the list, and groups
      them. */
  method SplitIntoDays(chapters: seq<ChapterRef>) returns (totalDays: nat, days: seq<seq<Entry>>)
    requires forall j :: 0 <= j < |chapters| ==> chapters[j].bookCode != ""
    ensures totalDays == |days| && days == Plan(chapters)
  {
    totalDays := (|chapters| + 3 - 1) / 3;
    days := [];
    for day := 0 to totalDays
      invariant days == PlanUpTo(chapters, day)
    {
      var start := day * 3;
      var end := start + 3;
      if end > |chapters| {
        end := |chapters|;
      }
      assert end == Covered(day + 1, |chapters|);
      var entries := GroupDay(chapters[start..end]);
      days := days + [entries];
    }
  }

  /** `CreateSequentialPlan`: the plan's day count and, day by day, the
      entries it inserts (day `d` of the result is day number `d + 1`). */
  method CreateSequentialPlan() returns (totalDays: nat, days: seq<seq<Entry>>)
    ensures totalDays == |days| && days == Plan(CatalogChapters())
  {
    var chapters := CollectChapters(AllBooks());
    assert chapters == CatalogChapters();
    CatalogCodes();
    totalDays, days := SplitIntoDays(chapters);
  }

  // ---------------------------------------------------------------------
  // Properties of the sequential plan

  /** Every chapter read over the plan, day after day. */
  function Readings(days: seq<seq<Entry>>): seq<ChapterRef> {
    if days == [] then [] else Readings(days[..|days| - 1]) + Flatten(days[|days| - 1])
  }

  /** Day `k - 1`'s entries read exactly that day's chapters. */
  lemma ReadingsStep(chs: seq<ChapterRef>, k: nat)
    requires 0 < k <= TotalDays(|chs|)
    ensures Readings(PlanUpTo(chs, k)) == Readings(PlanUpTo(chs, k - 1)) + DayChapters(chs, k - 1)
  {
    var p := PlanUpTo(chs, k);
    assert p[..k - 1] == PlanUpTo(chs, k - 1);
    GroupedFlatten(DayChapters(chs, k - 1));
  }

  lemma {:induction false} ReadingsPrefix(chs: seq<ChapterRef>, k: nat)
    requires k <= TotalDays(|chs|)
    ensures Readings(PlanUpTo(chs, k)) == chs[..Covered(k, |chs|)]
  {
    if k > 0 {
      ReadingsPrefix(chs, k - 1);
      ReadingsStep(chs, k);
      SliceConcat(chs, Covered(k - 1, |chs|), Covered(k, |chs|));
    }
  }

  /** The days partition the chapter list: read one after another, they
      give every chapter exactly once, in order. */
  lemma PlanPartition(chs: seq<ChapterRef>)
    ensures Readings(Plan(chs)) == chs
  {
    ReadingsPrefix(chs, TotalDays(|chs|));
    assert chs[..|chs|] == chs;
  }

  /** Day `d` reads exactly its three (or, on the last day, fewer) chapters,
      in well-formed, maximally merged entries; so it has at least one. */
  lemma PlanDay(chs: seq<ChapterRef>, d: nat)
    requires d < TotalDays(|chs|)
    ensures Flatten(Plan(chs)[d]) == DayChapters(chs, d)
    ensures 1 <= |Plan(chs)[d]| <= 3
    ensures WellFormedEntries(Plan(chs)[d]) && MaximallyMerged(Plan(chs)[d])
  {
    var day := DayChapters(chs, d);
    GroupedFlatten(day);
    GroupedWellFormed(day);
    GroupedMaximal(day);
    GroupedAtMost(day);
  }

  /** Grouping never yields more entries than chapters. */
  lemma {:induction false} GroupedAtMost(refs: seq<ChapterRef>)
    ensures |Grouped(refs)| <= |refs|
  {
    if refs != [] {
      GroupedAtMost(refs[..|refs| - 1]);
    }
  }

  // ---------------------------------------------------------------------
  // The catalog plan

  /** Consecutive chapters 1..n of one book group into a single entry. */
  lemma {:induction false} GroupedRun(code: string, n: nat)
    requires n >= 1
    ensures Grouped(ChapterRun(code, n)) == [Entry(code, 1, n)]
  {
    var run := ChapterRun(code, n);
    if n > 1 {
      GroupedRun(code, n - 1);
      assert run[..n - 1] == ChapterRun(code, n - 1);
      RunStep([], Entry(code, 1, n - 1), run[n - 1]);
    }
  }

  /** The plan opens with Genesis 1-3 as a single entry. */
  lemma CatalogPlanStart()
    ensures Plan(CatalogChapters())[0] == [Entry("gen", 1, 3)]
  {
    var chs := CatalogChapters();
    var books := AllBooks();
    assert books[0] == BookInfo("gen", "창세기", "창", "old", 50);
    assert chs == ChapterRun("gen", 50) + ChaptersOf(books[1..]);
    var day := DayChapters(chs, 0);
    assert day == ChapterRun("gen", 3);
    GroupedRun("gen", 3);
  }

  // ---------------------------------------------------------------------
  // The length of the sequential plan

  /** The chapter list of catalog books `i` to the last is as long as their
      chapter counts add up to. */
  lemma {:induction false} SuffixLength(i: nat)
    requires i <= 66
    ensures |ChaptersOf(AllBooks()[i..])| == SuffixChapters(i)
    decreases 66 - i
  {
    var books := AllBooks();
    if i < 66 {
      SuffixLength(i + 1);
      CountsMatchCatalog();
      assert books[i..][1..] == books[i + 1..];
      assert |BookRun(books[i])| == ChapterCountAt(i);
    }
  }

  /** The catalog has 1189 chapters, so the sequential plan runs 397 days,
      more than 300. */
  lemma CatalogPlanLength()
    ensures |CatalogChapters()| == 1189
    ensures TotalDays(|CatalogChapters()|) == 397 > 300
    ensures |Plan(CatalogChapters())| == 397
  {
    ChaptersFrom0();
    SuffixLength(0);
    assert AllBooks()[0..] == AllBooks();
  }

  // ---------------------------------------------------------------------
  // Custom plans and today's day

  /** `CreateCustomPlan`'s running maximum: the largest day number among the
      entries, and 0 when there are none or all are below 1. */
  method MaxDay(entries: seq<PlanEntry>) returns (maxDay: int)
    ensures maxDay >= 0
    ensures forall k :: 0 <= k < |entries| ==> entries[k].dayNumber <= maxDay
    ensures maxDay == 0 || exists k :: 0 <= k < |entries| && entries[k].dayNumber == maxDay
  {
    maxDay := 0;
    for i := 0 to |entries|
      invariant maxDay >= 0
      invariant forall k :: 0 <= k < i ==> entries[k].dayNumber <= maxDay
      invariant maxDay == 0 || exists k :: 0 <= k < i && entries[k].dayNumber == maxDay
    {
      if entries[i].dayNumber > maxDay {
        maxDay := entries[i].dayNumber;
      }
    }
  }

  /** `GetTodayEntries`' day number: the whole days elapsed since the plan
      was created, plus one, raised to at least 1 and then lowered to at most
      the plan's day count. */
  method TodayDayNumber(elapsedDays: int, totalDays: int) returns (dayNumber: int)
    ensures totalDays >= 1 ==> 1 <= dayNumber <= totalDays
    ensures 1 <= elapsedDays + 1 <= totalDays ==> dayNumber == elapsedDays + 1
    ensures elapsedDays + 1 > totalDays ==> dayNumber == totalDays
    ensures elapsedDays + 1 < 1 && totalDays >= 1 ==> dayNumber == 1
  {
    dayNumber := elapsedDays + 1;
    if dayNumber < 1 {
      dayNumber := 1;
    }
    if dayNumber > totalDays {
      dayNumber := totalDays;
    }
  }
}
