/** The M'Cheyne reading calendar: four parallel tracks of books, each track's
    chapters spread evenly over 365 days, with the chapters a track gives one
    day grouped into runs of consecutive chapters of one book. */
module McCheyne {
  import opened Wrappers
  import opened TextUtil
  import opened Books

  /** One chapter of one book. */
  datatype ChapterRef = ChapterRef(bookCode: string, chapter: int)

  /** One reading section: chapters chapterStart..chapterEnd of one book. */
  datatype Entry = Entry(bookCode: string, chapterStart: int, chapterEnd: int)

  const DaysInYear: nat := 365

  /** The chapters an entry stands for, in order. */
  function Expand(e: Entry): (r: seq<ChapterRef>)
    ensures e.chapterStart <= e.chapterEnd ==> |r| == e.chapterEnd - e.chapterStart + 1
    ensures forall i :: 0 <= i < |r| ==> r[i] == ChapterRef(e.bookCode, e.chapterStart + i)
    decreases e.chapterEnd - e.chapterStart
  {
    if e.chapterEnd < e.chapterStart then []
    else Expand(e.(chapterEnd := e.chapterEnd - 1)) + [ChapterRef(e.bookCode, e.chapterEnd)]
  }

  /** The chapters a list of entries stands for, in order. */
  function Flatten(es: seq<Entry>): seq<ChapterRef> {
    if es == [] then [] else Flatten(es[..|es| - 1]) + Expand(es[|es| - 1])
  }

  /** `r` is the chapter right after the end of `e`, in the same book. */
  predicate Continues(e: Entry, r: ChapterRef) {
    r.bookCode == e.bookCode && r.chapter == e.chapterEnd + 1
  }

  /** One grouping step: the chapter extends the last entry when it continues
      it, and otherwise opens a new one-chapter entry. */
  function AddChapter(g: seq<Entry>, x: ChapterRef): (r: seq<Entry>)
    ensures r != []
  {
    if g != [] && Continues(g[|g| - 1], x) then g[..|g| - 1] + [g[|g| - 1].(chapterEnd := x.chapter)]
    else g + [Entry(x.bookCode, x.chapter, x.chapter)]
  }

  /** The grouping of a chapter list, one chapter at a time. */
  function Grouped(refs: seq<ChapterRef>): (r: seq<Entry>)
    ensures r == [] <==> refs == []
  {
    if refs == [] then [] else AddChapter(Grouped(refs[..|refs| - 1]), refs[|refs| - 1])
  }

  /** Grouping one more chapter of a list is one more grouping step. */
  lemma GroupedPrefixStep(refs: seq<ChapterRef>, i: nat)
    requires i < |refs|
    ensures Grouped(refs[..i + 1]) == AddChapter(Grouped(refs[..i]), refs[i])
  {
    assert refs[..i + 1][..i] == refs[..i];
  }

  /** One grouping step after a current entry `cur`: a continuing chapter
      extends it, any other opens a new entry after it. */
  lemma RunStep(entries: seq<Entry>, cur: Entry, x: ChapterRef)
    ensures Continues(cur, x) ==> AddChapter(entries + [cur], x) == entries + [cur.(chapterEnd := x.chapter)]
    ensures !Continues(cur, x) ==> AddChapter(entries + [cur], x) == entries + [cur] + [Entry(x.bookCode, x.chapter, x.chapter)]
  {
    var g := entries + [cur];
    assert g[..|g| - 1] == entries;
  }

  /** `groupChapterRefs`: merges consecutive chapters of one book into single
      entries, keeping a running current entry. */
  method GroupChapterRefs(refs: seq<ChapterRef>) returns (entries: seq<Entry>)
    ensures entries == Grouped(refs)
  {
    if |refs| == 0 {
      return [];
    }
    entries := [];
    var cur := Entry(refs[0].bookCode, refs[0].chapter, refs[0].chapter);
    assert refs[..1] == [refs[0]];
    var i := 1;
    while i < |refs|
      invariant 1 <= i <= |refs|
      invariant entries + [cur] == Grouped(refs[..i])
    {
      var r := refs[i];
      GroupedPrefixStep(refs, i);
      RunStep(entries, cur, r);
      if r.bookCode == cur.bookCode && r.chapter == cur.chapterEnd + 1 {
        cur := cur.(chapterEnd := r.chapter);
      } else {
        entries := entries + [cur];
        cur := Entry(r.bookCode, r.chapter, r.chapter);
      }
      i := i + 1;
    }
    assert refs[..i] == refs;
    entries := entries + [cur];
  }

  predicate WellFormedEntries(es: seq<Entry>) {
    forall k :: 0 <= k < |es| ==> es[k].chapterStart <= es[k].chapterEnd
  }

  /** Adjacent entries could not have been merged into one. */
  predicate MaximallyMerged(es: seq<Entry>) {
    forall k :: 0 <= k < |es| - 1 ==>
      !(es[k + 1].bookCode == es[k].bookCode && es[k + 1].chapterStart == es[k].chapterEnd + 1)
  }

  lemma FlattenAppend(es: seq<Entry>, e: Entry)
    ensures Flatten(es + [e]) == Flatten(es) + Expand(e)
  {
    assert (es + [e])[..|es|] == es;
  }

  /** A grouping step keeps every entry's start at most its end. */
  lemma AddChapterWellFormed(g: seq<Entry>, x: ChapterRef)
    requires WellFormedEntries(g)
    ensures WellFormedEntries(AddChapter(g, x))
  {
  }

  /** Every entry of a grouping has start ≤ end. */
  lemma {:induction false} GroupedWellFormed(refs: seq<ChapterRef>)
    ensures WellFormedEntries(Grouped(refs))
  {
    if refs != [] {
      GroupedWellFormed(refs[..|refs| - 1]);
      AddChapterWellFormed(Grouped(refs[..|refs| - 1]), refs[|refs| - 1]);
    }
  }

  /** Extending an entry by the chapter that continues it adds that chapter. */
  lemma ExpandExtend(e: Entry, x: ChapterRef)
    requires e.chapterStart <= e.chapterEnd && Continues(e, x)
    ensures Expand(e.(chapterEnd := x.chapter)) == Expand(e) + [x]
  {
  }

  /** A chapter that continues the last entry extends it. */
  lemma FlattenMerge(front: seq<Entry>, last: Entry, x: ChapterRef)
    requires Continues(last, x) && last.chapterStart <= last.chapterEnd
    ensures Flatten(front + [last.(chapterEnd := x.chapter)]) == Flatten(front + [last]) + [x]
  {
    FlattenAppend(front, last);
    FlattenAppend(front, last.(chapterEnd := x.chapter));
    ExpandExtend(last, x);
  }

  /** A grouping step adds exactly its chapter to the expansion. */
  lemma AddChapterFlatten(g: seq<Entry>, x: ChapterRef)
    requires WellFormedEntries(g)
    ensures Flatten(AddChapter(g, x)) == Flatten(g) + [x]
  {
    if g != [] && Continues(g[|g| - 1], x) {
      assert g[..|g| - 1] + [g[|g| - 1]] == g;
      FlattenMerge(g[..|g| - 1], g[|g| - 1], x);
    } else {
      var e := Entry(x.bookCode, x.chapter, x.chapter);
      FlattenAppend(g, e);
      assert Expand(e) == [x];
    }
  }

  /** A grouping expands back to exactly the chapters it was made from. */
  lemma {:induction false} GroupedFlatten(refs: seq<ChapterRef>)
    ensures Flatten(Grouped(refs)) == refs
  {
    if refs != [] {
      var init := refs[..|refs| - 1];
      InitLast(refs);
      GroupedFlatten(init);
      GroupedWellFormed(init);
      AddChapterFlatten(Grouped(init), refs[|refs| - 1]);
    }
  }

  /** A grouping step never creates two adjacent entries that continue one
      another. */
  lemma AddChapterMaximal(g: seq<Entry>, x: ChapterRef)
    requires MaximallyMerged(g) && WellFormedEntries(g)
    ensures MaximallyMerged(AddChapter(g, x))
  {
  }

  /** No two adjacent entries of a grouping continue one another. */
  lemma {:induction false} GroupedMaximal(refs: seq<ChapterRef>)
    ensures MaximallyMerged(Grouped(refs))
  {
    if refs != [] {
      var init := refs[..|refs| - 1];
      GroupedMaximal(init);
      GroupedWellFormed(init);
      AddChapterMaximal(Grouped(init), refs[|refs| - 1]);
    }
  }

  /** The book codes of the four tracks, in reading order. */
  function TrackBooks(t: nat): seq<string>
    requires t < 4
  {
    match t
    // Family worship, morning: Genesis through Esther.
    case 0 => ["gen", "exo", "lev", "num", "deu", "jos", "jdg", "rut", "1sa", "2sa",
               "1ki", "2ki", "1ch", "2ch", "ezr", "neh", "est"]
    // Secret, morning: Acts through Revelation, then Job through Song of Songs.
    case 1 => ["act", "rom", "1co", "2co", "gal", "eph", "php", "col", "1th", "2th",
               "1ti", "2ti", "tit", "phm", "heb", "jas", "1pe", "2pe", "1jn", "2jn",
               "3jn", "jud", "rev", "job", "psa", "pro", "ecc", "sng"]
    // Family worship, evening: Matthew through John, then Isaiah through Malachi.
    case 2 => ["mat", "mrk", "luk", "jhn", "isa", "jer", "lam", "ezk", "dan", "hos",
               "jol", "amo", "oba", "jnh", "mic", "nam", "hab", "zep", "hag", "zec", "mal"]
    // Secret, evening: Psalms, then Romans through Revelation.
    case _ => ["psa", "rom", "1co", "2co", "gal", "eph", "php", "col", "1th", "2th",
               "1ti", "2ti", "tit", "phm", "heb", "jas", "1pe", "2pe", "1jn", "2jn",
               "3jn", "jud", "rev"]
  }

  /** Chapters 1..count of the book with this code. */
  function ChapterRun(code: string, count: nat): (r: seq<ChapterRef>)
    ensures |r| == count
    ensures forall i :: 0 <= i < count ==> r[i] == ChapterRef(code, i + 1)
  {
    seq(count, i => ChapterRef(code, i + 1))
  }

  /** Chapters 1..chapterCount of the book with this code, or none when the
      code is not in the catalog. */
  function BookChapters(code: string): (r: seq<ChapterRef>)
    ensures GetBookByCode(code).None? ==> r == []
    ensures GetBookByCode(code).Some? ==> |r| == GetBookByCode(code).value.chapterCount
    ensures forall i :: 0 <= i < |r| ==> r[i] == ChapterRef(code, i + 1)
  {
    match GetBookByCode(code)
    case None => []
    case Some(b) =>
      CatalogMember(b);
      ChapterRun(code, b.chapterCount)
  }

  /** A track's chapter list: its books' chapters, book after book. */
  function TrackChapters(codes: seq<string>): seq<ChapterRef> {
    if codes == [] then [] else TrackChapters(codes[..|codes| - 1]) + BookChapters(codes[|codes| - 1])
  }

  /** The chapters of all four tracks. */
  function AllTracks(): (r: seq<seq<ChapterRef>>)
    ensures |r| == 4 && forall t :: 0 <= t < 4 ==> r[t] == TrackChapters(TrackBooks(t))
  {
    seq(4, t requires 0 <= t < 4 => TrackChapters(TrackBooks(t)))
  }

  /** Day `d` reads the track's chapters [d*n/365, (d+1)*n/365). */
  function DayStart(d: nat, n: nat): nat {
    d * n / DaysInYear
  }

  lemma MulSucc(d: nat, n: nat)
    ensures (d + 1) * n == d * n + n
  {
  }

  lemma MulAtMost(d: nat, n: nat)
    requires d <= DaysInYear
    ensures d * n <= DaysInYear * n
  {
  }

  lemma DivMono(a: nat, b: nat)
    requires a <= b
    ensures a / DaysInYear <= b / DaysInYear
    ensures a + DaysInYear <= b ==> a / DaysInYear + 1 <= b / DaysInYear
  {
  }

  /** The day boundaries are ordered, end within the track, and are strictly
      increasing when the track has at least 365 chapters. */
  lemma DayBounds(d: nat, n: nat)
    requires d < DaysInYear
    ensures DayStart(d, n) <= DayStart(d + 1, n) <= n
    ensures n >= DaysInYear ==> DayStart(d, n) + 1 <= DayStart(d + 1, n)
  {
    MulSucc(d, n);
    MulAtMost(d + 1, n);
    DivMono(d * n, (d + 1) * n);
    DivMono((d + 1) * n, DaysInYear * n);
    assert DaysInYear * n / DaysInYear == n;
  }

  /** The whole year ends at the end of the track. */
  lemma YearEnd(n: nat)
    ensures DayStart(DaysInYear, n) == n
  {
  }

  /** The entries a track contributes to day `d`. */
  function TrackDay(chs: seq<ChapterRef>, d: nat): seq<Entry>
    requires d < DaysInYear
  {
    var n := |chs|;
    DayBounds(d, n);
    if n == 0 || DayStart(d, n) >= DayStart(d + 1, n) then []
    else Grouped(chs[DayStart(d, n)..DayStart(d + 1, n)])
  }

  /** A day's entries: those of each track in turn. */
  function DayFromTracks(tracks: seq<seq<ChapterRef>>, d: nat): seq<Entry>
    requires d < DaysInYear
  {
    if tracks == [] then []
    else DayFromTracks(tracks[..|tracks| - 1], d) + TrackDay(tracks[|tracks| - 1], d)
  }

  /** The full calendar. */
  function Schedule(): (r: seq<seq<Entry>>)
    ensures |r| == DaysInYear
  {
    seq(DaysInYear, d requires 0 <= d < DaysInYear => DayFromTracks(AllTracks(), d))
  }

  lemma InitLast<T>(s: seq<T>)
    requires s != []
    ensures s[..|s| - 1] + [s[|s| - 1]] == s
  {
  }

  lemma TakeSnoc<T>(s: seq<T>, i: nat)
    requires i < |s|
    ensures s[..i + 1] == s[..i] + [s[i]]
  {
  }

  /** Appends chapters 1..count of one book, one at a time. */
  method AppendChapterRun(chs: seq<ChapterRef>, code: string, count: nat) returns (chs': seq<ChapterRef>)
    ensures chs' == chs + ChapterRun(code, count)
  {
    chs' := chs;
    ghost var run := ChapterRun(code, count);
    var ch := 1;
    while ch <= count
      invariant 1 <= ch <= count + 1
      invariant chs' == chs + run[..ch - 1]
    {
      TakeSnoc(run, ch - 1);
      chs' := chs' + [ChapterRef(code, ch)];
      ch := ch + 1;
    }
    assert run[..count] == run;
  }

  /** Appends the chapters of the book with this code, or nothing when the
      code is not in the catalog. */
  method AppendBookChapters(chs: seq<ChapterRef>, code: string) returns (chs': seq<ChapterRef>)
    ensures chs' == chs + BookChapters(code)
  {
    match GetBookByCode(code) {
      case None =>
        chs' := chs;
      case Some(book) =>
        CatalogMember(book);
        chs' := AppendChapterRun(chs, code, book.chapterCount);
    }
  }

  /** The chapter list of one track: every chapter of every known book of the
      track, book after book; unknown codes are skipped. */
  method CollectTrackChapters(codes: seq<string>) returns (chs: seq<ChapterRef>)
    ensures chs == TrackChapters(codes)
  {
    chs := [];
    var k := 0;
    while k < |codes|
      invariant 0 <= k <= |codes|
      invariant chs == TrackChapters(codes[..k])
    {
      ghost var next := codes[..k + 1];
      assert next[..k] == codes[..k] && next[k] == codes[k];
      assert TrackChapters(next) == TrackChapters(codes[..k]) + BookChapters(codes[k]);
      chs := AppendBookChapters(chs, codes[k]);
      k := k + 1;
    }
    assert codes[..k] == codes;
  }

  /** Appends to every day the entries one track gives that day. */
  method AppendTrackDays(days: seq<seq<Entry>>, chs: seq<ChapterRef>) returns (days': seq<seq<Entry>>)
    requires |days| == DaysInYear
    ensures |days'| == DaysInYear
    ensures forall d :: 0 <= d < DaysInYear ==> days'[d] == days[d] + TrackDay(chs, d)
  {
    days' := days;
    var n := |chs|;
    if n == 0 {
      assert forall d :: 0 <= d < DaysInYear ==> TrackDay(chs, d) == [];
      return;
    }
    var day := 0;
    while day < DaysInYear
      invariant 0 <= day <= DaysInYear && |days'| == DaysInYear
      invariant forall d :: 0 <= d < day ==> days'[d] == days[d] + TrackDay(chs, d)
      invariant forall d :: day <= d < DaysInYear ==> days'[d] == days[d]
    {
      var startIdx := day * n / DaysInYear;
      var endIdx := (day + 1) * n / DaysInYear;
      DayBounds(day, n);
      if startIdx < endIdx {
        var entries := GroupChapterRefs(chs[startIdx..endIdx]);
        days' := days'[day := days'[day] + entries];
      } else {
        assert TrackDay(chs, day) == [];
      }
      day := day + 1;
    }
  }

  /** The chapter lists of the four tracks. */
  method CollectAllTracks() returns (tracks: seq<seq<ChapterRef>>)
    ensures tracks == AllTracks()
  {
    tracks := [];
    var t := 0;
    while t < 4
      invariant 0 <= t <= 4 && tracks == AllTracks()[..t]
    {
      var chs := CollectTrackChapters(TrackBooks(t));
      TakeSnoc(AllTracks(), t);
      tracks := tracks + [chs];
      t := t + 1;
    }
    assert AllTracks()[..4] == AllTracks();
  }

  /** Every day's entries: each track's share of the day, track after track. */
  method BuildDays(tracks: seq<seq<ChapterRef>>) returns (days: seq<seq<Entry>>)
    ensures |days| == DaysInYear
    ensures forall d :: 0 <= d < DaysInYear ==> days[d] == DayFromTracks(tracks, d)
  {
    days := seq(DaysInYear, _ => []);
    var t := 0;
    while t < |tracks|
      invariant 0 <= t <= |tracks| && |days| == DaysInYear
      invariant forall d :: 0 <= d < DaysInYear ==> days[d] == DayFromTracks(tracks[..t], d)
    {
      assert tracks[..t + 1][..t] == tracks[..t];
      days := AppendTrackDays(days, tracks[t]);
      t := t + 1;
    }
    assert tracks[..t] == tracks;
  }

  /** `McCheyneSchedule`: builds each track's chapter list, then appends each
      track's share of every day to that day. */
  method McCheyneSchedule() returns (days: seq<seq<Entry>>)
    ensures days == Schedule()
  {
    var tracks := CollectAllTracks();
    days := BuildDays(tracks);
  }

  /** The concatenation of a list of chapter lists. */
  function Concat(ss: seq<seq<ChapterRef>>): seq<ChapterRef> {
    if ss == [] then [] else Concat(ss[..|ss| - 1]) + ss[|ss| - 1]
  }

  /** The chapters track `chs` gives each day, day by day. */
  function TrackShares(chs: seq<ChapterRef>): (r: seq<seq<ChapterRef>>)
    ensures |r| == DaysInYear
  {
    seq(DaysInYear, d requires 0 <= d < DaysInYear => Flatten(TrackDay(chs, d)))
  }

  /** The boundaries between the days of a track of n chapters. */
  function Boundaries(n: nat): (r: seq<nat>)
    ensures |r| == DaysInYear + 1
  {
    seq(DaysInYear + 1, d requires 0 <= d <= DaysInYear => DayStart(d, n))
  }

  /** A day's entries from one track expand to that day's slice of the track. */
  lemma TrackDayFlatten(chs: seq<ChapterRef>, d: nat)
    requires d < DaysInYear
    ensures DayStart(d, |chs|) <= DayStart(d + 1, |chs|) <= |chs|
    ensures Flatten(TrackDay(chs, d)) == chs[DayStart(d, |chs|)..DayStart(d + 1, |chs|)]
  {
    var n := |chs|;
    DayBounds(d, n);
    var a, b := DayStart(d, n), DayStart(d + 1, n);
    if n == 0 || a >= b {
      assert TrackDay(chs, d) == [];
    } else {
      GroupedFlatten(chs[a..b]);
    }
  }

  lemma SliceConcat<T>(s: seq<T>, a: nat, b: nat)
    requires a <= b <= |s|
    ensures s[..a] + s[a..b] == s[..b]
  {
  }

  /** Share `d` is the slice of `chs` between boundaries `d` and `d + 1`. */
  predicate Cut(ss: seq<seq<ChapterRef>>, bs: seq<nat>, chs: seq<ChapterRef>, d: nat)
    requires d < |ss| && |bs| == |ss| + 1
  {
    bs[d] <= bs[d + 1] <= |chs| && ss[d] == chs[bs[d]..bs[d + 1]]
  }

  /** Consecutive slices of `chs` cut at ordered boundaries starting at 0
      concatenate to the prefix up to the k-th boundary. */
  lemma {:induction false} ConcatSlices(ss: seq<seq<ChapterRef>>, bs: seq<nat>, chs: seq<ChapterRef>, k: nat)
    requires |bs| == |ss| + 1 && bs[0] == 0 && k <= |ss|
    requires forall d :: 0 <= d < |ss| ==> Cut(ss, bs, chs, d)
    ensures bs[k] <= |chs|
    ensures Concat(ss[..k]) == chs[..bs[k]]
  {
    if k > 0 {
      assert Cut(ss, bs, chs, k - 1);
      ConcatSlices(ss, bs, chs, k - 1);
      assert ss[..k][..k - 1] == ss[..k - 1];
      SliceConcat(chs, bs[k - 1], bs[k]);
    }
  }

  /** Over the year every chapter of a track is read exactly once, in order:
      the days' shares of the track, concatenated, are the track. */
  lemma TrackPartition(chs: seq<ChapterRef>)
    ensures Concat(TrackShares(chs)) == chs
  {
    var ss, bs := TrackShares(chs), Boundaries(|chs|);
    forall d | 0 <= d < DaysInYear
      ensures Cut(ss, bs, chs, d)
    {
      TrackDayFlatten(chs, d);
    }
    ConcatSlices(ss, bs, chs, DaysInYear);
    YearEnd(|chs|);
    assert ss[..DaysInYear] == ss && chs[..|chs|] == chs;
  }

  /** A track with at least 365 chapters gives every day at least one entry. */
  lemma LongTrackEveryDay(chs: seq<ChapterRef>, d: nat)
    requires d < DaysInYear && |chs| >= DaysInYear
    ensures |TrackDay(chs, d)| >= 1
  {
    DayBounds(d, |chs|);
  }

  lemma DayOfFourTracks(ts: seq<seq<ChapterRef>>, d: nat)
    requires |ts| == 4 && d < DaysInYear
    ensures DayFromTracks(ts, d) == TrackDay(ts[0], d) + TrackDay(ts[1], d) + TrackDay(ts[2], d) + TrackDay(ts[3], d)
  {
    assert ts[..3][..2] == ts[..2] && ts[..2][..1] == ts[..1] && ts[..1][..0] == [];
    assert DayFromTracks(ts[..1], d) == TrackDay(ts[0], d);
    assert DayFromTracks(ts[..2], d) == DayFromTracks(ts[..1], d) + TrackDay(ts[1], d);
    assert DayFromTracks(ts[..3], d) == DayFromTracks(ts[..2], d) + TrackDay(ts[2], d);
    assert ts[..|ts| - 1] == ts[..3];
  }

  /** A day's entries are track 0's share, then track 1's, 2's and 3's. */
  lemma DayOrder(d: nat)
    requires d < DaysInYear
    ensures Schedule()[d] == TrackDay(AllTracks()[0], d) + TrackDay(AllTracks()[1], d)
                             + TrackDay(AllTracks()[2], d) + TrackDay(AllTracks()[3], d)
  {
    DayOfFourTracks(AllTracks(), d);
  }

  // ---------------------------------------------------------------------
  // The tracks over the catalog

  /** The codes of catalog books `lo` to `hi - 1`, in catalog order. */
  function CodesIn(lo: nat, hi: nat): (r: seq<string>)
    requires lo <= hi <= 66
    ensures |r| == hi - lo && forall i :: 0 <= i < hi - lo ==> r[i] == CodeAt(lo + i)
  {
    seq(hi - lo, i requires 0 <= i < hi - lo => CodeAt(lo + i))
  }

  // Each track is one or two runs of consecutive catalog books.

  lemma Track0Range()
    ensures TrackBooks(0) == CodesIn(0, 17)
  {
  }

  lemma Track1Range()
    ensures TrackBooks(1) == CodesIn(43, 66) + CodesIn(17, 22)
  {
  }

  lemma Track2Range()
    ensures TrackBooks(2) == CodesIn(39, 43) + CodesIn(22, 39)
  {
  }

  lemma Track3Range()
    ensures TrackBooks(3) == CodesIn(18, 19) + CodesIn(44, 66)
  {
  }

  /** The lists `f` gives for the codes, one after another. */
  function Chain(codes: seq<string>, f: string -> seq<ChapterRef>): seq<ChapterRef> {
    if codes == [] then [] else Chain(codes[..|codes| - 1], f) + f(codes[|codes| - 1])
  }

  lemma {:induction false} ChainAppend(a: seq<string>, b: seq<string>, f: string -> seq<ChapterRef>)
    ensures Chain(a + b, f) == Chain(a, f) + Chain(b, f)
    decreases |b|
  {
    if b == [] {
      assert a + b == a;
    } else {
      var init := b[..|b| - 1];
      assert (a + b)[..|a + b| - 1] == a + init;
      ChainAppend(a, init, f);
      AppendAssoc(Chain(a, f), Chain(init, f), f(b[|b| - 1]));
    }
  }

  lemma {:induction false} TrackChaptersChain(codes: seq<string>)
    ensures TrackChapters(codes) == Chain(codes, BookChapters)
    decreases |codes|
  {
    if codes != [] {
      TrackChaptersChain(codes[..|codes| - 1]);
    }
  }

  /** The chapters of the codes `a + b` are those of `a`, then those of `b`. */
  lemma TrackChaptersAppend(a: seq<string>, b: seq<string>)
    ensures TrackChapters(a + b) == TrackChapters(a) + TrackChapters(b)
  {
    TrackChaptersChain(a + b);
    TrackChaptersChain(a);
    TrackChaptersChain(b);
    ChainAppend(a, b, BookChapters);
  }

  /** The lookup finds catalog book `k` by its code, with its chapters. */
  lemma BookChaptersAt(k: nat)
    requires k < 66
    ensures |BookChapters(CodeAt(k))| == ChapterCountAt(k)
  {
    CodesFound();
    CodesMatchCatalog();
    CountsMatchCatalog();
    assert GetBookByCode(CodeAt(k)) == Some(BookAt(k));
  }

  /** A run of catalog books has as many chapters as their counts add up to. */
  lemma {:induction false} RangeLength(lo: nat, hi: nat)
    requires lo <= hi <= 66
    ensures |TrackChapters(CodesIn(lo, hi))| + SuffixChapters(hi) == SuffixChapters(lo)
    decreases hi - lo
  {
    var c := CodesIn(lo, hi);
    if lo == hi {
      assert c == [];
    } else {
      assert c[..|c| - 1] == CodesIn(lo, hi - 1);
      RangeLength(lo, hi - 1);
      BookChaptersAt(hi - 1);
      SuffixStep(hi - 1);
    }
  }

  /** The two morning tracks hold 436 and 414 chapters. */
  lemma MorningTrackLengths()
    ensures |AllTracks()[0]| == 436 && |AllTracks()[1]| == 414
  {
    FirstTrackLength();
    SecondTrackLength();
  }

  lemma FirstTrackLength()
    ensures |TrackChapters(TrackBooks(0))| == 436
  {
    Track0Range();
    RangeLength(0, 17);
    ChaptersFrom0();
    ChaptersFrom17();
  }

  lemma SecondTrackLength()
    ensures |TrackChapters(TrackBooks(1))| == 414
  {
    Track1Range();
    RangeLength(43, 66);
    RangeLength(17, 22);
    TrackChaptersAppend(CodesIn(43, 66), CodesIn(17, 22));
    ChaptersFrom17();
    ChaptersFrom22();
    ChaptersFrom43();
  }

  /** Every day has at least two reading sections: the two morning tracks
      hold at least 365 chapters each. */
  lemma AtLeastTwoEntries(d: nat)
    requires d < DaysInYear
    ensures |Schedule()[d]| >= 2
  {
    MorningTrackLengths();
    DayOrder(d);
    LongTrackEveryDay(AllTracks()[0], d);
    LongTrackEveryDay(AllTracks()[1], d);
  }

  /** The first entry of a grouping starts at the first chapter. */
  lemma {:induction false} GroupedHead(refs: seq<ChapterRef>)
    requires refs != []
    ensures Grouped(refs) != []
    ensures Grouped(refs)[0].bookCode == refs[0].bookCode && Grouped(refs)[0].chapterStart == refs[0].chapter
  {
    var init := refs[..|refs| - 1];
    if init != [] {
      GroupedHead(init);
      assert init[0] == refs[0];
    }
  }

  /** A list of codes opens with the chapters of its first book. */
  lemma TrackChaptersHead(codes: seq<string>)
    requires codes != []
    ensures TrackChapters(codes) == BookChapters(codes[0]) + TrackChapters(codes[1..])
  {
    TrackChaptersChain(codes);
    TrackChaptersChain(codes[1..]);
    ChainHead(codes, BookChapters);
  }

  lemma ChainHead(codes: seq<string>, f: string -> seq<ChapterRef>)
    requires codes != []
    ensures Chain(codes, f) == f(codes[0]) + Chain(codes[1..], f)
  {
    var x, rest := codes[0], codes[1..];
    assert codes == [x] + rest;
    ChainAppend([x], rest, f);
    assert [x][..0] == [];
  }

  /** Genesis is found by its code and has chapters. */
  lemma GenesisChapters()
    ensures |BookChapters("gen")| > 0
  {
    FoundAt(0);
    assert CodeAt(0) == "gen";
  }

  /** The first track opens with Genesis 1. */
  lemma FirstTrackOpensWithGenesis()
    ensures TrackChapters(TrackBooks(0)) != []
    ensures TrackChapters(TrackBooks(0))[0] == ChapterRef("gen", 1)
  {
    TrackChaptersHead(TrackBooks(0));
    GenesisChapters();
  }

  /** The calendar opens with Genesis 1. */
  lemma ScheduleStartsWithGenesis()
    ensures Schedule()[0] != []
    ensures Schedule()[0][0].bookCode == "gen" && Schedule()[0][0].chapterStart == 1
  {
    DayOrder(0);
    var t0 := AllTracks()[0];
    FirstTrackLength();
    FirstTrackOpensWithGenesis();
    assert DayStart(0, 436) == 0 && DayStart(1, 436) == 1;
    GroupedHead(t0[0..1]);
  }

  /** `c` is the code of a catalog book. */
  predicate CatalogCode(c: string) {
    exists k :: 0 <= k < 66 && BookAt(k).code == c
  }

  /** Chapters of catalog books, counted from 1. */
  predicate ValidRefs(chs: seq<ChapterRef>) {
    forall i :: 0 <= i < |chs| ==> chs[i].chapter >= 1 && CatalogCode(chs[i].bookCode)
  }

  /** Entries of catalog books, each starting at chapter 1 or later and
      ending no earlier than it starts. */
  predicate ValidEntries(es: seq<Entry>) {
    forall j :: 0 <= j < |es| ==> CatalogCode(es[j].bookCode) && 1 <= es[j].chapterStart <= es[j].chapterEnd
  }

  lemma CodesInCatalog(lo: nat, hi: nat)
    requires lo <= hi <= 66
    ensures forall i :: 0 <= i < hi - lo ==> CatalogCode(CodesIn(lo, hi)[i])
  {
    CodesMatchCatalog();
    forall i | 0 <= i < hi - lo
      ensures CatalogCode(CodesIn(lo, hi)[i])
    {
      assert BookAt(lo + i).code == CodesIn(lo, hi)[i];
    }
  }

  /** The chapters of catalog codes are valid chapters. */
  lemma {:induction false} TrackChaptersValid(codes: seq<string>)
    requires forall i :: 0 <= i < |codes| ==> CatalogCode(codes[i])
    ensures ValidRefs(TrackChapters(codes))
    decreases |codes|
  {
    if codes != [] {
      var init, last := codes[..|codes| - 1], codes[|codes| - 1];
      TrackChaptersValid(init);
      var a, b := TrackChapters(init), BookChapters(last);
      assert CatalogCode(last);
      assert ValidRefs(b);
      ValidRefsAppend(a, b);
    }
  }

  lemma ValidRefsAppend(a: seq<ChapterRef>, b: seq<ChapterRef>)
    requires ValidRefs(a) && ValidRefs(b)
    ensures ValidRefs(a + b)
  {
  }

  lemma RangesValid(lo1: nat, hi1: nat, lo2: nat, hi2: nat)
    requires lo1 <= hi1 <= 66 && lo2 <= hi2 <= 66
    ensures ValidRefs(TrackChapters(CodesIn(lo1, hi1) + CodesIn(lo2, hi2)))
  {
    CodesInCatalog(lo1, hi1);
    CodesInCatalog(lo2, hi2);
    TrackChaptersValid(CodesIn(lo1, hi1) + CodesIn(lo2, hi2));
  }

  /** Every track lists valid chapters. */
  lemma AllTracksValid()
    ensures forall t :: 0 <= t < 4 ==> ValidRefs(AllTracks()[t])
  {
    TrackValid(0);
    TrackValid(1);
    TrackValid(2);
    TrackValid(3);
  }

  lemma TrackValid(t: nat)
    requires t < 4
    ensures ValidRefs(TrackChapters(TrackBooks(t)))
  {
    if t == 0 {
      Track0Valid();
    } else if t == 1 {
      Track1Valid();
    } else if t == 2 {
      Track2Valid();
    } else {
      Track3Valid();
    }
  }

  lemma Track0Valid()
    ensures ValidRefs(TrackChapters(TrackBooks(0)))
  {
    Track0Range();
    assert CodesIn(0, 17) == CodesIn(0, 17) + CodesIn(0, 0);
    RangesValid(0, 17, 0, 0);
  }

  lemma Track1Valid()
    ensures ValidRefs(TrackChapters(TrackBooks(1)))
  {
    Track1Range();
    RangesValid(43, 66, 17, 22);
  }

  lemma Track2Valid()
    ensures ValidRefs(TrackChapters(TrackBooks(2)))
  {
    Track2Range();
    RangesValid(39, 43, 22, 39);
  }

  lemma Track3Valid()
    ensures ValidRefs(TrackChapters(TrackBooks(3)))
  {
    Track3Range();
    RangesValid(18, 19, 44, 66);
  }

  /** A grouping step over a valid chapter keeps the entries valid. */
  lemma AddChapterValid(g: seq<Entry>, x: ChapterRef)
    requires ValidEntries(g) && x.chapter >= 1 && CatalogCode(x.bookCode)
    ensures ValidEntries(AddChapter(g, x))
  {
  }

  /** The grouping of valid chapters has valid entries. */
  lemma {:induction false} GroupedValid(refs: seq<ChapterRef>)
    requires ValidRefs(refs)
    ensures ValidEntries(Grouped(refs))
  {
    if refs != [] {
      var init := refs[..|refs| - 1];
      GroupedValid(init);
      AddChapterValid(Grouped(init), refs[|refs| - 1]);
    }
  }

  lemma TrackDayValid(chs: seq<ChapterRef>, d: nat)
    requires d < DaysInYear && ValidRefs(chs)
    ensures ValidEntries(TrackDay(chs, d))
  {
    var n := |chs|;
    DayBounds(d, n);
    if n > 0 && DayStart(d, n) < DayStart(d + 1, n) {
      GroupedValid(chs[DayStart(d, n)..DayStart(d + 1, n)]);
    }
  }

  lemma ValidEntriesAppend(a: seq<Entry>, b: seq<Entry>)
    requires ValidEntries(a) && ValidEntries(b)
    ensures ValidEntries(a + b)
  {
  }

  /** Every entry of the calendar names a catalog book and a chapter range
      starting at 1 or later that does not end before it starts. */
  lemma ScheduleEntriesValid(d: nat)
    requires d < DaysInYear
    ensures ValidEntries(Schedule()[d])
  {
    AllTracksValid();
    DayOrder(d);
    var ts := AllTracks();
    TrackDayValid(ts[0], d);
    TrackDayValid(ts[1], d);
    TrackDayValid(ts[2], d);
    TrackDayValid(ts[3], d);
    ValidEntriesAppend(TrackDay(ts[0], d), TrackDay(ts[1], d));
    ValidEntriesAppend(TrackDay(ts[0], d) + TrackDay(ts[1], d), TrackDay(ts[2], d));
    ValidEntriesAppend(TrackDay(ts[0], d) + TrackDay(ts[1], d) + TrackDay(ts[2], d), TrackDay(ts[3], d));
  }
}
