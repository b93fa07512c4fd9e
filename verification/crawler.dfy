/** The crawl orchestrator (internal/crawler/crawler.go).

    The database is modelled for the crawler's one version: the set of stored
    book codes, the checkpoint of every chapter, and the verse and footnote
    rows in insertion order.  Everything outside the program is an oracle
    fixed in advance: the pages the site serves (`pages`, a missing key is a
    failed request), the checkpoints whose read fails (`unreadable`), the
    setup writes that fail, the chapters whose checkpoint writes, footnote
    inserts or verse reads fail, and the moment the context is cancelled.

    Cancellation is observed at three points: the check at the top of each
    iteration, the rate limiter's wait and the page request.  Every
    observation advances a clock; the context counts as cancelled from
    observation `cancelAt` on, so once seen it stays seen. */
module Crawl {
  import opened Wrappers
  import opened Books
  import opened HtmlParser
  import TextUtil

  datatype ChapterKey = ChapterKey(book: string, chapter: int)

  datatype Checkpoint = Checkpoint(status: string, verseCount: int)

  datatype VerseRow = VerseRow(book: string, chapter: int, number: int, text: string, sectionTitle: string, hasFootnote: bool)

  /** A footnote row points at its verse by the verse's row id: its position
      in the verse table, counting from 1. */
  datatype FootnoteRow = FootnoteRow(verse: nat, marker: string, content: string)

  /** A page as the site serves it: the text and the nodes the container
      selector matches in it. */
  datatype Page = Page(html: string, container: seq<Node>)

  /** One call of the progress callback. */
  datatype Report = Report(bookName: string, chapter: int, total: int)

  datatype CrawlError =
    | Cancelled
    | StatusUnreadable(key: ChapterKey)
    | UnknownBookCode(code: string)
    | VersionInsertFailed
    | BookInsertFailed(code: string)
    | FetchFailed
    | ParseFailed(cause: ParseError)
    | BookNotStored(code: string)
    | DuplicateVerse
    | FootnoteInsertFailed(verse: nat)
    | StatusWriteFailed(key: ChapterKey)
    | VersesUnreadable(code: string, chapter: int)
    | BookNotFound(code: string)
    | NoVerses(code: string, chapter: int)
    | EmptyVerseText(code: string, chapter: int)

  datatype Db = Db(books: set<string>, checkpoints: map<ChapterKey, Checkpoint>, verses: seq<VerseRow>, footnotes: seq<FootnoteRow>)

  /** The oracles, and the page parser the crawler applies; the crawler
      below uses the chapter parser of this model (`Parse`), the properties
      of the loop hold for any parser. */
  datatype Env = Env(
    cancelAt: Option<nat>,
    pages: map<ChapterKey, Page>,
    unreadable: set<ChapterKey>,
    versionFault: bool,
    bookFaults: set<string>,
    statusFaults: set<ChapterKey>,
    noteFaults: set<ChapterKey>,
    readFaults: set<ChapterKey>,
    parse: Page -> Result<seq<Verse>, ParseError>)

  /** What the crawl changes: the database, the cancellation clock, the
      progress calls and the pages requested. */
  datatype World = World(db: Db, clock: nat, progress: seq<Report>, fetched: seq<ChapterKey>)

  const Done: string := "done"
  const Failed: string := "error"

  predicate CancelledAt(cancelAt: Option<nat>, clock: nat) {
    cancelAt.Some? && clock >= cancelAt.value
  }

  /** The status a checkpoint read returns; a chapter never recorded has none. */
  function StatusOf(db: Db, key: ChapterKey): string {
    if key in db.checkpoints then db.checkpoints[key].status else ""
  }

  function SetStatus(db: Db, key: ChapterKey, cp: Checkpoint): Db {
    db.(checkpoints := db.checkpoints[key := cp])
  }

  /** A verse with this book, chapter and number is already stored: the
      table's uniqueness constraint rejects another. */
  predicate Duplicate(db: Db, code: string, ch: int, num: int) {
    exists i :: 0 <= i < |db.verses| && db.verses[i].book == code && db.verses[i].chapter == ch && db.verses[i].number == num
  }

  function RowOf(code: string, ch: int, v: Verse): VerseRow {
    VerseRow(code, ch, v.number, v.text, v.sectionTitle, |v.footnotes| > 0)
  }

  function NoteRows(id: nat, fs: seq<Footnote>): (r: seq<FootnoteRow>)
    ensures |r| == |fs| && forall j :: 0 <= j < |fs| ==> r[j] == FootnoteRow(id, fs[j].marker, fs[j].content)
  {
    if fs == [] then [] else NoteRows(id, fs[..|fs| - 1]) + [FootnoteRow(id, fs[|fs| - 1].marker, fs[|fs| - 1].content)]
  }

  /** The database after one verse and then its footnotes are inserted. */
  function WithVerse(db: Db, code: string, ch: int, v: Verse): Db {
    db.(verses := db.verses + [RowOf(code, ch, v)],
        footnotes := db.footnotes + NoteRows(|db.verses| + 1, v.footnotes))
  }

  /** The insertion loop of `crawlChapter`: verses in parsed order, each
      followed by its footnotes, stopping at the first rejected verse or, when
      footnote inserts fail for this chapter (`noteFault`), at the first
      footnote, after its verse's row went in. */
  function InsertVerses(db: Db, code: string, ch: int, vs: seq<Verse>, noteFault: bool): (Db, Outcome<CrawlError>)
    decreases |vs|
  {
    if vs == [] then (db, Pass)
    else if Duplicate(db, code, ch, vs[0].number) then (db, Fail(DuplicateVerse))
    else if noteFault && vs[0].footnotes != [] then
      (db.(verses := db.verses + [RowOf(code, ch, vs[0])]), Fail(FootnoteInsertFailed(|db.verses| + 1)))
    else InsertVerses(WithVerse(db, code, ch, vs[0]), code, ch, vs[1..], noteFault)
  }

  /** `ParseChapterHTML` applied to a served page. */
  function Parse(page: Page): Result<seq<Verse>, ParseError> {
    ParseOutcome(page.html, page.container)
  }

  /** The part of `crawlChapter` after the page has been parsed: find the
      stored book, insert the rows and mark the chapter done.  Only the
      chapter's own checkpoint may change, and not at all when its writes
      fail; on success the rows of the parsed verses were appended in order
      and the checkpoint is `done` with their number. */
  function StoreChapter(env: Env, w: World, code: string, ch: int, parsed: Result<seq<Verse>, ParseError>): (r: (World, Outcome<CrawlError>))
    ensures r.0.clock == w.clock && r.0.progress == w.progress && r.0.fetched == w.fetched
    ensures Keeps(w.db, r.0.db, code, ch, ch)
    ensures ChapterKey(code, ch) in env.statusFaults ==> r.1.Fail? && r.0.db.checkpoints == w.db.checkpoints
    ensures r.1.Pass? ==>
      && parsed.Ok? && ChapterKey(code, ch) in r.0.db.checkpoints
      && r.0.db.checkpoints[ChapterKey(code, ch)] == Checkpoint(Done, |parsed.value|)
      && r.0.db.verses == w.db.verses + Rows(code, ch, parsed.value)
  {
    match parsed
    case Err(e) => (w, Fail(ParseFailed(e)))
    case Ok(vs) =>
      if code !in w.db.books then (w, Fail(BookNotStored(code)))
      else
        var key := ChapterKey(code, ch);
        var noteFault := key in env.noteFaults;
        InsertVersesFrame(w.db, code, ch, vs, noteFault);
        InsertVersesCount(w.db, code, ch, vs, noteFault);
        InsertVersesRows(w.db, code, ch, vs, noteFault);
        assert Rows(code, ch, vs)[..|vs|] == Rows(code, ch, vs);
        var ins := InsertVerses(w.db, code, ch, vs, noteFault);
        if ins.1.Fail? then (w.(db := ins.0), ins.1)
        // the `done` write can fail too, and its error is the chapter's
        else if key in env.statusFaults then (w.(db := ins.0), Fail(StatusWriteFailed(key)))
        else (w.(db := SetStatus(ins.0, key, Checkpoint(Done, |vs|))), Pass)
  }

  /** `crawlChapter`: wait on the limiter, request the page, parse it and
      store it.  The clock moves, nothing is reported, only the chapter's own
      checkpoint may change, and the page is requested at most once; a
      chapter that succeeds was requested and parsed. */
  function ChapterStep(env: Env, w: World, code: string, ch: int): (r: (World, Outcome<CrawlError>))
    ensures r.0.clock > w.clock && r.0.progress == w.progress
    ensures Keeps(w.db, r.0.db, code, ch, ch)
    ensures r.0.fetched == w.fetched || r.0.fetched == w.fetched + [ChapterKey(code, ch)]
    ensures ChapterKey(code, ch) in env.statusFaults ==> r.1.Fail? && r.0.db.checkpoints == w.db.checkpoints
    ensures r.1.Pass? ==>
      && r.0.fetched == w.fetched + [ChapterKey(code, ch)] && ChapterKey(code, ch) in env.pages
      && var page := env.pages[ChapterKey(code, ch)];
         r == StoreChapter(env, w.(clock := w.clock + 2, fetched := w.fetched + [ChapterKey(code, ch)]), code, ch, env.parse(page))
  {
    var key := ChapterKey(code, ch);
    // the limiter's wait observes the context
    if CancelledAt(env.cancelAt, w.clock) then (w.(clock := w.clock + 1), Fail(Cancelled))
    // so does the request, which is sent only while the context is live
    else if CancelledAt(env.cancelAt, w.clock + 1) then (w.(clock := w.clock + 2), Fail(Cancelled))
    else
      var w2 := w.(clock := w.clock + 2, fetched := w.fetched + [key]);
      if key !in env.pages then (w2, Fail(FetchFailed))
      else
        var page := env.pages[key];
        StoreChapter(env, w2, code, ch, env.parse(page))
  }

  /** What one iteration of the chapter loop leads to: the call stops with
      an outcome, or the loop goes on to the next chapter. */
  datatype Turn = Stop(w: World, outcome: Outcome<CrawlError>) | Next(w: World)

  lemma KeepsStatus(a: Db, b: Db, code: string, lo: int, hi: int, key: ChapterKey)
    requires Keeps(a, b, code, lo, hi) && Outside(key, code, lo, hi)
    ensures StatusOf(b, key) == StatusOf(a, key)
  {
  }

  /** One iteration of `crawlBookChapters`, on chapter `ch`: the
      cancellation check, the checkpoint read, then either the progress
      report of a chapter already done, or the chapter itself, whose failure
      is recorded as the checkpoint `error`.

      The clock moves, only the chapter's own checkpoint may change and
      progress is only appended to.  A stop is a cancellation or an
      unreadable checkpoint and changes nothing else.  Going on, the chapter
      is `done` and reported, or `error` and not reported, or, when its
      checkpoint writes fail (the `error` write's failure is ignored), keeps
      its checkpoint and is not reported.  A chapter already `done` keeps its
      checkpoint and is not requested; any other is requested at most once. */
  function Iteration(env: Env, w: World, code: string, name: string, count: int, ch: int): (t: Turn)
    ensures t.w.clock > w.clock && w.progress <= t.w.progress
    ensures Keeps(w.db, t.w.db, code, ch, ch)
    ensures t.Stop? ==>
      && t.w.db == w.db && t.w.progress == w.progress && t.w.fetched == w.fetched
      && (t.outcome == Fail(Cancelled) || t.outcome == Fail(StatusUnreadable(ChapterKey(code, ch))))
    ensures t.Next? ==>
      && (|| StatusOf(t.w.db, ChapterKey(code, ch)) == Done || StatusOf(t.w.db, ChapterKey(code, ch)) == Failed
          || (ChapterKey(code, ch) in env.statusFaults && t.w.db.checkpoints == w.db.checkpoints))
      && t.w.progress == w.progress + (if StatusOf(t.w.db, ChapterKey(code, ch)) == Done then [Report(name, ch, count)] else [])
    ensures StatusOf(w.db, ChapterKey(code, ch)) == Done ==> t.w.db == w.db && t.w.fetched == w.fetched
    ensures t.w.fetched == w.fetched || (t.w.fetched == w.fetched + [ChapterKey(code, ch)] && StatusOf(w.db, ChapterKey(code, ch)) != Done)
  {
    if CancelledAt(env.cancelAt, w.clock) then Stop(w.(clock := w.clock + 1), Fail(Cancelled))
    else
      var w1 := w.(clock := w.clock + 1);
      var key := ChapterKey(code, ch);
      if key in env.unreadable then Stop(w1, Fail(StatusUnreadable(key)))
      else Next(Resume(env, w1, code, name, count, ch, StatusOf(w1.db, key) == Done))
  }

  /** An iteration neither cancelled nor stopped by an unreadable checkpoint
      goes on with the chapter's recorded status, one clock tick later. */
  lemma IterationGoesOn(env: Env, w: World, code: string, name: string, count: int, ch: int)
    requires !CancelledAt(env.cancelAt, w.clock) && ChapterKey(code, ch) !in env.unreadable
    ensures var w1 := w.(clock := w.clock + 1);
      Iteration(env, w, code, name, count, ch)
        == Next(Resume(env, w1, code, name, count, ch, StatusOf(w1.db, ChapterKey(code, ch)) == Done))
  {
  }

  /** The rest of an iteration once the checkpoint is read: a chapter
      already `done` is only reported, with no request and its checkpoint
      kept; any other is requested at most once and settles as `done` and
      reported, or `error` and not reported, or, when its checkpoint writes
      fail, keeps its checkpoint and is not reported. */
  function Resume(env: Env, w: World, code: string, name: string, count: int, ch: int, done: bool): (r: World)
    ensures r.clock >= w.clock && w.progress <= r.progress && Keeps(w.db, r.db, code, ch, ch)
    ensures done ==> r.db == w.db && r.fetched == w.fetched && r.progress == w.progress + [Report(name, ch, count)]
    ensures !done && ChapterKey(code, ch) !in env.statusFaults ==>
      && (StatusOf(r.db, ChapterKey(code, ch)) == Done || StatusOf(r.db, ChapterKey(code, ch)) == Failed)
      && r.progress == w.progress + (if StatusOf(r.db, ChapterKey(code, ch)) == Done then [Report(name, ch, count)] else [])
    ensures !done && ChapterKey(code, ch) in env.statusFaults ==> r.db.checkpoints == w.db.checkpoints && r.progress == w.progress
    ensures !done ==> r.clock > w.clock && (r.fetched == w.fetched || r.fetched == w.fetched + [ChapterKey(code, ch)])
  {
    if done then w.(progress := w.progress + [Report(name, ch, count)])
    else Attempt(env, w, code, name, count, ch)
  }

  /** A chapter not yet done: it is crawled, and then either reported or
      recorded as `error`; a failed `error` write is ignored.  When the
      chapter's checkpoint writes fail it keeps its checkpoint and is not
      reported. */
  function Attempt(env: Env, w: World, code: string, name: string, count: int, ch: int): (r: World)
    ensures r.clock > w.clock && Keeps(w.db, r.db, code, ch, ch)
    ensures ChapterKey(code, ch) !in env.statusFaults ==>
      && (StatusOf(r.db, ChapterKey(code, ch)) == Done || StatusOf(r.db, ChapterKey(code, ch)) == Failed)
      && r.progress == w.progress + (if StatusOf(r.db, ChapterKey(code, ch)) == Done then [Report(name, ch, count)] else [])
    ensures ChapterKey(code, ch) in env.statusFaults ==> r.db.checkpoints == w.db.checkpoints && r.progress == w.progress
    ensures r.fetched == w.fetched || r.fetched == w.fetched + [ChapterKey(code, ch)]
  {
    var key := ChapterKey(code, ch);
    var step := ChapterStep(env, w, code, ch);
    if step.1.Fail? then
      if key in env.statusFaults then step.0
      else step.0.(db := SetStatus(step.0.db, key, Checkpoint(Failed, 0)))
    else step.0.(progress := step.0.progress + [Report(name, ch, count)])
  }

  /** The loop of `crawlBookChapters` from chapter `ch` on.  It returns an
      error only when the context is cancelled or a checkpoint cannot be
      read: a chapter's own failure never stops it. */
  function CrawlFrom(env: Env, w: World, code: string, name: string, count: int, ch: int): (r: (World, Outcome<CrawlError>))
    decreases count - ch + 1
    ensures r.1 == Pass || r.1 == Fail(Cancelled) || (r.1.Fail? && r.1.error.StatusUnreadable?)
  {
    if ch > count then (w, Pass)
    else
      match Iteration(env, w, code, name, count, ch)
      case Stop(w1, outcome) => (w1, outcome)
      case Next(w1) => CrawlFrom(env, w1, code, name, count, ch + 1)
  }

  /** `CrawlBook`: the case-insensitive catalog lookup, then the chapter
      loop.  It fails with an unknown code exactly when the lookup finds no
      book, and then touches nothing. */
  function CrawlBookSpec(env: Env, w: World, code: string): (r: (World, Outcome<CrawlError>))
    ensures r.1 == Fail(UnknownBookCode(code)) <==> GetBookByCode(code).None?
    ensures GetBookByCode(code).None? ==> r.0 == w
  {
    match GetBookByCode(code)
    case None => (w, Fail(UnknownBookCode(code)))
    case Some(b) => CrawlFrom(env, w, b.code, b.nameKo, b.chapterCount, 1)
  }

  // ---------------------------------------------------------------------
  // Validation

  /** The stored rows of one chapter, in insertion order. */
  function ChapterRows(rows: seq<VerseRow>, code: string, ch: int): (r: seq<VerseRow>)
    ensures forall j :: 0 <= j < |r| ==> r[j] in rows && r[j].book == code && r[j].chapter == ch
    ensures forall j :: 0 <= j < |rows| && rows[j].book == code && rows[j].chapter == ch ==> rows[j] in r
  {
    if rows == [] then []
    else
      var init := rows[..|rows| - 1];
      var front := ChapterRows(init, code, ch);
      var last := rows[|rows| - 1];
      assert forall j :: 0 <= j < |init| ==> init[j] == rows[j];
      if last.book == code && last.chapter == ch then front + [last] else front
  }

  predicate HasEmptyText(rows: seq<VerseRow>) {
    exists j :: 0 <= j < |rows| && rows[j].text == ""
  }

  /** What validation finds wrong with one chapter, if anything. */
  function ChapterViolation(db: Db, code: string, ch: int): Option<CrawlError> {
    var rows := ChapterRows(db.verses, code, ch);
    if rows == [] then Some(NoVerses(code, ch))
    else if HasEmptyText(rows) then Some(EmptyVerseText(code, ch))
    else None
  }

  /** The chapter loop of `Validate` for one book, from chapter `ch` on,
      with the clock of the cancellation checks; it stops at the first
      failed read or violation. */
  function ValidateChapters(env: Env, db: Db, clock: nat, code: string, count: int, ch: int): (r: (nat, Outcome<CrawlError>))
    decreases count - ch + 1
    ensures r.0 >= clock
    ensures r.1.Fail? ==> ValidationError(r.1.error)
  {
    if ch > count then (clock, Pass)
    else if CancelledAt(env.cancelAt, clock) then (clock + 1, Fail(Cancelled))
    else if ChapterKey(code, ch) in env.readFaults then (clock + 1, Fail(VersesUnreadable(code, ch)))
    else
      match ChapterViolation(db, code, ch)
      case Some(e) => (clock + 1, Fail(e))
      case None => ValidateChapters(env, db, clock + 1, code, count, ch + 1)
  }

  /** The errors of validation: cancellation, a failed read, or a chapter
      with no verses or an empty text. */
  predicate ValidationError(e: CrawlError) {
    e.Cancelled? || e.VersesUnreadable? || e.NoVerses? || e.EmptyVerseText?
  }

  /** The book loop of `Validate` from catalog position `i` on. */
  function ValidateBooks(env: Env, db: Db, clock: nat, i: nat): (r: (nat, Outcome<CrawlError>))
    requires i <= 66
    decreases 66 - i
    ensures r.0 >= clock
    ensures r.1.Fail? ==> ValidationError(r.1.error) || r.1.error.BookNotFound?
  {
    if i == 66 then (clock, Pass)
    else
      var b := BookAt(i);
      if b.code !in db.books then (clock, Fail(BookNotFound(b.code)))
      else
        var r := ValidateChapters(env, db, clock, b.code, b.chapterCount, 1);
        if r.1.Fail? then r else ValidateBooks(env, db, r.0, i + 1)
  }

  /** Every chapter from `ch` to `count` of book `code` has verses, none with
      empty text. */
  predicate ChaptersComplete(db: Db, code: string, count: int, ch: int) {
    forall c :: ch <= c <= count ==> ChapterViolation(db, code, c).None?
  }

  /** The verse reads of chapters `ch..count` of book `code` succeed. */
  predicate ChaptersReadable(env: Env, code: string, count: int, ch: int) {
    forall c :: ch <= c <= count ==> ChapterKey(code, c) !in env.readFaults
  }

  /** The verse reads of every chapter of the books from `i` on succeed. */
  predicate ReadableFrom(env: Env, i: nat)
    requires i <= 66
  {
    forall k :: i <= k < 66 ==> ChaptersReadable(env, BookAt(k).code, BookAt(k).chapterCount, 1)
  }

  /** Every book of the catalog from `i` on is stored and complete. */
  predicate CompleteFrom(db: Db, i: nat)
    requires i <= 66
  {
    forall k :: i <= k < 66 ==> BookAt(k).code in db.books && ChaptersComplete(db, BookAt(k).code, BookAt(k).chapterCount, 1)
  }

  // ---------------------------------------------------------------------
  // The whole crawl

  /** The codes of the catalog, in catalog order. */
  function Codes(): (r: seq<string>)
    ensures |r| == 66 && forall i :: 0 <= i < 66 ==> r[i] == BookAt(i).code
  {
    seq(66, i requires 0 <= i < 66 => BookAt(i).code)
  }

  /** The setup of `CrawlAll` after the version row: every book of the
      catalog in order; the first failing write aborts, with that book's
      error.  It touches nothing but the books. */
  function Setup(env: Env, db: Db, codes: seq<string>): (r: (Db, Outcome<CrawlError>))
    decreases |codes|
    ensures r.0.checkpoints == db.checkpoints && r.0.verses == db.verses && r.0.footnotes == db.footnotes
    ensures db.books <= r.0.books
    ensures r.1.Fail? ==> r.1.error.BookInsertFailed? && r.1.error.code in env.bookFaults
  {
    if codes == [] then (db, Pass)
    else if codes[0] in env.bookFaults then (db, Fail(BookInsertFailed(codes[0])))
    else Setup(env, db.(books := db.books + {codes[0]}), codes[1..])
  }

  /** The book loop of `CrawlAll` from catalog position `i` on; like the
      chapter loop it fails only on cancellation or an unreadable
      checkpoint. */
  function CrawlBooks(env: Env, w: World, i: nat): (r: (World, Outcome<CrawlError>))
    requires i <= 66
    decreases 66 - i
    ensures r.1 == Pass || r.1 == Fail(Cancelled) || (r.1.Fail? && r.1.error.StatusUnreadable?)
  {
    if i == 66 then (w, Pass)
    else
      var b := BookAt(i);
      var r := CrawlFrom(env, w, b.code, b.nameKo, b.chapterCount, 1);
      if r.1.Fail? then r else CrawlBooks(env, r.0, i + 1)
  }

  /** `CrawlAll`: setup, every book in catalog order, then validation.  No
      failure of a single chapter (its request, parse, rows or checkpoint
      write) makes the crawl fail: only the setup writes, cancellation, an
      unreadable checkpoint and validation do. */
  function CrawlAllSpec(env: Env, w: World): (r: (World, Outcome<CrawlError>))
    ensures r.1.Fail? ==>
      || r.1.error.VersionInsertFailed? || r.1.error.BookInsertFailed? || r.1.error.StatusUnreadable?
      || r.1.error.BookNotFound? || ValidationError(r.1.error)
  {
    if env.versionFault then (w, Fail(VersionInsertFailed))
    else
      var s := Setup(env, w.db, Codes());
      var w1 := w.(db := s.0);
      if s.1.Fail? then (w1, s.1)
      else
        var c := CrawlBooks(env, w1, 0);
        if c.1.Fail? then c
        else
          var v := ValidateBooks(env, c.0.db, c.0.clock, 0);
          (c.0.(clock := v.0), v.1)
  }

  // ---------------------------------------------------------------------
  // Properties of the insertion loop and of one chapter

  /** The rows of a chapter's verses, in parsed order. */
  function Rows(code: string, ch: int, vs: seq<Verse>): (r: seq<VerseRow>)
    ensures |r| == |vs| && forall j :: 0 <= j < |vs| ==> r[j] == RowOf(code, ch, vs[j])
  {
    if vs == [] then [] else [RowOf(code, ch, vs[0])] + Rows(code, ch, vs[1..])
  }

  /** The insertion loop touches neither books nor checkpoints, and keeps
      every earlier footnote row. */
  lemma {:induction false} InsertVersesFrame(db: Db, code: string, ch: int, vs: seq<Verse>, noteFault: bool)
    decreases |vs|
    ensures var r := InsertVerses(db, code, ch, vs, noteFault);
      r.0.books == db.books && r.0.checkpoints == db.checkpoints && db.verses <= r.0.verses && db.footnotes <= r.0.footnotes
  {
    if vs != [] && !Duplicate(db, code, ch, vs[0].number) && !(noteFault && vs[0].footnotes != []) {
      InsertVersesFrame(WithVerse(db, code, ch, vs[0]), code, ch, vs[1..], noteFault);
    }
  }

  /** The insertion loop appends at most one row per parsed verse, one for
      each when it reports success and fewer when it meets a duplicate; it
      fails only on a duplicate or, when footnote inserts fail, on a
      footnote. */
  lemma {:induction false} InsertVersesCount(db: Db, code: string, ch: int, vs: seq<Verse>, noteFault: bool)
    decreases |vs|
    ensures var r := InsertVerses(db, code, ch, vs, noteFault);
      && |db.verses| <= |r.0.verses| <= |db.verses| + |vs|
      && (r.1.Pass? ==> |r.0.verses| == |db.verses| + |vs|)
      && (r.1 == Fail(DuplicateVerse) ==> |r.0.verses| < |db.verses| + |vs|)
      && (r.1.Pass? || r.1 == Fail(DuplicateVerse) || (noteFault && r.1.Fail? && r.1.error.FootnoteInsertFailed?))
  {
    if vs != [] && !Duplicate(db, code, ch, vs[0].number) && !(noteFault && vs[0].footnotes != []) {
      InsertVersesCount(WithVerse(db, code, ch, vs[0]), code, ch, vs[1..], noteFault);
    }
  }

  /** The rows it appends are those of a prefix of the parsed verses, in
      order. */
  lemma {:induction false} InsertVersesRows(db: Db, code: string, ch: int, vs: seq<Verse>, noteFault: bool)
    decreases |vs|
    ensures var r := InsertVerses(db, code, ch, vs, noteFault);
      |db.verses| <= |r.0.verses| <= |db.verses| + |vs| ==>
        r.0.verses == db.verses + Rows(code, ch, vs)[..|r.0.verses| - |db.verses|]
  {
    if vs == [] || Duplicate(db, code, ch, vs[0].number) {
      assert InsertVerses(db, code, ch, vs, noteFault).0 == db;
      assert db.verses + Rows(code, ch, vs)[..0] == db.verses;
    } else if noteFault && vs[0].footnotes != [] {
      assert Rows(code, ch, vs)[..1] == [RowOf(code, ch, vs[0])];
    } else {
      var db1 := WithVerse(db, code, ch, vs[0]);
      var r1 := InsertVerses(db1, code, ch, vs[1..], noteFault);
      assert InsertVerses(db, code, ch, vs, noteFault) == r1;
      InsertVersesRows(db1, code, ch, vs[1..], noteFault);
      InsertVersesCount(db1, code, ch, vs[1..], noteFault);
      var m := |r1.0.verses| - |db1.verses|;
      assert r1.0.verses == db1.verses + Rows(code, ch, vs[1..])[..m];
      assert Rows(code, ch, vs) == [RowOf(code, ch, vs[0])] + Rows(code, ch, vs[1..]);
      AppendPrefix(db.verses, RowOf(code, ch, vs[0]), Rows(code, ch, vs[1..]), m);
    }
  }

  lemma AppendPrefix<T>(a: seq<T>, x: T, s: seq<T>, m: nat)
    requires m <= |s|
    ensures (a + [x]) + s[..m] == a + ([x] + s)[..m + 1]
  {
    assert ([x] + s)[..m + 1] == [x] + s[..m];
  }

  /** `key` lies outside chapters `lo..hi` of book `code`. */
  ghost predicate Outside(key: ChapterKey, code: string, lo: int, hi: int) {
    key.book != code || key.chapter < lo || hi < key.chapter
  }

  /** From `a` to `b` the stored books stay the same, rows are only appended,
      and no checkpoint outside chapters `lo..hi` of `code` changes. */
  ghost predicate Keeps(a: Db, b: Db, code: string, lo: int, hi: int) {
    && b.books == a.books && a.verses <= b.verses && a.footnotes <= b.footnotes
    && forall key {:trigger Outside(key, code, lo, hi)} :: Outside(key, code, lo, hi) ==>
         (key in a.checkpoints <==> key in b.checkpoints) && (key in a.checkpoints ==> b.checkpoints[key] == a.checkpoints[key])
  }

  lemma KeepsTrans(a: Db, b: Db, c: Db, code: string, lo: int, mid: int, hi: int)
    requires lo <= mid <= hi
    requires Keeps(a, b, code, lo, mid) && Keeps(b, c, code, mid + 1, hi)
    ensures Keeps(a, c, code, lo, hi)
  {
    forall key | Outside(key, code, lo, hi)
      ensures (key in a.checkpoints <==> key in c.checkpoints) && (key in a.checkpoints ==> c.checkpoints[key] == a.checkpoints[key])
    {
      assert Outside(key, code, lo, mid) && Outside(key, code, mid + 1, hi);
    }
  }

  // ---------------------------------------------------------------------
  // Properties of the chapter loop

  /** The chapter loop changes no checkpoint outside its own chapters, keeps
      the checkpoint of every chapter that was already `done`, only appends
      to the progress reports, and never turns the clock back. */
  lemma {:induction false} CrawlFromFrame(env: Env, w: World, code: string, name: string, count: int, ch: int)
    decreases count - ch + 1
    ensures var r := CrawlFrom(env, w, code, name, count, ch);
      && Keeps(w.db, r.0.db, code, ch, count)
      && w.progress <= r.0.progress && r.0.clock >= w.clock
      && forall c :: ch <= c <= count && StatusOf(w.db, ChapterKey(code, c)) == Done ==>
           ChapterKey(code, c) in r.0.db.checkpoints && r.0.db.checkpoints[ChapterKey(code, c)] == w.db.checkpoints[ChapterKey(code, c)]
  {
    if ch <= count {
      var t := Iteration(env, w, code, name, count, ch);
      if t.Next? {
        var next := t.w;
        CrawlFromFrame(env, next, code, name, count, ch + 1);
        var r := CrawlFrom(env, next, code, name, count, ch + 1);
        assert CrawlFrom(env, w, code, name, count, ch) == r;
        KeepsTrans(w.db, next.db, r.0.db, code, ch, ch, count);
        DoneKeptStep(w.db, next.db, r.0.db, code, ch, count);
      }
    }
  }

  /** One step of `CrawlFromFrame`: a `done` checkpoint survives the
      iteration that leaves it alone and the rest of the run. */
  lemma DoneKeptStep(a: Db, b: Db, c: Db, code: string, ch: int, count: int)
    requires Keeps(a, b, code, ch, ch) && Keeps(b, c, code, ch + 1, count)
    requires StatusOf(a, ChapterKey(code, ch)) == Done ==> b == a
    requires forall k :: ch + 1 <= k <= count && StatusOf(b, ChapterKey(code, k)) == Done ==>
      ChapterKey(code, k) in c.checkpoints && c.checkpoints[ChapterKey(code, k)] == b.checkpoints[ChapterKey(code, k)]
    ensures forall k :: ch <= k <= count && StatusOf(a, ChapterKey(code, k)) == Done ==>
      ChapterKey(code, k) in c.checkpoints && c.checkpoints[ChapterKey(code, k)] == a.checkpoints[ChapterKey(code, k)]
  {
    forall k | ch <= k <= count && StatusOf(a, ChapterKey(code, k)) == Done
      ensures ChapterKey(code, k) in c.checkpoints && c.checkpoints[ChapterKey(code, k)] == a.checkpoints[ChapterKey(code, k)]
    {
      if k > ch {
        assert Outside(ChapterKey(code, k), code, ch, ch);
      } else {
        assert Outside(ChapterKey(code, k), code, ch + 1, count);
      }
    }
  }

  /** The pages requested in one run: chapters of this book within the
      range, none of them `done` beforehand, in strictly ascending order. */
  ghost predicate FetchOrder(s: seq<ChapterKey>, db: Db, code: string, lo: int, hi: int) {
    && (forall j :: 0 <= j < |s| ==> s[j].book == code && lo <= s[j].chapter <= hi && StatusOf(db, s[j]) != Done)
    && (forall j, k :: 0 <= j < k < |s| ==> s[j].chapter < s[k].chapter)
  }

  /** Chapters are visited in ascending order, each at most once, and a
      chapter already `done` is never requested. */
  lemma {:induction false} CrawlFromFetches(env: Env, w: World, code: string, name: string, count: int, ch: int)
    decreases count - ch + 1
    ensures var r := CrawlFrom(env, w, code, name, count, ch);
      w.fetched <= r.0.fetched && FetchOrder(r.0.fetched[|w.fetched|..], w.db, code, ch, count)
  {
    if ch <= count {
      var t := Iteration(env, w, code, name, count, ch);
      if t.Next? {
        var next := t.w;
        CrawlFromFetches(env, next, code, name, count, ch + 1);
        var r := CrawlFrom(env, next, code, name, count, ch + 1);
        assert CrawlFrom(env, w, code, name, count, ch) == r;
        var tail := r.0.fetched[|next.fetched|..];
        var head := next.fetched[|w.fetched|..];
        assert head == [] || (head == [ChapterKey(code, ch)] && StatusOf(w.db, ChapterKey(code, ch)) != Done);
        FetchOrderCons(w.db, next.db, code, ch, count, head, tail);
        assert r.0.fetched[|w.fetched|..] == next.fetched[|w.fetched|..] + tail;
      }
    }
  }

  lemma FetchOrderCons(db: Db, db1: Db, code: string, ch: int, count: int, head: seq<ChapterKey>, tail: seq<ChapterKey>)
    requires Keeps(db, db1, code, ch, ch)
    requires head == [] || (head == [ChapterKey(code, ch)] && StatusOf(db, ChapterKey(code, ch)) != Done && ch <= count)
    requires FetchOrder(tail, db1, code, ch + 1, count)
    ensures FetchOrder(head + tail, db, code, ch, count)
  {
    var s := head + tail;
    forall j | 0 <= j < |s| ensures s[j].book == code && ch <= s[j].chapter <= count && StatusOf(db, s[j]) != Done {
      if j >= |head| {
        assert s[j] == tail[j - |head|];
        assert Outside(s[j], code, ch, ch);
      }
    }
    forall j, k | 0 <= j < k < |s| ensures s[j].chapter < s[k].chapter {
      if j >= |head| {
        assert s[j] == tail[j - |head|] && s[k] == tail[k - |head|];
      } else {
        assert s[k] == tail[k - |head|];
      }
    }
  }

  /** The progress reports for the chapters of `lo..count` that `db` marks
      `done`, in ascending order. */
  function Reports(db: Db, code: string, name: string, count: int, lo: int): seq<Report>
    decreases count - lo + 1
  {
    if lo > count then []
    else (if StatusOf(db, ChapterKey(code, lo)) == Done then [Report(name, lo, count)] else []) + Reports(db, code, name, count, lo + 1)
  }

  /** Chapter `c` of book `code` ends `done` or `error` in `b`, or its
      checkpoint writes fail and it keeps the status it had in `a`. */
  predicate Settled(env: Env, a: Db, b: Db, code: string, c: int) {
    var key := ChapterKey(code, c);
    || StatusOf(b, key) == Done || StatusOf(b, key) == Failed
    || (key in env.statusFaults && StatusOf(b, key) == StatusOf(a, key))
  }

  /** A run that completes leaves every chapter `done` or `error`, except
      that a chapter whose checkpoint writes fail keeps its status. */
  lemma {:induction false} CrawlFromSettles(env: Env, w: World, code: string, name: string, count: int, ch: int)
    decreases count - ch + 1
    ensures var r := CrawlFrom(env, w, code, name, count, ch);
      r.1.Pass? ==> forall c :: ch <= c <= count ==> Settled(env, w.db, r.0.db, code, c)
  {
    if ch <= count {
      var t := Iteration(env, w, code, name, count, ch);
      if t.Next? {
        var key := ChapterKey(code, ch);
        var r := CrawlFrom(env, t.w, code, name, count, ch + 1);
        CrawlFromSettles(env, t.w, code, name, count, ch + 1);
        CrawlFromFrame(env, t.w, code, name, count, ch + 1);
        KeepsStatus(t.w.db, r.0.db, code, ch + 1, count, key);
        assert CrawlFrom(env, w, code, name, count, ch) == r;
        if r.1.Pass? {
          forall c | ch <= c <= count
            ensures Settled(env, w.db, r.0.db, code, c)
          {
            if c == ch {
              assert Settled(env, w.db, t.w.db, code, ch);
            } else {
              KeepsStatus(w.db, t.w.db, code, ch, ch, ChapterKey(code, c));
              assert Settled(env, t.w.db, r.0.db, code, c);
            }
          }
        }
      }
    }
  }

  /** A run that completes has reported exactly the chapters that end
      `done`, in ascending order. */
  lemma {:induction false} CrawlFromReports(env: Env, w: World, code: string, name: string, count: int, ch: int)
    decreases count - ch + 1
    ensures var r := CrawlFrom(env, w, code, name, count, ch);
      r.1.Pass? ==> r.0.progress == w.progress + Reports(r.0.db, code, name, count, ch)
  {
    if ch <= count {
      var t := Iteration(env, w, code, name, count, ch);
      if t.Next? {
        var key := ChapterKey(code, ch);
        CrawlFromReports(env, t.w, code, name, count, ch + 1);
        CrawlFromFrame(env, t.w, code, name, count, ch + 1);
        KeepsStatus(t.w.db, CrawlFrom(env, t.w, code, name, count, ch + 1).0.db, code, ch + 1, count, key);
        TextUtil.AppendAssoc(w.progress, if StatusOf(t.w.db, key) == Done then [Report(name, ch, count)] else [], Reports(CrawlFrom(env, t.w, code, name, count, ch + 1).0.db, code, name, count, ch + 1));
      }
    }
  }

  /** A cancellation that surfaces in the rate limiter's wait or in the page
      request is recorded as the chapter's `error` (unless that write fails);
      the next iteration then aborts the call, or, after the last chapter,
      the call completes. */
  lemma CancelInsideChapter(env: Env, w: World, code: string, name: string, count: int, ch: int)
    requires ch <= count && !CancelledAt(env.cancelAt, w.clock)
    requires ChapterKey(code, ch) !in env.unreadable && StatusOf(w.db, ChapterKey(code, ch)) != Done
    requires env.cancelAt == Some(w.clock + 1) || env.cancelAt == Some(w.clock + 2)
    ensures var r := CrawlFrom(env, w, code, name, count, ch);
      && r.1 == (if ch < count then Fail(Cancelled) else Pass)
      && r.0.db == (if ChapterKey(code, ch) in env.statusFaults then w.db else SetStatus(w.db, ChapterKey(code, ch), Checkpoint(Failed, 0)))
      && r.0.progress == w.progress && r.0.fetched == w.fetched
  {
    var t := Iteration(env, w, code, name, count, ch);
    assert t.Next? && t.w.db == (if ChapterKey(code, ch) in env.statusFaults then w.db else SetStatus(w.db, ChapterKey(code, ch), Checkpoint(Failed, 0)));
    assert t.w.fetched == w.fetched && t.w.progress == w.progress && CancelledAt(env.cancelAt, t.w.clock);
  }

  /** An already-cancelled context requests no page, reports no progress and
      changes no checkpoint. */
  lemma CancelledBefore(env: Env, w: World, code: string, name: string, count: int, ch: int)
    requires CancelledAt(env.cancelAt, w.clock)
    ensures var r := CrawlFrom(env, w, code, name, count, ch);
      && r.0.db == w.db && r.0.progress == w.progress && r.0.fetched == w.fetched
      && (r.1 == Fail(Cancelled) <==> ch <= count)
  {
  }

  // ---------------------------------------------------------------------
  // Properties of validation and of the whole crawl

  /** The chapter loop succeeds only when every remaining chapter is
      complete, and, when the context is never cancelled and no verse read
      fails, exactly then. */
  lemma {:induction false} ValidateChaptersSpec(env: Env, db: Db, clock: nat, code: string, count: int, ch: int)
    decreases count - ch + 1
    ensures var r := ValidateChapters(env, db, clock, code, count, ch);
      && (r.1.Pass? ==> ChaptersComplete(db, code, count, ch))
      && (env.cancelAt.None? && ChaptersReadable(env, code, count, ch) ==> (r.1.Pass? <==> ChaptersComplete(db, code, count, ch)))
  {
    if ch <= count && !CancelledAt(env.cancelAt, clock) && ChapterKey(code, ch) !in env.readFaults && ChapterViolation(db, code, ch).None? {
      ValidateChaptersSpec(env, db, clock + 1, code, count, ch + 1);
    }
  }

  /** The book loop succeeds only when every remaining book is stored and
      complete, and, when the context is never cancelled and no verse read
      fails, exactly then. */
  lemma {:induction false} ValidateBooksSpec(env: Env, db: Db, clock: nat, i: nat)
    requires i <= 66
    decreases 66 - i
    ensures var r := ValidateBooks(env, db, clock, i);
      && (r.1.Pass? ==> CompleteFrom(db, i))
      && (env.cancelAt.None? && ReadableFrom(env, i) ==> (r.1.Pass? <==> CompleteFrom(db, i)))
  {
    if i < 66 {
      var b := BookAt(i);
      if b.code in db.books {
        ValidateChaptersSpec(env, db, clock, b.code, b.chapterCount, 1);
        var r := ValidateChapters(env, db, clock, b.code, b.chapterCount, 1);
        if r.1.Pass? {
          ValidateBooksSpec(env, db, r.0, i + 1);
        }
      }
    }
  }

  /** The setup succeeds exactly when no book write fails, and then every
      book is stored. */
  lemma {:induction false} SetupSpec(env: Env, db: Db, codes: seq<string>)
    decreases |codes|
    ensures var r := Setup(env, db, codes);
      && (r.1.Pass? <==> forall k :: 0 <= k < |codes| ==> codes[k] !in env.bookFaults)
      && (r.1.Pass? ==> forall k :: 0 <= k < |codes| ==> codes[k] in r.0.books)
  {
    if codes != [] && codes[0] !in env.bookFaults {
      SetupSpec(env, db.(books := db.books + {codes[0]}), codes[1..]);
    }
  }

  /** `CrawlAll` reports success only when the store it leaves is complete. */
  lemma CrawlAllValidated(env: Env, w: World)
    ensures var r := CrawlAllSpec(env, w); r.1.Pass? ==> CompleteFrom(r.0.db, 0)
  {
    if !env.versionFault {
      var s := Setup(env, w.db, Codes());
      if s.1.Pass? {
        var c := CrawlBooks(env, w.(db := s.0), 0);
        if c.1.Pass? {
          ValidateBooksSpec(env, c.0.db, c.0.clock, 0);
        }
      }
    }
  }

  /** With the context cancelled before `CrawlAll` starts, no page is
      requested and no progress reported; the call fails. */
  lemma CancelledCrawlAll(env: Env, w: World)
    requires CancelledAt(env.cancelAt, w.clock)
    ensures var r := CrawlAllSpec(env, w);
      && r.1.Fail? && r.0.fetched == w.fetched && r.0.progress == w.progress
      && r.0.db.checkpoints == w.db.checkpoints && r.0.db.verses == w.db.verses
  {
    CatalogChapterCounts();
  }

  // ---------------------------------------------------------------------
  // The store, the context and the crawler

  /** The database of one version, with the oracles for the reads and
      writes that fail. */
  class Store {
    var books: set<string>
    var checkpoints: map<ChapterKey, Checkpoint>
    var verses: seq<VerseRow>
    var footnotes: seq<FootnoteRow>
    const unreadable: set<ChapterKey>
    const versionFault: bool
    const bookFaults: set<string>
    const statusFaults: set<ChapterKey>
    const noteFaults: set<ChapterKey>
    const readFaults: set<ChapterKey>

    function Snapshot(): Db
      reads this
    {
      Db(books, checkpoints, verses, footnotes)
    }

    constructor(unreadable: set<ChapterKey>, versionFault: bool, bookFaults: set<string>,
                statusFaults: set<ChapterKey>, noteFaults: set<ChapterKey>, readFaults: set<ChapterKey>)
      ensures Snapshot() == Db({}, map[], [], [])
      ensures this.unreadable == unreadable && this.versionFault == versionFault && this.bookFaults == bookFaults
      ensures this.statusFaults == statusFaults && this.noteFaults == noteFaults && this.readFaults == readFaults
    {
      books := {};
      checkpoints := map[];
      verses := [];
      footnotes := [];
      this.unreadable := unreadable;
      this.versionFault := versionFault;
      this.bookFaults := bookFaults;
      this.statusFaults := statusFaults;
      this.noteFaults := noteFaults;
      this.readFaults := readFaults;
    }

    /** Footnote inserts for verse row `verse` fail: it is the row of a
        chapter whose footnote writes fail. */
    predicate NoteBlocked(verse: nat)
      reads this
    {
      1 <= verse <= |verses| && ChapterKey(verses[verse - 1].book, verses[verse - 1].chapter) in noteFaults
    }

    /** `InsertVersion`: the version row is upserted unless the write fails. */
    method InsertVersion() returns (ok: bool)
      ensures ok == !versionFault
    {
      ok := !versionFault;
    }

    /** `InsertBook`: an upsert, so a book already stored stays stored. */
    method InsertBook(code: string) returns (ok: bool)
      modifies this
      ensures ok == (code !in bookFaults)
      ensures Snapshot() == if ok then old(Snapshot()).(books := old(books) + {code}) else old(Snapshot())
    {
      ok := code !in bookFaults;
      if ok {
        books := books + {code};
      }
    }

    /** `GetBookByCode` of the store: whether the book row exists. */
    method HasBook(code: string) returns (found: bool)
      ensures found == (code in books)
    {
      found := code in books;
    }

    /** `GetCrawlStatus`: the recorded status, the empty status for a
        chapter never recorded, nothing when the read fails. */
    method GetCrawlStatus(key: ChapterKey) returns (r: Option<string>)
      ensures r == if key in unreadable then None else Some(StatusOf(Snapshot(), key))
    {
      if key in unreadable {
        return None;
      }
      r := Some(if key in checkpoints then checkpoints[key].status else "");
    }

    /** `SetCrawlStatus`: an upsert of the chapter's checkpoint, unless the
        write fails. */
    method SetCrawlStatus(key: ChapterKey, cp: Checkpoint) returns (ok: bool)
      modifies this
      ensures ok == (key !in statusFaults)
      ensures Snapshot() == if ok then SetStatus(old(Snapshot()), key, cp) else old(Snapshot())
    {
      ok := key !in statusFaults;
      if ok {
        checkpoints := checkpoints[key := cp];
      }
    }

    /** `InsertVerse`: the uniqueness constraint on book, chapter and verse
        number rejects a second row; otherwise the row is appended and its
        id is its position, counting from 1. */
    method InsertVerse(code: string, ch: int, v: Verse) returns (id: Option<nat>)
      modifies this
      ensures id.None? <==> Duplicate(old(Snapshot()), code, ch, v.number)
      ensures id.None? ==> Snapshot() == old(Snapshot())
      ensures id.Some? ==> id.value == |old(verses)| + 1 && Snapshot() == old(Snapshot()).(verses := old(verses) + [RowOf(code, ch, v)])
    {
      if Duplicate(Snapshot(), code, ch, v.number) {
        return None;
      }
      verses := verses + [RowOf(code, ch, v)];
      id := Some(|verses|);
    }

    /** `InsertFootnote`: the row is appended, unless the write fails. */
    method InsertFootnote(verse: nat, f: Footnote) returns (ok: bool)
      modifies this
      ensures ok == !NoteBlocked(verse)
      ensures Snapshot() == if ok then old(Snapshot()).(footnotes := old(footnotes) + [FootnoteRow(verse, f.marker, f.content)]) else old(Snapshot())
    {
      ok := !NoteBlocked(verse);
      if ok {
        footnotes := footnotes + [FootnoteRow(verse, f.marker, f.content)];
      }
    }

    /** `GetVerses`: the rows of one chapter, nothing when the read fails. */
    method GetVerses(code: string, ch: int) returns (rows: Option<seq<VerseRow>>)
      ensures rows == if ChapterKey(code, ch) in readFaults then None else Some(ChapterRows(verses, code, ch))
    {
      if ChapterKey(code, ch) in readFaults {
        return None;
      }
      rows := Some(ChapterRows(verses, code, ch));
    }
  }

  /** A cancellable context: every observation advances the clock. */
  class Context {
    var clock: nat
    const cancelAt: Option<nat>

    constructor(cancelAt: Option<nat>)
      ensures clock == 0 && this.cancelAt == cancelAt
    {
      clock := 0;
      this.cancelAt := cancelAt;
    }

    /** `ctx.Err()`: whether the context is cancelled by now. */
    method Err() returns (cancelled: bool)
      modifies this
      ensures cancelled == CancelledAt(cancelAt, old(clock)) && clock == old(clock) + 1
    {
      cancelled := CancelledAt(cancelAt, clock);
      clock := clock + 1;
    }
  }

  /** The crawler: its store, the pages the site serves, and the record of
      the progress callback's calls and of the pages requested. */
  class Crawler {
    const db: Store
    const pages: map<ChapterKey, Page>
    var progress: seq<Report>
    var fetched: seq<ChapterKey>

    constructor(db: Store, pages: map<ChapterKey, Page>)
      ensures this.db == db && this.pages == pages && progress == [] && fetched == []
    {
      this.db := db;
      this.pages := pages;
      progress := [];
      fetched := [];
    }

    function EnvOf(ctx: Context): Env {
      Env(ctx.cancelAt, pages, db.unreadable, db.versionFault, db.bookFaults, db.statusFaults, db.noteFaults, db.readFaults, Parse)
    }

    function WorldOf(ctx: Context): World
      reads this, db, ctx
    {
      World(db.Snapshot(), ctx.clock, progress, fetched)
    }

    /** The rate limiter's wait, which gives up on a cancelled context. */
    method WaitLimiter(ctx: Context) returns (ok: bool)
      modifies ctx
      ensures ok == !CancelledAt(ctx.cancelAt, old(ctx.clock)) && ctx.clock == old(ctx.clock) + 1
    {
      var cancelled := ctx.Err();
      ok := !cancelled;
    }

    /** `fetchChapter`: a request is sent only on a live context; a page the
        site does not serve is a failed request. */
    method FetchChapter(ctx: Context, key: ChapterKey) returns (r: Result<Page, CrawlError>)
      modifies this, ctx
      ensures ctx.clock == old(ctx.clock) + 1 && progress == old(progress)
      ensures CancelledAt(ctx.cancelAt, old(ctx.clock)) ==> r == Err(Cancelled) && fetched == old(fetched)
      ensures !CancelledAt(ctx.cancelAt, old(ctx.clock)) ==>
        && fetched == old(fetched) + [key]
        && r == if key in pages then Ok(pages[key]) else Err(FetchFailed)
    {
      var cancelled := ctx.Err();
      if cancelled {
        return Err(Cancelled);
      }
      fetched := fetched + [key];
      if key in pages {
        r := Ok(pages[key]);
      } else {
        r := Err(FetchFailed);
      }
    }

    /** The insertion loop of `crawlChapter`: each verse, then its
        footnotes, stopping at the first rejected verse or failed footnote. */
    method StoreVerses(code: string, ch: int, vs: seq<Verse>) returns (r: Outcome<CrawlError>)
      modifies db
      ensures (db.Snapshot(), r) == InsertVerses(old(db.Snapshot()), code, ch, vs, ChapterKey(code, ch) in db.noteFaults)
    {
      ghost var noteFault := ChapterKey(code, ch) in db.noteFaults;
      var i := 0;
      while i < |vs|
        invariant 0 <= i <= |vs|
        invariant InsertVerses(old(db.Snapshot()), code, ch, vs, noteFault) == InsertVerses(db.Snapshot(), code, ch, vs[i..], noteFault)
      {
        var v := vs[i];
        ghost var before := db.Snapshot();
        var id := db.InsertVerse(code, ch, v);
        if id.None? {
          return Fail(DuplicateVerse);
        }
        assert db.NoteBlocked(id.value) == noteFault;
        var ok := StoreFootnotes(id.value, v.footnotes);
        if !ok {
          return Fail(FootnoteInsertFailed(id.value));
        }
        assert db.Snapshot() == WithVerse(before, code, ch, v);
        assert vs[i..][1..] == vs[i + 1..];
        i := i + 1;
      }
      r := Pass;
    }

    /** The footnote loop of one verse, which stops at the first failed
        insert; for one verse they all fail or none does. */
    method StoreFootnotes(id: nat, fs: seq<Footnote>) returns (ok: bool)
      modifies db
      ensures ok == (fs == [] || !old(db.NoteBlocked(id)))
      ensures db.Snapshot() == if ok then old(db.Snapshot()).(footnotes := old(db.footnotes) + NoteRows(id, fs)) else old(db.Snapshot())
    {
      for j := 0 to |fs|
        invariant db.Snapshot() == old(db.Snapshot()).(footnotes := old(db.footnotes) + NoteRows(id, fs[..j]))
        invariant j > 0 ==> !old(db.NoteBlocked(id))
      {
        ok := db.InsertFootnote(id, fs[j]);
        if !ok {
          assert fs[..0] == [];
          return;
        }
        NoteRowsSnoc(id, fs, j);
      }
      assert fs[..|fs|] == fs;
      ok := true;
    }

    /** `crawlChapter`: the limiter, the request and the parse, then the
        rest in `StoreParsed`. */
    method CrawlChapter(ctx: Context, code: string, ch: int) returns (r: Outcome<CrawlError>)
      modifies this, db, ctx
      ensures (WorldOf(ctx), r) == ChapterStep(EnvOf(ctx), old(WorldOf(ctx)), code, ch)
    {
      var ok := WaitLimiter(ctx);
      if !ok {
        return Fail(Cancelled);
      }
      var page := FetchChapter(ctx, ChapterKey(code, ch));
      if page.Err? {
        return Fail(page.error);
      }
      var parsed := ParseChapterHTML(page.value.html, page.value.container);
      assert parsed == EnvOf(ctx).parse(page.value);
      r := StoreParsed(ctx, code, ch, parsed);
    }

    /** The part of `crawlChapter` after the parse. */
    method StoreParsed(ctx: Context, code: string, ch: int, parsed: Result<seq<Verse>, ParseError>) returns (r: Outcome<CrawlError>)
      modifies db
      ensures (WorldOf(ctx), r) == StoreChapter(EnvOf(ctx), old(WorldOf(ctx)), code, ch, parsed)
    {
      if parsed.Err? {
        return Fail(ParseFailed(parsed.error));
      }
      var found := db.HasBook(code);
      if !found {
        return Fail(BookNotStored(code));
      }
      r := StoreVerses(code, ch, parsed.value);
      if r.Fail? {
        return;
      }
      var written := db.SetCrawlStatus(ChapterKey(code, ch), Checkpoint(Done, |parsed.value|));
      if !written {
        return Fail(StatusWriteFailed(ChapterKey(code, ch)));
      }
    }

    /** One iteration of the loop of `crawlBookChapters`; `stopped` says
        that the call returns `r`. */
    method CrawlIteration(ctx: Context, code: string, name: string, count: int, ch: int) returns (stopped: bool, r: Outcome<CrawlError>)
      modifies this, db, ctx
      ensures Iteration(EnvOf(ctx), old(WorldOf(ctx)), code, name, count, ch) == if stopped then Stop(WorldOf(ctx), r) else Next(WorldOf(ctx))
    {
      stopped, r := false, Pass;
      ghost var env, w0 := EnvOf(ctx), WorldOf(ctx);
      ghost var t := Iteration(env, w0, code, name, count, ch);
      var cancelled := ctx.Err();
      if cancelled {
        assert t == Stop(WorldOf(ctx), Fail(Cancelled));
        return true, Fail(Cancelled);
      }
      var key := ChapterKey(code, ch);
      var status := db.GetCrawlStatus(key);
      ghost var w1 := WorldOf(ctx);
      assert w1 == w0.(clock := w0.clock + 1);
      if status.None? {
        assert t == Stop(w1, Fail(StatusUnreadable(key)));
        return true, Fail(StatusUnreadable(key));
      }
      IterationGoesOn(env, w0, code, name, count, ch);
      ResumeChapter(ctx, code, name, count, ch, status.value == Done);
    }

    /** After a readable checkpoint: the report of a chapter already done,
        or the chapter itself. */
    method ResumeChapter(ctx: Context, code: string, name: string, count: int, ch: int, done: bool)
      modifies this, db, ctx
      ensures WorldOf(ctx) == Resume(EnvOf(ctx), old(WorldOf(ctx)), code, name, count, ch, done)
    {
      if done {
        progress := progress + [Report(name, ch, count)];
      } else {
        AttemptChapter(ctx, code, name, count, ch);
      }
    }

    /** A chapter not yet done: `crawlChapter`, then the progress report or
        the `error` checkpoint. */
    method AttemptChapter(ctx: Context, code: string, name: string, count: int, ch: int)
      modifies this, db, ctx
      ensures WorldOf(ctx) == Attempt(EnvOf(ctx), old(WorldOf(ctx)), code, name, count, ch)
    {
      var e := CrawlChapter(ctx, code, ch);
      if e.Fail? {
        // a failure of this write goes unnoticed
        var written := db.SetCrawlStatus(ChapterKey(code, ch), Checkpoint(Failed, 0));
      } else {
        progress := progress + [Report(name, ch, count)];
      }
    }

    /** `crawlBookChapters`. */
    method CrawlBookChapters(ctx: Context, code: string, name: string, count: int) returns (r: Outcome<CrawlError>)
      modifies this, db, ctx
      ensures (WorldOf(ctx), r) == CrawlFrom(EnvOf(ctx), old(WorldOf(ctx)), code, name, count, 1)
    {
      var ch := 1;
      while ch <= count
        invariant 1 <= ch
        invariant CrawlFrom(EnvOf(ctx), old(WorldOf(ctx)), code, name, count, 1) == CrawlFrom(EnvOf(ctx), WorldOf(ctx), code, name, count, ch)
        decreases count - ch + 1
      {
        var stopped;
        stopped, r := CrawlIteration(ctx, code, name, count, ch);
        if stopped {
          return;
        }
        ch := ch + 1;
      }
      r := Pass;
    }

    /** `CrawlBook`. */
    method CrawlBook(ctx: Context, code: string) returns (r: Outcome<CrawlError>)
      modifies this, db, ctx
      ensures (WorldOf(ctx), r) == CrawlBookSpec(EnvOf(ctx), old(WorldOf(ctx)), code)
    {
      var info := GetBookByCode(code);
      if info.None? {
        return Fail(UnknownBookCode(code));
      }
      r := CrawlBookChapters(ctx, info.value.code, info.value.nameKo, info.value.chapterCount);
    }

    /** `Validate`. */
    method Validate(ctx: Context) returns (r: Outcome<CrawlError>)
      modifies ctx
      ensures (ctx.clock, r) == ValidateBooks(EnvOf(ctx), db.Snapshot(), old(ctx.clock), 0)
    {
      var books := AllBooks();
      for i := 0 to 66
        invariant ValidateBooks(EnvOf(ctx), db.Snapshot(), old(ctx.clock), 0) == ValidateBooks(EnvOf(ctx), db.Snapshot(), ctx.clock, i)
      {
        var b := books[i];
        var found := db.HasBook(b.code);
        if !found {
          return Fail(BookNotFound(b.code));
        }
        r := ValidateBook(ctx, b.code, b.chapterCount);
        if r.Fail? {
          return;
        }
      }
      r := Pass;
    }

    /** The chapter loop of `Validate` for one book. */
    method ValidateBook(ctx: Context, code: string, count: int) returns (r: Outcome<CrawlError>)
      modifies ctx
      ensures (ctx.clock, r) == ValidateChapters(EnvOf(ctx), db.Snapshot(), old(ctx.clock), code, count, 1)
    {
      var ch := 1;
      while ch <= count
        invariant 1 <= ch
        invariant ValidateChapters(EnvOf(ctx), db.Snapshot(), old(ctx.clock), code, count, 1) == ValidateChapters(EnvOf(ctx), db.Snapshot(), ctx.clock, code, count, ch)
        decreases count - ch + 1
      {
        var cancelled := ctx.Err();
        if cancelled {
          return Fail(Cancelled);
        }
        var rows := db.GetVerses(code, ch);
        if rows.None? {
          return Fail(VersesUnreadable(code, ch));
        }
        if rows.value == [] {
          return Fail(NoVerses(code, ch));
        }
        var filled := AllTextsPresent(rows.value);
        if !filled {
          return Fail(EmptyVerseText(code, ch));
        }
        ch := ch + 1;
      }
      r := Pass;
    }

    /** `CrawlAll`. */
    method CrawlAll(ctx: Context) returns (r: Outcome<CrawlError>)
      modifies this, db, ctx
      ensures (WorldOf(ctx), r) == CrawlAllSpec(EnvOf(ctx), old(WorldOf(ctx)))
    {
      var ok := db.InsertVersion();
      if !ok {
        return Fail(VersionInsertFailed);
      }
      r := InsertBooks(ctx);
      if r.Fail? {
        return;
      }
      r := CrawlEveryBook(ctx);
      if r.Fail? {
        return;
      }
      r := Validate(ctx);
    }

    /** The book rows of `CrawlAll`, in catalog order. */
    method InsertBooks(ctx: Context) returns (r: Outcome<CrawlError>)
      modifies db
      ensures (db.Snapshot(), r) == Setup(EnvOf(ctx), old(db.Snapshot()), Codes())
    {
      var books := AllBooks();
      var codes := Codes();
      for i := 0 to 66
        invariant Setup(EnvOf(ctx), old(db.Snapshot()), codes) == Setup(EnvOf(ctx), db.Snapshot(), codes[i..])
      {
        var ok := db.InsertBook(books[i].code);
        if !ok {
          return Fail(BookInsertFailed(books[i].code));
        }
        assert codes[i..][1..] == codes[i + 1..];
      }
      r := Pass;
    }

    /** The book loop of `CrawlAll`. */
    method CrawlEveryBook(ctx: Context) returns (r: Outcome<CrawlError>)
      modifies this, db, ctx
      ensures (WorldOf(ctx), r) == CrawlBooks(EnvOf(ctx), old(WorldOf(ctx)), 0)
    {
      var books := AllBooks();
      for i := 0 to 66
        invariant CrawlBooks(EnvOf(ctx), old(WorldOf(ctx)), 0) == CrawlBooks(EnvOf(ctx), WorldOf(ctx), i)
      {
        var b := books[i];
        assert b == BookAt(i);
        ghost var before := WorldOf(ctx);
        r := CrawlBookChapters(ctx, b.code, b.nameKo, b.chapterCount);
        assert CrawlBooks(EnvOf(ctx), before, i)
          == if r.Fail? then (WorldOf(ctx), r) else CrawlBooks(EnvOf(ctx), WorldOf(ctx), i + 1);
        if r.Fail? {
          return;
        }
      }
      r := Pass;
    }
  }

  /** The scan of a chapter's rows for an empty text. */
  method AllTextsPresent(rows: seq<VerseRow>) returns (ok: bool)
    ensures ok == !HasEmptyText(rows)
  {
    for j := 0 to |rows|
      invariant forall k :: 0 <= k < j ==> rows[k].text != ""
    {
      if rows[j].text == "" {
        return false;
      }
    }
    ok := true;
  }

  lemma NoteRowsSnoc(id: nat, fs: seq<Footnote>, j: nat)
    requires j < |fs|
    ensures NoteRows(id, fs[..j + 1]) == NoteRows(id, fs[..j]) + [FootnoteRow(id, fs[j].marker, fs[j].content)]
  {
    assert fs[..j + 1][..j] == fs[..j];
  }
}
