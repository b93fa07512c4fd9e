/** The reading screen of one chapter: its verses arrive asynchronously, and
    h/l ask for the neighbouring chapter. */
module TuiReading {
  import opened Wrappers
  import opened Books
  import opened ReadCmd

  datatype Reading = Reading(book: BookInfo, chapter: int, verses: seq<Verse>, loading: bool)

  datatype ReadingMsg =
    | VersesLoaded(result: Option<seq<Verse>>)  // None: the query failed
    | Key(key: string)
    | OtherMsg

  datatype ReadingCmd = NoCmd | ChapterSelected(book: BookInfo, chapter: int)

  datatype Step = Step(model: Reading, cmd: ReadingCmd)

  /** `NewReading`: the chapter with no verses yet, loading. */
  function NewReading(book: BookInfo, chapter: int): (m: Reading)
    ensures m.book == book && m.chapter == chapter && m.verses == [] && m.loading
  {
    Reading(book, chapter, [], true)
  }

  predicate IsPrev(k: string) { k == "h" || k == "left" }
  predicate IsNext(k: string) { k == "l" || k == "right" }

  /** `Update`: a verses message ends loading and, on success, replaces the
      verses; h/left asks for the previous chapter unless at chapter 1, l/right
      for the next unless at the last; the screen itself only changes on a
      verses message. A requested chapter stays within the book whenever the
      current one is. */
  function Update(m: Reading, msg: ReadingMsg): (r: Step)
    ensures r.model.book == m.book && r.model.chapter == m.chapter
    ensures msg.VersesLoaded? ==>
      && !r.model.loading && r.cmd == NoCmd
      && r.model.verses == (if msg.result.Some? then msg.result.value else m.verses)
    ensures !msg.VersesLoaded? ==> r.model == m
    ensures msg.Key? && IsPrev(msg.key) ==>
      r.cmd == (if m.chapter > 1 then ChapterSelected(m.book, m.chapter - 1) else NoCmd)
    ensures msg.Key? && IsNext(msg.key) ==>
      r.cmd == (if m.chapter < m.book.chapterCount then ChapterSelected(m.book, m.chapter + 1) else NoCmd)
    ensures r.cmd.ChapterSelected? ==>
      && r.cmd.book == m.book && (r.cmd.chapter == m.chapter - 1 || r.cmd.chapter == m.chapter + 1)
      && (1 <= m.chapter <= m.book.chapterCount ==> 1 <= r.cmd.chapter <= m.book.chapterCount)
  {
    match msg
    case VersesLoaded(result) =>
      var m := m.(loading := false);
      if result.None? then Step(m, NoCmd) else Step(m.(verses := result.value), NoCmd)
    case Key(key) =>
      if IsPrev(key) then
        Step(m, if m.chapter > 1 then ChapterSelected(m.book, m.chapter - 1) else NoCmd)
      else if IsNext(key) then
        Step(m, if m.chapter < m.book.chapterCount then ChapterSelected(m.book, m.chapter + 1) else NoCmd)
      else Step(m, NoCmd)
    case OtherMsg => Step(m, NoCmd)
  }
}
