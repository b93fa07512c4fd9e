/** The chapter grid of one book: a 1-based selection moved by the arrow
    keys, one step sideways or one row of `cols` up and down. */
module TuiChapters {
  import opened Books

  datatype ChapterList = ChapterList(book: BookInfo, selected: int, cols: int)

  datatype ChapterMsg = Key(key: string) | OtherMsg

  datatype ChapterCmd = NoCmd | ChapterSelected(book: BookInfo, chapter: int)

  datatype Step = Step(model: ChapterList, cmd: ChapterCmd)

  /** `NewChapterList`: chapter 1 selected in a grid of 10 columns. */
  function NewChapterList(book: BookInfo): (m: ChapterList)
    ensures m.book == book && m.selected == 1 && m.cols == 10
  {
    ChapterList(book, 1, 10)
  }

  predicate IsRight(k: string) { k == "right" || k == "l" }
  predicate IsLeft(k: string) { k == "left" || k == "h" }
  predicate IsDown(k: string) { k == "down" || k == "j" }
  predicate IsUp(k: string) { k == "up" || k == "k" }

  predicate InBook(m: ChapterList) {
    1 <= m.selected <= m.book.chapterCount
  }

  /** `Update`: right/left move one chapter unless at the last/first; down/up
      move one row unless that leaves 1..ChapterCount; enter selects the
      chapter; anything else changes nothing. */
  function Update(m: ChapterList, msg: ChapterMsg): (r: Step)
    ensures r.model.book == m.book && r.model.cols == m.cols
    ensures InBook(m) && m.cols >= 0 ==> InBook(r.model)
    ensures r.cmd != NoCmd <==> msg == Key("enter")
    ensures r.cmd != NoCmd ==> r.model == m && r.cmd == ChapterSelected(m.book, m.selected)
    ensures msg.Key? && IsRight(msg.key) ==>
      && r.model.selected - m.selected in {0, 1}
      && (r.model.selected == m.selected <==> m.selected >= m.book.chapterCount)
    ensures msg.Key? && IsLeft(msg.key) ==>
      && m.selected - r.model.selected in {0, 1}
      && (r.model.selected == m.selected <==> m.selected <= 1)
    ensures msg.Key? && IsDown(msg.key) ==>
      r.model.selected == (if m.selected + m.cols <= m.book.chapterCount then m.selected + m.cols else m.selected)
    ensures msg.Key? && IsUp(msg.key) ==>
      r.model.selected == (if m.selected - m.cols >= 1 then m.selected - m.cols else m.selected)
    ensures (msg.OtherMsg? || !(IsRight(msg.key) || IsLeft(msg.key) || IsDown(msg.key) || IsUp(msg.key))) ==> r.model == m
  {
    match msg
    case OtherMsg => Step(m, NoCmd)
    case Key(key) =>
      if IsRight(key) then
        Step(if m.selected < m.book.chapterCount then m.(selected := m.selected + 1) else m, NoCmd)
      else if IsLeft(key) then
        Step(if m.selected > 1 then m.(selected := m.selected - 1) else m, NoCmd)
      else if IsDown(key) then
        var next := m.selected + m.cols;
        Step(if next <= m.book.chapterCount then m.(selected := next) else m, NoCmd)
      else if IsUp(key) then
        var prev := m.selected - m.cols;
        Step(if prev >= 1 then m.(selected := prev) else m, NoCmd)
      else if key == "enter" then
        Step(m, ChapterSelected(m.book, m.selected))
      else Step(m, NoCmd)
  }

  /** A row down that moved is undone by a row up, and a step right that
      moved by a step left. */
  lemma MovesUndo(m: ChapterList)
    requires InBook(m) && m.cols >= 0
    ensures var d := Update(m, Key("down")).model;
      d != m ==> Update(d, Key("up")).model == m
    ensures var s := Update(m, Key("right")).model;
      s != m ==> Update(s, Key("left")).model == m
  {
  }
}
