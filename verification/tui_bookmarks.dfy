/** The bookmarks screen: two tabs, saved bookmarks and highlighted verses,
    each a list with a selection that can be opened or deleted. */
module TuiBookmarks {
  import opened Wrappers

  datatype Tab = BookmarksTab | HighlightsTab

  /** A bookmark joined with its verse. */
  datatype BookmarkItem = BookmarkItem(id: int, verseId: int, note: string, verseText: string,
                                       bookCode: string, chapter: int, verseNum: int)

  /** A highlight joined with its verse. */
  datatype HighlightItem = HighlightItem(id: int, verseId: int, color: string, verseText: string,
                                         bookCode: string, chapter: int, verseNum: int)

  datatype BookmarkModel = BookmarkModel(
    tab: Tab,
    bookmarks: seq<BookmarkItem>,
    highlights: seq<HighlightItem>,
    selected: int,
    loaded: bool,
    hasDatabase: bool)

  datatype BookmarkMsg =
    | Loaded(lists: Option<(seq<BookmarkItem>, seq<HighlightItem>)>)  // None: a query failed
    | Deleted(ok: bool)
    | Key(key: string)
    | OtherMsg

  datatype BookmarkCmd =
    | NoCmd
    | LoadBookmarks
    | RemoveBookmark(id: int)
    | RemoveHighlight(verseId: int)
    | GoToVerse(bookCode: string, chapter: int, verse: int)

  datatype Step = Step(model: BookmarkModel, cmd: BookmarkCmd)

  /** `NewBookmarks`: the bookmarks tab, nothing loaded. */
  function NewBookmarks(hasDatabase: bool): (m: BookmarkModel)
    ensures m.tab == BookmarksTab && m.bookmarks == [] && m.highlights == [] && m.selected == 0 && !m.loaded
  {
    BookmarkModel(BookmarksTab, [], [], 0, false, hasDatabase)
  }

  /** The length of the list on the active tab. */
  function CurrentListLen(m: BookmarkModel): nat {
    if m.tab == BookmarksTab then |m.bookmarks| else |m.highlights|
  }

  /** The selection lies on the active list, or is 0 when that list is empty. */
  predicate SelectionInList(m: BookmarkModel) {
    0 <= m.selected && (m.selected < CurrentListLen(m) || m.selected == 0)
  }

  /** `deleteSelected`: remove the selected bookmark by its id, or the
      selected highlight by its verse; nothing without a database or a
      selected item. */
  function DeleteSelected(m: BookmarkModel): (cmd: BookmarkCmd)
    ensures cmd != NoCmd <==> m.hasDatabase && 0 <= m.selected < CurrentListLen(m)
    ensures cmd.RemoveBookmark? ==> m.tab == BookmarksTab && cmd.id == m.bookmarks[m.selected].id
    ensures cmd.RemoveHighlight? ==> m.tab == HighlightsTab && cmd.verseId == m.highlights[m.selected].verseId
    ensures cmd == NoCmd || cmd.RemoveBookmark? || cmd.RemoveHighlight?
  {
    if !m.hasDatabase || m.selected < 0 then NoCmd
    else if m.tab == BookmarksTab && m.selected < |m.bookmarks| then RemoveBookmark(m.bookmarks[m.selected].id)
    else if m.tab == HighlightsTab && m.selected < |m.highlights| then RemoveHighlight(m.highlights[m.selected].verseId)
    else NoCmd
  }

  /** `goToSelected`: open the verse of the selected item of the active tab. */
  function GoToSelected(m: BookmarkModel): (cmd: BookmarkCmd)
    ensures cmd != NoCmd <==> 0 <= m.selected < CurrentListLen(m)
    ensures cmd != NoCmd && m.tab == BookmarksTab ==>
      var b := m.bookmarks[m.selected]; cmd == GoToVerse(b.bookCode, b.chapter, b.verseNum)
    ensures cmd != NoCmd && m.tab == HighlightsTab ==>
      var h := m.highlights[m.selected]; cmd == GoToVerse(h.bookCode, h.chapter, h.verseNum)
  {
    if m.selected < 0 then NoCmd
    else if m.tab == BookmarksTab && m.selected < |m.bookmarks| then
      var b := m.bookmarks[m.selected];
      GoToVerse(b.bookCode, b.chapter, b.verseNum)
    else if m.tab == HighlightsTab && m.selected < |m.highlights| then
      var h := m.highlights[m.selected];
      GoToVerse(h.bookCode, h.chapter, h.verseNum)
    else NoCmd
  }

  predicate IsDown(k: string) { k == "down" || k == "j" }
  predicate IsUp(k: string) { k == "up" || k == "k" }

  /** `Update`: a load sets `loaded`, resets the selection and, on success,
      replaces both lists; a successful delete reloads; tab switches tabs and
      resets the selection; j/k move within the active list; d deletes and
      enter opens the selected item. The selection stays on the list. */
  function Update(m: BookmarkModel, msg: BookmarkMsg): (r: Step)
    ensures r.model.hasDatabase == m.hasDatabase
    ensures SelectionInList(m) ==> SelectionInList(r.model)
    ensures msg.Loaded? ==>
      && r.model.loaded && r.model.selected == 0 && r.model.tab == m.tab && r.cmd == NoCmd
      && (msg.lists.Some? ==> r.model.bookmarks == msg.lists.value.0 && r.model.highlights == msg.lists.value.1)
      && (msg.lists.None? ==> r.model.bookmarks == m.bookmarks && r.model.highlights == m.highlights)
    ensures msg.Deleted? ==> r.model == m && r.cmd == (if msg.ok then LoadBookmarks else NoCmd)
    ensures msg == Key("tab") ==>
      && r.model == m.(tab := if m.tab == BookmarksTab then HighlightsTab else BookmarksTab, selected := 0)
      && r.cmd == NoCmd
    ensures msg.Key? && IsDown(msg.key) ==>
      && r.model == m.(selected := if m.selected < CurrentListLen(m) - 1 then m.selected + 1 else m.selected)
      && r.cmd == NoCmd
    ensures msg.Key? && IsUp(msg.key) ==>
      && r.model == m.(selected := if m.selected > 0 then m.selected - 1 else m.selected)
      && r.cmd == NoCmd
    ensures msg == Key("d") ==> r.model == m && r.cmd == DeleteSelected(m)
    ensures msg == Key("enter") ==> r.model == m && r.cmd == GoToSelected(m)
  {
    match msg
    case Loaded(lists) =>
      var m := m.(loaded := true);
      var m := if lists.Some? then m.(bookmarks := lists.value.0, highlights := lists.value.1) else m;
      Step(m.(selected := 0), NoCmd)
    case Deleted(ok) =>
      Step(m, if ok then LoadBookmarks else NoCmd)
    case Key(key) =>
      if key == "tab" then
        Step(m.(tab := if m.tab == BookmarksTab then HighlightsTab else BookmarksTab, selected := 0), NoCmd)
      else if IsDown(key) then
        var max := CurrentListLen(m) - 1;
        Step(if m.selected < max then m.(selected := m.selected + 1) else m, NoCmd)
      else if IsUp(key) then
        Step(if m.selected > 0 then m.(selected := m.selected - 1) else m, NoCmd)
      else if key == "d" then Step(m, DeleteSelected(m))
      else if key == "enter" then Step(m, GoToSelected(m))
      else Step(m, NoCmd)
    case OtherMsg => Step(m, NoCmd)
  }

  // ---------------------------------------------------------------------
  // Display helpers

  /** `truncateRunes`: at most `maxLen` characters of `s` followed by "..."
      when `s` is longer; `s` itself when it fits or `maxLen` is not
      positive. */
  function TruncateRunes(s: string, maxLen: int): (r: string)
    ensures maxLen <= 0 || |s| <= maxLen ==> r == s
    ensures maxLen > 0 && |s| > maxLen ==> |r| == maxLen + 3 && r[..maxLen] == s[..maxLen] && r[maxLen..] == "..."
  {
    if maxLen <= 0 then s
    else if |s| > maxLen then s[..maxLen] + "..."
    else s
  }

  const HighlightColors: map<string, string> := map[
    "yellow" := "#e0af68",
    "green" := "#9ece6a",
    "blue" := "#7aa2f7",
    "pink" := "#f7768e",
    "purple" := "#bb9af7"]

  /** `highlightColor`: the hex colour of one of the five highlight names,
      the yellow one for any other name. */
  function HighlightColor(name: string): (c: string)
    ensures name in HighlightColors ==> c == HighlightColors[name]
    ensures name !in HighlightColors ==> c == HighlightColors["yellow"]
  {
    if name == "green" then "#9ece6a"
    else if name == "blue" then "#7aa2f7"
    else if name == "pink" then "#f7768e"
    else if name == "purple" then "#bb9af7"
    else "#e0af68"
  }
}
