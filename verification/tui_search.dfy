/** The search screen: a text input and a result list. Keys go to the input
    while it has the focus, and move through the results otherwise. */
module TuiSearch {
  import opened Wrappers
  import opened TextUtil

  /** A result row: the verse it points at and its text. */
  datatype Hit = Hit(bookCode: string, chapter: int, verseNum: int, text: string)

  datatype SearchModel = SearchModel(
    focused: bool,       // the text input has the focus
    input: string,       // what the input holds
    results: seq<Hit>,
    selected: int,
    query: string,       // the last query sent
    loading: bool,
    noResults: bool)

  datatype SearchMsg =
    | Results(hits: Option<seq<Hit>>)  // None: the search failed
    | Key(key: string)
    | OtherMsg

  datatype SearchCmd =
    | NoCmd
    | SearchVerses(version: string, query: string, limit: int)
    | GoToVerse(bookCode: string, chapter: int, verse: int)
    | ToInput                           // the message is handed to the text input widget

  datatype Step = Step(model: SearchModel, cmd: SearchCmd)

  /** The version searched and how many results are asked for. */
  const SearchVersion := "GAE"
  const ResultLimit := 20

  /** `NewSearch`: an empty, focused input and no results. */
  function NewSearch(): (m: SearchModel)
    ensures m.focused && m.input == "" && m.results == [] && m.selected == 0 && !m.loading && !m.noResults
  {
    SearchModel(true, "", [], 0, "", false, false)
  }

  predicate IsUp(k: string) { k == "up" || k == "k" }
  predicate IsDown(k: string) { k == "down" || k == "j" }

  predicate LeavesInput(k: string) { k == "down" || k == "tab" }

  /** Enter in the input: the trimmed input becomes the query and is sent,
      unless it is blank (only spaces). */
  function Submit(m: SearchModel): (r: Step)
    ensures var q := TrimSpace(m.input);
      && (q == "" ==> r == Step(m, NoCmd))
      && (q != "" ==> r == Step(m.(query := q, loading := true), SearchVerses(SearchVersion, q, ResultLimit)))
    ensures r.cmd == NoCmd <==> AllSpace(m.input)
  {
    var q := TrimSpace(m.input);
    if q != "" then Step(m.(query := q, loading := true), SearchVerses(SearchVersion, q, ResultLimit))
    else Step(m, NoCmd)
  }

  /** A sent query is already trimmed: trimming it again changes nothing. */
  lemma SentQueryTrimmed(m: SearchModel)
    ensures var r := Submit(m);
      r.cmd.SearchVerses? ==> r.cmd.query != [] && TrimSpace(r.cmd.query) == r.cmd.query
  {
    var r := Submit(m);
    if r.cmd.SearchVerses? {
      TrimSpaceTrimmed(r.cmd.query);
    }
  }

  /** Keys while the input has the focus: enter submits; down/tab leave the
      input when there are results; everything else is typing. */
  function UpdateFocused(m: SearchModel, key: string): (r: Step)
    requires m.focused
    ensures key == "enter" ==> r == Submit(m)
    ensures LeavesInput(key) ==> r == Step(m.(focused := m.results == []), NoCmd)
    ensures key != "enter" && !LeavesInput(key) ==> r == Step(m, ToInput)
  {
    if key == "enter" then Submit(m)
    else if LeavesInput(key) then
      Step(if |m.results| > 0 then m.(focused := false) else m, NoCmd)
    else Step(m, ToInput)
  }

  /** Keys while the result list has the focus: k/up moves up, or back into
      the input from the top; j/down moves down within the results; enter
      opens the selected verse; `/` refocuses the input. */
  function UpdateList(m: SearchModel, key: string): (r: Step)
    requires !m.focused
    ensures IsUp(key) ==>
      && r.cmd == NoCmd
      && r.model == (if m.selected > 0 then m.(selected := m.selected - 1) else m.(focused := true))
    ensures IsDown(key) ==>
      && r.cmd == NoCmd
      && r.model == m.(selected := if m.selected < |m.results| - 1 then m.selected + 1 else m.selected)
    ensures key == "enter" ==>
      && r.model == m
      && (r.cmd.GoToVerse? <==> 0 <= m.selected < |m.results|)
      && (r.cmd.GoToVerse? ==> var h := m.results[m.selected]; r.cmd == GoToVerse(h.bookCode, h.chapter, h.verseNum))
    ensures key == "/" ==> r == Step(m.(focused := true), NoCmd)
    ensures 0 <= m.selected ==> 0 <= r.model.selected
  {
    if IsUp(key) then
      Step(if m.selected > 0 then m.(selected := m.selected - 1) else m.(focused := true), NoCmd)
    else if IsDown(key) then
      Step(if m.selected < |m.results| - 1 then m.(selected := m.selected + 1) else m, NoCmd)
    else if key == "enter" then
      if 0 <= m.selected < |m.results| then
        var h := m.results[m.selected];
        Step(m, GoToVerse(h.bookCode, h.chapter, h.verseNum))
      else Step(m, NoCmd)
    else if key == "/" then Step(m.(focused := true), NoCmd)
    else Step(m, ToInput)
  }

  /** `Update`: a results message always ends loading; a failure clears the
      results and reports none, a success stores them, reports whether there
      are none and selects the first. Keys go to the input or the list. */
  function Update(m: SearchModel, msg: SearchMsg): (r: Step)
    ensures msg.Results? ==>
      && !r.model.loading && r.cmd == NoCmd
      && r.model.focused == m.focused && r.model.input == m.input && r.model.query == m.query
      && (msg.hits.None? ==> r.model.results == [] && r.model.noResults && r.model.selected == m.selected)
      && (msg.hits.Some? ==> r.model.results == msg.hits.value && r.model.noResults == (msg.hits.value == [])
                               && r.model.selected == 0)
    ensures msg.Key? && m.focused ==> r == UpdateFocused(m, msg.key)
    ensures msg.Key? && !m.focused ==> r == UpdateList(m, msg.key)
    ensures msg.OtherMsg? ==> r == Step(m, ToInput)
  {
    match msg
    case Results(hits) =>
      var m := m.(loading := false);
      if hits.None? then Step(m.(results := [], noResults := true), NoCmd)
      else Step(m.(results := hits.value, noResults := |hits.value| == 0, selected := 0), NoCmd)
    case Key(key) =>
      if m.focused then UpdateFocused(m, key) else UpdateList(m, key)
    case OtherMsg => Step(m, ToInput)
  }

  /** Leaving the input needs results, and the list can always give the focus
      back: from the first result, k returns to the input. */
  lemma FocusRoundTrip(m: SearchModel)
    requires m.focused && m.results != [] && m.selected == 0
    ensures var l := Update(m, Key("down")).model;
      !l.focused && Update(l, Key("k")).model == m
  {
  }
}
