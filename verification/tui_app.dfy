/** The application model: which screen is shown, the screen to return to,
    and how each message is either handled here or handed to a screen. */
module TuiApp {
  import opened Wrappers
  import opened Books
  import Styles
  import TuiSearch
  import TuiPlans

  datatype AppState =
    | BookListState
    | ChapterListState
    | ReadingState
    | SearchState
    | BookmarksState
    | SettingsState
    | PlansState
    | HelpState

  /** The screens the app keeps a history of one step for. */
  predicate IsOverlay(s: AppState) {
    s == HelpState || s == SearchState || s == BookmarksState || s == SettingsState || s == PlansState
  }

  datatype AppModel = AppModel(
    state: AppState,
    prevState: AppState,
    width: int,
    height: int,
    ready: bool,
    hasDatabase: bool,
    theme: Styles.Theme,
    filtering: bool,                       // the book list is reading a filter and takes every key
    search: TuiSearch.SearchModel,          // the search screen, whose input focus decides key routing
    chapterBook: Option<BookInfo>,          // the book of the chapter grid
    readingAt: Option<(BookInfo, int)>)     // the book and chapter of the reading screen

  /** Results of commands a screen issued, delivered back through the app. */
  datatype AsyncKind =
    | VersesLoaded
    | BookmarksLoaded
    | BookmarkDeleted
    | SettingsLoaded
    | PlansLoaded
    | PlanEntriesLoaded
    | PlanCreated
    | EntryCompleted
    | PlanDeleted

  datatype AppMsg =
    | WindowSize(w: int, h: int)
    | BookSelected(book: BookInfo)
    | ChapterSelected(book: BookInfo, chapter: int)
    | GoToVerse(bookCode: string, chapter: int, verse: int)
    | SettingsSaved
    | ThemeChanged(newTheme: Styles.Theme)
    | SearchResults(hits: Option<seq<TuiSearch.Hit>>)
    | Async(kind: AsyncKind)
    | Key(key: string)
    | OtherMsg

  datatype AppCmd =
    | NoCmd
    | Quit
    | FocusSearch                             // start the cursor of the fresh search input
    | LoadBookmarks
    | LoadSettings
    | LoadPlans
    | LoadVerses(bookCode: string, chapter: int)
    | Forward(to: AppState)                   // the message goes to that screen's Update
    | SearchCmd(cmd: TuiSearch.SearchCmd)     // the search screen's Update ran and issued this

  datatype Step = Step(model: AppModel, cmd: AppCmd)

  /** `New`: the book list, not ready until the first window size. */
  function NewApp(hasDatabase: bool): (m: AppModel)
    ensures m.state == BookListState && !m.ready && m.hasDatabase == hasDatabase
    ensures m.theme == Styles.DarkTheme && !m.filtering
  {
    AppModel(BookListState, BookListState, 0, 0, false, hasDatabase, Styles.DarkTheme, false,
             TuiSearch.NewSearch(), None, None)
  }

  /** `findBookByCode`: the catalog book whose code is exactly `code`. */
  function FindBookByCode(code: string): (r: Option<BookInfo>)
    ensures r.Some? ==> r.value in AllBooks() && r.value.code == code
    ensures r.None? <==> forall j :: 0 <= j < |AllBooks()| ==> AllBooks()[j].code != code
  {
    Lookup(ByCode, code)
  }

  /** The screen whose command produces a result of this kind. */
  function Owner(k: AsyncKind): (s: AppState)
    ensures IsOverlay(s) || s == ReadingState
  {
    match k
    case VersesLoaded => ReadingState
    case BookmarksLoaded => BookmarksState
    case BookmarkDeleted => BookmarksState
    case SettingsLoaded => SettingsState
    case PlansLoaded => PlansState
    case PlanEntriesLoaded => PlansState
    case PlanCreated => PlansState
    case EntryCompleted => PlansState
    case PlanDeleted => PlansState
  }

  /** Where `Update` as written sends a result: every kind to its owner,
      except a plan deletion, for which it has no case and which it drops. */
  function RouteAsWritten(k: AsyncKind): (r: Option<AppState>)
    ensures r.None? <==> k == PlanDeleted
    ensures r.Some? ==> r.value == Owner(k)
  {
    if k == PlanDeleted then None else Some(Owner(k))
  }

  /** Where a result is sent in this model: always to the screen that asked
      for it. */
  function Route(k: AsyncKind): (r: AppState)
    ensures r == Owner(k)
    ensures RouteAsWritten(k).Some? ==> RouteAsWritten(k) == Some(r)
  {
    Owner(k)
  }

  /** As written, a successful plan deletion is lost: the plans screen would
      answer it by reloading the plans, but the app never hands it over, so
      the deleted plan stays in the list. */
  lemma PlanDeletionDroppedAsWritten(p: TuiPlans.PlanModel)
    ensures RouteAsWritten(PlanDeleted) == None
    ensures TuiPlans.Update(p, TuiPlans.PlanDeleted(true)).cmd == TuiPlans.LoadPlans
  {
  }

  /** In this model the deletion reaches the plans screen, which reloads. */
  lemma PlanDeletionReloads(m: AppModel, p: TuiPlans.PlanModel)
    ensures Update(m, Async(PlanDeleted)) == Step(m, Forward(PlansState))
    ensures TuiPlans.Update(p, TuiPlans.PlanDeleted(true)).cmd == TuiPlans.LoadPlans
  {
  }

  /** The keys the app itself reacts to. */
  datatype GlobalKey = CtrlC | QuitKey | HelpKey | EscKey | BooksKey | SearchKey | MarksKey | SettingsKey | PlansKey | PlainKey

  function Classify(key: string): (g: GlobalKey)
    ensures g == CtrlC <==> key == "ctrl+c"
    ensures g == QuitKey <==> key == "q"
    ensures g == HelpKey <==> key == "?"
    ensures g == EscKey <==> key == "esc"
    ensures g == BooksKey <==> key == "b"
    ensures g == SearchKey <==> key == "/"
    ensures g == MarksKey <==> key == "m"
    ensures g == SettingsKey <==> key == "s"
    ensures g == PlansKey <==> key == "p"
  {
    if key == "ctrl+c" then CtrlC
    else if key == "q" then QuitKey
    else if key == "?" then HelpKey
    else if key == "esc" then EscKey
    else if key == "b" then BooksKey
    else if key == "/" then SearchKey
    else if key == "m" then MarksKey
    else if key == "s" then SettingsKey
    else if key == "p" then PlansKey
    else PlainKey
  }

  /** Entering an overlay screen remembers the current one. */
  function Enter(m: AppModel, target: AppState): (r: AppModel)
    ensures r.state == target && r.prevState == m.state
  {
    m.(prevState := m.state, state := target)
  }

  /** Where esc leads from each screen. */
  function EscTarget(m: AppModel): (s: AppState)
    ensures IsOverlay(m.state) ==> s == m.prevState
    ensures m.state == ReadingState ==> s == ChapterListState
    ensures m.state == ChapterListState ==> s == BookListState
    ensures m.state == BookListState ==> s == BookListState
  {
    match m.state
    case HelpState => m.prevState
    case SearchState => m.prevState
    case BookmarksState => m.prevState
    case SettingsState => m.prevState
    case PlansState => m.prevState
    case ReadingState => ChapterListState
    case ChapterListState => BookListState
    case BookListState => BookListState
  }

  /** A key the app does not take: handed to the screen shown. */
  function ForwardKey(m: AppModel, key: string): (r: Step)
    ensures r.model.hasDatabase == m.hasDatabase
    ensures m.state != SearchState ==> r == Step(m, Forward(m.state))
    ensures m.state == SearchState ==>
      var s := TuiSearch.Update(m.search, TuiSearch.Key(key));
      r == Step(m.(search := s.model), SearchCmd(s.cmd))
  {
    if m.state == SearchState then
      var s := TuiSearch.Update(m.search, TuiSearch.Key(key));
      Step(m.(search := s.model), SearchCmd(s.cmd))
    else Step(m, Forward(m.state))
  }

  /** The global keys, once neither a filtering book list nor a focused
      search input has taken the key: ctrl+c quits; q quits outside search;
      ? opens help; esc goes back; b shows the book list; /, m, s and p open
      search, bookmarks, settings and plans, the screen being reset and
      loaded; any other key goes to the screen shown. */
  function GlobalKeyUpdate(m: AppModel, key: string): (r: Step)
    ensures r.model.hasDatabase == m.hasDatabase
    ensures Classify(key) == CtrlC ==> r == Step(m, Quit)
    ensures Classify(key) == QuitKey ==>
      r == (if m.state != SearchState then Step(m, Quit) else ForwardKey(m, key))
    ensures Classify(key) == HelpKey ==>
      r == Step(if m.state != HelpState then Enter(m, HelpState) else m, NoCmd)
    ensures Classify(key) == EscKey ==> r == Step(m.(state := EscTarget(m)), NoCmd)
    ensures Classify(key) == BooksKey ==> r == Step(m.(state := BookListState), NoCmd)
    ensures Classify(key) == SearchKey ==>
      r == (if m.state != SearchState
            then Step(Enter(m, SearchState).(search := TuiSearch.NewSearch()), FocusSearch)
            else Step(m, NoCmd))
    ensures Classify(key) == MarksKey ==>
      r == (if m.state != BookmarksState then Step(Enter(m, BookmarksState), LoadBookmarks) else Step(m, NoCmd))
    ensures Classify(key) == SettingsKey ==>
      r == (if m.state != SettingsState && m.state != SearchState
            then Step(Enter(m, SettingsState), LoadSettings) else Step(m, NoCmd))
    ensures Classify(key) == PlansKey ==>
      r == (if m.state != PlansState then Step(Enter(m, PlansState), LoadPlans) else Step(m, NoCmd))
    ensures Classify(key) == PlainKey ==> r == ForwardKey(m, key)
  {
    match Classify(key)
    case CtrlC => Step(m, Quit)
    case QuitKey => if m.state != SearchState then Step(m, Quit) else ForwardKey(m, key)
    case HelpKey => Step(if m.state != HelpState then Enter(m, HelpState) else m, NoCmd)
    case EscKey => Step(m.(state := EscTarget(m)), NoCmd)
    case BooksKey => Step(if m.state != BookListState then m.(state := BookListState) else m, NoCmd)
    case SearchKey =>
      if m.state != SearchState then Step(Enter(m, SearchState).(search := TuiSearch.NewSearch()), FocusSearch)
      else Step(m, NoCmd)
    case MarksKey =>
      if m.state != BookmarksState then Step(Enter(m, BookmarksState), LoadBookmarks) else Step(m, NoCmd)
    case SettingsKey =>
      if m.state != SettingsState && m.state != SearchState then Step(Enter(m, SettingsState), LoadSettings)
      else Step(m, NoCmd)
    case PlansKey =>
      if m.state != PlansState then Step(Enter(m, PlansState), LoadPlans) else Step(m, NoCmd)
    case PlainKey => ForwardKey(m, key)
  }

  /** A key: a filtering book list takes every key; a focused search input
      takes every key but ctrl+c (quit) and esc (back to the previous
      screen); otherwise the global keys apply. */
  function KeyUpdate(m: AppModel, key: string): (r: Step)
    ensures r.model.hasDatabase == m.hasDatabase
    ensures m.state == BookListState && m.filtering ==> r == Step(m, Forward(BookListState))
    ensures m.state == SearchState && m.search.focused ==>
      && (key == "ctrl+c" ==> r == Step(m, Quit))
      && (key == "esc" ==> r == Step(m.(state := m.prevState), NoCmd))
      && (key != "ctrl+c" && key != "esc" ==> r == ForwardKey(m, key))
    ensures !(m.state == BookListState && m.filtering) && !(m.state == SearchState && m.search.focused) ==>
      r == GlobalKeyUpdate(m, key)
  {
    if m.state == BookListState && m.filtering then Step(m, Forward(BookListState))
    else if m.state == SearchState && m.search.focused then
      if key == "ctrl+c" then Step(m, Quit)
      else if key == "esc" then Step(m.(state := m.prevState), NoCmd)
      else ForwardKey(m, key)
    else GlobalKeyUpdate(m, key)
  }

  /** The reading screen of a chapter, its verses requested when there is a
      database. */
  function OpenReading(m: AppModel, book: BookInfo, chapter: int): (r: Step)
    ensures r.model == m.(state := ReadingState, readingAt := Some((book, chapter)))
    ensures r.cmd == (if m.hasDatabase then LoadVerses(book.code, chapter) else NoCmd)
  {
    Step(m.(state := ReadingState, readingAt := Some((book, chapter))),
         if m.hasDatabase then LoadVerses(book.code, chapter) else NoCmd)
  }

  /** A verse opens the reading screen of its chapter only when its book
      code is a catalog code; the verse number itself is not used. */
  function OpenVerse(m: AppModel, code: string, chapter: int): (r: Step)
    ensures FindBookByCode(code).None? ==> r == Step(m, NoCmd)
    ensures FindBookByCode(code).Some? ==>
      && r == OpenReading(m, FindBookByCode(code).value, chapter)
      && r.model.readingAt.value.0.code == code
  {
    match FindBookByCode(code)
    case None => Step(m, NoCmd)
    case Some(b) => OpenReading(m, b, chapter)
  }

  /** `Update`: a window size makes the app ready; a selected book opens its
      chapter grid; a selected chapter, or a verse of a catalog book, opens
      the reading screen and loads its verses when there is a database; a
      saved configuration returns to the previous screen; screen results go
      to the screen that asked for them; keys as `KeyUpdate`. Only keys
      change `prevState`. Screen results are
      routed by the corrected `Route`, so a plan deletion reaches the plans
      screen, where internal/tui/app.go has no case for it and drops it
      (`RouteAsWritten`, `PlanDeletionDroppedAsWritten`). */
  function Update(m: AppModel, msg: AppMsg): (r: Step)
    ensures r.model.hasDatabase == m.hasDatabase
    ensures !msg.Key? ==> r.model.prevState == m.prevState
    ensures msg.WindowSize? ==> r == Step(m.(width := msg.w, height := msg.h, ready := true), NoCmd)
    ensures msg.BookSelected? ==>
      r == Step(m.(state := ChapterListState, chapterBook := Some(msg.book)), NoCmd)
    ensures msg.ChapterSelected? ==> r == OpenReading(m, msg.book, msg.chapter)
    ensures msg.GoToVerse? ==> r == OpenVerse(m, msg.bookCode, msg.chapter)
    ensures msg.SettingsSaved? ==> r == Step(m.(state := m.prevState), Forward(SettingsState))
    ensures msg.ThemeChanged? ==> r == Step(m.(theme := msg.newTheme), NoCmd)
    ensures msg.SearchResults? ==>
      var s := TuiSearch.Update(m.search, TuiSearch.Results(msg.hits));
      r == Step(m.(search := s.model), SearchCmd(s.cmd))
    ensures msg.Async? ==> r == Step(m, Forward(Route(msg.kind)))
    ensures msg.Key? ==> r == KeyUpdate(m, msg.key)
    ensures msg.OtherMsg? ==> r == Step(m, NoCmd)
  {
    match msg
    case WindowSize(w, h) => Step(m.(width := w, height := h, ready := true), NoCmd)
    case BookSelected(book) => Step(m.(state := ChapterListState, chapterBook := Some(book)), NoCmd)
    case ChapterSelected(book, chapter) => OpenReading(m, book, chapter)
    case GoToVerse(code, chapter, _) => OpenVerse(m, code, chapter)
    case SettingsSaved => Step(m.(state := m.prevState), Forward(SettingsState))
    case ThemeChanged(t) => Step(m.(theme := t), NoCmd)
    case SearchResults(hits) =>
      var s := TuiSearch.Update(m.search, TuiSearch.Results(hits));
      Step(m.(search := s.model), SearchCmd(s.cmd))
    case Async(kind) => Step(m, Forward(Route(kind)))
    case Key(key) => KeyUpdate(m, key)
    case OtherMsg => Step(m, NoCmd)
  }

  // ---------------------------------------------------------------------
  // Properties across several messages

  /** Ctrl+c quits unless a filtering book list takes it; q quits exactly
      outside the search screen. */
  lemma QuitKeys(m: AppModel)
    ensures !(m.state == BookListState && m.filtering) ==> Update(m, Key("ctrl+c")).cmd == Quit
    ensures !(m.state == BookListState && m.filtering) ==>
      (Update(m, Key("q")).cmd == Quit <==> m.state != SearchState)
  {
    assert Classify("ctrl+c") == CtrlC;
    assert Classify("q") == QuitKey;
  }

  /** Opening help and pressing esc returns to the screen help was opened
      from. */
  lemma HelpThenEsc(m: AppModel)
    requires m.state != HelpState
    requires !(m.state == BookListState && m.filtering) && !(m.state == SearchState && m.search.focused)
    ensures var h := Update(m, Key("?")).model;
      && h.state == HelpState && h.prevState == m.state
      && Update(h, Key("esc")).model.state == m.state
  {
    assert Classify("?") == HelpKey;
    assert Classify("esc") == EscKey;
  }

  /** Opening search from another screen focuses its fresh input, which then
      takes b as typing: the search screen stays, and esc returns to the
      screen search was opened from. */
  lemma SearchCapturesKeys(m: AppModel)
    requires m.state != SearchState
    requires !(m.state == BookListState && m.filtering)
    ensures var s := Update(m, Key("/"));
      && s.cmd == FocusSearch
      && s.model.state == SearchState && s.model.prevState == m.state && s.model.search.focused
      && Update(s.model, Key("b")).model.state == SearchState
      && Update(s.model, Key("esc")).model.state == m.state
  {
    assert Classify("/") == SearchKey;
  }

  /** The history is one step deep: help opened from a search screen that
      was itself opened from the book list leads back to search, and from
      there esc stays in search instead of reaching the book list. */
  lemma EscHistoryIsOneDeep(m: AppModel)
    requires m.state == SearchState && m.prevState == BookListState && !m.search.focused
    ensures var h := Update(m, Key("?")).model;
      var back := Update(h, Key("esc")).model;
      && h.state == HelpState && back.state == SearchState && back.prevState == SearchState
      && Update(back, Key("esc")).model.state == SearchState
  {
    assert Classify("?") == HelpKey;
    assert Classify("esc") == EscKey;
  }

  /** Each overlay key opened from a different screen remembers that screen,
      and esc from the overlay goes back to it. */
  lemma OverlayThenEsc(m: AppModel, key: string)
    requires key == "m" || key == "p" || key == "s"
    requires !(m.state == BookListState && m.filtering) && !(m.state == SearchState && m.search.focused)
    requires m.state != SearchState
    requires key == "m" ==> m.state != BookmarksState
    requires key == "p" ==> m.state != PlansState
    requires key == "s" ==> m.state != SettingsState
    ensures var o := Update(m, Key(key)).model;
      && IsOverlay(o.state) && o.prevState == m.state
      && Update(o, Key("esc")).model.state == m.state
  {
    assert Classify("esc") == EscKey;
  }
}
