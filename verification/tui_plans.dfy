/** The reading-plan screen: a list of plans, today's entries of the chosen
    plan, and a small form that creates a sequential or a M'Cheyne plan. */
module TuiPlans {
  import opened Wrappers
  import opened TextUtil

  datatype PlanView = ListView | TodayView | CreateView

  /** A stored plan. */
  datatype ReadingPlan = ReadingPlan(id: int, name: string, totalDays: int)

  /** One reading of a plan day: a chapter run of one book. */
  datatype PlanEntry = PlanEntry(id: int, planId: int, dayNumber: int, bookCode: string,
                                 chapterStart: int, chapterEnd: int, completed: bool)

  datatype Progress = Progress(completed: int, total: int)

  datatype PlanModel = PlanModel(
    view: PlanView,
    plans: seq<ReadingPlan>,
    entries: seq<PlanEntry>,
    progress: Progress,
    selected: nat,
    loaded: bool,
    createIdx: nat,      // 0: sequential, 1: M'Cheyne
    versionId: int)

  datatype PlanMsg =
    | PlansLoaded(plans: Option<seq<ReadingPlan>>)                  // None: the query failed
    | EntriesLoaded(result: Option<(seq<PlanEntry>, Progress)>)     // None: a query failed
    | PlanCreated(ok: bool)
    | EntryCompleted(ok: bool)
    | PlanDeleted(ok: bool)
    | Key(key: string)
    | OtherMsg

  datatype PlanCmd =
    | NoCmd
    | LoadPlans
    | LoadPlanEntries(planId: int)
    | CreatePlan(planType: string, versionId: int)
    | DeletePlan(planId: int)
    | MarkCompleted(entryId: int)
    | GoToVerse(bookCode: string, chapter: int, verse: int)

  datatype Step = Step(model: PlanModel, cmd: PlanCmd)

  /** `NewPlans`: the plan list, nothing loaded, version 1. */
  function NewPlans(): (m: PlanModel)
    ensures m.view == ListView && m.plans == [] && m.entries == [] && m.selected == 0
    ensures !m.loaded && m.createIdx == 0 && m.versionId == 1
  {
    PlanModel(ListView, [], [], Progress(0, 0), 0, false, 0, 1)
  }

  predicate IsDown(k: string) { k == "down" || k == "j" }
  predicate IsUp(k: string) { k == "up" || k == "k" }

  /** The length of the list the selection moves on: today's entries in the
      today view, the plans otherwise. */
  function ListLen(m: PlanModel): nat {
    if m.view == TodayView then |m.entries| else |m.plans|
  }

  /** The selection lies on the list of the view, or is 0; the create form
      has two options. */
  predicate Valid(m: PlanModel) {
    && (m.selected < ListLen(m) || m.selected == 0)
    && m.createIdx <= 1
  }

  /** `activePlanID`: the plan of the first loaded entry, 0 when there is none. */
  function ActivePlanId(m: PlanModel): (id: int)
    ensures m.entries != [] ==> id == m.entries[0].planId
    ensures m.entries == [] ==> id == 0
  {
    if |m.entries| > 0 then m.entries[0].planId else 0
  }

  /** `toggleEntry`: mark the selected entry completed, only when it exists
      and is not completed yet. */
  function ToggleEntry(m: PlanModel): (cmd: PlanCmd)
    ensures cmd != NoCmd <==> m.selected < |m.entries| && !m.entries[m.selected].completed
    ensures cmd != NoCmd ==> cmd == MarkCompleted(m.entries[m.selected].id)
  {
    if m.selected < |m.entries| then
      var e := m.entries[m.selected];
      if !e.completed then MarkCompleted(e.id) else NoCmd
    else NoCmd
  }

  /** `goToEntry`: open the first verse of the selected entry's first chapter. */
  function GoToEntry(m: PlanModel): (cmd: PlanCmd)
    ensures cmd != NoCmd <==> m.selected < |m.entries|
    ensures cmd != NoCmd ==>
      var e := m.entries[m.selected]; cmd == GoToVerse(e.bookCode, e.chapterStart, 1)
  {
    if m.selected < |m.entries| then
      var e := m.entries[m.selected];
      GoToVerse(e.bookCode, e.chapterStart, 1)
    else NoCmd
  }

  /** j/k within a list of `n` items: one step, never past either end. */
  function Move(selected: nat, n: nat, down: bool): (r: nat)
    ensures down ==> r == if selected < n - 1 then selected + 1 else selected
    ensures !down ==> r == if selected > 0 then selected - 1 else selected
    ensures selected < n || selected == 0 ==> r < n || r == 0
  {
    if down then (if selected < n - 1 then selected + 1 else selected)
    else if selected > 0 then selected - 1 else selected
  }

  /** `updateList`: j/k move over the plans; enter opens today's entries of
      the selected plan; n opens the create form on its first option; d
      deletes the selected plan. */
  function UpdateList(m: PlanModel, key: string): (r: Step)
    requires m.view == ListView
    ensures Valid(m) ==> Valid(r.model)
    ensures IsDown(key) || IsUp(key) ==>
      r == Step(m.(selected := Move(m.selected, |m.plans|, IsDown(key))), NoCmd)
    ensures key == "enter" ==>
      if m.selected < |m.plans|
      then r == Step(m.(view := TodayView, selected := 0), LoadPlanEntries(m.plans[m.selected].id))
      else r == Step(m, NoCmd)
    ensures key == "n" ==> r == Step(m.(view := CreateView, createIdx := 0), NoCmd)
    ensures key == "d" ==>
      && r.model == m
      && (r.cmd != NoCmd <==> m.selected < |m.plans|)
      && (r.cmd != NoCmd ==> r.cmd == DeletePlan(m.plans[m.selected].id))
  {
    if IsDown(key) || IsUp(key) then
      Step(m.(selected := Move(m.selected, |m.plans|, IsDown(key))), NoCmd)
    else if key == "enter" then
      if m.selected < |m.plans| && |m.plans| > 0 then
        Step(m.(view := TodayView, selected := 0), LoadPlanEntries(m.plans[m.selected].id))
      else Step(m, NoCmd)
    else if key == "n" then
      Step(m.(view := CreateView, createIdx := 0), NoCmd)
    else if key == "d" then
      if m.selected < |m.plans| && |m.plans| > 0 then Step(m, DeletePlan(m.plans[m.selected].id))
      else Step(m, NoCmd)
    else Step(m, NoCmd)
  }

  /** `updateToday`: j/k move over the entries; space marks the selected
      entry completed; enter opens it; esc goes back to the plan list. */
  function UpdateToday(m: PlanModel, key: string): (r: Step)
    requires m.view == TodayView
    ensures Valid(m) ==> Valid(r.model)
    ensures IsDown(key) || IsUp(key) ==>
      r == Step(m.(selected := Move(m.selected, |m.entries|, IsDown(key))), NoCmd)
    ensures key == " " ==> r == Step(m, ToggleEntry(m))
    ensures key == "enter" ==> r == Step(m, GoToEntry(m))
    ensures key == "esc" ==> r == Step(m.(view := ListView, selected := 0), NoCmd)
  {
    if IsDown(key) || IsUp(key) then
      Step(m.(selected := Move(m.selected, |m.entries|, IsDown(key))), NoCmd)
    else if key == " " then Step(m, ToggleEntry(m))
    else if key == "enter" then Step(m, GoToEntry(m))
    else if key == "esc" then Step(m.(view := ListView, selected := 0), NoCmd)
    else Step(m, NoCmd)
  }

  /** The plan type the create form's option stands for. */
  function PlanType(createIdx: nat): (t: string)
    ensures createIdx == 1 <==> t == "mcheyne"
    ensures createIdx != 1 <==> t == "sequential"
  {
    if createIdx == 1 then "mcheyne" else "sequential"
  }

  /** `updateCreate`: j/k choose between the two plan types; enter returns to
      the list and creates the chosen plan; esc returns without creating. */
  function UpdateCreate(m: PlanModel, key: string): (r: Step)
    requires m.view == CreateView
    ensures Valid(m) ==> Valid(r.model)
    ensures IsDown(key) ==> r == Step(m.(createIdx := if m.createIdx < 1 then m.createIdx + 1 else m.createIdx), NoCmd)
    ensures IsUp(key) ==> r == Step(m.(createIdx := if m.createIdx > 0 then m.createIdx - 1 else m.createIdx), NoCmd)
    ensures key == "enter" ==> r == Step(m.(view := ListView), CreatePlan(PlanType(m.createIdx), m.versionId))
    ensures key == "esc" ==> r == Step(m.(view := ListView, selected := 0), NoCmd)
    ensures r.cmd != NoCmd <==> key == "enter"
  {
    if IsDown(key) then
      Step(if m.createIdx < 1 then m.(createIdx := m.createIdx + 1) else m, NoCmd)
    else if IsUp(key) then
      Step(if m.createIdx > 0 then m.(createIdx := m.createIdx - 1) else m, NoCmd)
    else if key == "enter" then
      Step(m.(view := ListView), CreatePlan(PlanType(m.createIdx), m.versionId))
    else if key == "esc" then Step(m.(view := ListView, selected := 0), NoCmd)
    else Step(m, NoCmd)
  }

  /** `Update`: a plans load sets `loaded`, resets the selection and, on
      success, replaces the plans; an entries load resets the selection and,
      on success, replaces the entries and the progress; a created or deleted
      plan reloads the plans; a completed entry reloads today's entries of
      the active plan when the today view shows one; keys go to the view. */
  function Update(m: PlanModel, msg: PlanMsg): (r: Step)
    ensures Valid(m) ==> Valid(r.model)
    ensures r.model.versionId == m.versionId
    ensures msg.PlansLoaded? ==>
      && r.cmd == NoCmd
      && r.model == m.(loaded := true, selected := 0,
                       plans := if msg.plans.Some? then msg.plans.value else m.plans)
    ensures msg.EntriesLoaded? ==>
      && r.cmd == NoCmd
      && r.model.selected == 0 && r.model.view == m.view && r.model.plans == m.plans
      && (msg.result.Some? ==> r.model.entries == msg.result.value.0 && r.model.progress == msg.result.value.1)
      && (msg.result.None? ==> r.model.entries == m.entries && r.model.progress == m.progress)
    ensures msg.PlanCreated? || msg.PlanDeleted? ==>
      r == Step(m, if msg.ok then LoadPlans else NoCmd)
    ensures msg.EntryCompleted? ==>
      && r.model == m
      && (r.cmd != NoCmd <==> msg.ok && m.view == TodayView && m.plans != [] && ActivePlanId(m) > 0)
      && (r.cmd != NoCmd ==> r.cmd == LoadPlanEntries(m.entries[0].planId))
    ensures msg.Key? && m.view == ListView ==> r == UpdateList(m, msg.key)
    ensures msg.Key? && m.view == TodayView ==> r == UpdateToday(m, msg.key)
    ensures msg.Key? && m.view == CreateView ==> r == UpdateCreate(m, msg.key)
    ensures msg.OtherMsg? ==> r == Step(m, NoCmd)
  {
    match msg
    case PlansLoaded(plans) =>
      var m := m.(loaded := true);
      var m := if plans.Some? then m.(plans := plans.value) else m;
      Step(m.(selected := 0), NoCmd)
    case EntriesLoaded(result) =>
      var m := if result.Some? then m.(entries := result.value.0, progress := result.value.1) else m;
      Step(m.(selected := 0), NoCmd)
    case PlanCreated(ok) =>
      Step(m, if ok then LoadPlans else NoCmd)
    case EntryCompleted(ok) =>
      if ok && m.view == TodayView && |m.plans| > 0 then
        var planId := ActivePlanId(m);
        Step(m, if planId > 0 then LoadPlanEntries(planId) else NoCmd)
      else Step(m, NoCmd)
    case PlanDeleted(ok) =>
      Step(m, if ok then LoadPlans else NoCmd)
    case Key(key) =>
      (match m.view
       case ListView => UpdateList(m, key)
       case TodayView => UpdateToday(m, key)
       case CreateView => UpdateCreate(m, key))
    case OtherMsg => Step(m, NoCmd)
  }

  /** Opening a plan and leaving its today view with esc returns to the plan
      list with the first plan selected. */
  lemma OpenThenBack(m: PlanModel)
    requires m.view == ListView && m.selected < |m.plans|
    ensures var t := Update(m, Key("enter"));
      && t.cmd == LoadPlanEntries(m.plans[m.selected].id)
      && t.model.view == TodayView
      && Update(t.model, Key("esc")).model == m.(selected := 0)
  {
  }

  /** Opening the create form and cancelling it keeps the plans and does not
      create anything. */
  lemma CreateThenCancel(m: PlanModel)
    requires m.view == ListView
    ensures var c := Update(m, Key("n"));
      var b := Update(c.model, Key("esc"));
      && c.cmd == NoCmd && b.cmd == NoCmd
      && b.model.view == ListView && b.model.plans == m.plans && b.model.selected == 0
  {
  }

  // ---------------------------------------------------------------------
  // Display helpers

  /** How many of the `width` cells of a progress bar are filled: the share
      `completed / total` of the width rounded down, at most the whole bar. */
  function Filled(completed: nat, total: nat, width: nat): (f: nat)
    requires total > 0
    ensures f <= width
    ensures f == width || (f * total <= completed * width < (f + 1) * total)
    ensures f < width ==> completed < total
    ensures completed >= total ==> f == width
    ensures completed == 0 ==> f == 0
  {
    var q := completed * width / total;
    DivBounds(completed * width, total);
    CompletedFills(completed, total, width);
    if q > width then width else q
  }

  /** A completed count of at least `total` gives a quotient of at least `width`. */
  lemma CompletedFills(completed: nat, total: nat, width: nat)
    requires total > 0
    ensures completed >= total ==> completed * width / total >= width
  {
    if completed >= total {
      var q := completed * width / total;
      MulMono(total, completed, width);
      DivBounds(completed * width, total);
      if q < width {
        MulMono(q + 1, width, total);
      }
    }
  }

  /** The quotient `a / t` lies between `(a - t + 1) / t` and `a / t`. */
  lemma DivBounds(a: nat, t: nat)
    requires t > 0
    ensures (a / t) * t <= a < (a / t + 1) * t
  {
  }

  lemma MulMono(a: nat, b: nat, w: nat)
    requires a <= b
    ensures a * w <= b * w
  {
  }

  /** More completed readings never fill fewer cells. */
  lemma FilledMonotone(c1: nat, c2: nat, total: nat, width: nat)
    requires total > 0 && c1 <= c2
    ensures Filled(c1, total, width) <= Filled(c2, total, width)
  {
    MulMono(c1, c2, width);
    DivMono(c1 * width, c2 * width, total);
  }

  /** Division by a positive number keeps the order. */
  lemma DivMono(a: nat, b: nat, t: nat)
    requires t > 0 && a <= b
    ensures a / t <= b / t
  {
    DivBounds(a, t);
    DivBounds(b, t);
    if a / t > b / t {
      MulMono(b / t + 1, a / t, t);
    }
  }

  /** The bar of `width` cells whose first `filled` are full. */
  function Bar(filled: nat, width: nat): (r: string)
    requires filled <= width
    ensures |r| == width
    ensures forall i :: 0 <= i < width ==> r[i] == (if i < filled then '█' else '░')
  {
    RepeatChar('█', filled) + RepeatChar('░', width - filled)
  }

  /** `renderProgressBar`: nothing for an empty plan; otherwise a bar of
      `width` cells (10 when `width` is not positive) filled in proportion to
      the completed readings, then the counts and the percentage rounded
      down. */
  function RenderProgressBar(completed: nat, total: nat, width: int): (r: string)
    ensures total == 0 <==> r == ""
    ensures total > 0 ==>
      var w := if width <= 0 then 10 else width;
      var f := Filled(completed, total, w);
      && |r| > w
      && r[..w] == Bar(f, w)
      && r[w..] == " " + Itoa(completed) + "/" + Itoa(total) + " (" + Itoa(completed * 100 / total) + "%)"
  {
    if total == 0 then ""
    else
      var w: nat := if width <= 0 then 10 else width;
      var pct := completed * 100 / total;
      var bar := Bar(Filled(completed, total, w), w);
      var tail := " " + Itoa(completed) + "/" + Itoa(total) + " (" + Itoa(pct) + "%)";
      assert (bar + tail)[..w] == bar;
      assert (bar + tail)[w..] == tail;
      bar + tail
  }

  /** A finished plan shows a full bar. */
  lemma FinishedBarFull(completed: nat, total: nat, width: int)
    requires 0 < total <= completed
    ensures var r := RenderProgressBar(completed, total, width);
      forall i :: 0 <= i < (if width <= 0 then 10 else width) ==> r[i] == '█'
  {
    var w := if width <= 0 then 10 else width;
    assert RenderProgressBar(completed, total, width)[..w] == Bar(w, w);
  }

  /** `formatEntryRef`: "<book> <n>장" for one chapter, "<book> <a>-<b>장"
      for a run. */
  function FormatEntryRef(e: PlanEntry): (r: string)
    ensures |r| >= |e.bookCode| + 2
    ensures r[..|e.bookCode| + 1] == e.bookCode + " "
    ensures r[|r| - 1] == '장'
  {
    if e.chapterStart == e.chapterEnd then e.bookCode + " " + Itoa(e.chapterStart) + "장"
    else e.bookCode + " " + Itoa(e.chapterStart) + "-" + Itoa(e.chapterEnd) + "장"
  }

  /** The chapter part of a formatted entry reads back as the chapter, or as
      the two ends of the run around the one dash. */
  lemma FormatEntryRefReadsBack(e: PlanEntry)
    requires 0 <= e.chapterStart <= MaxInt64 && 0 <= e.chapterEnd <= MaxInt64
    ensures var r := FormatEntryRef(e);
      var mid := r[|e.bookCode| + 1..|r| - 1];
      && (e.chapterStart == e.chapterEnd ==> Atoi(mid) == Some(e.chapterStart))
      && (e.chapterStart != e.chapterEnd ==>
            var k := |Itoa(e.chapterStart)|;
            && k < |mid| && mid[k] == '-'
            && Atoi(mid[..k]) == Some(e.chapterStart)
            && Atoi(mid[k + 1..]) == Some(e.chapterEnd))
  {
    var r := FormatEntryRef(e);
    var n := |e.bookCode| + 1;
    var a := Itoa(e.chapterStart);
    AtoiItoa(e.chapterStart);
    if e.chapterStart == e.chapterEnd {
      assert r == e.bookCode + " " + a + "장";
      assert r[n..|r| - 1] == a;
    } else {
      var b := Itoa(e.chapterEnd);
      AtoiItoa(e.chapterEnd);
      assert r == e.bookCode + " " + a + "-" + b + "장";
      var mid := r[n..|r| - 1];
      assert mid == a + "-" + b;
      assert mid[..|a|] == a;
      assert mid[|a| + 1..] == b;
    }
  }
}
