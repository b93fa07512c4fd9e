/** The settings screen: three rows (theme, font size, default version),
    each cycling through its options, loaded from and saved to the stored
    configuration. */
module TuiSettings {
  import opened Wrappers
  import opened Styles
  import opened Settings

  const FontSizeLabels: seq<string> := ["작게", "보통", "크게"]
  const VersionLabels: seq<string> := ["개역개정 (GAE)"]
  const VersionCodes: seq<string> := ["GAE"]
  const RowCount := 3

  /** How many options the row at `row` cycles through. */
  function OptionCount(row: int): (n: nat)
    requires 0 <= row < RowCount
    ensures n > 0
  {
    if row == 0 then |AllThemeNames| else if row == 1 then |FontSizeLabels| else |VersionLabels|
  }

  /** One step forward or back through `n` options, wrapping at both ends. */
  function Cycle(i: int, n: nat, forward: bool): (r: int)
    requires 0 <= i < n
    ensures 0 <= r < n
    ensures forward ==> r == if i == n - 1 then 0 else i + 1
    ensures !forward ==> r == if i == 0 then n - 1 else i - 1
  {
    if forward then
      ModWrap(i + 1, n);
      (i + 1) % n
    else
      ModWrap(i - 1 + n, n);
      (i - 1 + n) % n
  }

  /** Reducing a value in `0..2n-1` modulo `n` subtracts `n` at most once. */
  lemma ModWrap(x: int, n: int)
    requires 0 <= x < 2 * n
    ensures x % n == if x < n then x else x - n
  {
  }

  /** A step forward undoes a step back, and the reverse. */
  lemma CycleInverse(i: int, n: nat)
    requires 0 <= i < n
    ensures Cycle(Cycle(i, n, true), n, false) == i
    ensures Cycle(Cycle(i, n, false), n, true) == i
  {
  }

  /** The position of the first entry equal to `x`, or 0 when there is none
      (the scans of `themeNameToIdx` and `versionCodeToIdx`). */
  function IndexOrZero(xs: seq<string>, x: string): (i: nat)
    ensures xs != [] ==> i < |xs|
    ensures x in xs ==> xs[i] == x && forall j :: 0 <= j < i ==> xs[j] != x
    ensures x !in xs ==> i == 0
  {
    if xs == [] then 0
    else if xs[0] == x then 0
    else if x in xs[1..] then 1 + IndexOrZero(xs[1..], x)
    else 0
  }

  function ThemeNameToIdx(name: string): nat {
    IndexOrZero(AllThemeNames, name)
  }

  function VersionCodeToIdx(code: string): nat {
    IndexOrZero(VersionCodes, code)
  }

  /** The option indices of the three rows. */
  datatype Choice = Choice(themeIdx: int, fontSizeIdx: int, versionIdx: int)

  predicate ValidChoice(c: Choice) {
    && 0 <= c.themeIdx < |AllThemeNames|
    && 0 <= c.fontSizeIdx < |FontSizeLabels|
    && 0 <= c.versionIdx < |VersionLabels|
  }

  /** The indices a loaded configuration selects: the theme and version by
      name (0 when unknown), the font size clamped into the three levels. */
  function ChoiceOf(cfg: Config): (c: Choice)
    ensures ValidChoice(c)
    ensures cfg.themeName in AllThemeNames ==> AllThemeNames[c.themeIdx] == cfg.themeName
    ensures c.fontSizeIdx == if cfg.fontSize < 1 then 0 else if cfg.fontSize > 3 then 2 else cfg.fontSize - 1
  {
    var f := cfg.fontSize - 1;
    var f := if f < 0 then 0 else f;
    var f := if f >= |FontSizeLabels| then |FontSizeLabels| - 1 else f;
    Choice(ThemeNameToIdx(cfg.themeName), f, VersionCodeToIdx(cfg.versionCode))
  }

  /** The configuration `saveConfig` writes: the names at the chosen
      indices and the 1-based font size. */
  function ConfigOf(c: Choice): (cfg: Config)
    requires ValidChoice(c)
    ensures cfg.themeName in AllThemeNames && cfg.versionCode in VersionCodes
    ensures 1 <= cfg.fontSize <= 3
  {
    Config(AllThemeNames[c.themeIdx], c.fontSizeIdx + 1, VersionCodes[c.versionIdx])
  }

  /** Saving the choice and loading it back selects the same options. */
  lemma ChoiceRoundTrip(c: Choice)
    requires ValidChoice(c)
    ensures ChoiceOf(ConfigOf(c)) == c
  {
    var cfg := ConfigOf(c);
    var t := ThemeNameToIdx(cfg.themeName);
    assert AllThemeNames[t] == AllThemeNames[c.themeIdx];
  }

  /** Messages the settings screen reacts to. */
  datatype SettingsMsg =
    | SettingsLoaded(config: Option<Config>)  // None: the load failed or gave no config
    | Key(key: string)
    | OtherMsg

  /** Commands it issues. */
  datatype SettingsCmd =
    | NoCmd
    | SaveAndApply(config: Config, theme: Theme)  // save the config and switch to the theme

  class SettingsModel {
    var focusRow: int
    var choice: Choice
    var loaded: bool
    var saved: bool

    ghost predicate Valid()
      reads this
    {
      0 <= focusRow < RowCount && ValidChoice(choice)
    }

    /** `NewSettings`: the first row focused, every first option, nothing
        loaded or saved. */
    constructor()
      ensures Valid()
      ensures focusRow == 0 && choice == Choice(0, 0, 0) && !loaded && !saved
    {
      focusRow := 0;
      choice := Choice(0, 0, 0);
      loaded := false;
      saved := false;
    }

    /** The option index of the focused row. */
    function Focused(): (i: int)
      reads this
      requires Valid()
      ensures 0 <= i < OptionCount(focusRow)
    {
      if focusRow == 0 then choice.themeIdx else if focusRow == 1 then choice.fontSizeIdx else choice.versionIdx
    }

    /** `incrementOption` / `decrementOption`: only the focused row's index
        moves, one step with wrap-around. */
    method StepOption(forward: bool)
      modifies this
      requires Valid()
      ensures Valid()
      ensures focusRow == old(focusRow) && loaded == old(loaded) && saved == old(saved)
      ensures Focused() == Cycle(old(Focused()), OptionCount(focusRow), forward)
      ensures focusRow != 0 ==> choice.themeIdx == old(choice.themeIdx)
      ensures focusRow != 1 ==> choice.fontSizeIdx == old(choice.fontSizeIdx)
      ensures focusRow != 2 ==> choice.versionIdx == old(choice.versionIdx)
    {
      if focusRow == 0 {
        choice := choice.(themeIdx := Cycle(choice.themeIdx, |AllThemeNames|, forward));
      } else if focusRow == 1 {
        choice := choice.(fontSizeIdx := Cycle(choice.fontSizeIdx, |FontSizeLabels|, forward));
      } else {
        choice := choice.(versionIdx := Cycle(choice.versionIdx, |VersionLabels|, forward));
      }
    }

    /** `Update`: a load sets `loaded` and, when a config came, the indices it
        selects; up/down move the focus within the three rows; left/right
        cycle the focused row; enter or `s` marks the screen saved and asks
        to save the chosen config and apply its theme. */
    method Update(msg: SettingsMsg) returns (cmd: SettingsCmd)
      modifies this
      requires Valid()
      ensures Valid()
      ensures msg.SettingsLoaded? ==>
        && loaded && saved == old(saved) && focusRow == old(focusRow) && cmd == NoCmd
        && choice == (if msg.config.Some? then ChoiceOf(msg.config.value) else old(choice))
      ensures msg.Key? && msg.key in {"up", "k"} ==>
        && focusRow == (if old(focusRow) > 0 then old(focusRow) - 1 else 0)
        && choice == old(choice) && loaded == old(loaded) && saved == old(saved) && cmd == NoCmd
      ensures msg.Key? && msg.key in {"down", "j"} ==>
        && focusRow == (if old(focusRow) < RowCount - 1 then old(focusRow) + 1 else RowCount - 1)
        && choice == old(choice) && loaded == old(loaded) && saved == old(saved) && cmd == NoCmd
      ensures msg.Key? && msg.key in {"left", "h", "right", "l"} ==>
        && focusRow == old(focusRow) && loaded == old(loaded) && saved == old(saved) && cmd == NoCmd
        && Focused() == Cycle(old(Focused()), OptionCount(focusRow), msg.key in {"right", "l"})
        && (focusRow != 0 ==> choice.themeIdx == old(choice.themeIdx))
        && (focusRow != 1 ==> choice.fontSizeIdx == old(choice.fontSizeIdx))
        && (focusRow != 2 ==> choice.versionIdx == old(choice.versionIdx))
      ensures msg.Key? && msg.key in {"enter", "s"} ==>
        && saved && focusRow == old(focusRow) && choice == old(choice) && loaded == old(loaded)
        && cmd == SaveAndApply(ConfigOf(choice), GetTheme(AllThemeNames[choice.themeIdx]))
      ensures (msg.OtherMsg? || (msg.Key? && msg.key !in {"up", "k", "down", "j", "left", "h", "right", "l", "enter", "s"})) ==>
        && focusRow == old(focusRow) && choice == old(choice) && loaded == old(loaded) && saved == old(saved)
        && cmd == NoCmd
    {
      cmd := NoCmd;
      match msg
      case SettingsLoaded(config) =>
        loaded := true;
        if config.Some? {
          choice := ChoiceOf(config.value);
        }
      case Key(key) =>
        if key == "up" || key == "k" {
          if focusRow > 0 {
            focusRow := focusRow - 1;
          }
        } else if key == "down" || key == "j" {
          if focusRow < RowCount - 1 {
            focusRow := focusRow + 1;
          }
        } else if key == "left" || key == "h" {
          StepOption(false);
        } else if key == "right" || key == "l" {
          StepOption(true);
        } else if key == "enter" || key == "s" {
          saved := true;
          cmd := SaveAndApply(ConfigOf(choice), GetTheme(AllThemeNames[choice.themeIdx]));
        }
      case OtherMsg =>
    }
  }

  /** A right step followed by a left step on the same row, or the reverse,
      restores every index. */
  method StepBackAndForth(m: SettingsModel, forward: bool)
    modifies m
    requires m.Valid()
    ensures m.Valid()
    ensures m.choice == old(m.choice) && m.focusRow == old(m.focusRow)
  {
    ghost var before := m.choice;
    m.StepOption(forward);
    m.StepOption(!forward);
    CycleInverse(if m.focusRow == 0 then before.themeIdx else if m.focusRow == 1 then before.fontSizeIdx else before.versionIdx,
                 OptionCount(m.focusRow));
  }
}
