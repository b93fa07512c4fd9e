/** Style tables of the terminal interface: layout density per font-size
    level and the preset colour themes. */
module Styles {

  // ---------------------------------------------------------------------
  // Font size

  /** Layout density for one "font size" level: terminals cannot change the
      font, so the levels change spacing instead. */
  datatype FontSizeConfig = FontSizeConfig(
    level: int,
    versePadding: int,   // blank lines between verses
    verseIndent: int,    // indent of verse text, in columns
    numberWidth: int,    // width of the verse number, in columns
    sectionGap: int)     // blank lines around section titles

  /** The level clamped into 1..3. */
  function ClampLevel(level: int): (c: int)
    ensures 1 <= c <= 3
    ensures 1 <= level <= 3 ==> c == level
    ensures level < 1 ==> c == 1
    ensures level > 3 ==> c == 3
  {
    if level < 1 then 1 else if level > 3 then 3 else level
  }

  /** `GetFontSizeConfig`: the row of the clamped level. */
  function GetFontSizeConfig(level: int): (r: FontSizeConfig)
    ensures r.level == ClampLevel(level)
    ensures r.level == 1 ==> r == FontSizeConfig(1, 0, 2, 3, 0)
    ensures r.level == 2 ==> r == FontSizeConfig(2, 0, 3, 4, 1)
    ensures r.level == 3 ==> r == FontSizeConfig(3, 1, 4, 5, 2)
  {
    match ClampLevel(level)
    case 1 => FontSizeConfig(1, 0, 2, 3, 0)
    case 3 => FontSizeConfig(3, 1, 4, 5, 2)
    case _ => FontSizeConfig(2, 0, 3, 4, 1)
  }

  /** Every spacing grows, or stays, as the level rises. */
  lemma FontSizeMonotone(a: int, b: int)
    requires a <= b
    ensures var x, y := GetFontSizeConfig(a), GetFontSizeConfig(b);
      && x.level <= y.level
      && x.versePadding <= y.versePadding && x.verseIndent <= y.verseIndent
      && x.numberWidth <= y.numberWidth && x.sectionGap <= y.sectionGap
  {
  }

  /** Asking again for the level of a returned row gives the same row. */
  lemma FontSizeIdempotent(level: int)
    ensures GetFontSizeConfig(GetFontSizeConfig(level).level) == GetFontSizeConfig(level)
  {
  }

  // ---------------------------------------------------------------------
  // Themes

  /** A colour scheme; colours are hexadecimal colour strings. */
  datatype Theme = Theme(
    name: string,
    background: string,
    foreground: string,
    primary: string,
    secondary: string,
    muted: string,
    error: string,
    highlightBg: string,
    statusBarBg: string,
    statusBarFg: string,
    verseNumber: string,
    sectionTitle: string,
    footnoteMarker: string)

  const DarkTheme := Theme("dark", "#1a1b26", "#c0caf5", "#7aa2f7", "#bb9af7", "#565f89", "#f7768e",
                           "#292e42", "#1f2335", "#737aa2", "#e0af68", "#9ece6a", "#7dcfff")
  const LightTheme := Theme("light", "#ffffff", "#343b58", "#34548a", "#5a4a78", "#9699a3", "#8c4351",
                            "#e9e9ed", "#d5d6db", "#8990b3", "#965027", "#33635c", "#166775")
  const SolarizedTheme := Theme("solarized", "#002b36", "#839496", "#268bd2", "#2aa198", "#586e75", "#dc322f",
                                "#073642", "#073642", "#657b83", "#b58900", "#cb4b16", "#6c71c4")
  const NordTheme := Theme("nord", "#2E3440", "#D8DEE9", "#88C0D0", "#B48EAD", "#4C566A", "#BF616A",
                           "#3B4252", "#3B4252", "#616E88", "#EBCB8B", "#A3BE8C", "#81A1C1")

  /** `AllThemeNames`: the preset names in menu order. */
  const AllThemeNames: seq<string> := ["dark", "light", "solarized", "nord"]

  /** `GetTheme`: the preset of that name, the dark theme for any other. */
  function GetTheme(name: string): (t: Theme)
    ensures name in AllThemeNames ==> t.name == name
    ensures name !in AllThemeNames ==> t == DarkTheme
    ensures t in {DarkTheme, LightTheme, SolarizedTheme, NordTheme}
  {
    if name == "light" then LightTheme
    else if name == "solarized" then SolarizedTheme
    else if name == "nord" then NordTheme
    else DarkTheme
  }

  /** Every preset can be told apart: its background, foreground and primary
      colours are set, and background and foreground differ. */
  lemma PresetsReadable(name: string)
    requires name in AllThemeNames
    ensures var t := GetTheme(name);
      && t.background != "" && t.foreground != "" && t.primary != ""
      && t.background != t.foreground
  {
  }
}
