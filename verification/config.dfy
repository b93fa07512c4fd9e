/** User settings kept in the key-value `settings` table: loading them over
    the defaults and saving them back. */
module Settings {
  import opened Wrappers
  import opened TextUtil

  /** The user's preferences. */
  datatype Config = Config(themeName: string, fontSize: int, versionCode: string)

  /** What a fresh installation uses. */
  const Defaults := Config("dark", 2, "GAE")

  const ThemeKey := "theme_name"
  const FontKey := "font_size"
  const VersionKey := "default_version"

  datatype ConfigError =
    | ReadFailed(key: string)      // the store could not read this key
    | BadFontSize(text: string)    // the stored font size is not a decimal integer
    | WriteFailed(key: string)     // the store could not write this key

  /** A stored value, or "" for a key never stored (as `GetSetting` reports a
      missing row). */
  function Setting(values: map<string, string>, key: string): string {
    if key in values then values[key] else ""
  }

  /** The `settings` table, with the keys whose reads or writes fail. */
  class SettingsStore {
    var values: map<string, string>
    const unreadable: set<string>
    const unwritable: set<string>

    constructor(values: map<string, string>, unreadable: set<string>, unwritable: set<string>)
      ensures this.values == values && this.unreadable == unreadable && this.unwritable == unwritable
    {
      this.values := values;
      this.unreadable := unreadable;
      this.unwritable := unwritable;
    }

    /** `GetSetting`: the stored value, "" when the key has no row, nothing
        when the read fails. */
    method GetSetting(key: string) returns (r: Option<string>)
      ensures r == if key in unreadable then None else Some(Setting(values, key))
    {
      if key in unreadable {
        return None;
      }
      r := Some(if key in values then values[key] else "");
    }

    /** `SetSetting`: an insert-or-replace of the key's row, unless the
        write fails. */
    method SetSetting(key: string, value: string) returns (ok: bool)
      modifies this
      ensures ok == (key !in unwritable)
      ensures values == if ok then old(values)[key := value] else old(values)
    {
      ok := key !in unwritable;
      if ok {
        values := values[key := value];
      }
    }
  }

  // ---------------------------------------------------------------------
  // LoadConfig

  /** What `LoadConfig` returns for a store holding `values` whose reads of
      `unreadable` fail: each non-empty setting replaces its default, in the
      order theme, font size, version. Loading fails exactly when a read
      fails or the stored font size is not a decimal integer; otherwise an
      empty setting keeps its default and a non-empty one replaces it, so a
      loaded theme and version are never empty. */
  function Loaded(values: map<string, string>, unreadable: set<string>): (r: Result<Config, ConfigError>)
    ensures r.Err? <==>
      || ThemeKey in unreadable || FontKey in unreadable || VersionKey in unreadable
      || (Setting(values, FontKey) != "" && Atoi(Setting(values, FontKey)).None?)
    ensures ThemeKey in unreadable ==> r == Err(ReadFailed(ThemeKey))
    ensures r.Ok? ==>
      && (Setting(values, ThemeKey) == "" ==> r.value.themeName == Defaults.themeName)
      && (Setting(values, ThemeKey) != "" ==> r.value.themeName == Setting(values, ThemeKey))
      && (Setting(values, FontKey) == "" ==> r.value.fontSize == Defaults.fontSize)
      && (Setting(values, FontKey) != "" ==> Atoi(Setting(values, FontKey)) == Some(r.value.fontSize))
      && (Setting(values, VersionKey) == "" ==> r.value.versionCode == Defaults.versionCode)
      && (Setting(values, VersionKey) != "" ==> r.value.versionCode == Setting(values, VersionKey))
      && r.value.themeName != "" && r.value.versionCode != ""
  {
    if ThemeKey in unreadable then Err(ReadFailed(ThemeKey))
    else
      var theme := Setting(values, ThemeKey);
      var cfg := if theme != "" then Defaults.(themeName := theme) else Defaults;
      if FontKey in unreadable then Err(ReadFailed(FontKey))
      else
        var font := Setting(values, FontKey);
        if font != "" && Atoi(font).None? then Err(BadFontSize(font))
        else
          var cfg := if font != "" then cfg.(fontSize := Atoi(font).value) else cfg;
          if VersionKey in unreadable then Err(ReadFailed(VersionKey))
          else
            var version := Setting(values, VersionKey);
            Ok(if version != "" then cfg.(versionCode := version) else cfg)
  }

  /** `LoadConfig`: starts from the defaults and overwrites each field whose
      setting is non-empty; any failed read or an unparsable font size
      aborts. */
  method LoadConfig(store: SettingsStore) returns (r: Result<Config, ConfigError>)
    ensures r == Loaded(store.values, store.unreadable)
  {
    var cfg := Defaults;

    var theme := store.GetSetting(ThemeKey);
    if theme.None? {
      return Err(ReadFailed(ThemeKey));
    }
    if theme.value != "" {
      cfg := cfg.(themeName := theme.value);
    }

    var font := store.GetSetting(FontKey);
    if font.None? {
      return Err(ReadFailed(FontKey));
    }
    if font.value != "" {
      var size := Atoi(font.value);
      if size.None? {
        return Err(BadFontSize(font.value));
      }
      cfg := cfg.(fontSize := size.value);
    }

    var version := store.GetSetting(VersionKey);
    if version.None? {
      return Err(ReadFailed(VersionKey));
    }
    if version.value != "" {
      cfg := cfg.(versionCode := version.value);
    }
    return Ok(cfg);
  }

  // ---------------------------------------------------------------------
  // SaveConfig

  /** The store after `SaveConfig`, and its verdict. */
  datatype Saved = Saved(values: map<string, string>, result: Outcome<ConfigError>)

  /** What `SaveConfig` does to `values` when writes of `unwritable` fail:
      theme, font size (as decimal text) and version are written in that
      order, and the first failing write stops the rest. Every other key
      keeps its row or its absence; a successful save stores the three
      fields, and a failed one reports the first key it could not write and
      leaves the later ones as they were. */
  function Save(values: map<string, string>, unwritable: set<string>, cfg: Config): (s: Saved)
    ensures forall key :: key != ThemeKey && key != FontKey && key != VersionKey ==>
      && (key in s.values <==> key in values)
      && (key in values ==> s.values[key] == values[key])
    ensures s.result.Pass? <==> ThemeKey !in unwritable && FontKey !in unwritable && VersionKey !in unwritable
    ensures s.result.Pass? ==>
      && Setting(s.values, ThemeKey) == cfg.themeName
      && Setting(s.values, FontKey) == Itoa(cfg.fontSize)
      && Setting(s.values, VersionKey) == cfg.versionCode
    ensures s.result == Fail(WriteFailed(ThemeKey)) ==> s.values == values
    ensures s.result == Fail(WriteFailed(FontKey)) ==> s.values == values[ThemeKey := cfg.themeName]
  {
    if ThemeKey in unwritable then Saved(values, Fail(WriteFailed(ThemeKey)))
    else
      var values := values[ThemeKey := cfg.themeName];
      if FontKey in unwritable then Saved(values, Fail(WriteFailed(FontKey)))
      else
        var values := values[FontKey := Itoa(cfg.fontSize)];
        if VersionKey in unwritable then Saved(values, Fail(WriteFailed(VersionKey)))
        else Saved(values[VersionKey := cfg.versionCode], Pass)
  }

  /** `SaveConfig`: three writes, the first failure aborts. */
  method SaveConfig(store: SettingsStore, cfg: Config) returns (r: Outcome<ConfigError>)
    modifies store
    ensures Saved(store.values, r) == Save(old(store.values), store.unwritable, cfg)
  {
    var ok := store.SetSetting(ThemeKey, cfg.themeName);
    if !ok {
      return Fail(WriteFailed(ThemeKey));
    }
    ok := store.SetSetting(FontKey, Itoa(cfg.fontSize));
    if !ok {
      return Fail(WriteFailed(FontKey));
    }
    ok := store.SetSetting(VersionKey, cfg.versionCode);
    if !ok {
      return Fail(WriteFailed(VersionKey));
    }
    return Pass;
  }

  // ---------------------------------------------------------------------
  // Properties

  /** An empty store loads the defaults. */
  lemma LoadEmpty()
    ensures Loaded(map[], {}) == Ok(Defaults)
  {
  }

  /** Saving a configuration with a theme and a version, and a font size an
      `int` of 64 bits holds, then loading it back gives the same
      configuration. */
  lemma SaveThenLoad(values: map<string, string>, unwritable: set<string>, unreadable: set<string>, cfg: Config)
    requires cfg.themeName != "" && cfg.versionCode != ""
    requires MinInt64 <= cfg.fontSize <= MaxInt64
    requires ThemeKey !in unwritable && FontKey !in unwritable && VersionKey !in unwritable
    requires ThemeKey !in unreadable && FontKey !in unreadable && VersionKey !in unreadable
    ensures Save(values, unwritable, cfg).result == Pass
    ensures Loaded(Save(values, unwritable, cfg).values, unreadable) == Ok(cfg)
  {
    AtoiItoa(cfg.fontSize);
  }
}
