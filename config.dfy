/**
 * The settings read from `config.json`: the channel list, the polling
 * intervals and the `text_cleanup` section, with the defaults the code falls
 * back on when the file cannot be read or a key is missing.
 */
module Config {
  import opened Wrappers

  /** `check_intervals`: the polling delays in seconds. */
  datatype Intervals = Intervals(initial: int, min: int, max: int, increment: int)

  /** The `text_cleanup` section: JSON keys mapped to their lists of strings. */
  type CleanupSection = map<string, seq<string>>

  /** A `config.json` that parsed: each top-level key present or absent. */
  datatype RawConfig = RawConfig(
    channels: Option<seq<string>>,
    checkIntervals: Option<map<string, int>>,
    textCleanup: Option<CleanupSection>)

  /** The configuration the parser works with after `load_config`. */
  datatype Settings = Settings(channels: seq<string>, intervals: Intervals, cleanup: CleanupSection)

  const DefaultIntervalMap: map<string, int> :=
    map["initial" := 30, "min" := 15, "max" := 60, "increment" := 5]

  /** `d.get(key, default)` on an integer-valued dictionary. */
  function Setting(d: map<string, int>, key: string, default: int): (v: int)
    ensures key in d ==> v == d[key]
    ensures key !in d ==> v == default
  {
    if key in d then d[key] else default
  }

  /** `section.get(key, [])` on the cleanup section. */
  function ListSetting(section: CleanupSection, key: string): (v: seq<string>)
    ensures key in section ==> v == section[key]
    ensures key !in section ==> v == []
  {
    if key in section then section[key] else []
  }

  function Phrases(section: CleanupSection): seq<string> {
    ListSetting(section, "remove_phrases")
  }

  function Patterns(section: CleanupSection): seq<string> {
    ListSetting(section, "remove_patterns")
  }

  /**
   * `load_config` followed by the reads of the channel list, of
   * `check_intervals` (each key defaulting to 30/15/60/5) and of
   * `text_cleanup`; `file` is `None` when the file is missing or not JSON.
   */
  function LoadSettings(file: Option<RawConfig>): (s: Settings)
    ensures file.None? ==> s.channels == [] && s.cleanup == map[]
    ensures file.Some? && file.value.channels.Some? ==> s.channels == file.value.channels.value
    ensures file.None? || file.value.checkIntervals.None? ==> s.intervals == Intervals(30, 15, 60, 5)
  {
    var raw := match file case None => RawConfig(None, None, None) case Some(c) => c;
    var d := raw.checkIntervals.GetOr(DefaultIntervalMap);
    Settings(
      raw.channels.GetOr([]),
      Intervals(Setting(d, "initial", 30), Setting(d, "min", 15), Setting(d, "max", 60), Setting(d, "increment", 5)),
      raw.textCleanup.GetOr(map[]))
  }

  /** `load_cleanup_config` of the migration script: the section, or `{}` on any error. */
  function LoadCleanupSection(file: Option<RawConfig>): (section: CleanupSection)
    ensures file.None? ==> section == map[]
    ensures file.Some? && file.value.textCleanup.Some? ==> section == file.value.textCleanup.value
    ensures file.Some? && file.value.textCleanup.None? ==> section == map[]
  {
    match file
    case None => map[]
    case Some(c) => c.textCleanup.GetOr(map[])
  }
}
