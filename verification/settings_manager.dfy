/** The preference store behind the settings screen and the browser.
    `SharedPreferences` is a map from key to a typed value; a getter that
    finds a value of another type throws `ClassCastException`, and
    `ViewMode.valueOf` and Gson throw on text they cannot read — those
    three failures are the `SettingsError` cases. Each edit applies its
    puts to the map at once (`apply()` is treated as immediate). */
module SettingsManager {
  import opened Wrappers
  import opened KotlinInt
  import opened Settings
  import OverlayJson

  datatype PrefValue = IntValue(i: int) | StringValue(s: string) | BoolValue(b: bool)

  /** The keys of the `xiaomi_video_player_prefs` file. The source has no
      key for the directory filter; `DirectoryFilterKey` belongs to the
      corrected store below. */
  datatype Key =
    | SeekBackward | SeekForward | OverlayConfigKey | ViewModeKey | DefaultDir
    | ShowFileSize | ShowDuration | ScanExternal | LastDirectory
    | DirectoryFilterKey

  /** The key as stored. */
  function KeyName(k: Key): string {
    match k
    case SeekBackward => "seek_backward_seconds"
    case SeekForward => "seek_forward_seconds"
    case OverlayConfigKey => "overlay_config"
    case ViewModeKey => "view_mode"
    case DefaultDir => "default_directory"
    case ShowFileSize => "show_file_size"
    case ShowDuration => "show_duration"
    case ScanExternal => "scan_external_storage"
    case LastDirectory => "last_directory"
    case DirectoryFilterKey => "directory_filter"
  }

  type Prefs = map<Key, PrefValue>

  datatype SettingsError =
    | WrongType(key: Key)
    | BadViewMode(name: string)
    | BadOverlayJson(json: string)

  /** Every key `saveAppSettings` writes. */
  const SettingsKeys: set<Key> := {SeekBackward, SeekForward, OverlayConfigKey, ViewModeKey,
    DefaultDir, ShowFileSize, ShowDuration, ScanExternal}

  // ---------------------------------------------------------------------
  // Typed getters

  function GetInt(p: Prefs, key: Key, default: int): (r: Result<int, SettingsError>)
    ensures key !in p ==> r == Ok(default)
    ensures key in p ==> (r.Ok? <==> p[key].IntValue?)
    ensures key in p && r.Ok? ==> r.value == p[key].i
  {
    if key !in p then Ok(default)
    else match p[key]
      case IntValue(i) => Ok(i)
      case _ => Err(WrongType(key))
  }

  function GetBool(p: Prefs, key: Key, default: bool): (r: Result<bool, SettingsError>)
    ensures key !in p ==> r == Ok(default)
    ensures key in p ==> (r.Ok? <==> p[key].BoolValue?)
    ensures key in p && r.Ok? ==> r.value == p[key].b
  {
    if key !in p then Ok(default)
    else match p[key]
      case BoolValue(b) => Ok(b)
      case _ => Err(WrongType(key))
  }

  /** `getString(key, default)`; `None` for a key with no value and no default. */
  function GetString(p: Prefs, key: Key, default: Option<string>): (r: Result<Option<string>, SettingsError>)
    ensures key !in p ==> r == Ok(default)
    ensures key in p ==> (r.Ok? <==> p[key].StringValue?)
    ensures key in p && r.Ok? ==> r.value == Some(p[key].s)
  {
    if key !in p then Ok(default)
    else match p[key]
      case StringValue(s) => Ok(Some(s))
      case _ => Err(WrongType(key))
  }

  /** `getString(key, d) ?: d` */
  function GetStringOr(p: Prefs, key: Key, default: string): (r: Result<string, SettingsError>)
    ensures key !in p ==> r == Ok(default)
    ensures key in p ==> (r.Ok? <==> p[key].StringValue?)
    ensures key in p && r.Ok? ==> r.value == p[key].s
  {
    var s :- GetString(p, key, Some(default));
    Ok(s.OrElse(default))
  }

  // ---------------------------------------------------------------------
  // The operations

  /** `getOverlayConfig()`: the stored JSON, or the defaults when absent. */
  function GetOverlayConfig(p: Prefs): (r: Result<OverlayConfig, SettingsError>)
    ensures OverlayConfigKey !in p ==> r == Ok(DefaultOverlay)
    ensures r.Ok? ==> ValidConfig(r.value)
  {
    var json :- GetString(p, OverlayConfigKey, None);
    match json
    case None => Ok(DefaultOverlay)
    case Some(text) =>
      match OverlayJson.Decode(text)
      case Some(c) => Ok(c)
      case None => Err(BadOverlayJson(text))
  }

  /** `saveOverlayConfig(config)`. */
  function SaveOverlayConfig(p: Prefs, c: OverlayConfig): Prefs {
    p[OverlayConfigKey := StringValue(OverlayJson.Encode(c))]
  }

  /** `getAppSettings()`, in the source's order of reads: the overlay
      first, then the remaining keys. */
  function GetAppSettings(p: Prefs): (r: Result<AppSettings, SettingsError>)
    ensures r.Ok? ==> ValidConfig(r.value.overlayConfig)
    ensures r.Ok? ==> r.value.directoryFilter == ""
  {
    var overlay :- GetOverlayConfig(p);
    var rest :- ReadPlainSettings(p);
    Ok(rest.(overlayConfig := overlay))
  }

  /** The reads after the overlay: seek times, view mode, default
      directory, then the three switches. The overlay is left at its
      default for the caller to fill in, and the directory filter is not
      read at all and keeps its default. */
  function ReadPlainSettings(p: Prefs): (r: Result<AppSettings, SettingsError>)
    ensures r.Ok? ==> r.value.directoryFilter == "" && r.value.overlayConfig == DefaultOverlay
  {
    var back :- GetInt(p, SeekBackward, 5);
    var forward :- GetInt(p, SeekForward, 5);
    var modeName :- GetStringOr(p, ViewModeKey, "GRID");
    var mode :- match ViewModeOf(modeName)
      case Some(m) => Ok(m)
      case None => Err(BadViewMode(modeName));
    var dir :- GetStringOr(p, DefaultDir, DefaultDirectory);
    var showSize :- GetBool(p, ShowFileSize, true);
    var showDuration :- GetBool(p, ShowDuration, true);
    var scan :- GetBool(p, ScanExternal, true);
    Ok(AppSettings(back, forward, DefaultOverlay, mode, dir, showSize, showDuration, scan, ""))
  }

  /** `saveAppSettings(settings)`: every field but `directoryFilter`. */
  function SaveAppSettings(p: Prefs, s: AppSettings): Prefs {
    p[SeekBackward := IntValue(s.seekBackwardSeconds)]
     [SeekForward := IntValue(s.seekForwardSeconds)]
     [OverlayConfigKey := StringValue(OverlayJson.Encode(s.overlayConfig))]
     [ViewModeKey := StringValue(ViewModeName(s.browserViewMode))]
     [DefaultDir := StringValue(s.defaultDirectory)]
     [ShowFileSize := BoolValue(s.showFileSize)]
     [ShowDuration := BoolValue(s.showDuration)]
     [ScanExternal := BoolValue(s.scanExternalStorage)]
  }

  function GetSeekBackwardSeconds(p: Prefs): Result<int, SettingsError> {
    GetInt(p, SeekBackward, 5)
  }

  function GetSeekForwardSeconds(p: Prefs): Result<int, SettingsError> {
    GetInt(p, SeekForward, 5)
  }

  /** `getLastDirectory()`. */
  function GetLastDirectory(p: Prefs): (r: Result<string, SettingsError>)
    ensures LastDirectory !in p ==> r == Ok(DefaultDirectory)
  {
    GetStringOr(p, LastDirectory, DefaultDirectory)
  }

  /** `saveLastDirectory(path)`. */
  function SaveLastDirectory(p: Prefs, path: string): Prefs {
    p[LastDirectory := StringValue(path)]
  }

  // ---------------------------------------------------------------------
  // Properties

  /** A key holds a value a getter of the given kind can read. */
  predicate HoldsKind(p: Prefs, key: Key, kind: PrefValue) {
    key !in p || (p[key].IntValue? == kind.IntValue? && p[key].StringValue? == kind.StringValue?)
  }

  /** The reference condition for `getAppSettings` to return: every key is
      absent or of its type, the view mode names a mode, and the overlay
      JSON parses. */
  predicate Readable(p: Prefs) {
    && HoldsKind(p, SeekBackward, IntValue(0))
    && HoldsKind(p, SeekForward, IntValue(0))
    && HoldsKind(p, OverlayConfigKey, StringValue(""))
    && HoldsKind(p, ViewModeKey, StringValue(""))
    && HoldsKind(p, DefaultDir, StringValue(""))
    && HoldsKind(p, ShowFileSize, BoolValue(false))
    && HoldsKind(p, ShowDuration, BoolValue(false))
    && HoldsKind(p, ScanExternal, BoolValue(false))
    && (ViewModeKey in p ==> p[ViewModeKey].s == "GRID" || p[ViewModeKey].s == "LIST")
    && (OverlayConfigKey in p ==> OverlayJson.Decode(p[OverlayConfigKey].s).Some?)
  }

  lemma GetAppSettingsOkIff(p: Prefs)
    ensures GetAppSettings(p).Ok? <==> Readable(p)
  {
  }

  /** A fresh install reads the defaults. */
  lemma EmptyPrefsGiveDefaults()
    ensures GetAppSettings(map[]) == Ok(DefaultSettings)
    ensures GetLastDirectory(map[]) == Ok(DefaultDirectory)
  {
  }

  /** Reading back what was saved gives the settings with the directory
      filter dropped, whatever the store held before. */
  lemma SaveThenGet(p: Prefs, s: AppSettings)
    requires ValidConfig(s.overlayConfig)
    ensures GetAppSettings(SaveAppSettings(p, s)) == Ok(s.(directoryFilter := ""))
  {
    var q := SaveAppSettings(p, s);
    assert GetOverlayConfig(q) == Ok(s.overlayConfig) by {
      OverlayJson.DecodeEncode(s.overlayConfig);
    }
    assert ReadPlainSettings(q) == Ok(s.(overlayConfig := DefaultOverlay, directoryFilter := "")) by {
      ViewModeNameRoundTrip(s.browserViewMode);
      SavedReads(p, s);
      PlainReadsOk(q, s.seekBackwardSeconds, s.seekForwardSeconds, ViewModeName(s.browserViewMode),
        s.browserViewMode, s.defaultDirectory, s.showFileSize, s.showDuration, s.scanExternalStorage);
    }
  }

  /** Each getter reads back the value `saveAppSettings` put under its key. */
  lemma SavedReads(p: Prefs, s: AppSettings)
    ensures var q := SaveAppSettings(p, s);
      && GetInt(q, SeekBackward, 5) == Ok(s.seekBackwardSeconds)
      && GetInt(q, SeekForward, 5) == Ok(s.seekForwardSeconds)
      && GetStringOr(q, ViewModeKey, "GRID") == Ok(ViewModeName(s.browserViewMode))
      && GetStringOr(q, DefaultDir, DefaultDirectory) == Ok(s.defaultDirectory)
      && GetBool(q, ShowFileSize, true) == Ok(s.showFileSize)
      && GetBool(q, ShowDuration, true) == Ok(s.showDuration)
      && GetBool(q, ScanExternal, true) == Ok(s.scanExternalStorage)
  {
  }

  /** When every read succeeds, the plain settings are the values read. */
  lemma PlainReadsOk(p: Prefs, back: int, forward: int, modeName: string, mode: ViewMode,
                     dir: string, showSize: bool, showDuration: bool, scan: bool)
    requires GetInt(p, SeekBackward, 5) == Ok(back) && GetInt(p, SeekForward, 5) == Ok(forward)
    requires GetStringOr(p, ViewModeKey, "GRID") == Ok(modeName) && ViewModeOf(modeName) == Some(mode)
    requires GetStringOr(p, DefaultDir, DefaultDirectory) == Ok(dir)
    requires GetBool(p, ShowFileSize, true) == Ok(showSize) && GetBool(p, ShowDuration, true) == Ok(showDuration)
    requires GetBool(p, ScanExternal, true) == Ok(scan)
    ensures ReadPlainSettings(p) == Ok(AppSettings(back, forward, DefaultOverlay, mode, dir, showSize, showDuration, scan, ""))
  {
  }

  /** The seek getters read the same values `getAppSettings` does. */
  lemma SeekGettersAgree(p: Prefs)
    requires GetAppSettings(p).Ok?
    ensures GetSeekBackwardSeconds(p) == Ok(GetAppSettings(p).value.seekBackwardSeconds)
    ensures GetSeekForwardSeconds(p) == Ok(GetAppSettings(p).value.seekForwardSeconds)
  {
    var plain := ReadPlainSettings(p);
    assert plain.Ok? && GetAppSettings(p).value.seekBackwardSeconds == plain.value.seekBackwardSeconds
      && GetAppSettings(p).value.seekForwardSeconds == plain.value.seekForwardSeconds;
    PlainSeekTimes(p);
  }

  /** The plain reads take the seek times from the two seek keys. */
  lemma PlainSeekTimes(p: Prefs)
    requires ReadPlainSettings(p).Ok?
    ensures GetInt(p, SeekBackward, 5) == Ok(ReadPlainSettings(p).value.seekBackwardSeconds)
    ensures GetInt(p, SeekForward, 5) == Ok(ReadPlainSettings(p).value.seekForwardSeconds)
  {
  }

  /** `p` and `q` hold the same value, or both nothing, under `k`. */
  predicate SameAt(p: Prefs, q: Prefs, k: Key) {
    (k in p <==> k in q) && (k in p ==> p[k] == q[k])
  }

  /** Two stores that agree on the settings keys other than the overlay
      read the same plain settings. */
  lemma PlainSettingsFrame(p: Prefs, q: Prefs)
    requires forall k :: k in SettingsKeys && k != OverlayConfigKey ==> SameAt(p, q, k)
    ensures ReadPlainSettings(p) == ReadPlainSettings(q)
  {
    assert GetInt(p, SeekBackward, 5) == GetInt(q, SeekBackward, 5) by { assert SameAt(p, q, SeekBackward); }
    assert GetInt(p, SeekForward, 5) == GetInt(q, SeekForward, 5) by { assert SameAt(p, q, SeekForward); }
    assert GetStringOr(p, ViewModeKey, "GRID") == GetStringOr(q, ViewModeKey, "GRID") by { assert SameAt(p, q, ViewModeKey); }
    assert GetStringOr(p, DefaultDir, DefaultDirectory) == GetStringOr(q, DefaultDir, DefaultDirectory) by { assert SameAt(p, q, DefaultDir); }
    assert GetBool(p, ShowFileSize, true) == GetBool(q, ShowFileSize, true) by { assert SameAt(p, q, ShowFileSize); }
    assert GetBool(p, ShowDuration, true) == GetBool(q, ShowDuration, true) by { assert SameAt(p, q, ShowDuration); }
    assert GetBool(p, ScanExternal, true) == GetBool(q, ScanExternal, true) by { assert SameAt(p, q, ScanExternal); }
  }

  /** `getAppSettings` reads only the keys `saveAppSettings` writes. */
  lemma SettingsFrame(p: Prefs, q: Prefs)
    requires forall k :: k in SettingsKeys ==> SameAt(p, q, k)
    ensures GetAppSettings(p) == GetAppSettings(q)
  {
    assert GetOverlayConfig(p) == GetOverlayConfig(q) by {
      assert SameAt(p, q, OverlayConfigKey);
    }
    PlainSettingsFrame(p, q);
  }

  lemma OverlayRoundTrip(p: Prefs, c: OverlayConfig)
    requires ValidConfig(c)
    ensures GetOverlayConfig(SaveOverlayConfig(p, c)) == Ok(c)
    ensures GetAppSettings(p).Ok? ==>
      GetAppSettings(SaveOverlayConfig(p, c)) == Ok(GetAppSettings(p).value.(overlayConfig := c))
  {
    OverlayJson.DecodeEncode(c);
    PlainSettingsFrame(p, SaveOverlayConfig(p, c));
  }

  /** The last directory lives beside the settings and never disturbs them. */
  lemma LastDirectoryRoundTrip(p: Prefs, path: string)
    ensures GetLastDirectory(SaveLastDirectory(p, path)) == Ok(path)
    ensures GetAppSettings(SaveLastDirectory(p, path)) == GetAppSettings(p)
  {
    SettingsFrame(p, SaveLastDirectory(p, path));
  }

  /** Saving the settings, with or without the filter, never touches the
      last directory. */
  lemma SaveKeepsLastDirectory(p: Prefs, s: AppSettings)
    ensures GetLastDirectory(SaveAppSettings(p, s)) == GetLastDirectory(p)
    ensures GetLastDirectory(SaveAppSettingsFixed(p, s)) == GetLastDirectory(p)
  {
    assert SameAt(p, SaveAppSettings(p, s), LastDirectory);
    assert SameAt(p, SaveAppSettingsFixed(p, s), LastDirectory);
  }

  // ---------------------------------------------------------------------
  // The directory filter is never stored

  /** The settings screen saves a filter and the store hands back "": the
      filter a user types never reaches the browser. */
  lemma DirectoryFilterLost(p: Prefs)
    ensures var s := DefaultSettings.(directoryFilter := "movies");
      GetAppSettings(SaveAppSettings(p, s)).Ok?
      && GetAppSettings(SaveAppSettings(p, s)).value.directoryFilter == ""
      && GetAppSettings(SaveAppSettings(p, s)) != Ok(s)
  {
    var s := DefaultSettings.(directoryFilter := "movies");
    SaveThenGet(p, s);
  }

  /** `saveAppSettings` with the filter stored under `directory_filter`. */
  function SaveAppSettingsFixed(p: Prefs, s: AppSettings): Prefs {
    SaveAppSettings(p, s)[DirectoryFilterKey := StringValue(s.directoryFilter)]
  }

  /** `getAppSettings` reading the filter back, "" when absent. */
  function GetAppSettingsFixed(p: Prefs): (r: Result<AppSettings, SettingsError>)
    ensures r.Ok? ==> GetAppSettings(p).Ok?
    ensures r.Ok? ==> r.value == GetAppSettings(p).value.(directoryFilter := r.value.directoryFilter)
  {
    var settings :- GetAppSettings(p);
    var filter :- GetStringOr(p, DirectoryFilterKey, "");
    Ok(settings.(directoryFilter := filter))
  }

  /** With the fix every field survives the round trip. */
  lemma FixedSaveThenGet(p: Prefs, s: AppSettings)
    requires ValidConfig(s.overlayConfig)
    ensures GetAppSettingsFixed(SaveAppSettingsFixed(p, s)) == Ok(s)
  {
    var saved := SaveAppSettings(p, s);
    SaveThenGet(p, s);
    FilterKeyFrame(saved, StringValue(s.directoryFilter));
  }

  /** Writing the filter key leaves `getAppSettings` alone, and the fixed
      reader then takes the filter from it. */
  lemma FilterKeyFrame(p: Prefs, v: PrefValue)
    requires v.StringValue?
    ensures GetAppSettings(p[DirectoryFilterKey := v]) == GetAppSettings(p)
    ensures GetAppSettings(p).Ok? ==>
      GetAppSettingsFixed(p[DirectoryFilterKey := v]) == Ok(GetAppSettings(p).value.(directoryFilter := v.s))
  {
    var q := p[DirectoryFilterKey := v];
    assert forall k :: k in SettingsKeys ==> SameAt(p, q, k) by {
      forall k | k in SettingsKeys ensures SameAt(p, q, k) {
        assert k != DirectoryFilterKey;
      }
    }
    SettingsFrame(p, q);
  }

  /** On a store that never held a filter, the fix reads exactly what the
      original does. */
  lemma FixedAgreesWithoutFilter(p: Prefs)
    requires DirectoryFilterKey !in p
    ensures GetAppSettingsFixed(p) == GetAppSettings(p)
  {
    assert GetStringOr(p, DirectoryFilterKey, "") == Ok("");
  }
}
