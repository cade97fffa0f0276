/** The settings screen: its working copy of the settings, what each
    button does to it, how it is loaded from the store, and what BACK
    saves. Arithmetic on the overlay fields is Kotlin `Int` arithmetic and
    wraps around. */
module SettingsEditor {
  import opened Wrappers
  import opened KotlinInt
  import opened Settings
  import opened SettingsManager

  /** The 4K screen the position and size buttons are bounded by. */
  const TvWidth := 3840
  const TvHeight := 2160

  /** The colour button's cycle: Black, Red, Green, Blue, White. */
  const ColorList: seq<int> := [ColorBlack, ColorRed, ColorGreen, ColorBlue, ColorWhite]

  /** The screen's fields and widgets. `colorIndex` is the position in
      `ColorList` the colour button shows. */
  datatype EditorState = EditorState(
    seekBackwardSeconds: int,
    seekForwardSeconds: int,
    overlayConfig: OverlayConfig,
    colorIndex: int,
    overlaySwitch: bool,
    filterText: string,
    fileSizeSwitch: bool,
    durationSwitch: bool
  )

  datatype Button =
    | DecreaseSeekBack | IncreaseSeekBack | DecreaseSeekForward | IncreaseSeekForward
    | DecreasePosX | IncreasePosX | DecreasePosY | IncreasePosY
    | DecreaseWidth | IncreaseWidth | DecreaseHeight | IncreaseHeight
    | CycleColor | DecreaseOpacity | IncreaseOpacity

  /** What the user can do on the screen: click a button, flip a switch,
      or type into the filter box. */
  datatype Input =
    | Click(button: Button)
    | SetOverlaySwitch(overlayOn: bool)
    | SetFileSizeSwitch(fileSizeOn: bool)
    | SetDurationSwitch(durationOn: bool)
    | TypeFilter(text: string)

  function CoerceAtLeast(x: int, lo: int): (r: int)
    ensures r >= lo && (r == x || r == lo)
  {
    if x < lo then lo else x
  }

  function CoerceAtMost(x: int, hi: int): (r: int)
    ensures r <= hi && (r == x || r == hi)
  {
    if x > hi then hi else x
  }

  /** `colorList.indexOfFirst { it.first == color }`: -1 when absent. */
  function IndexOfColor(color: int): (i: int)
    ensures -1 <= i < |ColorList|
    ensures i >= 0 ==> ColorList[i] == color && forall j :: 0 <= j < i ==> ColorList[j] != color
    ensures i == -1 ==> color !in ColorList
  {
    if color == ColorBlack then 0
    else if color == ColorRed then 1
    else if color == ColorGreen then 2
    else if color == ColorBlue then 3
    else if color == ColorWhite then 4
    else -1
  }

  /** `loadSettings()`: fails when `getAppSettings` throws. The store
      never returns a filter, so the filter box always opens empty. */
  function LoadSettings(p: Prefs): (r: Result<EditorState, SettingsError>)
    ensures r.Ok? <==> GetAppSettings(p).Ok?
    ensures r.Ok? ==> r.value.filterText == ""
  {
    var s :- GetAppSettings(p);
    Ok(EditorOf(s))
  }

  /** `loadSettings()` over the corrected store, which keeps the filter. */
  function LoadSettingsFixed(p: Prefs): (r: Result<EditorState, SettingsError>)
    ensures r.Ok? <==> GetAppSettingsFixed(p).Ok?
    ensures r.Ok? ==> r.value.filterText == GetAppSettingsFixed(p).value.directoryFilter
  {
    var s :- GetAppSettingsFixed(p);
    Ok(EditorOf(s))
  }

  /** The screen's fields filled from stored settings; a colour not in
      the list shows the first entry. */
  function EditorOf(s: AppSettings): EditorState {
    EditorState(
      s.seekBackwardSeconds, s.seekForwardSeconds, s.overlayConfig,
      CoerceAtLeast(IndexOfColor(s.overlayConfig.color), 0),
      s.overlayConfig.enabled, s.directoryFilter, s.showFileSize, s.showDuration)
  }

  /** One click listener. */
  function Press(e: EditorState, b: Button): EditorState
    requires 0 <= e.colorIndex < |ColorList|
  {
    var c := e.overlayConfig;
    match b
    case DecreaseSeekBack =>
      if e.seekBackwardSeconds > 1 then e.(seekBackwardSeconds := e.seekBackwardSeconds - 1) else e
    case IncreaseSeekBack =>
      if e.seekBackwardSeconds < 60 then e.(seekBackwardSeconds := e.seekBackwardSeconds + 1) else e
    case DecreaseSeekForward =>
      if e.seekForwardSeconds > 1 then e.(seekForwardSeconds := e.seekForwardSeconds - 1) else e
    case IncreaseSeekForward =>
      if e.seekForwardSeconds < 60 then e.(seekForwardSeconds := e.seekForwardSeconds + 1) else e
    case DecreasePosX =>
      e.(overlayConfig := c.(positionX := CoerceAtLeast(Wrap32(c.positionX - 10), 0)))
    case IncreasePosX =>
      e.(overlayConfig := c.(positionX := CoerceAtMost(Wrap32(c.positionX + 10), TvWidth)))
    case DecreasePosY =>
      e.(overlayConfig := c.(positionY := CoerceAtLeast(Wrap32(c.positionY - 10), 0)))
    case IncreasePosY =>
      e.(overlayConfig := c.(positionY := CoerceAtMost(Wrap32(c.positionY + 10), TvHeight)))
    case DecreaseWidth =>
      e.(overlayConfig := c.(width := CoerceAtLeast(Wrap32(c.width - 10), 10)))
    case IncreaseWidth =>
      e.(overlayConfig := c.(width := CoerceAtMost(Wrap32(c.width + 10), TvWidth)))
    case DecreaseHeight =>
      e.(overlayConfig := c.(height := CoerceAtLeast(Wrap32(c.height - 5), 5)))
    case IncreaseHeight =>
      e.(overlayConfig := c.(height := CoerceAtMost(Wrap32(c.height + 5), TvHeight)))
    case CycleColor =>
      var i := (e.colorIndex + 1) % |ColorList|;
      e.(colorIndex := i, overlayConfig := c.(color := ColorList[i]))
    case DecreaseOpacity =>
      e.(overlayConfig := c.(opacity := CoerceAtLeast(Wrap32(c.opacity - 10), 0)))
    case IncreaseOpacity =>
      e.(overlayConfig := c.(opacity := CoerceAtMost(Wrap32(c.opacity + 10), 100)))
  }

  /** The index invariant every reachable state keeps. */
  predicate WellFormed(e: EditorState) {
    0 <= e.colorIndex < |ColorList| && ValidConfig(e.overlayConfig)
  }

  function Apply(e: EditorState, input: Input): (r: EditorState)
    requires WellFormed(e)
    ensures WellFormed(r)
  {
    match input
    case Click(b) => PressWellFormed(e, b); Press(e, b)
    case SetOverlaySwitch(on) => e.(overlaySwitch := on)
    case SetFileSizeSwitch(on) => e.(fileSizeSwitch := on)
    case SetDurationSwitch(on) => e.(durationSwitch := on)
    case TypeFilter(text) => e.(filterText := text)
  }

  function ApplyAll(e: EditorState, inputs: seq<Input>): (r: EditorState)
    requires WellFormed(e)
    ensures WellFormed(r)
    decreases |inputs|
  {
    if |inputs| == 0 then e else ApplyAll(Apply(e, inputs[0]), inputs[1..])
  }

  /** `saveSettings()`'s `finalSettings`: the screen's values, the overlay
      with the switch's `enabled`, and the constructor defaults for the
      fields the screen does not show. */
  function FinalSettings(e: EditorState): (s: AppSettings)
    ensures s.browserViewMode == DefaultSettings.browserViewMode
    ensures s.defaultDirectory == DefaultSettings.defaultDirectory
    ensures s.scanExternalStorage == DefaultSettings.scanExternalStorage
  {
    AppSettings(
      e.seekBackwardSeconds, e.seekForwardSeconds,
      e.overlayConfig.(enabled := e.overlaySwitch),
      DefaultSettings.browserViewMode, DefaultSettings.defaultDirectory,
      e.fileSizeSwitch, e.durationSwitch,
      DefaultSettings.scanExternalStorage, e.filterText)
  }

  function SaveSettings(e: EditorState, p: Prefs): Prefs {
    SaveAppSettings(p, FinalSettings(e))
  }

  /** `saveSettings()` over the corrected store. */
  function SaveSettingsFixed(e: EditorState, p: Prefs): Prefs {
    SaveAppSettingsFixed(p, FinalSettings(e))
  }

  datatype KeyOutcome = SavedAndFinished(prefs: Prefs) | PassedOn

  /** `onKeyDown`: BACK saves and closes the screen; any other key goes to
      the framework. */
  function OnKeyDown(e: EditorState, p: Prefs, isBack: bool): (r: KeyOutcome)
    ensures r.SavedAndFinished? <==> isBack
    ensures r.SavedAndFinished? && WellFormed(e) ==>
      GetAppSettings(r.prefs) == Ok(FinalSettings(e).(directoryFilter := ""))
    ensures r.SavedAndFinished? ==> GetLastDirectory(r.prefs) == GetLastDirectory(p)
  {
    if isBack then
      assert WellFormed(e) ==> GetAppSettings(SaveSettings(e, p)) == Ok(FinalSettings(e).(directoryFilter := "")) by {
        if WellFormed(e) {
          SaveThenGet(p, FinalSettings(e));
        }
      }
      SaveKeepsLastDirectory(p, FinalSettings(e));
      SavedAndFinished(SaveSettings(e, p))
    else PassedOn
  }

  // ---------------------------------------------------------------------
  // Properties

  lemma PressWellFormed(e: EditorState, b: Button)
    requires WellFormed(e)
    ensures WellFormed(Press(e, b))
  {
  }

  /** The ranges the buttons steer towards. */
  predicate InRange(e: EditorState) {
    var c := e.overlayConfig;
    && 1 <= e.seekBackwardSeconds <= 60
    && 1 <= e.seekForwardSeconds <= 60
    && 0 <= c.positionX <= TvWidth && 0 <= c.positionY <= TvHeight
    && 10 <= c.width <= TvWidth && 5 <= c.height <= TvHeight
    && 0 <= c.opacity <= 100
  }

  /** The stored defaults lie in range, and the default bar lies inside
      the 4K screen. */
  lemma DefaultsInRange()
    ensures InRange(EditorOf(DefaultSettings))
    ensures 0 <= DefaultOverlay.positionX && DefaultOverlay.positionX + DefaultOverlay.width <= TvWidth
    ensures 0 <= DefaultOverlay.positionY && DefaultOverlay.positionY + DefaultOverlay.height <= TvHeight
  {
  }

  /** No click takes an in-range value out of range. */
  lemma PressKeepsRange(e: EditorState, b: Button)
    requires WellFormed(e) && InRange(e)
    ensures InRange(Press(e, b))
  {
  }

  /** A stored position past the right edge is pulled back to the edge by
      "increase", unless adding 10 overflows `Int`: then it wraps to a
      negative value, which the upper bound leaves alone. */
  lemma IncreasePastEdge(e: EditorState)
    requires WellFormed(e) && e.overlayConfig.positionX > TvWidth
    ensures e.overlayConfig.positionX <= 0x7FFF_FFF5 ==>
      Press(e, IncreasePosX).overlayConfig.positionX == TvWidth
    ensures e.overlayConfig.positionX > 0x7FFF_FFF5 ==>
      Press(e, IncreasePosX).overlayConfig.positionX == e.overlayConfig.positionX + 10 - 0x1_0000_0000
  {
  }

  /** The value each pair of buttons edits. */
  datatype Part = SeekBackPart | SeekForwardPart | PosXPart | PosYPart
    | WidthPart | HeightPart | ColorPart | OpacityPart

  function Touches(b: Button): Part {
    match b
    case DecreaseSeekBack | IncreaseSeekBack => SeekBackPart
    case DecreaseSeekForward | IncreaseSeekForward => SeekForwardPart
    case DecreasePosX | IncreasePosX => PosXPart
    case DecreasePosY | IncreasePosY => PosYPart
    case DecreaseWidth | IncreaseWidth => WidthPart
    case DecreaseHeight | IncreaseHeight => HeightPart
    case CycleColor => ColorPart
    case DecreaseOpacity | IncreaseOpacity => OpacityPart
  }

  /** Every click changes at most the one field its button is for. */
  lemma PressChangesOneField(e: EditorState, b: Button)
    requires WellFormed(e)
    ensures var r := Press(e, b); var c := e.overlayConfig; var d := r.overlayConfig;
      && (r.seekBackwardSeconds != e.seekBackwardSeconds ==> Touches(b) == SeekBackPart)
      && (r.seekForwardSeconds != e.seekForwardSeconds ==> Touches(b) == SeekForwardPart)
      && (d.positionX != c.positionX ==> Touches(b) == PosXPart)
      && (d.positionY != c.positionY ==> Touches(b) == PosYPart)
      && (d.width != c.width ==> Touches(b) == WidthPart)
      && (d.height != c.height ==> Touches(b) == HeightPart)
      && ((d.color != c.color || r.colorIndex != e.colorIndex) ==> Touches(b) == ColorPart)
      && (d.opacity != c.opacity ==> Touches(b) == OpacityPart)
      && d.enabled == c.enabled
      && r.overlaySwitch == e.overlaySwitch && r.filterText == e.filterText
      && r.fileSizeSwitch == e.fileSizeSwitch && r.durationSwitch == e.durationSwitch
  {
  }

  /** After a colour click the overlay colour is the one the button names. */
  lemma CycleColorShowsColor(e: EditorState)
    requires WellFormed(e)
    ensures var r := Press(e, CycleColor);
      r.overlayConfig.color == ColorList[r.colorIndex] && r.colorIndex == (e.colorIndex + 1) % 5
  {
  }

  /** `n` colour clicks advance the entry by `n` around the list, and the
      colour follows the entry; so every fifth click is back where it
      started. */
  lemma {:induction false} PressesAdvance(e: EditorState, n: nat)
    requires WellFormed(e)
    ensures Presses(e, CycleColor, n).colorIndex == (e.colorIndex + n) % |ColorList|
    ensures n > 0 ==> Presses(e, CycleColor, n).overlayConfig.color == ColorList[(e.colorIndex + n) % |ColorList|]
    ensures n % |ColorList| == 0 ==> Presses(e, CycleColor, n).colorIndex == e.colorIndex
    decreases n
  {
    assert |ColorList| == 5;
    if n > 0 {
      var e1 := Press(e, CycleColor);
      assert WellFormed(e1) && e1.colorIndex == (e.colorIndex + 1) % 5
        && e1.overlayConfig.color == ColorList[e1.colorIndex] by {
        PressWellFormed(e, CycleColor);
        CycleColorShowsColor(e);
      }
      var r := Presses(e, CycleColor, n);
      assert r == Presses(e1, CycleColor, n - 1);
      PressesAdvance(e1, n - 1);
      StepMod(e.colorIndex, n);
      assert r.colorIndex == (e.colorIndex + n) % 5;
      if n % 5 == 0 {
        FullCycle(e.colorIndex, n);
      }
    }
  }

  /** One step then `n - 1` more is `n` steps around the list. */
  lemma StepMod(c: int, n: nat)
    requires n > 0
    ensures ((c + 1) % 5 + (n - 1)) % 5 == (c + n) % 5
  {
  }

  /** Whole turns around the list come back to the start. */
  lemma FullCycle(c: int, n: nat)
    requires 0 <= c < 5 && n % 5 == 0
    ensures (c + n) % 5 == c
  {
    assert c + n == c + 5 * (n / 5);
  }

  function Presses(e: EditorState, b: Button, n: nat): (r: EditorState)
    requires WellFormed(e)
    ensures WellFormed(r)
    decreases n
  {
    if n == 0 then e else PressWellFormed(e, b); Presses(Press(e, b), b, n - 1)
  }

  /** A stored colour that is not in the list shows as "Black" but is kept
      until the colour button is clicked; the click then moves to Red. */
  lemma UnknownColorKept(p: Prefs)
    requires LoadSettings(p).Ok? && LoadSettings(p).value.overlayConfig.color !in ColorList
    ensures LoadSettings(p).value.colorIndex == 0
    ensures LoadSettings(p).value.overlayConfig.color == GetAppSettings(p).value.overlayConfig.color
    ensures Press(LoadSettings(p).value, CycleColor).overlayConfig.color == ColorRed
  {
    var s := GetAppSettings(p).value;
    assert LoadSettings(p) == Ok(EditorOf(s));
    UnknownColorShowsBlack(s);
  }

  lemma UnknownColorShowsBlack(s: AppSettings)
    requires s.overlayConfig.color !in ColorList
    ensures EditorOf(s).colorIndex == 0 && EditorOf(s).overlayConfig == s.overlayConfig
    ensures Press(EditorOf(s), CycleColor).overlayConfig.color == ColorRed
  {
    assert IndexOfColor(s.overlayConfig.color) == -1;
  }

  /** Pressing BACK right after opening the screen stores what was read,
      except that the fields the screen does not show go back to their
      defaults. */
  lemma LoadThenSave(p: Prefs)
    requires LoadSettings(p).Ok?
    ensures var s := GetAppSettings(p).value;
      GetAppSettings(SaveSettings(LoadSettings(p).value, p)) ==
        Ok(s.(browserViewMode := Grid, defaultDirectory := DefaultDirectory, scanExternalStorage := true))
  {
    var e := LoadSettings(p).value;
    SaveThenGet(p, FinalSettings(e));
  }

  /** Whatever the user did on the screen, the next load shows it again,
      except the typed filter: the store drops it and the box comes back
      empty. */
  lemma SaveThenLoad(e: EditorState, p: Prefs)
    requires WellFormed(e)
    ensures var r := LoadSettings(SaveSettings(e, p));
      && r.Ok?
      && r.value.seekBackwardSeconds == e.seekBackwardSeconds
      && r.value.seekForwardSeconds == e.seekForwardSeconds
      && r.value.overlayConfig == e.overlayConfig.(enabled := e.overlaySwitch)
      && r.value.overlaySwitch == e.overlaySwitch
      && r.value.filterText == ""
      && r.value.fileSizeSwitch == e.fileSizeSwitch
      && r.value.durationSwitch == e.durationSwitch
      && (e.overlayConfig.color == ColorList[e.colorIndex] ==> r.value.colorIndex == e.colorIndex)
  {
    SaveThenGet(p, FinalSettings(e));
  }

  /** With the corrected store, BACK right after opening stores what was
      read, the filter included. */
  lemma LoadThenSaveFixed(p: Prefs)
    requires LoadSettingsFixed(p).Ok?
    ensures var s := GetAppSettingsFixed(p).value;
      GetAppSettingsFixed(SaveSettingsFixed(LoadSettingsFixed(p).value, p)) ==
        Ok(s.(browserViewMode := Grid, defaultDirectory := DefaultDirectory, scanExternalStorage := true))
  {
    var e := LoadSettingsFixed(p).value;
    FixedSaveThenGet(p, FinalSettings(e));
  }

  /** With the corrected store, everything the user did on the screen,
      the typed filter included, is shown again on the next load. */
  lemma SaveThenLoadFixed(e: EditorState, p: Prefs)
    requires WellFormed(e)
    ensures var r := LoadSettingsFixed(SaveSettingsFixed(e, p));
      && r.Ok?
      && r.value.seekBackwardSeconds == e.seekBackwardSeconds
      && r.value.seekForwardSeconds == e.seekForwardSeconds
      && r.value.overlayConfig == e.overlayConfig.(enabled := e.overlaySwitch)
      && r.value.overlaySwitch == e.overlaySwitch
      && r.value.filterText == e.filterText
      && r.value.fileSizeSwitch == e.fileSizeSwitch
      && r.value.durationSwitch == e.durationSwitch
      && (e.overlayConfig.color == ColorList[e.colorIndex] ==> r.value.colorIndex == e.colorIndex)
  {
    FixedSaveThenGet(p, FinalSettings(e));
  }
}
