/** The persisted preferences and the overlay shape, with their defaults.
    Colours are Android ARGB values held in a signed 32-bit `Int`. */
module Settings {
  import opened Wrappers
  import opened KotlinInt

  datatype ViewMode = Grid | List

  /** `ViewMode.name`. */
  function ViewModeName(m: ViewMode): string {
    match m
    case Grid => "GRID"
    case List => "LIST"
  }

  /** `ViewMode.valueOf(name)`: exact, case-sensitive; any other name throws. */
  function ViewModeOf(name: string): (r: Option<ViewMode>)
    ensures r.Some? <==> name == "GRID" || name == "LIST"
    ensures r.Some? ==> ViewModeName(r.value) == name
  {
    if name == "GRID" then Some(Grid)
    else if name == "LIST" then Some(List)
    else None
  }

  lemma ViewModeNameRoundTrip(m: ViewMode)
    ensures ViewModeOf(ViewModeName(m)) == Some(m)
  {
  }

  /** `android.graphics.Color` constants as signed 32-bit values. */
  const ColorBlack: int := -16777216  // 0xFF000000
  const ColorRed: int := -65536       // 0xFFFF0000
  const ColorGreen: int := -16711936  // 0xFF00FF00
  const ColorBlue: int := -16776961   // 0xFF0000FF
  const ColorWhite: int := -1         // 0xFFFFFFFF

  datatype OverlayConfig = OverlayConfig(
    enabled: bool,
    color: int,
    width: int,
    height: int,
    positionX: int,
    positionY: int,
    opacity: int
  )

  /** Every `Int` field holds a 32-bit value, as every Kotlin instance does. */
  predicate ValidConfig(c: OverlayConfig) {
    IsInt32(c.color) && IsInt32(c.width) && IsInt32(c.height)
    && IsInt32(c.positionX) && IsInt32(c.positionY) && IsInt32(c.opacity)
  }

  /** `OverlayConfig()`: a fully opaque black bar, 1400 x 55, at (380, 940). */
  const DefaultOverlay := OverlayConfig(true, ColorBlack, 1400, 55, 380, 940, 100)

  datatype AppSettings = AppSettings(
    seekBackwardSeconds: int,
    seekForwardSeconds: int,
    overlayConfig: OverlayConfig,
    browserViewMode: ViewMode,
    defaultDirectory: string,
    showFileSize: bool,
    showDuration: bool,
    scanExternalStorage: bool,
    directoryFilter: string
  )

  const DefaultDirectory := "/sdcard/"

  /** `AppSettings()`. */
  const DefaultSettings := AppSettings(5, 5, DefaultOverlay, Grid, DefaultDirectory, true, true, true, "")
}
