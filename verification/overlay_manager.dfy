/** The overlay bar drawn over the video: one view at most, placed in the
    player's container, coloured with the configured colour at the
    configured opacity, and shown or hidden on demand. The container is
    the sequence of its children's ids; a new view's id is supplied by the
    caller and is not yet in the container. */
module OverlayManager {
  import opened Wrappers
  import opened KotlinInt
  import opened Settings

  /** `FrameLayout.LayoutParams` with `gravity = CENTER`; a margin left
      unset keeps its default of 0. */
  datatype LayoutParams = LayoutParams(width: int, height: int, leftMargin: int, topMargin: int)

  datatype OverlayView = OverlayView(id: nat, params: LayoutParams, backgroundColor: int, visible: bool)

  type Container = seq<nat>

  datatype Manager = Manager(overlayView: Option<OverlayView>, isVisible: bool)

  const Initial := Manager(None, false)

  // ---------------------------------------------------------------------
  // Colour

  /** `Color.red`, `Color.green`, `Color.blue`: bits 16-23, 8-15, 0-7. */
  function Red(c: int): int { (c / 0x1_0000) % 0x100 }
  function Green(c: int): int { (c / 0x100) % 0x100 }
  function Blue(c: int): int { c % 0x100 }

  /** `Color.argb(a, r, g, b)`: `(a << 24) | (r << 16) | (g << 8) | b` as an
      `Int`; for components in 0..255 the or is a sum. */
  function Argb(a: int, r: int, g: int, b: int): int
    requires 0 <= a < 0x100 && 0 <= r < 0x100 && 0 <= g < 0x100 && 0 <= b < 0x100
  {
    Wrap32(a * 0x100_0000 + r * 0x1_0000 + g * 0x100 + b)
  }

  /** `(opacity * 255 / 100).coerceIn(0, 255)` in `Int` arithmetic. */
  function Alpha(opacity: int): (a: int)
    requires IsInt32(opacity)
    ensures 0 <= a <= 255
    ensures 0 <= opacity <= 100 ==> a * 100 <= opacity * 255 < a * 100 + 100
    ensures IsInt32(opacity * 255) && opacity > 100 ==> a == 255
    ensures IsInt32(opacity * 255) && opacity < 0 ==> a == 0
  {
    var scaled := TruncDiv(Wrap32(opacity * 255), 100);
    if scaled < 0 then 0 else if scaled > 255 then 255 else scaled
  }

  /** A transparent overlay at opacity 0 and an opaque one at 100. */
  lemma AlphaEnds()
    ensures Alpha(0) == 0 && Alpha(100) == 255
  {
  }

  /** The background the overlay gets: the configured colour's red, green
      and blue under the alpha the opacity gives. */
  function Background(config: OverlayConfig): (argb: int)
    requires ValidConfig(config)
    ensures IsInt32(argb)
    ensures argb % 0x100_0000 == config.color % 0x100_0000
    ensures (argb % 0x1_0000_0000) / 0x100_0000 == Alpha(config.opacity)
  {
    var c := config.color;
    RgbBits(c);
    ArgbBits(Alpha(config.opacity), c % 0x100_0000);
    Argb(Alpha(config.opacity), Red(c), Green(c), Blue(c))
  }

  /** The three components together are the low 24 bits. */
  lemma RgbBits(c: int)
    ensures 0 <= Red(c) < 0x100 && 0 <= Green(c) < 0x100 && 0 <= Blue(c) < 0x100
    ensures Red(c) * 0x1_0000 + Green(c) * 0x100 + Blue(c) == c % 0x100_0000
  {
    var q := c / 0x100;
    var b := c % 0x100;
    assert c == q * 0x100 + b;
    var q2 := q / 0x100;
    var g := q % 0x100;
    assert q == q2 * 0x100 + g;
    assert c == q2 * 0x1_0000 + (g * 0x100 + b);
    assert c / 0x1_0000 == q2;
    var r := q2 % 0x100;
    var q3 := q2 / 0x100;
    assert q2 == q3 * 0x100 + r;
    assert c == q3 * 0x100_0000 + (r * 0x1_0000 + g * 0x100 + b);
  }

  /** Alpha in the top byte, colour in the low three, whatever the sign. */
  lemma ArgbBits(a: int, rgb: int)
    requires 0 <= a < 0x100 && 0 <= rgb < 0x100_0000
    ensures var w := Wrap32(a * 0x100_0000 + rgb);
      w % 0x100_0000 == rgb && (w % 0x1_0000_0000) / 0x100_0000 == a
  {
    var n := a * 0x100_0000 + rgb;
    var w := Wrap32(n);
    if n < 0x8000_0000 {
      assert w == n;
    } else {
      assert w == (a - 0x100) * 0x100_0000 + rgb;
      assert w % 0x1_0000_0000 == n;
    }
  }

  function Params(config: OverlayConfig): (p: LayoutParams)
    ensures p.width == config.width && p.height == config.height
    ensures p.leftMargin >= 0 && p.topMargin >= 0
    ensures config.positionX >= 0 ==> p.leftMargin == config.positionX
    ensures config.positionY >= 0 ==> p.topMargin == config.positionY
    ensures config.positionX < 0 ==> p.leftMargin == 0
    ensures config.positionY < 0 ==> p.topMargin == 0
  {
    LayoutParams(config.width, config.height,
      if config.positionX >= 0 then config.positionX else 0,
      if config.positionY >= 0 then config.positionY else 0)
  }

  // ---------------------------------------------------------------------
  // Container

  /** `parent.removeView(view)`. */
  function RemoveChild(parent: Container, id: nat): (r: Container)
    ensures id !in r
    ensures forall x :: x in r <==> x in parent && x != id
    ensures |r| <= |parent|
    decreases |parent|
  {
    if |parent| == 0 then []
    else if parent[0] == id then RemoveChild(parent[1..], id)
    else [parent[0]] + RemoveChild(parent[1..], id)
  }

  function Count(parent: Container, id: nat): nat
    decreases |parent|
  {
    if |parent| == 0 then 0 else (if parent[0] == id then 1 else 0) + Count(parent[1..], id)
  }

  /** The manager's view, when it has one, is in the container exactly
      once, and its visibility is the manager's flag. */
  ghost predicate Attached(m: Manager, parent: Container) {
    m.overlayView.Some? ==>
      && Count(parent, m.overlayView.value.id) == 1
      && m.overlayView.value.visible == m.isVisible
  }

  // ---------------------------------------------------------------------
  // Operations

  /** `removeOverlay(parent)`. */
  function RemoveOverlay(m: Manager, parent: Container): (r: (Manager, Container))
    ensures r.0 == Initial
    ensures m.overlayView.None? ==> r.1 == parent
    ensures m.overlayView.Some? ==> m.overlayView.value.id !in r.1
    ensures forall x :: x in r.1 <==> x in parent && (m.overlayView.None? || x != m.overlayView.value.id)
  {
    match m.overlayView
    case None => (Initial, parent)
    case Some(v) => (Initial, RemoveChild(parent, v.id))
  }

  /** `createOverlay(parent, config)`: drops any previous overlay, then adds
      a new hidden one at the end of the container. */
  function CreateOverlay(m: Manager, parent: Container, config: OverlayConfig, freshId: nat): (r: (Manager, Container))
    requires ValidConfig(config) && freshId !in parent
    ensures r.0.overlayView == Some(OverlayView(freshId, Params(config), Background(config), false))
    ensures !r.0.isVisible
    ensures Attached(r.0, r.1)
    ensures forall x :: x in r.1 <==> x == freshId || (x in parent && (m.overlayView.None? || x != m.overlayView.value.id))
  {
    var (cleared, rest) := RemoveOverlay(m, parent);
    var view := OverlayView(freshId, Params(config), Background(config), false);
    CountAbsentAppend(rest, freshId);
    (Manager(Some(view), false), rest + [view.id])
  }

  /** `showOverlay()`: the flag is set even when there is no view. */
  function ShowOverlay(m: Manager): (r: Manager)
    ensures r.isVisible
    ensures r.overlayView.Some? <==> m.overlayView.Some?
    ensures m.overlayView.Some? ==> r.overlayView.value == m.overlayView.value.(visible := true)
  {
    match m.overlayView
    case None => Manager(None, true)
    case Some(v) => Manager(Some(v.(visible := true)), true)
  }

  /** `hideOverlay()`. */
  function HideOverlay(m: Manager): (r: Manager)
    ensures !r.isVisible
    ensures r.overlayView.Some? <==> m.overlayView.Some?
    ensures m.overlayView.Some? ==> r.overlayView.value == m.overlayView.value.(visible := false)
  {
    match m.overlayView
    case None => Manager(None, false)
    case Some(v) => Manager(Some(v.(visible := false)), false)
  }

  /** `toggleOverlay()`: flips the flag and returns the new value. */
  function ToggleOverlay(m: Manager): (r: (Manager, bool))
    ensures r.1 == r.0.isVisible == !m.isVisible
  {
    var m' := if m.isVisible then HideOverlay(m) else ShowOverlay(m);
    (m', m'.isVisible)
  }

  /** `updateOverlay(parent, config)` as written: `createOverlay` has
      already cleared `isVisible` when the check runs, so the new overlay
      is never shown. */
  function UpdateOverlay(m: Manager, parent: Container, config: OverlayConfig, freshId: nat): (r: (Manager, Container))
    requires ValidConfig(config) && freshId !in parent
  {
    var (created, parent') := CreateOverlay(m, parent, config, freshId);
    if created.isVisible then (ShowOverlay(created), parent') else (created, parent')
  }

  /** `updateOverlay` as intended: the new overlay is shown when the old
      one was. */
  function UpdateOverlayFixed(m: Manager, parent: Container, config: OverlayConfig, freshId: nat): (r: (Manager, Container))
    requires ValidConfig(config) && freshId !in parent
    ensures r.0.isVisible == m.isVisible
    ensures r.0.overlayView == Some(OverlayView(freshId, Params(config), Background(config), m.isVisible))
    ensures Attached(r.0, r.1)
  {
    var wasVisible := m.isVisible;
    var (created, parent') := CreateOverlay(m, parent, config, freshId);
    if wasVisible then (ShowOverlay(created), parent') else (created, parent')
  }

  function IsOverlayVisible(m: Manager): bool {
    m.isVisible
  }

  // ---------------------------------------------------------------------
  // Properties

  lemma {:induction false} CountAbsentAppend(parent: Container, id: nat)
    requires id !in parent
    ensures Count(parent + [id], id) == 1
    decreases |parent|
  {
    if |parent| == 0 {
      assert parent + [id] == [id];
    } else {
      assert (parent + [id])[1..] == parent[1..] + [id];
      CountAbsentAppend(parent[1..], id);
    }
  }

  /** Show, hide and toggle keep the view and the flag in step. */
  lemma VisibilityKeepsAttached(m: Manager, parent: Container)
    requires Attached(m, parent)
    ensures Attached(ShowOverlay(m), parent)
    ensures Attached(HideOverlay(m), parent)
    ensures Attached(ToggleOverlay(m).0, parent)
  {
  }

  /** Two toggles restore the flag and the view. */
  lemma ToggleTwice(m: Manager)
    requires m.overlayView.Some? ==> m.overlayView.value.visible == m.isVisible
    ensures ToggleOverlay(ToggleOverlay(m).0).0 == m
  {
  }

  /** Creating again replaces the overlay: the container holds the new
      view once and the old one no more. */
  lemma CreateReplaces(m: Manager, parent: Container, config: OverlayConfig, freshId: nat)
    requires ValidConfig(config) && freshId !in parent && m.overlayView.Some? && Attached(m, parent)
    ensures var r := CreateOverlay(m, parent, config, freshId);
      m.overlayView.value.id !in r.1 && Count(r.1, freshId) == 1
  {
    CountPositive(parent, m.overlayView.value.id);
  }

  lemma {:induction false} CountPositive(parent: Container, id: nat)
    requires Count(parent, id) > 0
    ensures id in parent
    decreases |parent|
  {
    if parent[0] != id {
      CountPositive(parent[1..], id);
    }
  }

  /** As written, an update leaves a visible overlay hidden. */
  lemma UpdateOverlayHides(m: Manager, parent: Container, config: OverlayConfig, freshId: nat)
    requires ValidConfig(config) && freshId !in parent
    ensures !UpdateOverlay(m, parent, config, freshId).0.isVisible
    ensures UpdateOverlay(m, parent, config, freshId).0.overlayView.value.visible == false
  {
  }

  /** A concrete case: an overlay shown with UP, then updated, is gone
      from the screen. */
  lemma UpdateOverlayHidesExample()
    ensures var (m, parent) := CreateOverlay(Initial, [1], DefaultOverlay, 2);
      var shown := ShowOverlay(m);
      IsOverlayVisible(shown) && !IsOverlayVisible(UpdateOverlay(shown, parent, DefaultOverlay, 3).0)
  {
  }
}
