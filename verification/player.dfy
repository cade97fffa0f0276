/** The player screen's decisions: whether to offer to resume, where
    playback starts, when a position checkpoint is written or cleared, and
    what each remote-control key does, including the 500 ms debounce on
    seeking. The media player is seen only through its position, duration
    and playing flag; the clock is the `now` each call is given. */
module Player {
  import opened Wrappers
  import opened Settings
  import opened SettingsManager
  import opened PlaybackDao
  import opened PlaybackManager
  import opened OverlayManager

  /** What the screen reads from the media player. */
  datatype Media = Media(position: int, duration: int, playing: bool)

  datatype Screen = Screen(
    filePath: string,
    settings: AppSettings,
    player: Option<Media>,
    lastSeekTime: int,
    savedPosition: int,
    overlay: Manager,
    container: Container,
    finished: bool
  )

  const SeekDebounceMs := 500
  const ResumeThresholdMs := 5000

  // ---------------------------------------------------------------------
  // Opening the screen

  /** How the screen starts: it closes, it asks whether to resume from the
      saved position, or it plays from the beginning. */
  datatype Launch = Close | AskResume(positionMs: int) | PlayFromStart

  /** `checkResumePosition()`: the prompt appears when the file has a
      record more than five seconds in. */
  function ResumeDecision(t: Table, path: string): (r: Launch)
    ensures !r.Close?
    ensures r.AskResume? <==>
      GetPlaybackPosition(t, path).Some? && GetPlaybackPosition(t, path).value.positionMs > ResumeThresholdMs
    ensures r.AskResume? ==> r.positionMs == GetPlaybackPosition(t, path).value.positionMs
  {
    match GetPlaybackPosition(t, path)
    case Some(record) =>
      if record.positionMs > ResumeThresholdMs then AskResume(record.positionMs) else PlayFromStart
    case None => PlayFromStart
  }

  /** `onCreate`: the settings are read first (a failure there ends the
      screen with the exception); a missing or empty file path closes the
      screen; otherwise the resume decision is made. */
  function OnCreate(prefs: Prefs, t: Table, extra: Option<string>): (r: Result<(Screen, Launch), SettingsError>)
    ensures r.Err? <==> GetAppSettings(prefs).Err?
    ensures r.Ok? ==>
      && r.value.0.filePath == extra.OrElse("")
      && r.value.0.settings == GetAppSettings(prefs).value
      && r.value.0.player.None?
      && r.value.0.overlay == Initial
      && (r.value.1.Close? <==> extra.OrElse("") == "")
      && (!r.value.1.Close? ==> r.value.1 == ResumeDecision(t, r.value.0.filePath))
  {
    var settings :- GetAppSettings(prefs);
    var path := extra.OrElse("");
    var screen := Screen(path, settings, None, 0, 0, Initial, [], path == "");
    if path == "" then Ok((screen, Close)) else Ok((screen, ResumeDecision(t, path)))
  }

  /** How the resume prompt is answered; the 10 s timer counts as an answer. */
  datatype DialogEvent = ResumeClicked | FromStartClicked | DialogTimeout

  /** The position playback starts from after the decision and, when the
      prompt was shown, its answer. */
  function StartPosition(l: Launch, e: DialogEvent): (ms: int)
    requires !l.Close?
    ensures ms == 0 || (l.AskResume? && ms == l.positionMs)
    ensures l.AskResume? && e != FromStartClicked ==> ms == l.positionMs
  {
    match l
    case PlayFromStart => 0
    case AskResume(positionMs) => if e == FromStartClicked then 0 else positionMs
  }

  /** Playback starts at 0 or at the saved position, and at the saved
      position only when it is past five seconds and the user did not ask
      for the beginning; leaving the prompt alone resumes. */
  lemma ResumeChoice(t: Table, path: string, e: DialogEvent)
    ensures var ms := StartPosition(ResumeDecision(t, path), e);
      var saved := GetPlaybackPosition(t, path);
      && (ms == 0 || (saved.Some? && ms == saved.value.positionMs && ms > ResumeThresholdMs))
      && (saved.Some? && saved.value.positionMs > ResumeThresholdMs && e != FromStartClicked ==>
            ms == saved.value.positionMs)
      && (saved.None? || saved.value.positionMs <= ResumeThresholdMs ==> ms == 0)
  {
  }

  /** `initializePlayer(startPosition)`: the player starts playing at the
      given position, and an enabled overlay is created (hidden) in the
      player's container. */
  function InitializePlayer(s: Screen, start: int, duration: int, freshId: nat): (r: Screen)
    requires ValidConfig(s.settings.overlayConfig) && freshId !in s.container
    ensures r.player == Some(Media(start, duration, true))
    ensures r.savedPosition == start
    ensures r.settings == s.settings && r.filePath == s.filePath && r.lastSeekTime == s.lastSeekTime
    ensures s.settings.overlayConfig.enabled ==>
      && r.overlay.overlayView.Some? && !r.overlay.isVisible
      && Attached(r.overlay, r.container)
      && r.overlay.overlayView.value.id == freshId
    ensures !s.settings.overlayConfig.enabled ==> r.overlay == s.overlay && r.container == s.container
  {
    var s' := s.(player := Some(Media(start, duration, true)), savedPosition := start);
    if s.settings.overlayConfig.enabled then
      var (m, container) := CreateOverlay(s.overlay, s.container, s.settings.overlayConfig, freshId);
      s'.(overlay := m, container := container)
    else s'
  }

  // ---------------------------------------------------------------------
  // Checkpoints

  /** `saveCurrentPosition()`: writes the position only when there is a
      player and it knows a positive duration. */
  function Checkpoint(s: Screen, t: Table, now: int): (t': Table)
    requires Valid(t)
    ensures Valid(t')
    ensures UniquePaths(t) ==> UniquePaths(t')
    ensures s.player.None? || s.player.value.duration <= 0 ==> t' == t
    ensures s.player.Some? && s.player.value.duration > 0 ==>
      var r := GetPlaybackPosition(t', s.filePath);
      r.Some? && r.value.positionMs == s.player.value.position && r.value.durationMs == s.player.value.duration
  {
    match s.player
    case None => t
    case Some(media) =>
      if media.duration > 0 then SavePlaybackPosition(t, s.filePath, media.position, media.duration, now)
      else t
  }

  /** `onVideoCompleted()`: the record is cleared only when the 95 % rule
      says the video was watched. */
  function OnVideoCompleted(s: Screen, t: Table): (t': Table)
    requires Valid(t)
    ensures Valid(t')
    ensures s.player.Some? && IsVideoCompleted(s.player.value.position, s.player.value.duration) ==>
      GetPlaybackPosition(t', s.filePath) == None
    ensures !(s.player.Some? && IsVideoCompleted(s.player.value.position, s.player.value.duration)) ==> t' == t
  {
    match s.player
    case None => t
    case Some(media) =>
      if IsVideoCompleted(media.position, media.duration) then ClearPlaybackPosition(t, s.filePath)
      else t
  }

  /** A checkpoint more than five seconds in makes the next opening of the
      same file offer to resume there. */
  lemma CheckpointThenReopen(s: Screen, t: Table, now: int)
    requires Valid(t)
    requires s.player.Some? && s.player.value.duration > 0 && s.player.value.position > ResumeThresholdMs
    ensures ResumeDecision(Checkpoint(s, t, now), s.filePath) == AskResume(s.player.value.position)
  {
  }

  /** A finished video starts from the beginning next time. */
  lemma CompletedThenReopen(s: Screen, t: Table)
    requires Valid(t)
    requires s.player.Some? && IsVideoCompleted(s.player.value.position, s.player.value.duration)
    ensures ResumeDecision(OnVideoCompleted(s, t), s.filePath) == PlayFromStart
  {
  }

  // ---------------------------------------------------------------------
  // Seeking

  /** The seek-back target: `(position - seconds * 1000).coerceAtLeast(0)`. */
  function SeekBackTarget(position: int, seconds: int): (r: int)
    ensures r >= 0 && r >= position - seconds * 1000
    ensures r == position - seconds * 1000 || r == 0
  {
    var target := position - seconds * 1000;
    if target < 0 then 0 else target
  }

  /** The seek-forward target: `(position + seconds * 1000).coerceAtMost(duration)`;
      there is no lower bound. */
  function SeekForwardTarget(position: int, seconds: int, duration: int): (r: int)
    ensures r <= duration && r <= position + seconds * 1000
    ensures r == position + seconds * 1000 || r == duration
  {
    var target := position + seconds * 1000;
    if target > duration then duration else target
  }

  /** A seek is accepted when more than the debounce interval has passed
      since the last accepted one. */
  predicate SeekAllowed(now: int, lastSeekTime: int) {
    now - lastSeekTime > SeekDebounceMs
  }

  // ---------------------------------------------------------------------
  // Keys

  datatype KeyCode = DpadLeft | DpadRight | DpadUp | DpadDown | DpadCenter | Enter | BackKey | Home | OtherKey

  datatype KeyAction = ActionDown | ActionUp

  datatype KeyEvent = KeyEvent(action: KeyAction, keyCode: KeyCode, repeatCount: nat)

  /** The screen and the table after an event, and whether the screen
      consumed it (otherwise it goes on to the default handling). */
  datatype Dispatch = Dispatch(screen: Screen, table: Table, consumed: bool)

  predicate IsSeekKey(k: KeyCode) {
    k == DpadLeft || k == DpadRight
  }

  /** The event is a first press of LEFT or RIGHT that the debounce lets
      through. */
  predicate SeekAccepted(s: Screen, e: KeyEvent, now: int) {
    e.action == ActionDown && e.repeatCount == 0 && IsSeekKey(e.keyCode) && SeekAllowed(now, s.lastSeekTime)
  }

  /** Moves the player, if any, to `target(position, duration)`. */
  function Seek(s: Screen, back: bool): (r: Screen)
    ensures r.player.Some? <==> s.player.Some?
    ensures s.player.Some? ==>
      var m := s.player.value;
      r.player.value == m.(position :=
        if back then SeekBackTarget(m.position, s.settings.seekBackwardSeconds)
        else SeekForwardTarget(m.position, s.settings.seekForwardSeconds, m.duration))
    ensures r == s.(player := r.player)
  {
    match s.player
    case None => s
    case Some(m) =>
      var target :=
        if back then SeekBackTarget(m.position, s.settings.seekBackwardSeconds)
        else SeekForwardTarget(m.position, s.settings.seekForwardSeconds, m.duration);
      s.(player := Some(m.(position := target)))
  }

  /** `dispatchKeyEvent(event)`. Only key-down events are looked at. A
      first press of LEFT or RIGHT seeks when the debounce allows it (the
      time is recorded even without a player) and otherwise falls through;
      repeats of LEFT and RIGHT are swallowed. UP shows and DOWN hides the
      overlay, CENTER and ENTER toggle play and pause, BACK and HOME save
      the position and close the screen. */
  function DispatchKeyEvent(s: Screen, t: Table, e: KeyEvent, now: int): (r: Dispatch)
    requires Valid(t)
    ensures Valid(r.table)
    ensures SeekAccepted(s, e, now) ==>
      && r.consumed && r.table == t
      && r.screen == Seek(s, e.keyCode == DpadLeft).(lastSeekTime := now)
    ensures !SeekAccepted(s, e, now) ==> r.screen.lastSeekTime == s.lastSeekTime
    ensures e.action == ActionDown && e.repeatCount == 0 && IsSeekKey(e.keyCode) && !SeekAllowed(now, s.lastSeekTime) ==>
      r == Dispatch(s, t, false)
    ensures e.action == ActionDown && e.repeatCount > 0 ==>
      r == Dispatch(s, t, IsSeekKey(e.keyCode))
    ensures e.action == ActionUp ==> r == Dispatch(s, t, false)
    ensures r.table != t ==> e.keyCode in {BackKey, Home}
    ensures r.screen.finished != s.finished ==> e.keyCode in {BackKey, Home}
    ensures e.action == ActionDown && e.repeatCount == 0 && e.keyCode in {BackKey, Home} ==>
      && r.consumed && r.screen.finished
      && r.screen == s.(finished := true)
      && (s.player.Some? && s.player.value.duration > 0 ==>
            var saved := GetPlaybackPosition(r.table, s.filePath);
            saved.Some? && saved.value.positionMs == s.player.value.position
            && saved.value.durationMs == s.player.value.duration)
      && (s.player.None? || s.player.value.duration <= 0 ==> r.table == t)
    ensures e.action == ActionDown && e.repeatCount == 0 && e.keyCode in {DpadUp, DpadDown} ==>
      && r.consumed && r.table == t
      && r.screen.overlay.isVisible == (e.keyCode == DpadUp)
      && (r.screen.overlay.overlayView.Some? <==> s.overlay.overlayView.Some?)
      && (r.screen.overlay.overlayView.Some? ==> r.screen.overlay.overlayView.value.visible == (e.keyCode == DpadUp))
      && (s.overlay.overlayView.Some? ==>
            r.screen.overlay.overlayView.value == s.overlay.overlayView.value.(visible := e.keyCode == DpadUp))
      && r.screen == s.(overlay := r.screen.overlay)
    ensures e.action == ActionDown && e.repeatCount == 0 && e.keyCode in {DpadCenter, Enter} ==>
      && r.consumed && r.table == t
      && (s.player.Some? ==> r.screen.player.Some? && r.screen.player.value.playing == !s.player.value.playing)
      && (s.player.Some? ==> r.screen.player.value == s.player.value.(playing := !s.player.value.playing))
      && (s.player.None? ==> r.screen == s)
      && r.screen == s.(player := r.screen.player)
    ensures e.action == ActionDown && e.repeatCount == 0 && e.keyCode == OtherKey ==> r == Dispatch(s, t, false)
  {
    if e.action != ActionDown then Dispatch(s, t, false)
    else if e.repeatCount == 0 then
      match e.keyCode
      case DpadLeft =>
        if SeekAllowed(now, s.lastSeekTime) then Dispatch(Seek(s, true).(lastSeekTime := now), t, true)
        else Dispatch(s, t, false)
      case DpadRight =>
        if SeekAllowed(now, s.lastSeekTime) then Dispatch(Seek(s, false).(lastSeekTime := now), t, true)
        else Dispatch(s, t, false)
      case DpadUp => Dispatch(s.(overlay := ShowOverlay(s.overlay)), t, true)
      case DpadDown => Dispatch(s.(overlay := HideOverlay(s.overlay)), t, true)
      case DpadCenter => Dispatch(TogglePlay(s), t, true)
      case Enter => Dispatch(TogglePlay(s), t, true)
      case BackKey => Dispatch(s.(finished := true), Checkpoint(s, t, now), true)
      case Home => Dispatch(s.(finished := true), Checkpoint(s, t, now), true)
      case OtherKey => Dispatch(s, t, false)
    else if IsSeekKey(e.keyCode) then Dispatch(s, t, true)
    else Dispatch(s, t, false)
  }

  /** `if (isPlaying) pause() else play()` on the player, if any. */
  function TogglePlay(s: Screen): (r: Screen)
    ensures s.player.Some? ==> r.player == Some(s.player.value.(playing := !s.player.value.playing))
    ensures s.player.None? ==> r == s
    ensures r == s.(player := r.player)
  {
    match s.player
    case None => s
    case Some(m) => s.(player := Some(m.(playing := !m.playing)))
  }

  /** Seeking back never leaves the player before the start, and seeking
      forward never past the end. */
  lemma SeekStaysInBounds(s: Screen, t: Table, e: KeyEvent, now: int)
    requires Valid(t) && SeekAccepted(s, e, now) && s.player.Some?
    requires s.settings.seekBackwardSeconds >= 0 && s.settings.seekForwardSeconds >= 0
    ensures var m := s.player.value;
      var p := DispatchKeyEvent(s, t, e, now).screen.player.value.position;
      && (e.keyCode == DpadLeft ==> 0 <= p && (m.position >= 0 ==> p <= m.position))
      && (e.keyCode == DpadRight ==> p <= m.duration && (m.position <= m.duration ==> m.position <= p))
  {
  }

  // ---------------------------------------------------------------------
  // A run of key events

  /** The screen and table after a sequence of timed events, with the
      times at which a seek was accepted. */
  function Run(s: Screen, t: Table, events: seq<(KeyEvent, int)>): (r: (Screen, Table, seq<int>))
    requires Valid(t)
    ensures Valid(r.1)
    decreases |events|
  {
    if |events| == 0 then (s, t, [])
    else
      var (e, now) := events[0];
      var d := DispatchKeyEvent(s, t, e, now);
      var rest := Run(d.screen, d.table, events[1..]);
      (rest.0, rest.1, (if SeekAccepted(s, e, now) then [now] else []) + rest.2)
  }

  /** Each accepted seek comes more than the debounce interval after the
      one before it (the first after the screen's last seek time). */
  ghost predicate Spaced(last: int, times: seq<int>) {
    && (|times| > 0 ==> times[0] - last > SeekDebounceMs)
    && (forall i :: 0 < i < |times| ==> times[i] - times[i - 1] > SeekDebounceMs)
  }

  /** However the events are timed, accepted seeks are spaced more than
      500 ms apart, and the screen remembers the last of them. */
  lemma {:induction false} SeeksSpaced(s: Screen, t: Table, events: seq<(KeyEvent, int)>)
    requires Valid(t)
    ensures var r := Run(s, t, events);
      && Spaced(s.lastSeekTime, r.2)
      && r.0.lastSeekTime == (if r.2 == [] then s.lastSeekTime else r.2[|r.2| - 1])
    decreases |events|
  {
    if |events| > 0 {
      var e := events[0].0;
      var now := events[0].1;
      var d := DispatchKeyEvent(s, t, e, now);
      SeeksSpaced(d.screen, d.table, events[1..]);
      var rest := Run(d.screen, d.table, events[1..]);
      var accepted := SeekAccepted(s, e, now);
      RunCons(s, t, events);
      if accepted {
        assert d.screen.lastSeekTime == now;
        SpacedCons(s.lastSeekTime, now, rest.2);
        assert rest.2 != [] ==> ([now] + rest.2)[|[now] + rest.2| - 1] == rest.2[|rest.2| - 1];
      } else {
        assert d.screen.lastSeekTime == s.lastSeekTime;
        assert [] + rest.2 == rest.2;
      }
    }
  }

  /** One step of a run: the first event, then the rest from where it left off. */
  lemma RunCons(s: Screen, t: Table, events: seq<(KeyEvent, int)>)
    requires Valid(t) && |events| > 0
    ensures var d := DispatchKeyEvent(s, t, events[0].0, events[0].1);
      var rest := Run(d.screen, d.table, events[1..]);
      Run(s, t, events) == (rest.0, rest.1, (if SeekAccepted(s, events[0].0, events[0].1) then [events[0].1] else []) + rest.2)
  {
  }

  lemma SpacedCons(last: int, now: int, times: seq<int>)
    requires now - last > SeekDebounceMs && Spaced(now, times)
    ensures Spaced(last, [now] + times)
  {
    var all := [now] + times;
    forall i | 0 < i < |all| ensures all[i] - all[i - 1] > SeekDebounceMs {
      assert all[i] == times[i - 1];
      if i > 1 {
        assert all[i - 1] == times[i - 2];
      }
    }
  }
}
