/** What one polling cycle reads from the page and publishes to the media
    player: the transport buttons (`WebApp.buttons`), the volume control
    (`WebApp.volume`), the auto-hide flag (`WebApp.autoHidden`) and the
    playback state and capability flags derived from them in `WebApp.update`. */
module Player {
  import opened Dom

  // CSS classes looked up under #player-container.
  const LEFT_CONTROLS := "ytp-left-controls"
  const PREV_BUTTON := "ytp-prev-button"
  const NEXT_BUTTON := "ytp-next-button"
  const PLAY_BUTTON := "ytp-play-button"
  const PAUSED_MODE := "paused-mode"
  const PLAYING_MODE := "playing-mode"
  const AUTOHIDE := "ytp-autohide"
  const AUTOHIDE_ACTIVE := "ytp-autohide-active"
  const TIME_CURRENT := "ytp-time-current"
  const TIME_DURATION := "ytp-time-duration"
  const VOLUME_PANEL := "ytp-volume-panel"
  const CHROME_BOTTOM := "ytp-chrome-bottom"
  const VOLUME_SLIDER := "ytp-volume-slider"
  const VOLUME_SLIDER_ACTIVE := "ytp-volume-slider-active"
  const PROGRESS_LIST := "ytp-progress-list"

  /** The transport controls found on the page; `None` stands for `null`. */
  datatype Buttons = Buttons(play: Option<nat>, pause: Option<nat>, prev: Option<nat>, next: Option<nat>)

  datatype PlaybackState = Unknown | Paused | Playing

  /** The result of `WebApp.trackTime`: the position in microseconds (or
      `null`) and the duration exactly as displayed (or `null`). */
  datatype Time = Time(now: Option<int>, total: Option<string>)

  /** Everything one `update` cycle hands to the media player: the track
      length and position, the raw `aria-valuenow` text behind the volume,
      the playback state and the five capability flags. */
  datatype PlayerState = PlayerState(
    length: Option<string>,
    position: Option<int>,
    volume: Option<string>,
    state: PlaybackState,
    canChangeVolume: bool,
    canPlay: bool,
    canPause: bool,
    canGoPrev: bool,
    canGoNext: bool)

  /** The left-controls container: the scope in which the buttons are looked up. */
  function LeftControlsOf(doc: Document): Option<nat>
  {
    Find(doc, LEFT_CONTROLS, None)
  }

  /** The container exists and holds an element of class `cls`. */
  ghost predicate InLeftControls(doc: Document, cls: string)
  {
    LeftControlsOf(doc).Some? && Present(doc, cls, LeftControlsOf(doc))
  }

  /** Element `i` is the play/pause toggle control of the left-controls container. */
  ghost predicate IsToggle(doc: Document, i: nat)
  {
    LeftControlsOf(doc).Some? && IsFirst(doc, PLAY_BUTTON, LeftControlsOf(doc), i)
  }

  /** `WebApp.buttons`: the one toggle control is reported as `play` while the
      player is in paused mode, otherwise as `pause` while it is in playing
      mode, otherwise as neither. */
  function ButtonsOf(doc: Document): (b: Buttons)
    ensures LeftControlsOf(doc).None? ==> b == Buttons(None, None, None, None)
    ensures b.play.Some? <==> InLeftControls(doc, PLAY_BUTTON) && Present(doc, PAUSED_MODE, None)
    ensures b.pause.Some? <==> InLeftControls(doc, PLAY_BUTTON) && !Present(doc, PAUSED_MODE, None) && Present(doc, PLAYING_MODE, None)
    ensures !(b.play.Some? && b.pause.Some?)
    ensures b.play.Some? ==> IsToggle(doc, b.play.value)
    ensures b.pause.Some? ==> IsToggle(doc, b.pause.value)
    ensures b.prev.Some? <==> InLeftControls(doc, PREV_BUTTON)
    ensures b.next.Some? <==> InLeftControls(doc, NEXT_BUTTON)
    ensures b.prev.Some? ==> LeftControlsOf(doc).Some? && IsFirst(doc, PREV_BUTTON, LeftControlsOf(doc), b.prev.value)
    ensures b.next.Some? ==> LeftControlsOf(doc).Some? && IsFirst(doc, NEXT_BUTTON, LeftControlsOf(doc), b.next.value)
  {
    match LeftControlsOf(doc)
    case None => Buttons(None, None, None, None)
    case Some(lc) =>
      var prev := Find(doc, PREV_BUTTON, Some(lc));
      var next := Find(doc, NEXT_BUTTON, Some(lc));
      var pp := Find(doc, PLAY_BUTTON, Some(lc));
      if pp.None? then Buttons(None, None, prev, next)
      else if Find(doc, PAUSED_MODE, None).Some? then Buttons(pp, None, prev, next)
      else if Find(doc, PLAYING_MODE, None).Some? then Buttons(None, pp, prev, next)
      else Buttons(None, None, prev, next)
  }

  /** `WebApp.volume`, presence only: the `aria-valuenow` text of the volume
      panel, or `null` when there is no panel or it lacks the attribute. */
  function VolumeOf(doc: Document): (v: Option<string>)
    ensures v.Some? <==> exists i :: IsFirst(doc, VOLUME_PANEL, None, i) && doc[i].ariaValueNow.Some?
    ensures v.Some? ==> exists i :: IsFirst(doc, VOLUME_PANEL, None, i) && doc[i].ariaValueNow == v
  {
    match Find(doc, VOLUME_PANEL, None)
    case None => None
    case Some(i) => doc[i].ariaValueNow
  }

  /** `WebApp.autoHidden`: some element carries `ytp-autohide`. */
  function AutoHidden(doc: Document): (h: bool)
    ensures h <==> Present(doc, AUTOHIDE, None)
  {
    Find(doc, AUTOHIDE, None).Some?
  }

  /** The state block of `WebApp.update`: the playback state and the
      capability flags published next to the track time `time`. */
  function Reconcile(doc: Document, time: Time): (s: PlayerState)
    ensures s.state == Paused <==> InLeftControls(doc, PLAY_BUTTON) && Present(doc, PAUSED_MODE, None)
    ensures s.state == Playing <==>
      InLeftControls(doc, PLAY_BUTTON) && !Present(doc, PAUSED_MODE, None) && Present(doc, PLAYING_MODE, None)
    ensures s.canPlay <==> s.state == Paused
    ensures s.canPause <==> s.state == Playing
    ensures !(s.canPlay && s.canPause)
    ensures s.canGoPrev <==> s.state != Unknown && InLeftControls(doc, PREV_BUTTON)
    ensures s.canGoNext <==> s.state != Unknown && InLeftControls(doc, NEXT_BUTTON)
    ensures s.state == Unknown ==> !s.canPlay && !s.canPause && !s.canGoPrev && !s.canGoNext
    ensures s.canChangeVolume <==> exists i :: IsFirst(doc, VOLUME_PANEL, None, i) && doc[i].ariaValueNow.Some?
    ensures s.volume == VolumeOf(doc) && (s.canChangeVolume <==> s.volume.Some?)
    ensures s.length == time.total && s.position == time.now
  {
    var buttons := ButtonsOf(doc);
    var state :=
      if buttons.play.Some? then Paused
      else if buttons.pause.Some? then Playing
      else Unknown;
    var volume := VolumeOf(doc);
    PlayerState(
      time.total, time.now, volume, state,
      volume.Some?,
      state != Unknown && buttons.play.Some?,
      state != Unknown && buttons.pause.Some?,
      state != Unknown && buttons.prev.Some?,
      state != Unknown && buttons.next.Some?)
  }

  /** Changing only classes that no button lookup uses leaves the reported buttons as they were. */
  lemma ButtonsUnaffected(doc: Document, doc': Document, cs: set<string>)
    requires SameExcept(doc, doc', cs)
    requires LEFT_CONTROLS !in cs && PREV_BUTTON !in cs && NEXT_BUTTON !in cs && PLAY_BUTTON !in cs
    requires PAUSED_MODE !in cs && PLAYING_MODE !in cs
    ensures ButtonsOf(doc') == ButtonsOf(doc)
  {
    FindUnaffected(doc, doc', cs, LEFT_CONTROLS, None);
    FindUnaffected(doc, doc', cs, PAUSED_MODE, None);
    FindUnaffected(doc, doc', cs, PLAYING_MODE, None);
    var lc := LeftControlsOf(doc);
    if lc.Some? {
      FindUnaffected(doc, doc', cs, PREV_BUTTON, lc);
      FindUnaffected(doc, doc', cs, NEXT_BUTTON, lc);
      FindUnaffected(doc, doc', cs, PLAY_BUTTON, lc);
    }
  }

  /** ... and so does everything `update` publishes from the page apart from the track time. */
  lemma ReconcileUnaffected(doc: Document, doc': Document, cs: set<string>, time: Time)
    requires SameExcept(doc, doc', cs)
    requires LEFT_CONTROLS !in cs && PREV_BUTTON !in cs && NEXT_BUTTON !in cs && PLAY_BUTTON !in cs
    requires PAUSED_MODE !in cs && PLAYING_MODE !in cs && VOLUME_PANEL !in cs
    ensures Reconcile(doc', time) == Reconcile(doc, time)
  {
    ButtonsUnaffected(doc, doc', cs);
    FindUnaffected(doc, doc', cs, VOLUME_PANEL, None);
  }
}
