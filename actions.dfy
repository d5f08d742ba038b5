/** The effects of the player actions the media player sends to the page
    (`WebApp._onActionActivated`) and of the auto-hide toggle step that
    follows them (`WebApp.toggleAutohide`), as functions of the page before
    the action.  Delayed callbacks (the 10 ms and 100 ms timeouts) are taken
    to run right after the step that schedules them. */
module Actions {
  import opened Dom
  import opened Player
  import opened Clock

  /** The action names the dispatcher recognises (Nuvola's `PlayerAction`
      constants), and every other name. */
  datatype ActionName =
    | TogglePlay | Play | Pause | Stop | PrevSong | NextSong | Seek | ChangeVolume
    | Other(name: string)

  /** How a dispatch ends: normally, or with the thrown error's message. */
  datatype Outcome = Done | Thrown(message: string)

  /** A JavaScript number as a relational comparison sees it (infinities are not modelled). */
  datatype JsNumber = Number(value: real) | NaN

  /** The guard of SEEK, `parameter >= 0 && parameter <= total`, where `total`
      is the duration as displayed: `null` compares as 0 and a string through
      `toNumber` (JavaScript's ToNumber); any comparison with NaN is false. */
  predicate SeekAllowed(parameter: real, total: Option<string>, toNumber: string -> JsNumber)
  {
    var t := if total.Some? then toNumber(total.value) else Number(0.0);
    t.Number? && 0.0 <= parameter && parameter <= t.value
  }

  /** The body of the `toggleAutohide` timeout: the first playing-mode element
      gets `ytp-autohide` and `ytp-autohide-active` unless it already has
      either; failing that, the first paused-mode element loses both. */
  function ToggleAutohideOf(doc: Document): (d: Document)
    ensures SameExcept(doc, d, {AUTOHIDE, AUTOHIDE_ACTIVE})
    ensures forall i :: IsFirst(doc, PLAYING_MODE, None, i) ==>
      (AUTOHIDE in d[i].classes || AUTOHIDE_ACTIVE in d[i].classes)
      && (AUTOHIDE !in doc[i].classes && AUTOHIDE_ACTIVE !in doc[i].classes ==>
            AUTOHIDE in d[i].classes && AUTOHIDE_ACTIVE in d[i].classes)
    ensures forall i :: !Present(doc, PLAYING_MODE, None) && IsFirst(doc, PAUSED_MODE, None, i) ==>
      AUTOHIDE !in d[i].classes && AUTOHIDE_ACTIVE !in d[i].classes
    ensures forall j :: 0 <= j < |doc| && !IsFirst(doc, PLAYING_MODE, None, j) && !IsFirst(doc, PAUSED_MODE, None, j) ==>
      d[j] == doc[j]
    ensures forall i :: IsFirst(doc, PLAYING_MODE, None, i) ==>
      (AUTOHIDE in doc[i].classes || AUTOHIDE_ACTIVE in doc[i].classes ==> d == doc)
    ensures Present(doc, PLAYING_MODE, None) ==>
      forall j :: 0 <= j < |doc| && !IsFirst(doc, PLAYING_MODE, None, j) ==> d[j] == doc[j]
    ensures !Present(doc, PLAYING_MODE, None) && !Present(doc, PAUSED_MODE, None) ==> d == doc
  {
    match Find(doc, PLAYING_MODE, None)
    case Some(i) =>
      if AUTOHIDE !in doc[i].classes && AUTOHIDE_ACTIVE !in doc[i].classes
      then AddClasses(doc, i, {AUTOHIDE, AUTOHIDE_ACTIVE})
      else doc
    case None =>
      match Find(doc, PAUSED_MODE, None)
      case Some(i) => RemoveClasses(doc, i, {AUTOHIDE, AUTOHIDE_ACTIVE})
      case None => doc
  }

  /** Running the auto-hide toggle step a second time changes nothing more. */
  lemma ToggleAutohideIdempotent(doc: Document)
    ensures ToggleAutohideOf(ToggleAutohideOf(doc)) == ToggleAutohideOf(doc)
  {
  }

  /** In playing mode, when the playing-mode element did not carry
      `ytp-autohide-active` alone, the auto-hide toggle step leaves the player
      auto-hidden, so the position clock starts ticking. */
  lemma ToggleAutohideHidesWhilePlaying(doc: Document, i: nat)
    requires IsFirst(doc, PLAYING_MODE, None, i)
    requires AUTOHIDE in doc[i].classes || AUTOHIDE_ACTIVE !in doc[i].classes
    ensures AutoHidden(ToggleAutohideOf(doc))
  {
  }

  /** The result of one dispatch: how it ended, the page's elements
      afterwards, the clicks it dispatched, and the clock afterwards. */
  datatype Dispatch = Dispatch(outcome: Outcome, doc: Document, clicks: seq<Click>, clock: int)

  /** The message of the error thrown for an unsupported action. */
  function UnsupportedMessage(name: string): string
  {
    "Action \"" + name + "\" not supported."
  }

  /** The control a transport action clicks: TOGGLE_PLAY prefers `play` and
      falls back on `pause`; STOP clicks `pause` as PAUSE does. */
  function TransportTarget(b: Buttons, name: ActionName): Option<nat>
    requires name in {TogglePlay, Play, Pause, Stop, PrevSong, NextSong}
  {
    match name
    case TogglePlay => if b.play.Some? then b.play else b.pause
    case Play => b.play
    case Pause => b.pause
    case Stop => b.pause
    case PrevSong => b.prev
    case NextSong => b.next
  }

  /** `WebApp._onActionActivated(emitter, name, parameter)` on the page `doc`
      with the clock at `clock`. */
  function DispatchOf(doc: Document, clock: int, name: ActionName, parameter: real,
                      parse: string -> int, toNumber: string -> JsNumber): (r: Dispatch)
    requires WholeSeconds(doc, parse)
    ensures r.outcome.Thrown? <==> name.Other?
    ensures |r.clicks| <= 1
    ensures name != Seek ==> r.clock == clock
  {
    var buttons := ButtonsOf(doc);
    match name
    case Seek =>
      var reading := TrackTimeOf(doc, clock, parse);
      var clicks :=
        if SeekAllowed(parameter, reading.time.total, toNumber)
        then [Click(Find(doc, PROGRESS_LIST, None), ParameterOverTotal(parameter))]
        else [];
      Dispatch(Done, doc, clicks, reading.clock)
    case ChangeVolume =>
      (match Find(doc, CHROME_BOTTOM, None)
       case None => Dispatch(Done, doc, [], clock)
       case Some(cb) =>
         var expanded :=
           if VOLUME_SLIDER_ACTIVE in doc[cb].classes then doc
           else AddClasses(doc, cb, {VOLUME_SLIDER_ACTIVE});
         // setVolume, run at once or after the 10 ms delay
         var slider := Find(expanded, VOLUME_SLIDER, None);
         var clicks := if slider.Some? then [Click(slider, Parameter(parameter))] else [];
         Dispatch(Done, ToggleAutohideOf(expanded), clicks, clock))
    case Other(n) =>
      Dispatch(Thrown(UnsupportedMessage(n)), doc, [], clock)
    case _ =>
      Dispatch(Done, ToggleAutohideOf(doc), [Click(TransportTarget(buttons, name), Centre)], clock)
  }

  /** Each transport action clicks its button at the centre, once, and then
      runs the auto-hide toggle step; the clock is untouched. */
  lemma TransportActions(doc: Document, clock: int, parameter: real, parse: string -> int, toNumber: string -> JsNumber)
    requires WholeSeconds(doc, parse)
    ensures var b := ButtonsOf(doc);
      && DispatchOf(doc, clock, Play, parameter, parse, toNumber)
         == Dispatch(Done, ToggleAutohideOf(doc), [Click(b.play, Centre)], clock)
      && DispatchOf(doc, clock, Pause, parameter, parse, toNumber)
         == Dispatch(Done, ToggleAutohideOf(doc), [Click(b.pause, Centre)], clock)
      && DispatchOf(doc, clock, Stop, parameter, parse, toNumber)
         == DispatchOf(doc, clock, Pause, parameter, parse, toNumber)
      && DispatchOf(doc, clock, PrevSong, parameter, parse, toNumber)
         == Dispatch(Done, ToggleAutohideOf(doc), [Click(b.prev, Centre)], clock)
      && DispatchOf(doc, clock, NextSong, parameter, parse, toNumber)
         == Dispatch(Done, ToggleAutohideOf(doc), [Click(b.next, Centre)], clock)
      && DispatchOf(doc, clock, TogglePlay, parameter, parse, toNumber)
         == Dispatch(Done, ToggleAutohideOf(doc), [Click(if b.play.Some? then b.play else b.pause, Centre)], clock)
  {
    var b := ButtonsOf(doc);
    var d := ToggleAutohideOf(doc);
    assert DispatchOf(doc, clock, Play, parameter, parse, toNumber) == Dispatch(Done, d, [Click(b.play, Centre)], clock);
    assert DispatchOf(doc, clock, Pause, parameter, parse, toNumber) == Dispatch(Done, d, [Click(b.pause, Centre)], clock);
    assert DispatchOf(doc, clock, Stop, parameter, parse, toNumber) == Dispatch(Done, d, [Click(b.pause, Centre)], clock);
  }

  /** TOGGLE_PLAY clicks the toggle control whenever the player is in paused
      or playing mode; only with neither mode known does it pass `null`. */
  lemma TogglePlayClicksToggle(doc: Document, clock: int, parameter: real, parse: string -> int, toNumber: string -> JsNumber)
    requires WholeSeconds(doc, parse)
    ensures var clicks := DispatchOf(doc, clock, TogglePlay, parameter, parse, toNumber).clicks;
      && |clicks| == 1
      && (clicks[0].target.Some? <==>
            InLeftControls(doc, PLAY_BUTTON) && (Present(doc, PAUSED_MODE, None) || Present(doc, PLAYING_MODE, None)))
      && (clicks[0].target.Some? ==> IsToggle(doc, clicks[0].target.value))
  {
  }

  /** An unsupported name throws "Action "<name>" not supported." and changes
      nothing: no class, no click, no clock. */
  lemma UnsupportedActionThrows(doc: Document, clock: int, n: string, parameter: real,
                                parse: string -> int, toNumber: string -> JsNumber)
    requires WholeSeconds(doc, parse)
    ensures DispatchOf(doc, clock, Other(n), parameter, parse, toNumber)
         == Dispatch(Thrown("Action \"" + n + "\" not supported."), doc, [], clock)
  {
  }

  /** CHANGE_VOLUME does nothing without the chrome-bottom bar; otherwise the
      bar ends up expanded (`ytp-volume-slider-active`), the slider is clicked
      at the requested fraction exactly when it exists, and nothing else is
      clicked. */
  lemma ChangeVolumeFlow(doc: Document, clock: int, parameter: real, parse: string -> int, toNumber: string -> JsNumber)
    requires WholeSeconds(doc, parse)
    ensures var r := DispatchOf(doc, clock, ChangeVolume, parameter, parse, toNumber);
      && r.outcome == Done && r.clock == clock
      && (Find(doc, CHROME_BOTTOM, None).None? ==> r.doc == doc && r.clicks == [])
      && (Find(doc, CHROME_BOTTOM, None).Some? ==>
            var cb := Find(doc, CHROME_BOTTOM, None).value;
            && VOLUME_SLIDER_ACTIVE in r.doc[cb].classes
            && r.doc == ToggleAutohideOf(if VOLUME_SLIDER_ACTIVE in doc[cb].classes then doc
                                         else AddClasses(doc, cb, {VOLUME_SLIDER_ACTIVE}))
            && (Find(doc, VOLUME_SLIDER, None).Some? ==>
                  r.clicks == [Click(Find(doc, VOLUME_SLIDER, None), Parameter(parameter))])
            && (Find(doc, VOLUME_SLIDER, None).None? ==> r.clicks == []))
  {
    var r := DispatchOf(doc, clock, ChangeVolume, parameter, parse, toNumber);
    match Find(doc, CHROME_BOTTOM, None)
    case None =>
    case Some(cb) =>
      var expanded :=
        if VOLUME_SLIDER_ACTIVE in doc[cb].classes then doc
        else AddClasses(doc, cb, {VOLUME_SLIDER_ACTIVE});
      assert VOLUME_SLIDER_ACTIVE in expanded[cb].classes;
      assert r.doc == ToggleAutohideOf(expanded);
      assert SameExcept(expanded, r.doc, {AUTOHIDE, AUTOHIDE_ACTIVE});
      assert VOLUME_SLIDER_ACTIVE !in {AUTOHIDE, AUTOHIDE_ACTIVE};
      assert r.doc[cb].classes - {AUTOHIDE, AUTOHIDE_ACTIVE} == expanded[cb].classes - {AUTOHIDE, AUTOHIDE_ACTIVE};
      assert SameExcept(doc, expanded, {VOLUME_SLIDER_ACTIVE});
      FindUnaffected(doc, expanded, {VOLUME_SLIDER_ACTIVE}, VOLUME_SLIDER, None);
  }

  /** SEEK compares the requested position with the duration as displayed:
      it clicks the progress bar only if the guard holds, so a display text
      that converts to NaN (any "m:ss" text) never seeks, and a missing
      duration lets only position 0 through.  It also resynchronises the
      clock as a reading of the track time does, and runs no auto-hide toggle step. */
  lemma SeekBehaviour(doc: Document, clock: int, parameter: real, parse: string -> int, toNumber: string -> JsNumber)
    requires WholeSeconds(doc, parse)
    ensures var r := DispatchOf(doc, clock, Seek, parameter, parse, toNumber);
      var total := TextOf(doc, TIME_DURATION);
      && r.outcome == Done && r.doc == doc
      && r.clock == TrackTimeOf(doc, clock, parse).clock
      && (total.Some? && toNumber(total.value).NaN? ==> r.clicks == [])
      && (total.None? ==> (r.clicks != [] <==> parameter == 0.0))
      && (total.Some? && toNumber(total.value).Number? ==>
            (r.clicks != [] <==> 0.0 <= parameter && parameter <= toNumber(total.value).value))
      && (r.clicks != [] ==> r.clicks == [Click(Find(doc, PROGRESS_LIST, None), ParameterOverTotal(parameter))])
  {
  }

  /** A dispatch changes no class but the two auto-hide classes and
      `ytp-volume-slider-active`, and no text or attribute. */
  lemma DispatchTouchesOnlyToggleClasses(doc: Document, clock: int, name: ActionName, parameter: real,
                                         parse: string -> int, toNumber: string -> JsNumber)
    requires WholeSeconds(doc, parse)
    ensures SameExcept(doc, DispatchOf(doc, clock, name, parameter, parse, toNumber).doc,
                       {AUTOHIDE, AUTOHIDE_ACTIVE, VOLUME_SLIDER_ACTIVE})
  {
    var r := DispatchOf(doc, clock, name, parameter, parse, toNumber);
    var cs := {AUTOHIDE, AUTOHIDE_ACTIVE, VOLUME_SLIDER_ACTIVE};
    if name == ChangeVolume && Find(doc, CHROME_BOTTOM, None).Some? {
      var cb := Find(doc, CHROME_BOTTOM, None).value;
      var expanded :=
        if VOLUME_SLIDER_ACTIVE in doc[cb].classes then doc
        else AddClasses(doc, cb, {VOLUME_SLIDER_ACTIVE});
      assert SameExcept(doc, expanded, {VOLUME_SLIDER_ACTIVE});
      SameExceptTransitive(doc, expanded, r.doc, {VOLUME_SLIDER_ACTIVE}, {AUTOHIDE, AUTOHIDE_ACTIVE});
      assert {VOLUME_SLIDER_ACTIVE} + {AUTOHIDE, AUTOHIDE_ACTIVE} == cs;
    } else if name !in {Seek, ChangeVolume} && !name.Other? {
      SameExceptWiden(doc, r.doc, {AUTOHIDE, AUTOHIDE_ACTIVE}, cs);
    }
  }

  /** No action changes a class the button lookup reads, so no dispatch
      changes which buttons the next update cycle reports, nor the playback
      state and capabilities it publishes: only the page's own handlers,
      reacting to the clicks, do that. */
  lemma DispatchKeepsButtons(doc: Document, clock: int, name: ActionName, parameter: real,
                             parse: string -> int, toNumber: string -> JsNumber, time: Time)
    requires WholeSeconds(doc, parse)
    ensures var r := DispatchOf(doc, clock, name, parameter, parse, toNumber);
      ButtonsOf(r.doc) == ButtonsOf(doc) && Reconcile(r.doc, time) == Reconcile(doc, time)
  {
    var d := DispatchOf(doc, clock, name, parameter, parse, toNumber).doc;
    var cs := {AUTOHIDE, AUTOHIDE_ACTIVE, VOLUME_SLIDER_ACTIVE};
    DispatchTouchesOnlyToggleClasses(doc, clock, name, parameter, parse, toNumber);
    assert LEFT_CONTROLS !in cs && PREV_BUTTON !in cs && NEXT_BUTTON !in cs && PLAY_BUTTON !in cs;
    assert PAUSED_MODE !in cs && PLAYING_MODE !in cs && VOLUME_PANEL !in cs;
    ButtonsUnaffected(doc, d, cs);
    ReconcileUnaffected(doc, d, cs, time);
  }
}
