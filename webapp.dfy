/** The integration object (`WebApp`) as a class: the page it works on and
    the one field it keeps across callbacks, the auto-hide clock
    `_currentTime`.  Each method does what the function of the same name in
    `integrate.js` does, step by step, and its postcondition ties the new
    clock, the page's classes and the clicks dispatched to the specification
    functions of modules Clock and Actions, whose properties are proved
    there. */
module WebApp {
  import opened Dom
  import opened Player
  import opened Clock
  import opened Actions

  class App {
    var currentTime: int
    const page: Page

    /** `_onPageReady`: the clock starts at 1, then the first update cycle
        runs at once (the action subscription and the timers it starts are
        outside this model). */
    constructor OnPageReady(page: Page, parse: string -> int)
      requires WholeSeconds(page.nodes, parse)
      ensures this.page == page && unchanged(page)
      ensures currentTime == TrackTimeOf(page.nodes, INITIAL_CLOCK, parse).clock
    {
      this.page := page;
      currentTime := INITIAL_CLOCK;
      new;
      var _ := Update(parse);
    }

    /** `tick`, run every second: one more second while the controls are hidden. */
    method Tick()
      modifies this
      ensures currentTime == TickOf(page.nodes, old(currentTime))
    {
      if AutoHidden(page.nodes) {
        currentTime := currentTime + 1;
      }
    }

    /** `trackTime`: estimate the position from the clock while hidden,
        otherwise parse the display and resynchronise the clock. */
    method TrackTime(parse: string -> int) returns (time: Time)
      requires WholeSeconds(page.nodes, parse)
      modifies this
      ensures Reading(time, currentTime) == TrackTimeOf(page.nodes, old(currentTime), parse)
    {
      var now := TextOf(page.nodes, TIME_CURRENT);
      var total := TextOf(page.nodes, TIME_DURATION);
      if AutoHidden(page.nodes) {
        time := Time(Some(currentTime * USEC_PER_SECOND), total);
      } else if now.Some? {
        var usec := parse(now.value);
        time := Time(Some(usec), total);
        currentTime := usec / USEC_PER_SECOND;
      } else {
        time := Time(None, total);
      }
    }

    /** One cycle of `update`, without the track metadata: read the track
        time, then publish it with the playback state and capabilities. */
    method Update(parse: string -> int) returns (state: PlayerState)
      requires WholeSeconds(page.nodes, parse)
      modifies this
      ensures var r := TrackTimeOf(page.nodes, old(currentTime), parse);
        currentTime == r.clock && state == Reconcile(page.nodes, r.time)
    {
      var time := TrackTime(parse);
      state := Reconcile(page.nodes, time);
    }

    /** `toggleAutohide`, once its 100 ms delay has passed. */
    method ToggleAutohide()
      modifies page
      ensures page.nodes == ToggleAutohideOf(old(page.nodes)) && page.clicks == old(page.clicks)
    {
      var playing := Find(page.nodes, PLAYING_MODE, None);
      if playing.Some? {
        var i := playing.value;
        if AUTOHIDE !in page.nodes[i].classes && AUTOHIDE_ACTIVE !in page.nodes[i].classes {
          ghost var before := page.nodes;
          page.AddClass(i, AUTOHIDE);
          page.AddClass(i, AUTOHIDE_ACTIVE);
          assert before[i].classes + {AUTOHIDE} + {AUTOHIDE_ACTIVE} == before[i].classes + {AUTOHIDE, AUTOHIDE_ACTIVE};
          assert page.nodes == AddClasses(before, i, {AUTOHIDE, AUTOHIDE_ACTIVE});
        }
      } else {
        var paused := Find(page.nodes, PAUSED_MODE, None);
        if paused.Some? {
          ghost var before := page.nodes;
          var i := paused.value;
          page.RemoveClass(i, AUTOHIDE);
          page.RemoveClass(i, AUTOHIDE_ACTIVE);
          assert before[i].classes - {AUTOHIDE} - {AUTOHIDE_ACTIVE} == before[i].classes - {AUTOHIDE, AUTOHIDE_ACTIVE};
          assert page.nodes == RemoveClasses(before, i, {AUTOHIDE, AUTOHIDE_ACTIVE});
        }
      }
    }

    /** The `setVolume` callback of CHANGE_VOLUME: click the slider at the
        requested fraction if there is one, then run the auto-hide toggle step. */
    method SetVolume(parameter: real)
      modifies page
      ensures var slider := Find(old(page.nodes), VOLUME_SLIDER, None);
        && page.nodes == ToggleAutohideOf(old(page.nodes))
        && page.clicks == old(page.clicks) + (if slider.Some? then [Click(slider, Parameter(parameter))] else [])
    {
      var slider := Find(page.nodes, VOLUME_SLIDER, None);
      if slider.Some? {
        page.ClickOn(slider, Parameter(parameter));
      }
      ToggleAutohide();
    }

    /** `_onActionActivated(emitter, name, parameter)`; a thrown error is
        returned as `Thrown`. */
    method OnActionActivated(name: ActionName, parameter: real, parse: string -> int, toNumber: string -> JsNumber)
      returns (outcome: Outcome)
      requires WholeSeconds(page.nodes, parse)
      modifies this, page
      ensures var r := DispatchOf(old(page.nodes), old(currentTime), name, parameter, parse, toNumber);
        && outcome == r.outcome
        && page.nodes == r.doc
        && page.clicks == old(page.clicks) + r.clicks
        && currentTime == r.clock
    {
      var buttons := ButtonsOf(page.nodes);
      outcome := Done;
      match name {
        case TogglePlay =>
          page.ClickOn(if buttons.play.Some? then buttons.play else buttons.pause, Centre);
          ToggleAutohide();
        case Play =>
          page.ClickOn(buttons.play, Centre);
          ToggleAutohide();
        case Pause =>
          page.ClickOn(buttons.pause, Centre);
          ToggleAutohide();
        case Stop =>
          page.ClickOn(buttons.pause, Centre);
          ToggleAutohide();
        case PrevSong =>
          page.ClickOn(buttons.prev, Centre);
          ToggleAutohide();
        case NextSong =>
          page.ClickOn(buttons.next, Centre);
          ToggleAutohide();
        case Seek =>
          var time := TrackTime(parse);
          if SeekAllowed(parameter, time.total, toNumber) {
            page.ClickOn(Find(page.nodes, PROGRESS_LIST, None), ParameterOverTotal(parameter));
          }
        case ChangeVolume =>
          var chromeBottom := Find(page.nodes, CHROME_BOTTOM, None);
          if chromeBottom.Some? {
            if VOLUME_SLIDER_ACTIVE in page.nodes[chromeBottom.value].classes {
              SetVolume(parameter);
            } else {
              page.AddClass(chromeBottom.value, VOLUME_SLIDER_ACTIVE);
              SetVolume(parameter);
            }
          }
        case Other(n) =>
          outcome := Thrown(UnsupportedMessage(n));
      }
    }
  }
}
