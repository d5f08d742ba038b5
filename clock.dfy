/** The auto-hide position clock.  While the player's controls are
    auto-hidden the time display cannot be read, so the integration keeps
    its own count of seconds, `_currentTime`: it starts at 1 when the page is
    ready, the one-second tick adds 1 while the controls are hidden, and
    every visible reading of the display resynchronises it.  `parse` stands
    for `Nuvola.parseTimeUsec`, whose code is not part of this model. */
module Clock {
  import opened Dom
  import opened Player

  const USEC_PER_SECOND := 1000000

  /** The value `_currentTime` takes in `_onPageReady`. */
  const INITIAL_CLOCK := 1

  /** Whatever `parseTimeUsec` returns for the displayed position, when it is
      called at all, is a whole number of seconds, so that dividing by a
      million (which the source does without rounding) leaves an integer. */
  predicate WholeSeconds(doc: Document, parse: string -> int)
  {
    var now := TextOf(doc, TIME_CURRENT);
    !AutoHidden(doc) && now.Some? ==> parse(now.value) % USEC_PER_SECOND == 0
  }

  /** A reading of the track time together with the clock it leaves behind. */
  datatype Reading = Reading(time: Time, clock: int)

  /** `WebApp.trackTime` on the page `doc` with the clock at `clock`. */
  function TrackTimeOf(doc: Document, clock: int, parse: string -> int): (r: Reading)
    requires WholeSeconds(doc, parse)
    ensures r.time.total == TextOf(doc, TIME_DURATION)
    ensures AutoHidden(doc) ==> r.time.now == Some(clock * USEC_PER_SECOND) && r.clock == clock
    ensures !AutoHidden(doc) && TextOf(doc, TIME_CURRENT).None? ==> r.time.now == None && r.clock == clock
    ensures !AutoHidden(doc) && TextOf(doc, TIME_CURRENT).Some? ==>
      var parsed := parse(TextOf(doc, TIME_CURRENT).value);
      r.time.now == Some(parsed) && r.clock * USEC_PER_SECOND == parsed
  {
    var now := TextOf(doc, TIME_CURRENT);
    var total := TextOf(doc, TIME_DURATION);
    if AutoHidden(doc) then Reading(Time(Some(clock * USEC_PER_SECOND), total), clock)
    else if now.Some? then
      var usec := parse(now.value);
      Reading(Time(Some(usec), total), usec / USEC_PER_SECOND)
    else Reading(Time(None, total), clock)
  }

  /** Reading the track time twice in a row gives the same reading and the
      same clock: a reading only ever moves the clock to the value the
      display already shows. */
  lemma TrackTimeIdempotent(doc: Document, clock: int, parse: string -> int)
    requires WholeSeconds(doc, parse)
    ensures TrackTimeOf(doc, TrackTimeOf(doc, clock, parse).clock, parse) == TrackTimeOf(doc, clock, parse)
  {
  }

  /** A visible reading resynchronises the clock so that, once the controls
      hide, the estimate starts exactly at the position last displayed. */
  lemma ResyncThenEstimate(visible: Document, hidden: Document, clock: int, parse: string -> int)
    requires WholeSeconds(visible, parse) && WholeSeconds(hidden, parse)
    requires !AutoHidden(visible) && TextOf(visible, TIME_CURRENT).Some? && AutoHidden(hidden)
    ensures TrackTimeOf(hidden, TrackTimeOf(visible, clock, parse).clock, parse).time.now
         == Some(parse(TextOf(visible, TIME_CURRENT).value))
  {
  }

  /** `WebApp.tick`, run every second: one more second while the controls
      are hidden, no change while they are visible. */
  function TickOf(doc: Document, clock: int): (c: int)
    ensures AutoHidden(doc) ==> c == clock + 1
    ensures !AutoHidden(doc) ==> c == clock
  {
    if AutoHidden(doc) then clock + 1 else clock
  }

  /** What happens to the clock over time: the one-second tick, or one cycle
      of the 500 ms update loop reading the track time. */
  datatype Event = Tick | Poll

  /** The clock at the end of a run and the position each poll published. */
  datatype RunResult = RunResult(clock: int, positions: seq<Option<int>>)

  /** The events applied in order to a page that does not change meanwhile. */
  function Run(doc: Document, parse: string -> int, clock: int, events: seq<Event>): RunResult
    requires WholeSeconds(doc, parse)
    decreases |events|
  {
    if events == [] then RunResult(clock, [])
    else match events[0]
      case Tick => Run(doc, parse, TickOf(doc, clock), events[1..])
      case Poll =>
        var r := TrackTimeOf(doc, clock, parse);
        var rest := Run(doc, parse, r.clock, events[1..]);
        RunResult(rest.clock, [r.time.now] + rest.positions)
  }

  function TickCount(events: seq<Event>): nat
  {
    if events == [] then 0 else (if events[0] == Tick then 1 else 0) + TickCount(events[1..])
  }

  function PollCount(events: seq<Event>): nat
  {
    if events == [] then 0 else (if events[0] == Poll then 1 else 0) + PollCount(events[1..])
  }

  /** `n` ticks in a row. */
  function Ticks(n: nat): (s: seq<Event>)
    ensures |s| == n && forall i :: 0 <= i < n ==> s[i] == Tick
  {
    if n == 0 then [] else [Tick] + Ticks(n - 1)
  }

  /** Every published position is present and the sequence never decreases. */
  predicate Ascending(positions: seq<Option<int>>)
  {
    && (forall k :: 0 <= k < |positions| ==> positions[k].Some?)
    && forall k, l :: 0 <= k < l < |positions| && positions[k].Some? && positions[l].Some? ==>
         positions[k].value <= positions[l].value
  }

  /** While the controls stay hidden the clock advances by exactly one per
      tick, every poll publishes an estimate, and the estimates never
      decrease nor fall below the clock the run started from. */
  lemma {:induction false} HiddenRunAscends(doc: Document, parse: string -> int, clock: int, events: seq<Event>)
    requires WholeSeconds(doc, parse) && AutoHidden(doc)
    ensures Run(doc, parse, clock, events).clock == clock + TickCount(events)
    ensures |Run(doc, parse, clock, events).positions| == PollCount(events)
    ensures Ascending(Run(doc, parse, clock, events).positions)
    ensures forall k :: 0 <= k < |Run(doc, parse, clock, events).positions| ==>
      Run(doc, parse, clock, events).positions[k].Some?
      && Run(doc, parse, clock, events).positions[k].value >= clock * USEC_PER_SECOND
    decreases |events|
  {
    if events != [] {
      match events[0]
      case Tick =>
        HiddenRunAscends(doc, parse, clock + 1, events[1..]);
      case Poll =>
        HiddenRunAscends(doc, parse, clock, events[1..]);
        var rest := Run(doc, parse, clock, events[1..]);
        var all := Run(doc, parse, clock, events).positions;
        assert all == [Some(clock * USEC_PER_SECOND)] + rest.positions;
        forall k | 0 < k < |all|
          ensures all[k] == rest.positions[k - 1]
        {
        }
    }
  }

  /** `n` ticks while hidden move a clock at `clock` to `clock + n`, whatever follows. */
  lemma {:induction false} TicksThenRun(doc: Document, parse: string -> int, clock: int, n: nat, rest: seq<Event>)
    requires WholeSeconds(doc, parse) && AutoHidden(doc)
    ensures Run(doc, parse, clock, Ticks(n) + rest) == Run(doc, parse, clock + n, rest)
    decreases n
  {
    if n > 0 {
      assert (Ticks(n) + rest)[0] == Tick;
      assert (Ticks(n) + rest)[1..] == Ticks(n - 1) + rest;
      TicksThenRun(doc, parse, clock + 1, n - 1, rest);
    } else {
      assert Ticks(n) + rest == rest;
    }
  }

  /** Over `n` hidden ticks with no visible reading in between, the
      estimated position grows by exactly `n` seconds. */
  lemma HiddenTicksAdvance(doc: Document, parse: string -> int, clock: int, n: nat)
    requires WholeSeconds(doc, parse) && AutoHidden(doc)
    ensures Run(doc, parse, clock, [Poll] + Ticks(n) + [Poll]).positions
         == [Some(clock * USEC_PER_SECOND), Some(clock * USEC_PER_SECOND + n * USEC_PER_SECOND)]
  {
    var events := [Poll] + Ticks(n) + [Poll];
    assert events[0] == Poll;
    assert events[1..] == Ticks(n) + [Poll];
    TicksThenRun(doc, parse, clock, n, [Poll]);
    assert Run(doc, parse, clock + n, [Poll]).positions == [Some((clock + n) * USEC_PER_SECOND)];
  }

  /** While the display is readable the ticks leave the clock alone and every
      poll publishes the displayed position; after at least one poll the
      clock holds that position in seconds. */
  lemma {:induction false} VisibleRunFollowsDisplay(doc: Document, parse: string -> int, clock: int, events: seq<Event>)
    requires WholeSeconds(doc, parse) && !AutoHidden(doc) && TextOf(doc, TIME_CURRENT).Some?
    ensures forall k :: 0 <= k < |Run(doc, parse, clock, events).positions| ==>
      Run(doc, parse, clock, events).positions[k] == Some(parse(TextOf(doc, TIME_CURRENT).value))
    ensures |Run(doc, parse, clock, events).positions| == PollCount(events)
    ensures PollCount(events) == 0 ==> Run(doc, parse, clock, events).clock == clock
    ensures PollCount(events) > 0 ==>
      Run(doc, parse, clock, events).clock * USEC_PER_SECOND == parse(TextOf(doc, TIME_CURRENT).value)
    decreases |events|
  {
    if events != [] {
      var r := TrackTimeOf(doc, clock, parse);
      match events[0]
      case Tick =>
        VisibleRunFollowsDisplay(doc, parse, clock, events[1..]);
      case Poll =>
        VisibleRunFollowsDisplay(doc, parse, r.clock, events[1..]);
        var rest := Run(doc, parse, r.clock, events[1..]);
        var all := Run(doc, parse, clock, events).positions;
        assert all == [r.time.now] + rest.positions;
        forall k | 0 < k < |all|
          ensures all[k] == rest.positions[k - 1]
        {
        }
    }
  }
}
