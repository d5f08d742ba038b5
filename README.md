# YouTube integration for Nuvola Player: the decision core, in Dafny

`integrate.js` connects YouTube's web player to Nuvola Player. Every 500 ms it reads the page and publishes the track time, the playback state and what the user can do. It also turns the player actions Nuvola sends into clicks on YouTube's controls. This project models the decisions the integration makes over an abstract page and proves what they guarantee:

- **The page** (module `Dom`, `dom.dfy`) is the sequence of elements under `#player-container`, in document order. Each element has a CSS class set, the elements it lies inside, its text and its `aria-valuenow` attribute. `querySelector('.c')` becomes `Find`: the first element carrying class `c`, optionally inside a given element. `classList.add`/`remove` become `AddClasses`/`RemoveClasses`. The live page is the class `Dom.Page`. Its element list is updated in place, and it keeps a log of the synthetic clicks sent to it.
- **Reading the page** (module `Player`, `player.dfy`):
  - `buttons` classifies the single play/pause toggle as `play` (paused mode), `pause` (playing mode) or neither.
  - `volume` is modelled for presence only.
  - `autoHidden` is modelled.
  - The state block of `update` derives the playback state (UNKNOWN / PAUSED / PLAYING) and the five capability flags.
- **The auto-hide position clock** (module `Clock`, `clock.dfy`): `_currentTime` starts at 1. While the controls are hidden it counts seconds, and the position is estimated from it. While they are visible, the position is parsed from the display and the clock is resynchronised. `Run` applies a sequence of ticks and polls to a fixed page, so the lemmas can state what a run of the two timers publishes.
- **Actions** (module `Actions`, `actions.dfy`): `_onActionActivated` and `toggleAutohide` are written as functions of the page and the clock before the call. They give how the call ends, the page's classes afterwards, the clicks it sends and the clock afterwards.
- **The integration object** (module `WebApp`, `webapp.dfy`): the class `App` holds the clock field and the page. Its methods `Tick`, `TrackTime`, `Update`, `ToggleAutohide`, `SetVolume` and `OnActionActivated` change the clock and the page step by step, as the JavaScript does. `Tick` states its new clock directly. `SetVolume` states the click it sends and gives the page as `Actions.ToggleAutohideOf` of the old one. `TrackTime`, `Update`, `ToggleAutohide` and `OnActionActivated` are proved to leave exactly the state that the specification function of the same operation describes. The constructor `OnPageReady` is proved to leave the clock that its first update cycle produces.

`Nuvola.parseTimeUsec` and JavaScript's ToNumber are parameters (`parse`, `toNumber`), because their code is not part of this model. A delayed callback (the 10 ms and 100 ms timeouts) is taken to run right after the step that schedules it.

## Model

| member | source | states |
|---|---|---|
| `Player.ButtonsOf` | integrate.js:194-215 | Without a left-controls container all four buttons are absent. The toggle is reported as `play` iff it exists and a `paused-mode` element exists. It is reported as `pause` iff it exists, no `paused-mode` element exists and a `playing-mode` element does. So `play` and `pause` are never both present, and paused mode takes precedence. Each reported play/pause is the container's toggle control. `prev`/`next` are present iff the container holds such a button, and each is then the container's first such button. |
| `Player.VolumeOf` | integrate.js:189-192 | The volume is present iff the first volume panel exists and has an `aria-valuenow` attribute, and then it is that attribute's text. |
| `Player.AutoHidden` | integrate.js:217-219 | The player counts as auto-hidden iff some element carries `ytp-autohide`. |
| `Player.Reconcile` | integrate.js:84-98 | State is PAUSED iff the toggle exists and paused mode is on. State is PLAYING iff the toggle exists, paused mode is off and playing mode is on. Otherwise it is UNKNOWN. `canPlay` holds iff PAUSED and `canPause` iff PLAYING, so never both. `canGoPrev`/`canGoNext` hold iff the state is known and the button exists, so when the state is UNKNOWN all four are false. `canChangeVolume` holds iff the panel has `aria-valuenow`. The published volume is `Player.VolumeOf` of the page, and it is present iff `canChangeVolume` holds. Length and position are passed through from the track time. |
| `Player.ReconcileUnaffected` | integrate.js:84-98 | Changing only classes that none of the button, mode or volume lookups reads leaves the published state and capabilities unchanged. |
| `Clock.TrackTimeOf` | integrate.js:173-187 | The duration is always the raw display text (empty or missing reads as `null`), never parsed. When hidden, position = clock·1,000,000 µs and the clock is unchanged. When visible with text, position = the parsed µs and the clock becomes that value in seconds. When visible without text, the position is `null` and the clock is unchanged. |
| `Clock.TrackTimeIdempotent` | integrate.js:173-187 | Reading the track time twice gives the same reading and the same clock. |
| `Clock.ResyncThenEstimate` | integrate.js:180-185 | After a visible reading, the first hidden estimate equals the position last displayed. |
| `Clock.HiddenRunAscends` | integrate.js:239-243 | While hidden, a run of ticks and polls ends with the clock increased by exactly the number of ticks. Every poll publishes a position, and the positions never decrease nor fall below the starting estimate. |
| `Clock.HiddenTicksAdvance` | integrate.js:239-243 | Over N hidden ticks between two polls, the published position grows by exactly N·1,000,000 µs. |
| `Clock.VisibleRunFollowsDisplay` | integrate.js:182-185 | While visible, ticks leave the clock alone and every poll publishes the parsed display. After at least one poll the clock holds that position in seconds. |
| `Actions.ToggleAutohideOf` | integrate.js:221-237 | Only the two auto-hide classes change. The first `playing-mode` element ends with at least one of them, and with both when it had neither. Without a `playing-mode` element, the first `paused-mode` element ends with neither. When the first `playing-mode` element already had either class, the page is unchanged. With a `playing-mode` element present, no element but that one changes. With none, no element but the first `paused-mode` element changes. With neither mode element the page is unchanged. |
| `Actions.ToggleAutohideIdempotent` | integrate.js:221-237 | Running the auto-hide toggle step a second time changes nothing more. |
| `Actions.ToggleAutohideHidesWhilePlaying` | integrate.js:223-228 | In playing mode the auto-hide toggle step leaves the player auto-hidden, so the clock starts ticking. The one exception is a playing-mode element that carries `ytp-autohide-active` without `ytp-autohide`. |
| `Actions.DispatchOf` | integrate.js:104-160 | A dispatch throws iff the name is unsupported. It sends at most one click. Only SEEK can move the clock. |
| `Actions.TransportActions` | integrate.js:107-130 | PLAY clicks `play`. PAUSE and STOP both click `pause`, with identical effect. PREV_SONG and NEXT_SONG click `prev`/`next`. TOGGLE_PLAY clicks `play` if present, else `pause`. Each sends one centred click, then runs the auto-hide toggle step, and leaves the clock alone. |
| `Actions.TogglePlayClicksToggle` | integrate.js:107-110 | TOGGLE_PLAY clicks the toggle control iff it exists and paused or playing mode is on. Otherwise it passes `null`. |
| `Actions.UnsupportedActionThrows` | integrate.js:157-158 | An unrecognised name throws `Action "<name>" not supported.` It changes no class, sends no click and leaves the clock alone. |
| `Actions.ChangeVolumeFlow` | integrate.js:139-156 | Without the chrome-bottom bar nothing happens. Otherwise the bar ends with `ytp-volume-slider-active`. The page is the auto-hide toggle step applied to the page with that class added to the bar. The slider is clicked once at the requested fraction exactly when it exists, and nothing else is clicked. |
| `Actions.SeekBehaviour` | integrate.js:131-138 | SEEK compares the parameter with the duration display text. A text that converts to NaN never clicks. A missing duration lets only 0 through. A text that converts to a number lets through exactly the parameters between 0 and that number, inclusive. A click, if any, goes to the progress bar. The page's classes are unchanged, and the clock is resynchronised as in `trackTime`. |
| `Actions.DispatchTouchesOnlyToggleClasses` | integrate.js:104-160 | A dispatch changes only the classes `ytp-autohide`, `ytp-autohide-active` and `ytp-volume-slider-active`, and no text or attribute. |
| `Actions.DispatchKeepsButtons` | integrate.js:104-160 | No dispatch changes the buttons, playback state or capabilities that the next update reports. Only the page's own handlers, reacting to the click, do. |
| `WebApp.App.OnPageReady` | integrate.js:44-49 | The clock starts at 1 and the first update cycle runs at once, so the clock ends as `Clock.TrackTimeOf` leaves it from 1. The page is not changed. |
| `WebApp.App.Tick` | integrate.js:239-243 | The new clock is `Clock.TickOf` of the page and the old clock: up by exactly 1 when auto-hidden, unchanged otherwise. `Clock.Run` applies the same `TickOf`, so the run lemmas hold for this method's ticks. |
| `WebApp.App.TrackTime` | integrate.js:173-187 | The reading returned and the new clock are those of `Clock.TrackTimeOf` on the current page and old clock. |
| `WebApp.App.Update` | integrate.js:79-98 | The clock is updated as by the track-time reading. The published state is `Player.Reconcile` of the page and that reading. |
| `WebApp.App.ToggleAutohide` | integrate.js:221-237 | The page's classes become `Actions.ToggleAutohideOf` of the old ones. No click is sent. |
| `WebApp.App.SetVolume` | integrate.js:142-148 | The slider is clicked at the requested fraction if it exists, then the auto-hide toggle step runs. |
| `WebApp.App.OnActionActivated` | integrate.js:104-160 | The outcome, the new classes, the clicks appended to the page's log and the new clock are exactly those of `Actions.DispatchOf`. |

## Left out

- Track metadata (lines 53-78) is left out. It reads title, artist and artwork through selectors not restricted to `#player-container`. When exactly three description blocks exist (line 64), title and artist come from `childNodes` of the third one. Otherwise they come from the `textContent` of the title link and of the first child element of `#owner-name` (`null` when it has none), an empty text reading as `null`. When it completes, none of this feeds the playback state, the capabilities or the clock. The next line covers the case where it throws.
- WebApp.App.Update: the model assumes the metadata block completes. When exactly three `.content` blocks exist but the third has fewer than four child nodes, reading `titleAndArtist[1].data` or `titleAndArtist[3].data` (lines 66-67) throws. The cycle then leaves through `finally` before `trackTime` (line 79) runs, so it neither resynchronises `_currentTime` nor publishes. The same throw ends `_onPageReady` at line 48, so `WebApp.App.OnPageReady` also assumes it does not happen.
- `showMore` (lines 162-171) is left out. Every update cycle it clicks `#more` when that element exists and is not hidden, and it hides `#less`. That click is not in `Dom.Page.clicks`, and `WebApp.App.Update` does not send it.
- Timers are not modelled:
  - the 500 ms `update` loop and its `finally` rescheduling (lines 99-101);
  - the 1 s `setInterval` (line 47);
  - the 10 ms and 100 ms `setTimeout` delays.

  Delayed callbacks run in sequence right after the step that schedules them. `Clock.Run` interleaves ticks and polls in a given order. Timing and interleaving with other callbacks are not modelled.
- `Nuvola.parseTimeUsec` is the parameter `parse`. Its result for the displayed position is required to be a whole number of seconds (`Clock.WholeSeconds`), because line 184 divides by 1,000,000 without rounding.
- `Nuvola.clickOnElement` is recorded as a `Click` on an optional target. The horizontal offset is kept as the raw parameter (`ParameterOverTotal`, `Parameter`). The floating-point fractions of lines 136 and 145 are not computed.
- Actions.DispatchOf: a click on `null` is taken to return normally and to change nothing, because the code of `Nuvola.clickOnElement` is not part of this model. So an action whose button is missing still ends with `Done` and runs the auto-hide toggle step. The promise that a dispatch throws only for an unsupported name rests on this assumption.
- The volume is published as the raw `aria-valuenow` text. The `/ 100` conversion of line 191 is floating point and is not modelled.
- JavaScript's ToNumber is the parameter `toNumber`, and infinities are not modelled.
- Action names are a datatype. The string values of Nuvola's `PlayerAction` constants are defined in Nuvola's library, which is not part of this model. Every other name is `Other(name)`.
- Bootstrap and publishing are not modelled: `_onInitWebWorker`, `Nuvola.actions.connect`, `WebApp.start` and the `player.set*` calls. One update's published values are the `PlayerState` record.
- WebApp.App.Update: the `track` record it publishes is reduced to the length (the raw duration text). Title, artist and artwork are the metadata left out above.
- `update` has no advert check, and line 184 divides by 1,000,000 without flooring. The model follows this.
