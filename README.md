# Sacred Space timer: a verified model of its session state machine

Sacred Space is a single-page meditation timer. The user types an intention, picks a duration
from a menu of 1, 2, 3, 5 or 10 minutes and starts a session. A one-second countdown then runs
under a candle animation, with the remaining time shown as `M:SS`. When it reaches zero a gong
sounds, and the intention is shown with a quote drawn from a fixed catalog of ten. A reset
returns to the setup view.

This project models the state machine that sits under the rendering of the single component
`src/App.tsx`:

- `text.dfy`, module `Text`: JavaScript's `trim`, with the full ECMAScript whitespace and
  line-terminator set. An intention may only start a session when it does not trim to nothing.
- `time_format.dfy`, module `TimeFormat`: `formatTime`, built from the decimal rendering of a
  number and `padStart`. It comes with a parser for the `M:SS` readout, and the parser recovers
  the number of seconds from any readout.
- `session.dfy`, module `Session`: the session as a value. It holds the six state fields, the
  quote catalog, the duration menu, and the transitions `Start`, `Tick`,
  `Reset`, `SetIntention`, `SetDuration` and `Reveal` as functions. It also holds the lemmas
  about those transitions: the guard on start, the exact effect of a tick, and that reset is
  idempotent. The invariant `Valid` is preserved by every transition, and an accepted start
  completes after exactly `duration * 60` ticks.
- `app_state.dfy`, module `AppState`: class `App`, whose fields are the component's six state
  variables. Its methods are the component's handlers, each one atomic update proved equal to
  the matching `Session` transition and to keep `Valid`. Two ghost counters record what the host
  sees: the gong cues played, and the completion reveals the scheduler still holds.
  `RunCountdown` is the interval firing until it is cleared.
- `scenarios.dfy`, module `Scenarios`: sessions driven through the handlers, such as "clarity"
  for one minute, an intention of spaces only, and a reveal that arrives after a reset.

The model follows the code: `startTimer` does not look at the phase, so `Start` is not guarded
by it, and a reset does not cancel the pending reveal, so the model keeps it pending across
`Reset` (`Scenarios.RevealAfterReset`).

## Model

| member | source | states |
|---|---|---|
| `Text.Trim` | src/App.tsx:53 | `intention.trim()` is empty exactly when the intention is all whitespace; otherwise it starts and ends with non-whitespace and is the infix left after removing the blank prefix and suffix |
| `Text.SkipBlanks` | src/App.tsx:53 | the start of the trimmed text: every character skipped is whitespace and the one it stops at is not |
| `Text.SkipBlanksBack` | src/App.tsx:53 | the end of the trimmed text: every character dropped from the end is whitespace and the last one kept is not |
| `TimeFormat.Decimal` | src/App.tsx:94 | the number's `toString` is a non-empty string of digits with no leading zero, one digit below 10 and two from 10 to 99 |
| `TimeFormat.DecimalRoundTrip` | src/App.tsx:94 | reading back the digits of a number's decimal rendering gives the number |
| `TimeFormat.PadStart` | src/App.tsx:94 | `padStart(2, '0')` keeps the string as its suffix, fills the front with the fill character, and is as long as the wider of the string and the width |
| `TimeFormat.SecondsField` | src/App.tsx:93-94 | the seconds field is always exactly two digits and denotes `seconds % 60` |
| `TimeFormat.FormatTimeFields` | src/App.tsx:91-95 | the readout is `M:SS` with `M * 60 + SS == seconds` and `SS < 60` |
| `TimeFormat.FormatTimeRoundTrip` | src/App.tsx:91-95 | parsing the readout gives back the number of seconds |
| `TimeFormat.FormatTimeInjective` | src/App.tsx:91-95 | different numbers of seconds are never shown the same way |
| `TimeFormat.FormatTimeExamples` | src/App.tsx:91-95 | 125 is shown as `2:05`, 59 as `0:59`, 600 as `10:00` and 0 as `0:00` |
| `Session.StartSpec` | src/App.tsx:52-62 | a start with a blank intention changes nothing; any other start sets `timeLeft` to `duration * 60`, runs, selects the catalog entry at the drawn index and keeps intention, duration and flag |
| `Session.TickSpec` | src/App.tsx:73-89 | with more than one second left a tick takes off exactly one and keeps running; with one left it sets 0 and completes; outside a running session with time left nothing changes |
| `Session.ResetSpec` | src/App.tsx:64-70 | reset gives setup, `""`, 5, 0 and a hidden completion from any state, keeps the quote, and is idempotent |
| `Session.TransitionsPreserveValid` | src/App.tsx:25-89 | the initial state is valid and every transition keeps the duration a menu entry, the intention within 50 characters, the quote a catalog entry, and time left positive exactly while running |
| `Session.TicksPreserveValid` | src/App.tsx:73-89 | any number of ticks keeps the state valid, so the time left is never negative |
| `Session.TicksInert` | src/App.tsx:74 | outside a running session the countdown is inert |
| `Session.CountdownRunning` | src/App.tsx:73-89 | fewer ticks than the seconds left keep the session running with exactly that many seconds fewer |
| `Session.CountdownCompletes` | src/App.tsx:73-89 | as many ticks as seconds left complete the session at 0 with nothing else changed, and further ticks change nothing |
| `Session.StartThenCountdown` | src/App.tsx:52-89 | from an accepted start exactly `duration * 60` ticks reach complete at 0, and every earlier tick leaves it running with time left |
| `AppState.App.constructor` | src/App.tsx:25-30 | the component mounts in setup with no intention, 5 minutes, no time, the first quote and the completion hidden |
| `AppState.App.Start` | src/App.tsx:52-62 | `startTimer` updates the fields as `Session.Start` does, plays one gong exactly when it is accepted, and keeps them valid |
| `AppState.App.Tick` | src/App.tsx:73-89 | the interval callback updates the fields as `Session.Tick` does; on completion it plays one gong and schedules one reveal |
| `AppState.App.Reset` | src/App.tsx:64-70 | `resetTimer` restores the defaults, keeps the quote and leaves pending reveals in place |
| `AppState.App.SetIntention` | src/App.tsx:115-122 | the input's change handler replaces the intention and nothing else |
| `AppState.App.SetDuration` | src/App.tsx:130-133 | a duration button sets a menu duration and nothing else |
| `AppState.App.Reveal` | src/App.tsx:80 | a pending reveal sets the completion flag and nothing else |
| `AppState.App.RunCountdown` | src/App.tsx:73-89 | a running session takes exactly as many ticks as it had seconds left and ends complete at 0, with one gong and one reveal pending, and with intention, duration and quote kept |

## Left out

- Rendering and styling (src/App.tsx:97-226) are not modelled. The three views, the candle
  animation and the buttons are presentation. What the views guarantee to the handlers is kept
  as preconditions: the intention input's `maxLength` of 50, and the duration buttons offering
  only menu entries.
- The handlers are not guarded by the phase, as in the code. Typing, the duration buttons and
  the start button only exist in the setup view, and the reset button only in the complete view
  (src/App.tsx:214-220). The model does not restrict them to those phases, so it also admits,
  for instance, a reset from a running session, which the views cannot reach; nothing breaks
  its invariant if a handler is used in another phase.
- `playGong` is Web Audio output with floating-point frequency and gain ramps. It is modelled
  only as the ghost counter `App.gongs` of cues played.
- `App.Start`, `App.Tick`: `playGong` is assumed to return normally. Where Web Audio is missing,
  the `AudioContext` construction (src/App.tsx:35) throws. An accepted start then loads the
  countdown and runs but keeps the previous quote, because the gong (src/App.tsx:57) comes before
  the quote is drawn (src/App.tsx:60-61). The completing tick throws inside its state updater.
  Neither failure is modelled.
- `setInterval`, `clearInterval` and `setTimeout` are host scheduling. A tick is an explicit call
  of `App.Tick`, and the interval firing until cleared is `App.RunCountdown`. The one-second
  delay before the completion is revealed is the ghost counter `App.pendingReveals` together
  with `App.Reveal`, which the host may deliver at any later point.
- `Math.random()` and the floating-point index computation `Math.floor(Math.random() * QUOTES.length)`
  are replaced by the index they produce: `Session.Start` and `App.Start` take any `i` with
  `0 <= i < |QUOTES|`. Only that range is relied on. How the double product rounds, and so
  which index a given draw yields (or whether the draw is uniform), is not modelled.
- React's hook semantics are not modelled: dependency arrays, closures capturing the state of
  the last render, batched `setState`, and the effect re-creating the interval after every
  change of `timeLeft`. Each handler is one atomic update of the fields. The tick's state
  updater calls `setTimerState`, `playGong` and `setTimeout` as side effects; a renderer that
  invokes updaters twice would repeat them, and this is not modelled.
- `Text.Trim` measures characters as Unicode scalar values. The input's `maxLength` counts
  UTF-16 code units, which differ for characters outside the Basic Multilingual Plane.
- `TimeFormat.Decimal` renders only the plain digit form of `toString`. JavaScript switches to
  exponent notation from 10^21, far above the 600 seconds the menu allows.
