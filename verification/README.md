# Map timers: a Dafny model

This project models the logic of `script.js`, a single-page helper that
places countdown icons over a game map. It covers four parts:

- **Standard timers.** A tap starts a 30-second countdown. A tap on a running
  or expired timer resets it to its default label, which is the icon id
  without its first `t`.
- **Boss timers.** Each boss has a schedule of deadlines, in minutes from game
  start. On every game-clock tick it shows the time left to the current
  deadline (`m:ss`), `SPWN` once the deadline is reached, or `DONE` after the
  last phase. A tap on an expired boss advances it to the next phase.
- **Game clock.** One button starts and stops the game. While it runs, the
  clock shows the elapsed time as `mm:ss`, with no bound on the minutes, and
  every boss is redrawn from the same elapsed seconds. Starting or stopping
  the game puts every boss back at phase 0.
- **Coordinate configuration.** A map from icon id to a position in
  map-image pixels. At startup the saved configuration is overlaid onto the
  built-in defaults, and an imported file is overlaid onto the current
  configuration. When parsing fails, nothing changes. In edit mode, a drag
  clamps the icon to the container and rounds its position to whole image
  pixels.

The modules are `TimeText` (labels and a reference reader for them),
`Countdown`, `BossPhase`, `GameClock`, `Coordinates` and `Icons` (the press
handler shared by all icons). `Options` holds the option type.

Browser intervals, the clock and parsing do not appear directly. Instead:

- one firing of an interval is an explicit `Tick` step;
- the current time reaches the model as an `elapsed` argument;
- a JSON parse is an `Option<Config>`, which is `None` when the text did not
  parse.

## Model

| member | source | states |
|---|---|---|
| `TimeText.Decimal` | script.js:183 | the decimal text of a count has at least one digit, has exactly one digit below 10, and starts with '0' only for zero |
| `TimeText.DecimalRoundTrip` | script.js:183 | reading the decimal text of a count gives the count back |
| `TimeText.PadStart` | script.js:312 | `padStart` keeps the text as its suffix and makes it exactly the target width when it is shorter |
| `TimeText.PadStartFill` | script.js:312 | every character `padStart` adds in front is the fill character |
| `TimeText.ZeroPadPreservesValue` | script.js:312 | padding digits with leading zeros does not change the number they read as |
| `TimeText.SecondsField` | script.js:312 | the seconds field of both labels is always two characters |
| `TimeText.PaddedMinutes` | script.js:310-312 | the clock's minutes field is two characters below 100 minutes and longer from then on, and begins with a padding zero exactly below 10 minutes |
| `TimeText.ClockText` | script.js:310-312 | the clock text has a colon before two seconds digits; it is exactly five characters (`mm:ss`) below 100 minutes, and starts with '0' exactly below 10 minutes |
| `TimeText.ClockTextRoundTrip` | script.js:310-312 | the clock text reads back as exactly the elapsed seconds, whatever the number of minutes |
| `TimeText.ClockTextInjective` | script.js:310-312 | two different elapsed times never show the same clock text |
| `TimeText.ClockTextAtStart` | script.js:310-312 | second 0 shows "00:00" |
| `TimeText.ClockTextUnboundedMinutes` | script.js:310-312 | minutes are not capped at two digits: 6005 seconds show "100:05" |
| `TimeText.BossLabel` | script.js:344-347 | the boss countdown label has a colon before two seconds digits, and its minutes are unpadded: it is four characters exactly below 10 minutes and starts with '0' exactly in the last minute |
| `TimeText.BossLabelRoundTrip` | script.js:344-347 | the boss label reads back as exactly the remaining seconds |
| `TimeText.BossLabelExample` | script.js:344-347 | 599 seconds left shows "9:59", with unpadded minutes |
| `Countdown.Init` | script.js:91-102 | a new timer is idle, has no interval and keeps its id and label |
| `Countdown.RemoveFirst` | script.js:176 | removing a one-character pattern deletes only its first occurrence and leaves a string without one unchanged |
| `Countdown.DefaultLabelExample` | script.js:176 | timer "t3" resets to the label "3" |
| `Countdown.Start` | script.js:137-142 | starting sets the count to 30, holds an interval, runs, clears expired and shows the count |
| `Countdown.Tick` | script.js:144-151 | a tick without an interval does nothing; otherwise the count drops by one and the timer expires exactly when the count reaches zero or below |
| `Countdown.Expire` | script.js:154-167 | expiry drops the interval, stops the timer, marks it expired and shows "!" |
| `Countdown.Reset` | script.js:169-178 | reset drops the interval, clears running and expired, and shows the id without its first 't' |
| `Countdown.Toggle` | script.js:112-127 | a tap starts an idle timer and resets a running or expired one, so it is never started while running |
| `Countdown.TicksCountDown` | script.js:144-151 | a running timer stays running and counts down one per tick while ticks are fewer than its count |
| `Countdown.TicksIdle` | script.js:144-151 | ticks do nothing to a timer without an interval |
| `Countdown.TicksExpire` | script.js:144-167 | a running timer expires on the tick that brings its count to zero and stays expired with "!" |
| `Countdown.TicksSplit` | script.js:144-151 | k ticks then j ticks equal k + j ticks |
| `Countdown.StartedTimerExpiresAfterDuration` | script.js:137-167 | after a start the timer is running for fewer than 30 ticks and expired after 30 or more |
| `Countdown.ToggleAfterExpiry` | script.js:121-124 | a tap on an expired timer leaves it idle, with no interval and its default label |
| `Countdown.SecondTapCancels` | script.js:120-126 | a second tap cancels a countdown started by the first |
| `Countdown.RunningLabelShowsCount` | script.js:180-190 | a running timer's label reads back as its remaining count |
| `BossPhase.VisualOf` | script.js:317-352 | a boss is cleared exactly when its phase is past the schedule; it spawns exactly when the deadline's seconds are reached; otherwise the seconds left plus the elapsed seconds equal the deadline, and the leg is the gap from the previous deadline |
| `BossPhase.Label` | script.js:323-354 | a boss shows "DONE" exactly when cleared and "SPWN" exactly at its deadline; a counting display shows the boss countdown label of its seconds left |
| `BossPhase.LabelReadsBack` | script.js:326-354 | a counting label reads back as the seconds left, and "DONE" and "SPWN" never read as a time |
| `BossPhase.Update` | script.js:317-362 | an expired boss is not redrawn; otherwise the label follows the display, the boss becomes expired exactly at its deadline, and the phase never changes |
| `BossPhase.Advance` | script.js:129-135 | advancing adds one to the phase and clears expired |
| `BossPhase.Press` | script.js:113-117 | a tap advances a boss only when it is expired, and leaves it unchanged otherwise |
| `BossPhase.GameStartReset` | script.js:296-301 | game start puts a boss at phase 0 and draws it at second 0; it is expired at once only when its first deadline is 0 |
| `BossPhase.StopLabel` | script.js:284-286 | the stop label ends in 'm' and the text before it reads as the first deadline; with no deadlines it is just "m" |
| `BossPhase.GameStopReset` | script.js:283-286 | game stop puts a boss at phase 0, clears expired and shows the first deadline followed by "m" |
| `BossPhase.PhaseChanges` | script.js:129-135 | the phase rises only through a tap on an expired boss, and then by one; it falls only to 0, at game start or stop |
| `BossPhase.StepKeepsValid` | script.js:113-135 | no event moves the phase past the schedule or leaves a cleared boss expired |
| `BossPhase.RunKeepsValid` | script.js:113-135 | across any sequence of events the phase never passes the number of deadlines |
| `BossPhase.ClearedIsTerminal` | script.js:323-329 | past the last deadline a boss shows "DONE" at any time, and taps leave it unchanged |
| `BossPhase.LegProgressInRange` | script.js:331-352 | for increasing deadlines, the seconds left in a leg are between 1 and the leg's length, and equal the length at the start of the leg |
| `BossPhase.WorkedExample` | script.js:317-352 | with deadlines 5, 15 and 30, at 5:01 the boss shows "SPWN"; after a tap it shows "9:59" in phase 1 |
| `GameClock.ElapsedSeconds` | script.js:308 | elapsed seconds are the whole seconds since the start time, rounded down |
| `GameClock.StartStop` | script.js:274-304 | the button flips running; every boss returns to phase 0 with its schedule kept; stopping shows "00:00" and the first deadlines; starting redraws the bosses at second 0, and a boss is expired only when its first deadline is 0 |
| `GameClock.UpdateAll` | script.js:314 | every boss is redrawn from the same elapsed seconds and keeps its phase |
| `GameClock.Tick` | script.js:306-315 | a stopped game ignores ticks; a running one shows the elapsed time, redraws every boss, and keeps every phase |
| `GameClock.TickShowsElapsed` | script.js:306-312 | after a tick the clock reads back as exactly the elapsed seconds |
| `GameClock.TapBoss` | script.js:113-117 | a tap changes only the tapped boss |
| `GameClock.RunKeepsBossesValid` | script.js:274-362 | any run of button presses, ticks and taps keeps every boss within its schedule |
| `GameClock.TicksKeepPhases` | script.js:306-362 | ticks alone never change any boss's phase |
| `GameClock.StartThenStop` | script.js:274-304 | start then stop shows "00:00" and leaves every boss at phase 0, not expired |
| `Coordinates.DefaultIcons` | script.js:21-31 | the defaults place exactly the eight standard timers and the boss, no two at the same spot |
| `Coordinates.Overlay` | script.js:36 | the overlay has the keys of both maps; incoming entries win; other current entries are kept |
| `Coordinates.Startup` | script.js:33-40 | with nothing saved the defaults stand; otherwise the keys are those of the defaults and the saved map, saved entries win, and icons the saved map does not mention keep their defaults |
| `Coordinates.Import` | script.js:398-409 | a failed parse leaves the configuration unchanged; a successful one is overlaid, incoming entries winning |
| `Coordinates.ExportImportIdentity` | script.js:380-409 | importing the configuration just exported changes nothing |
| `Coordinates.ImportIdempotent` | script.js:400-402 | importing the same file twice equals importing it once |
| `Coordinates.ImportsCompose` | script.js:400-402 | two imports in a row equal one import of the second file overlaid onto the first |
| `Coordinates.Clamp` | script.js:220-221 | a clamped offset lies in [0, hi], is unchanged inside it, and snaps to the nearest end outside it |
| `Coordinates.RoundDiv` | script.js:230-231 | the result is the nearest integer to n / d, with halves rounded up |
| `Coordinates.RoundDivInRange` | script.js:230-231 | scaling an offset within [0, size] to a native size gives a pixel within [0, native] |
| `Coordinates.ToNative` | script.js:230-231 | the pixel is within [0, native] and is the nearest integer to offset / size * native |
| `Coordinates.DragMove` | script.js:204-233 | a drag writes only the dragged icon's entry; its pixel is within the image and nearest to the clamped offset scaled to the image |
| `Coordinates.DragOnNativeScale` | script.js:216-233 | on a container the size of the image, an unclamped drag lands exactly on the pointer's offset |
| `Coordinates.RoundDivExact` | script.js:230-231 | rounding an exact whole quotient gives that quotient |
| `Icons.Press` | script.js:104-110 | in edit mode a press starts a drag of that icon and leaves the timer alone; otherwise it toggles a standard timer or taps a boss |
| `Icons.TwoTapsLeaveIdle` | script.js:104-127 | outside edit mode, two presses on an idle timer start it and then cancel it |
| `Icons.DragMovesPressedIcon` | script.js:104-110 | a drag started by a press never moves another icon's entry |

## Left out

- Drawing is not modelled. This covers the canvas, the map image, CSS classes
  (`running`, `cleared`, `hidden`, `active`, edit mode) and the colours. None of
  it affects the timer logic.
- The conic-gradient angle is left out because it is floating point. The
  model keeps only its inputs: the remaining count for standard timers, and
  the seconds left with the leg's length for bosses.
- `applyConfig` and the percentage positions written during a drag are left
  out. They are floating-point display output; the image coordinates that
  are stored are modelled.
- `Coordinates.ToNative`: the source divides and multiplies in floating
  point. The model rounds the exact quotient, so the two can differ when a
  value lies within rounding error of a half.
- `Coordinates.DragMove`: requires a container of positive width and height.
  With a zero-sized container the source divides by zero and stores NaN.
  The container size, the pointer position and the offsets are modelled as
  whole CSS pixels. In the source the container size from
  `getBoundingClientRect` and the pointer coordinates can be fractional, and
  the clamp can then return a fractional width.
- `GameClock.ElapsedSeconds`: requires a clock that does not run backwards,
  so elapsed seconds are never negative.
- Numbers are unbounded integers. They match the source's JavaScript
  numbers below 2^53, which covers every count, elapsed second, schedule
  minute and pixel the widget meets. Above that, `toString` switches to
  exponent notation (from 10^21) and `/` and `%` are inexact.
- `setInterval`, `clearInterval` and `Date.now` are left out. An interval is
  modelled as the `ticking` flag (standard timers) or the `running` flag (the
  game). Each firing is a `Tick` step, and the current time is an argument.
- `localStorage`, `FileReader`, `alert`, the console and the export download
  are left out. Exporting is the identity on the configuration, and the
  stored copy is the configuration itself.
- JSON text is not parsed. A parse is an `Option<Config>`. The source does not
  check that the parsed value is an object of positions: a JSON number
  spreads as nothing, and a JSON string spreads its characters as keys. The
  model treats every successful parse as a configuration map.
- The `data-schedule` attribute is modelled as already parsed, as a sequence
  of whole minutes. The source's `parseInt` of malformed entries (NaN) is not
  modelled.
- `BossPhase.GameStopReset`: the stop label shows the first schedule entry
  as re-printed digits. The source prints the raw attribute text, which may
  differ when the attribute has spaces or leading zeros.
- The boss-mode and edit-mode toggle buttons only show or hide elements and
  flip the mode flag. The flag itself is the `editMode` argument of
  `Icons.Press`.
- Only one drag is modelled at a time. If a drag's mouse-up is missed, its
  handlers stay registered on the document until the next mouse-up, which
  removes them. Until then, a second drag also moves the first icon.
