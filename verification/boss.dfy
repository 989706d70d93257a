/** The boss icon (`updateBossVisual`, `advanceBossPhase` and the boss
    branch of `toggleTimer` in script.js). A boss carries a schedule of
    deadlines in minutes from game start and a phase index. Each game-clock
    tick recomputes its display from the elapsed seconds; once a deadline is
    reached the boss shows "SPWN" and stays that way until a tap advances it
    to the next phase. Past the last deadline it shows "DONE". */
module BossPhase {
  import opened Options
  import TimeText

  const ClearedText: string := "DONE"
  const SpawnText: string := "SPWN"

  /** What the display computation yields for a boss not already expired:
      all phases cleared, the current deadline reached, or a countdown with
      the seconds left and the length of the current leg in seconds (the
      progress arc is `remaining / legDuration` of a full turn). */
  datatype Visual =
    | Cleared
    | Spawn
    | Counting(remaining: nat, legDuration: int)

  /** One boss icon: its schedule (minutes), the phase it waits for, the
      element's 'expired' class and the label it shows. */
  datatype Boss = Boss(schedule: seq<nat>, phaseIndex: nat, expired: bool, text: string)

  /** Deadline of the previous phase in minutes (game start for phase 0). */
  function PrevDeadline(schedule: seq<nat>, i: nat): nat
    requires i < |schedule|
  {
    if i > 0 then schedule[i - 1] else 0
  }

  /** The display of a boss that is not expired, from its schedule, its
      phase and the elapsed game seconds. */
  function VisualOf(schedule: seq<nat>, phaseIndex: nat, elapsed: nat): (v: Visual)
    ensures v.Cleared? <==> phaseIndex >= |schedule|
    ensures phaseIndex < |schedule| ==> (v.Spawn? <==> schedule[phaseIndex] * 60 <= elapsed)
    ensures v.Counting? ==> phaseIndex < |schedule| && v.remaining + elapsed == schedule[phaseIndex] * 60
    ensures v.Counting? ==> v.legDuration == (schedule[phaseIndex] - PrevDeadline(schedule, phaseIndex)) * 60
  {
    if phaseIndex >= |schedule| then Cleared
    else
      var target := schedule[phaseIndex] * 60;
      var remaining := target - elapsed;
      var prev := PrevDeadline(schedule, phaseIndex) * 60;
      if remaining <= 0 then Spawn
      else Counting(remaining, target - prev)
  }

  /** The label each display shows: the two fixed words for a cleared or a
      spawned boss, otherwise a time with a colon before the seconds, which
      neither fixed word can be mistaken for. */
  function Label(v: Visual): (r: string)
    ensures v.Cleared? <==> r == ClearedText
    ensures v.Spawn? <==> r == SpawnText
    ensures v.Counting? ==> r == TimeText.BossLabel(v.remaining)
  {
    match v
    case Cleared => ClearedText
    case Spawn => SpawnText
    case Counting(remaining, _) => TimeText.BossLabel(remaining)
  }

  /** A counting label reads back as the seconds left; the two fixed labels
      are not time readings, so the three displays cannot be confused. */
  lemma LabelReadsBack(v: Visual)
    ensures v.Counting? ==> TimeText.ReadTime(Label(v)) == Some(v.remaining)
    ensures !v.Counting? ==> TimeText.ReadTime(Label(v)) == None
  {
    match v
    case Counting(remaining, _) =>
      TimeText.BossLabelRoundTrip(remaining);
    case Cleared =>
      assert TimeText.ColonIndex(ClearedText) == 4;
    case Spawn =>
      assert TimeText.ColonIndex(SpawnText) == 4;
  }

  /** The phase index never passes the end of the schedule, and only a boss
      waiting for a real deadline can be expired. */
  predicate Valid(b: Boss) {
    b.phaseIndex <= |b.schedule| && (b.expired ==> b.phaseIndex < |b.schedule|)
  }

  /** One game-clock tick for this boss (`updateBossVisual`). An expired
      boss is left exactly as it is; otherwise the label follows the display,
      and reaching the deadline marks the boss expired. The phase never
      changes here. */
  function Update(b: Boss, elapsed: nat): (r: Boss)
    ensures b.expired ==> r == b
    ensures r.schedule == b.schedule && r.phaseIndex == b.phaseIndex
    ensures r.expired <==> b.expired || (b.phaseIndex < |b.schedule| && b.schedule[b.phaseIndex] * 60 <= elapsed)
    ensures !b.expired ==> r.text == Label(VisualOf(b.schedule, b.phaseIndex, elapsed))
    ensures Valid(b) ==> Valid(r)
  {
    if b.expired then b
    else
      match VisualOf(b.schedule, b.phaseIndex, elapsed)
      case Cleared => b.(text := ClearedText)
      case Spawn => b.(expired := true, text := SpawnText)
      case Counting(remaining, _) => b.(text := TimeText.BossLabel(remaining))
  }

  /** `advanceBossPhase`: move to the next phase and clear the expired mark.
      The label is left for the next tick to redraw. */
  function Advance(b: Boss): (r: Boss)
    ensures r.phaseIndex == b.phaseIndex + 1 && !r.expired
    ensures r.schedule == b.schedule && r.text == b.text
  {
    b.(phaseIndex := b.phaseIndex + 1, expired := false)
  }

  /** A tap on a boss icon (outside edit mode): it advances only when the
      boss is expired, and is ignored otherwise. */
  function Press(b: Boss): (r: Boss)
    ensures r.phaseIndex == b.phaseIndex + (if b.expired then 1 else 0)
    ensures !r.expired
    ensures !b.expired ==> r == b
    ensures Valid(b) ==> Valid(r)
  {
    if b.expired then Advance(b) else b
  }

  /** What a game start does to a boss: back to phase 0, not expired, and
      redrawn at elapsed second 0. */
  function GameStartReset(b: Boss): (r: Boss)
    ensures r.phaseIndex == 0 && r.schedule == b.schedule
    ensures Valid(r)
    ensures r.expired <==> |b.schedule| > 0 && b.schedule[0] == 0
    ensures r.text == Label(VisualOf(b.schedule, 0, 0))
  {
    Update(b.(phaseIndex := 0, expired := false), 0)
  }

  /** The label a stopped game shows: the first deadline followed by "m". */
  function StopLabel(schedule: seq<nat>): (r: string)
    ensures |r| >= 1 && r[|r| - 1] == 'm'
    ensures |schedule| == 0 ==> r == "m"
    ensures |schedule| > 0 ==> TimeText.ParseDigits(r[..|r| - 1]) == Some(schedule[0])
  {
    if |schedule| == 0 then "m"
    else
      var d := TimeText.Decimal(schedule[0]);
      TimeText.DecimalRoundTrip(schedule[0]);
      assert (d + "m")[..|d|] == d;
      d + "m"
  }

  /** What a game stop does to a boss: back to phase 0, not expired, label
      showing the first deadline in minutes. */
  function GameStopReset(b: Boss): (r: Boss)
    ensures r.phaseIndex == 0 && !r.expired && r.schedule == b.schedule
    ensures Valid(r)
    ensures r.text == StopLabel(b.schedule)
  {
    b.(phaseIndex := 0, expired := false, text := StopLabel(b.schedule))
  }

  /** Everything that can happen to a boss icon. */
  datatype Event = ClockTick(elapsed: nat) | Tap | GameStart | GameStop

  function Step(b: Boss, e: Event): Boss {
    match e
    case ClockTick(elapsed) => Update(b, elapsed)
    case Tap => Press(b)
    case GameStart => GameStartReset(b)
    case GameStop => GameStopReset(b)
  }

  /** The phase index goes up only through a tap on an expired boss, and
      then by exactly one; it goes down only to 0 on game start or stop. */
  lemma PhaseChanges(b: Boss, e: Event)
    ensures Step(b, e).phaseIndex > b.phaseIndex ==> e.Tap? && b.expired && Step(b, e).phaseIndex == b.phaseIndex + 1
    ensures Step(b, e).phaseIndex < b.phaseIndex ==> (e.GameStart? || e.GameStop?) && Step(b, e).phaseIndex == 0
    ensures Step(b, e).schedule == b.schedule
  {
  }

  /** Every event keeps a boss within its schedule. */
  lemma StepKeepsValid(b: Boss, e: Event)
    requires Valid(b)
    ensures Valid(Step(b, e))
  {
  }

  function Run(b: Boss, events: seq<Event>): Boss
    decreases |events|
  {
    if |events| == 0 then b else Run(Step(b, events[0]), events[1..])
  }

  /** However the events go, the phase index never passes the number of
      deadlines, so no advance takes a boss beyond "DONE". */
  lemma {:induction false} RunKeepsValid(b: Boss, events: seq<Event>)
    requires Valid(b)
    ensures Valid(Run(b, events))
    ensures Run(b, events).phaseIndex <= |b.schedule|
    decreases |events|
  {
    if |events| > 0 {
      StepKeepsValid(b, events[0]);
      PhaseChanges(b, events[0]);
      RunKeepsValid(Step(b, events[0]), events[1..]);
    }
  }

  /** Once past the last deadline a boss shows "DONE" whatever the clock
      says, and taps leave it alone. */
  lemma ClearedIsTerminal(b: Boss, elapsed: nat)
    requires !b.expired && b.phaseIndex >= |b.schedule|
    ensures Update(b, elapsed).text == ClearedText
    ensures !Update(b, elapsed).expired && Update(b, elapsed).phaseIndex == b.phaseIndex
    ensures Press(Update(b, elapsed)) == Update(b, elapsed)
  {
  }

  predicate StrictlyIncreasing(s: seq<nat>) {
    forall i, j :: 0 <= i < j < |s| ==> s[i] < s[j]
  }

  /** Within a leg of an increasing schedule the countdown never exceeds the
      leg, so the progress fraction lies in (0, 1], and it is exactly 1 at
      the start of the leg. */
  lemma LegProgressInRange(schedule: seq<nat>, i: nat, elapsed: nat)
    requires StrictlyIncreasing(schedule) && i < |schedule|
    requires PrevDeadline(schedule, i) * 60 <= elapsed
    ensures var v := VisualOf(schedule, i, elapsed);
            v.Counting? ==> 0 < v.remaining <= v.legDuration
    ensures var v := VisualOf(schedule, i, elapsed);
            v.Counting? && elapsed == PrevDeadline(schedule, i) * 60 ==> v.remaining == v.legDuration
  {
  }

  /** The schedule 5, 15, 30 minutes at 5:01 of game time: phase 0 has
      reached its deadline; a tap moves to phase 1, which then shows 9:59. */
  lemma WorkedExample(b: Boss, elapsed: nat)
    requires b.schedule == [5, 15, 30] && b.phaseIndex == 0 && !b.expired
    requires elapsed == 301
    ensures Update(b, elapsed).expired && Update(b, elapsed).text == SpawnText
    ensures var c := Update(Press(Update(b, elapsed)), elapsed);
            c.phaseIndex == 1 && !c.expired && c.text == "9:59"
  {
    var s := Press(Update(b, elapsed));
    assert s.phaseIndex == 1 && !s.expired;
    assert VisualOf(s.schedule, 1, elapsed) == Counting(599, 600);
    TimeText.BossLabelExample(599);
  }
}
