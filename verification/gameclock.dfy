/** The shared game clock (the start/stop button handler and
    `updateGameTimer` in script.js). One button starts and stops the game;
    while it runs, a once-a-second tick shows the elapsed time and redraws
    every boss from the same elapsed seconds. The time source is replaced by
    the `elapsed` argument of `Tick`. */
module GameClock {
  import opened Options
  import TimeText
  import BossPhase

  /** The clock text of a stopped game. */
  const ZeroClock: string := "00:00"

  /** The game: whether its interval runs, the clock text and the bosses. */
  datatype Game = Game(running: bool, clock: string, bosses: seq<BossPhase.Boss>)

  predicate AllValid(bosses: seq<BossPhase.Boss>) {
    forall i :: 0 <= i < |bosses| ==> BossPhase.Valid(bosses[i])
  }

  /** Whole seconds since the start time, `Math.floor((now - start) / 1000)`. */
  function ElapsedSeconds(startMs: int, nowMs: int): (s: nat)
    requires startMs <= nowMs
    ensures s * 1000 <= nowMs - startMs < (s + 1) * 1000
  {
    (nowMs - startMs) / 1000
  }

  /** The start/stop button. Stopping clears the clock to "00:00" and puts
      every boss back at phase 0, unexpired, showing its first deadline.
      Starting puts every boss back at phase 0 and redraws it at second 0;
      the clock text is left until the first tick. */
  function StartStop(g: Game): (r: Game)
    ensures r.running == !g.running
    ensures |r.bosses| == |g.bosses| && AllValid(r.bosses)
    ensures forall i :: 0 <= i < |r.bosses| ==>
              r.bosses[i].phaseIndex == 0 && r.bosses[i].schedule == g.bosses[i].schedule
    ensures g.running ==> r.clock == ZeroClock
    ensures g.running ==> forall i :: 0 <= i < |r.bosses| ==>
              !r.bosses[i].expired && r.bosses[i].text == BossPhase.StopLabel(g.bosses[i].schedule)
    ensures !g.running ==> r.clock == g.clock
    ensures !g.running ==> forall i :: 0 <= i < |r.bosses| ==>
              r.bosses[i].text == BossPhase.Label(BossPhase.VisualOf(g.bosses[i].schedule, 0, 0))
    ensures !g.running ==> forall i :: 0 <= i < |r.bosses| ==>
              (r.bosses[i].expired <==> |g.bosses[i].schedule| > 0 && g.bosses[i].schedule[0] == 0)
  {
    var n := |g.bosses|;
    if g.running then
      Game(false, ZeroClock, seq(n, i requires 0 <= i < n => BossPhase.GameStopReset(g.bosses[i])))
    else
      Game(true, g.clock, seq(n, i requires 0 <= i < n => BossPhase.GameStartReset(g.bosses[i])))
  }

  /** Every boss redrawn from the same elapsed seconds. */
  function UpdateAll(bosses: seq<BossPhase.Boss>, elapsed: nat): (r: seq<BossPhase.Boss>)
    ensures |r| == |bosses|
    ensures forall i :: 0 <= i < |r| ==> r[i] == BossPhase.Update(bosses[i], elapsed)
    ensures forall i :: 0 <= i < |r| ==> r[i].phaseIndex == bosses[i].phaseIndex
    ensures AllValid(bosses) ==> AllValid(r)
  {
    seq(|bosses|, i requires 0 <= i < |bosses| => BossPhase.Update(bosses[i], elapsed))
  }

  /** One firing of the game interval at `elapsed` seconds. A stopped game
      has no interval, so nothing happens. A running game shows the elapsed
      time and drives every boss from the same elapsed seconds; no boss
      changes phase. */
  function Tick(g: Game, elapsed: nat): (r: Game)
    ensures !g.running ==> r == g
    ensures r.running == g.running && |r.bosses| == |g.bosses|
    ensures g.running ==> r.clock == TimeText.ClockText(elapsed)
    ensures g.running ==> r.bosses == UpdateAll(g.bosses, elapsed)
    ensures forall i :: 0 <= i < |r.bosses| ==> r.bosses[i].phaseIndex == g.bosses[i].phaseIndex
    ensures AllValid(g.bosses) ==> AllValid(r.bosses)
  {
    if !g.running then g
    else
      Game(true, TimeText.ClockText(elapsed), UpdateAll(g.bosses, elapsed))
  }

  /** While the game runs, the clock text after a tick reads back as the
      elapsed seconds, for any number of minutes. */
  lemma TickShowsElapsed(g: Game, elapsed: nat)
    requires g.running
    ensures TimeText.ReadTime(Tick(g, elapsed).clock) == Some(elapsed)
  {
    TimeText.ClockTextRoundTrip(elapsed);
  }

  /** A tap on boss `i` (outside edit mode); any other index is no boss. */
  function TapBoss(g: Game, i: nat): (r: Game)
    ensures r.running == g.running && r.clock == g.clock && |r.bosses| == |g.bosses|
    ensures forall j :: 0 <= j < |r.bosses| && j != i ==> r.bosses[j] == g.bosses[j]
    ensures i < |g.bosses| ==> r.bosses[i] == BossPhase.Press(g.bosses[i])
    ensures AllValid(g.bosses) ==> AllValid(r.bosses)
  {
    if i < |g.bosses| then g.(bosses := g.bosses[i := BossPhase.Press(g.bosses[i])]) else g
  }

  datatype GameEvent = Button | Second(elapsed: nat) | BossTap(index: nat)

  function Step(g: Game, e: GameEvent): Game {
    match e
    case Button => StartStop(g)
    case Second(elapsed) => Tick(g, elapsed)
    case BossTap(i) => TapBoss(g, i)
  }

  function Run(g: Game, events: seq<GameEvent>): Game
    decreases |events|
  {
    if |events| == 0 then g else Run(Step(g, events[0]), events[1..])
  }

  /** Any run of button presses, ticks and taps keeps every boss within its
      schedule and keeps the number of bosses. */
  lemma {:induction false} RunKeepsBossesValid(g: Game, events: seq<GameEvent>)
    requires AllValid(g.bosses)
    ensures AllValid(Run(g, events).bosses)
    ensures |Run(g, events).bosses| == |g.bosses|
    decreases |events|
  {
    if |events| > 0 {
      RunKeepsBossesValid(Step(g, events[0]), events[1..]);
    }
  }

  /** Ticks alone never change a phase: only taps on expired bosses and
      the start/stop button do. */
  lemma {:induction false} TicksKeepPhases(g: Game, events: seq<GameEvent>)
    requires forall k :: 0 <= k < |events| ==> events[k].Second?
    ensures |Run(g, events).bosses| == |g.bosses|
    ensures forall i :: 0 <= i < |g.bosses| ==> Run(g, events).bosses[i].phaseIndex == g.bosses[i].phaseIndex
    decreases |events|
  {
    if |events| > 0 {
      var g' := Step(g, events[0]);
      assert g' == Tick(g, events[0].elapsed);
      assert |g'.bosses| == |g.bosses|;
      assert forall i :: 0 <= i < |g.bosses| ==> g'.bosses[i].phaseIndex == g.bosses[i].phaseIndex;
      assert forall k :: 0 <= k < |events| - 1 ==> events[1..][k] == events[k + 1];
      TicksKeepPhases(g', events[1..]);
      assert Run(g, events) == Run(g', events[1..]);
    }
  }

  /** Starting and then stopping a game leaves the clock at "00:00" and
      every boss at phase 0, unexpired, showing its first deadline. */
  lemma StartThenStop(g: Game, elapsed: nat)
    requires !g.running
    ensures var r := StartStop(Tick(StartStop(g), elapsed));
            !r.running && r.clock == ZeroClock &&
            forall i :: 0 <= i < |r.bosses| ==> r.bosses[i].phaseIndex == 0 && !r.bosses[i].expired
  {
  }
}
