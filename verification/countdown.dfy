/** The standard countdown icon (class `Timer` in script.js, non-boss
    instances): a tap starts a 30-second countdown, a tap on a running or
    expired timer resets it. The browser interval is replaced by explicit
    `Tick` steps: while a timer holds its interval, every `Tick` is one
    firing of the one-second callback. */
module Countdown {
  import opened Options
  import TimeText

  /** Length of one countdown in seconds. */
  const Duration: nat := 30

  /** The label an expired timer shows. */
  const ExpiredText: string := "!"

  datatype Status = Idle | Running | Expired

  /** One standard timer icon. The fields mirror the state the source keeps
      on the instance and on its element: `running` is `isRunning`,
      `expired` is the element's 'expired' class, `ticking` says an interval
      handle is held, `remaining` is `remainingTime`, `text` the label. */
  datatype Timer = Timer(
    id: string,
    running: bool,
    expired: bool,
    ticking: bool,
    remaining: int,
    text: string)

  function StatusOf(t: Timer): Status {
    if t.running then Running else if t.expired then Expired else Idle
  }

  /** The states the timer's own operations can reach: an interval is held
      exactly while the timer runs, a running timer is not marked expired,
      and while running it counts within 1..Duration and shows that count. */
  predicate Valid(t: Timer) {
    && (t.running <==> t.ticking)
    && !(t.running && t.expired)
    && (t.running ==> 0 < t.remaining <= Duration && t.text == TimeText.Decimal(t.remaining))
  }

  /** A freshly constructed timer: not running, no interval, count 0. */
  function Init(id: string, text: string): (t: Timer)
    ensures Valid(t) && StatusOf(t) == Idle && !t.ticking
    ensures t.id == id && t.text == text
  {
    Timer(id, false, false, false, 0, text)
  }

  /** Index of the first `c` in `s`, or |s| when there is none. */
  function FirstIndex(s: string, c: char): (k: nat)
    ensures k <= |s|
    ensures k < |s| ==> s[k] == c
    ensures forall i :: 0 <= i < k ==> s[i] != c
  {
    if |s| == 0 then 0
    else if s[0] == c then 0
    else 1 + FirstIndex(s[1..], c)
  }

  /** `s.replace(c, '')` with a one-character pattern: JavaScript replaces
      the first occurrence only. */
  function RemoveFirst(s: string, c: char): (r: string)
    ensures FirstIndex(s, c) == |s| ==> r == s
    ensures FirstIndex(s, c) < |s| ==> r == s[..FirstIndex(s, c)] + s[FirstIndex(s, c) + 1..]
  {
    if |s| == 0 then s
    else if s[0] == c then s[1..]
    else
      var r := [s[0]] + RemoveFirst(s[1..], c);
      assert FirstIndex(s, c) == 1 + FirstIndex(s[1..], c);
      r
  }

  /** The default label of a timer: its id without the first 't'. */
  lemma DefaultLabelExample(id: string)
    requires id == "t3"
    ensures RemoveFirst(id, 't') == "3"
  {
    assert FirstIndex(id, 't') == 0;
  }

  /** `start`: count from Duration, hold an interval, show the count. */
  function Start(t: Timer): (r: Timer)
    ensures Valid(r) && StatusOf(r) == Running && r.ticking
    ensures r.remaining == Duration
    ensures TimeText.ParseDigits(r.text) == Some(Duration)
    ensures r.id == t.id
  {
    TimeText.DecimalRoundTrip(Duration);
    t.(running := true, expired := false, ticking := true,
       remaining := Duration, text := TimeText.Decimal(Duration))
  }

  /** `expire`: drop the interval, stop running, mark expired, show "!". */
  function Expire(t: Timer): (r: Timer)
    ensures Valid(r) && StatusOf(r) == Expired && !r.ticking
    ensures r.text == ExpiredText
    ensures r.id == t.id && r.remaining == t.remaining
  {
    t.(ticking := false, running := false, expired := true, text := ExpiredText)
  }

  /** `reset`: drop the interval, clear running and expired, and show the
      id with its first 't' removed ("t3" shows "3"). */
  function Reset(t: Timer): (r: Timer)
    ensures Valid(r) && StatusOf(r) == Idle && !r.ticking
    ensures r.text == RemoveFirst(t.id, 't')
    ensures r.id == t.id && r.remaining == t.remaining
  {
    t.(ticking := false, running := false, expired := false, text := RemoveFirst(t.id, 't'))
  }

  /** One firing of the one-second interval callback. Without an interval
      nothing fires. Otherwise the count drops by one; at zero or below the
      timer expires, else the label shows the new count. */
  function Tick(t: Timer): (r: Timer)
    ensures !t.ticking ==> r == t
    ensures t.ticking ==> r.remaining == t.remaining - 1
    ensures t.ticking && t.remaining <= 1 ==> StatusOf(r) == Expired && !r.ticking && r.text == ExpiredText
    ensures Valid(t) && t.ticking && t.remaining > 1 ==> StatusOf(r) == Running && r.ticking
    ensures Valid(t) ==> Valid(r)
    ensures r.id == t.id
  {
    if !t.ticking then t
    else
      var left := t.remaining - 1;
      if left <= 0 then Expire(t.(remaining := left))
      else t.(remaining := left, text := TimeText.Decimal(left))
  }

  /** `toggleTimer` on a standard icon: a running or an expired timer is
      reset, an idle one is started. A second tap therefore cancels a
      running countdown, and `start` is never reached while running. */
  function Toggle(t: Timer): (r: Timer)
    ensures Valid(r)
    ensures StatusOf(t) == Idle ==> r == Start(t)
    ensures StatusOf(t) != Idle ==> r == Reset(t)
    ensures StatusOf(r) == if StatusOf(t) == Idle then Running else Idle
  {
    if t.running then Reset(t)
    else if t.expired then Reset(t)
    else Start(t)
  }

  /** `k` firings of the interval callback. */
  function Ticks(t: Timer, k: nat): Timer
    decreases k
  {
    if k == 0 then t else Ticks(Tick(t), k - 1)
  }

  /** A running timer counts down one per tick and still runs while ticks
      remain below its count. */
  lemma {:induction false} TicksCountDown(t: Timer, k: nat)
    requires Valid(t) && StatusOf(t) == Running
    requires k < t.remaining
    ensures Valid(Ticks(t, k)) && StatusOf(Ticks(t, k)) == Running
    ensures Ticks(t, k).remaining == t.remaining - k && Ticks(t, k).id == t.id
    decreases k
  {
    if k > 0 {
      TicksCountDown(Tick(t), k - 1);
    }
  }

  /** Once a timer holds no interval, ticks change nothing. */
  lemma {:induction false} TicksIdle(t: Timer, k: nat)
    requires !t.ticking
    ensures Ticks(t, k) == t
    decreases k
  {
    if k > 0 {
      TicksIdle(Tick(t), k - 1);
    }
  }

  /** A running timer expires on exactly the tick that takes its count to
      zero, and stays expired: not running, no interval, label "!". */
  lemma TicksExpire(t: Timer, k: nat)
    requires Valid(t) && StatusOf(t) == Running
    requires k >= t.remaining
    ensures StatusOf(Ticks(t, k)) == Expired
    ensures !Ticks(t, k).ticking && Ticks(t, k).text == ExpiredText
    ensures Ticks(t, k).remaining == 0 && Ticks(t, k).id == t.id
  {
    var n := t.remaining - 1;
    TicksCountDown(t, n);
    var u := Ticks(t, n);
    var e := Tick(u);
    assert StatusOf(e) == Expired && !e.ticking && e.remaining == 0;
    TicksIdle(e, k - t.remaining);
    TicksSplit(t, n, k - n);
    assert Ticks(u, k - n) == Ticks(e, k - t.remaining);
  }

  /** Ticking k then j times is ticking k + j times. */
  lemma {:induction false} TicksSplit(t: Timer, k: nat, j: nat)
    ensures Ticks(t, k + j) == Ticks(Ticks(t, k), j)
    decreases k
  {
    if k > 0 {
      TicksSplit(Tick(t), k - 1, j);
    }
  }

  /** After a start, the timer runs for exactly Duration ticks: it is
      running after fewer and expired after Duration or more. */
  lemma StartedTimerExpiresAfterDuration(t: Timer, k: nat)
    ensures StatusOf(Ticks(Start(t), k)) == (if k < Duration then Running else Expired)
    ensures k >= Duration ==> !Ticks(Start(t), k).ticking && Ticks(Start(t), k).text == ExpiredText
  {
    var s := Start(t);
    if k < Duration {
      TicksCountDown(s, k);
    } else {
      TicksExpire(s, k);
    }
  }

  /** A tap on an expired timer always lands in the idle state with the
      default label. */
  lemma ToggleAfterExpiry(t: Timer, k: nat)
    requires k >= Duration
    ensures var r := Toggle(Ticks(Start(t), k));
            StatusOf(r) == Idle && !r.ticking && r.text == RemoveFirst(t.id, 't')
  {
    TicksExpire(Start(t), k);
  }

  /** Two taps on an idle timer start and then cancel it. */
  lemma SecondTapCancels(t: Timer)
    requires StatusOf(t) == Idle
    ensures StatusOf(Toggle(t)) == Running
    ensures var r := Toggle(Toggle(t));
            StatusOf(r) == Idle && !r.ticking && r.text == RemoveFirst(t.id, 't')
  {
  }

  /** While running, the label reads back as the remaining count. */
  lemma RunningLabelShowsCount(t: Timer)
    requires Valid(t) && StatusOf(t) == Running
    ensures TimeText.ParseDigits(t.text) == Some(t.remaining)
  {
    TimeText.DecimalRoundTrip(t.remaining);
  }
}
