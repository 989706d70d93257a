/** The press handler shared by every icon (`inputStart`): in edit mode a
    press begins a drag and leaves the timer alone; otherwise it is a tap,
    which toggles a standard timer and advances an expired boss. */
module Icons {
  import opened Options
  import Countdown
  import BossPhase
  import Coordinates

  /** An icon on the map: a standard countdown or a boss phase timer. */
  datatype Icon =
    | Standard(timer: Countdown.Timer)
    | BossIcon(bossId: string, boss: BossPhase.Boss)

  function IdOf(icon: Icon): string {
    match icon
    case Standard(t) => t.id
    case BossIcon(id, _) => id
  }

  /** The outcome of a press: the icon afterwards, and the drag it begins
      when in edit mode. */
  datatype Pressed = Pressed(icon: Icon, drag: Option<Coordinates.Drag>)

  /** A press at pointer (clientX, clientY) on an icon whose offset in the
      container is (left, top). */
  function Press(editMode: bool, icon: Icon, clientX: int, clientY: int, left: int, top: int): (r: Pressed)
    ensures editMode ==> r.icon == icon
    ensures editMode <==> r.drag.Some?
    ensures editMode ==> r.drag.value == Coordinates.Drag(IdOf(icon), clientX, clientY, left, top)
    ensures IdOf(r.icon) == IdOf(icon)
    ensures !editMode && icon.Standard? ==> r.icon == Standard(Countdown.Toggle(icon.timer))
    ensures !editMode && icon.BossIcon? ==> r.icon == BossIcon(icon.bossId, BossPhase.Press(icon.boss))
  {
    if editMode then
      Pressed(icon, Some(Coordinates.Drag(IdOf(icon), clientX, clientY, left, top)))
    else
      match icon
      case Standard(t) => Pressed(Standard(Countdown.Toggle(t)), None)
      case BossIcon(id, b) => Pressed(BossIcon(id, BossPhase.Press(b)), None)
  }

  /** In play mode two taps on an idle timer start it and cancel it again,
      whatever the pointer position. */
  lemma TwoTapsLeaveIdle(icon: Icon, x: int, y: int, left: int, top: int)
    requires icon.Standard? && Countdown.Valid(icon.timer)
    requires Countdown.StatusOf(icon.timer) == Countdown.Idle
    ensures var once := Press(false, icon, x, y, left, top).icon;
            && Countdown.StatusOf(once.timer) == Countdown.Running
            && Countdown.StatusOf(Press(false, once, x, y, left, top).icon.timer) == Countdown.Idle
  {
  }

  /** A drag begun by a press moves only the pressed icon's entry. */
  lemma DragMovesPressedIcon(c: Coordinates.Config, icon: Icon, x: int, y: int, left: int, top: int,
                             mx: int, my: int, width: int, height: int, mapWidth: nat, mapHeight: nat, k: string)
    requires width > 0 && height > 0
    requires k in c && k != IdOf(icon)
    ensures var d := Press(true, icon, x, y, left, top).drag.value;
            Coordinates.DragMove(c, d, mx, my, width, height, mapWidth, mapHeight)[k] == c[k]
  {
  }
}
