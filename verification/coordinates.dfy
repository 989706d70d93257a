/** The coordinate configuration (`currentConfig` in script.js): a map from
    icon id to a position in map-image pixels. Startup and file import both
    overlay a parsed configuration onto the current one; a drag in edit mode
    rewrites the dragged icon's entry from the pointer position. JSON text,
    local storage and the file reader are left out: a parse is an
    `Option<Config>` that is `None` when the text did not parse. */
module Coordinates {
  import opened Options

  datatype Coord = Coord(x: int, y: int)

  type Config = map<string, Coord>

  /** The built-in positions of the eight standard timers and the boss. */
  const Defaults: Config := map[
    "t1" := Coord(541, 403), "t2" := Coord(670, 401), "t3" := Coord(543, 572),
    "t4" := Coord(678, 613), "t5" := Coord(866, 370), "t6" := Coord(996, 418),
    "t7" := Coord(876, 570), "t8" := Coord(995, 568), "b1" := Coord(400, 300)]

  /** The defaults place the eight standard timers and the boss, each at
      its own spot. */
  lemma DefaultIcons()
    ensures Defaults.Keys == {"t1", "t2", "t3", "t4", "t5", "t6", "t7", "t8", "b1"}
    ensures forall a, b :: a in Defaults && b in Defaults && a != b ==> Defaults[a] != Defaults[b]
  {
  }

  /** `{...current, ...incoming}`: every key of either map, the incoming
      value winning where both have one. */
  function Overlay(current: Config, incoming: Config): (r: Config)
    ensures r.Keys == current.Keys + incoming.Keys
    ensures forall k :: k in incoming ==> r[k] == incoming[k]
    ensures forall k :: k in current && k !in incoming ==> r[k] == current[k]
  {
    current + incoming
  }

  /** Loading a configuration: a failed parse leaves the current one
      untouched, a successful one is overlaid onto it. */
  function Import(current: Config, parsed: Option<Config>): (r: Config)
    ensures parsed.None? ==> r == current
    ensures parsed.Some? ==> r.Keys == current.Keys + parsed.value.Keys
    ensures parsed.Some? ==> forall k :: k in parsed.value ==> r[k] == parsed.value[k]
    ensures forall k :: k in current && (parsed.None? || k !in parsed.value) ==> r[k] == current[k]
  {
    match parsed
    case None => current
    case Some(incoming) => Overlay(current, incoming)
  }

  /** The configuration at startup: the saved one (if any parsed) overlaid
      onto the defaults, so every default icon keeps a position. */
  function Startup(saved: Option<Config>): (r: Config)
    ensures Defaults.Keys <= r.Keys
    ensures saved.None? ==> r == Defaults
    ensures saved.Some? ==> r.Keys == Defaults.Keys + saved.value.Keys
    ensures saved.Some? ==> forall k :: k in saved.value ==> r[k] == saved.value[k]
    ensures forall k :: k in Defaults && (saved.None? || k !in saved.value) ==> r[k] == Defaults[k]
  {
    Import(Defaults, saved)
  }

  /** Importing what was exported changes nothing. */
  lemma ExportImportIdentity(c: Config)
    ensures Import(c, Some(c)) == c
  {
  }

  /** Importing the same file twice is the same as importing it once. */
  lemma ImportIdempotent(c: Config, incoming: Config)
    ensures Import(Import(c, Some(incoming)), Some(incoming)) == Import(c, Some(incoming))
  {
  }

  /** Two imports in a row equal one import of the second overlaid onto the
      first. */
  lemma ImportsCompose(c: Config, a: Config, b: Config)
    ensures Import(Import(c, Some(a)), Some(b)) == Import(c, Some(Overlay(a, b)))
  {
  }

  /** `Math.max(0, Math.min(v, hi))`. */
  function Clamp(v: int, hi: int): (r: int)
    requires hi >= 0
    ensures 0 <= r <= hi
    ensures 0 <= v <= hi ==> r == v
    ensures v < 0 ==> r == 0
    ensures v > hi ==> r == hi
  {
    if v < 0 then 0 else if v > hi then hi else v
  }

  /** `Math.round(n / d)` for the exact quotient: the nearest integer, with
      halves rounded up. */
  function RoundDiv(n: int, d: int): (r: int)
    requires d > 0
    ensures 2 * d * r - d <= 2 * n < 2 * d * r + d
  {
    var q := (2 * n + d) / (2 * d);
    DivBounds(2 * n + d, 2 * d);
    q
  }

  lemma DivBounds(a: int, b: int)
    requires b > 0
    ensures b * (a / b) <= a < b * (a / b) + b
  {
  }

  /** Multiplying by a non-negative factor keeps an order. */
  lemma MulMonotone(a: int, b: int, c: int)
    requires a <= b && c >= 0
    ensures a * c <= b * c
  {
  }

  /** A positive factor can be cancelled from a strict order. */
  lemma MulCancel(a: int, b: int, c: int)
    requires c > 0 && a * c < b * c
    ensures a < b
  {
    if a >= b {
      MulMonotone(b, a, c);
    }
  }

  /** A rounded quotient of a fraction of `native` in [0, 1] lies in
      [0, native]. */
  lemma RoundDivInRange(offset: int, size: int, native: nat)
    requires size > 0 && 0 <= offset <= size
    ensures 0 <= RoundDiv(offset * native, size) <= native
  {
    var r := RoundDiv(offset * native, size);
    var m := 2 * size;
    MulMonotone(offset, size, native);
    MulMonotone(0, offset, native);
    assert (native + 1) * m == 2 * (size * native) + m;
    assert r * m < (native + 1) * m;
    MulCancel(r, native + 1, m);
    assert (-1) * m < r * m;
    MulCancel(-1, r, m);
  }

  /** `Math.round(offset / size * native)`: an offset inside the container
      scaled to the image's native size and rounded to a whole pixel. */
  function ToNative(offset: int, size: int, native: nat): (r: int)
    requires size > 0 && 0 <= offset <= size
    ensures 0 <= r <= native
    ensures 2 * size * r - size <= 2 * offset * native < 2 * size * r + size
  {
    RoundDivInRange(offset, size, native);
    RoundDiv(offset * native, size)
  }

  /** A drag in progress: the dragged icon, the pointer position and the
      icon's offset inside the container when the drag began. */
  datatype Drag = Drag(id: string, startX: int, startY: int, startLeft: int, startTop: int)

  /** One pointer move during a drag. The icon's new offset is the start
      offset plus the pointer's movement, clamped to the container; it is
      converted to map-image pixels by rounding `offset / size * mapSize`,
      and only the dragged icon's entry is written. */
  function DragMove(c: Config, d: Drag, clientX: int, clientY: int,
                    width: int, height: int, mapWidth: nat, mapHeight: nat): (r: Config)
    requires width > 0 && height > 0
    ensures r.Keys == c.Keys + {d.id}
    ensures forall k :: k in c && k != d.id ==> r[k] == c[k]
    ensures 0 <= r[d.id].x <= mapWidth && 0 <= r[d.id].y <= mapHeight
    ensures var left := Clamp(d.startLeft + (clientX - d.startX), width);
            2 * width * r[d.id].x - width <= 2 * left * mapWidth < 2 * width * r[d.id].x + width
    ensures var top := Clamp(d.startTop + (clientY - d.startY), height);
            2 * height * r[d.id].y - height <= 2 * top * mapHeight < 2 * height * r[d.id].y + height
  {
    var left := Clamp(d.startLeft + (clientX - d.startX), width);
    var top := Clamp(d.startTop + (clientY - d.startY), height);
    c[d.id := Coord(ToNative(left, width, mapWidth), ToNative(top, height, mapHeight))]
  }

  /** Dragging to a spot inside the container needs no clamping: on a
      container the size of the image, the icon lands on the pointer's
      spot exactly. */
  lemma DragOnNativeScale(c: Config, d: Drag, clientX: int, clientY: int, width: int, height: int)
    requires width > 0 && height > 0
    requires 0 <= d.startLeft + (clientX - d.startX) <= width
    requires 0 <= d.startTop + (clientY - d.startY) <= height
    ensures DragMove(c, d, clientX, clientY, width, height, width, height)[d.id]
            == Coord(d.startLeft + (clientX - d.startX), d.startTop + (clientY - d.startY))
  {
    var r := DragMove(c, d, clientX, clientY, width, height, width, height);
    RoundDivExact(d.startLeft + (clientX - d.startX), width, r[d.id].x);
    RoundDivExact(d.startTop + (clientY - d.startY), height, r[d.id].y);
  }

  /** The nearest-integer bounds pin down an exact quotient. */
  lemma RoundDivExact(v: int, size: int, x: int)
    requires size > 0
    requires 2 * size * x - size <= 2 * v * size < 2 * size * x + size
    ensures x == v
  {
    var m := 2 * size;
    assert x * m < (v + 1) * m;
    MulCancel(x, v + 1, m);
    assert v * m < (x + 1) * m;
    MulCancel(v, x + 1, m);
  }
}
