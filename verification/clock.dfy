/** Local wall-clock moments with a fixed UTC offset, the local-day window
    sent to the calendar service, and the coarse time-of-day label. */
module Clock {
  import opened Wrappers

  const MICROS_PER_SECOND: int := 1_000_000
  const MICROS_PER_MINUTE: int := 60_000_000
  const MICROS_PER_HOUR: int := 3_600_000_000
  const MICROS_PER_DAY: int := 86_400_000_000

  /** Days from 0001-01-01 to 9999-12-31 inclusive: the range of a Python
      `datetime`. */
  const DAYS_IN_RANGE: int := 3_652_059
  const WALL_LIMIT: int := DAYS_IN_RANGE * MICROS_PER_DAY

  /** Microseconds since 0001-01-01T00:00:00 on some clock. */
  type Wall = w: int | 0 <= w < WALL_LIMIT

  /** A UTC offset in microseconds; Python requires it strictly inside a day. */
  type Offset = o: int | -MICROS_PER_DAY < o < MICROS_PER_DAY

  type Hour = h: int | 0 <= h < 24

  /** A timezone-aware `datetime`: local wall time and the offset captured when
      the clock was read. */
  datatype LocalMoment = LocalMoment(wall: Wall, offset: Offset)

  /** The broken-down fields of a wall time. */
  datatype Fields = Fields(day: int, hour: int, minute: int, second: int, micro: int)

  /** A pair of UTC instants, in microseconds since 0001-01-01T00:00:00Z. */
  datatype Window = Window(start: int, end: int)

  function DayOf(w: int): int {
    w / MICROS_PER_DAY
  }

  function FieldsOf(w: Wall): Fields {
    var t := w % MICROS_PER_DAY;
    Fields(w / MICROS_PER_DAY, t / MICROS_PER_HOUR, (t % MICROS_PER_HOUR) / MICROS_PER_MINUTE,
           (t % MICROS_PER_MINUTE) / MICROS_PER_SECOND, t % MICROS_PER_SECOND)
  }

  function HourOf(m: LocalMoment): Hour {
    FieldsOf(m.wall).hour
  }

  /** `datetime.replace(hour=.., minute=.., second=.., microsecond=..)`: the
      same date and offset with the given time of day. */
  function Replace(m: LocalMoment, hour: int, minute: int, second: int, micro: int): (r: LocalMoment)
    requires 0 <= hour < 24 && 0 <= minute < 60 && 0 <= second < 60 && 0 <= micro < 1_000_000
    ensures FieldsOf(r.wall) == Fields(FieldsOf(m.wall).day, hour, minute, second, micro)
    ensures r.offset == m.offset
  {
    var t := hour * MICROS_PER_HOUR + minute * MICROS_PER_MINUTE + second * MICROS_PER_SECOND + micro;
    var d := DayOf(m.wall);
    TimeOfDayFields(hour, minute, second, micro);
    DayAndTime(d, t);
    LocalMoment(d * MICROS_PER_DAY + t, m.offset)
  }

  lemma DayAndTime(d: int, t: int)
    requires 0 <= d < DAYS_IN_RANGE && 0 <= t < MICROS_PER_DAY
    ensures 0 <= d * MICROS_PER_DAY + t < WALL_LIMIT
    ensures (d * MICROS_PER_DAY + t) / MICROS_PER_DAY == d
    ensures (d * MICROS_PER_DAY + t) % MICROS_PER_DAY == t
  {
  }

  lemma TimeOfDayFields(hour: int, minute: int, second: int, micro: int)
    requires 0 <= hour < 24 && 0 <= minute < 60 && 0 <= second < 60 && 0 <= micro < 1_000_000
    ensures var t := hour * MICROS_PER_HOUR + minute * MICROS_PER_MINUTE + second * MICROS_PER_SECOND + micro;
      && 0 <= t < MICROS_PER_DAY
      && t / MICROS_PER_HOUR == hour
      && (t % MICROS_PER_HOUR) / MICROS_PER_MINUTE == minute
      && (t % MICROS_PER_MINUTE) / MICROS_PER_SECOND == second
      && t % MICROS_PER_SECOND == micro
  {
  }

  /** `astimezone(timezone.utc)`: the UTC instant, or `None` when Python raises
      `OverflowError` because the instant lies outside the `datetime` range. */
  function ToUtc(m: LocalMoment): (r: Option<int>)
    ensures r.Some? <==> 0 <= m.wall - m.offset < WALL_LIMIT
    ensures r.Some? ==> r.value + m.offset == m.wall
  {
    var u := m.wall - m.offset;
    if 0 <= u < WALL_LIMIT then Some(u) else None
  }

  /** The local calendar day of UTC instant `u` seen from offset `o`. */
  predicate SameLocalDay(u: int, m: LocalMoment) {
    DayOf(u + m.offset) == DayOf(m.wall)
  }

  predicate InWindow(w: Window, u: int) {
    w.start <= u <= w.end
  }

  /** Local midnight and local 23:59:59.999999 of the moment's date, each
      converted to UTC with the captured offset. `None` when either conversion
      overflows. */
  function DayWindow(m: LocalMoment): (r: Option<Window>)
    ensures r.Some? ==> r.value.start <= r.value.end
    ensures r.Some? ==> r.value.end - r.value.start == MICROS_PER_DAY - 1
    ensures r.Some? ==> forall u :: InWindow(r.value, u) <==> SameLocalDay(u, m)
    ensures r.None? <==> !(0 <= DayOf(m.wall) * MICROS_PER_DAY - m.offset
                           && DayOf(m.wall) * MICROS_PER_DAY + MICROS_PER_DAY - 1 - m.offset < WALL_LIMIT)
  {
    var startLocal := Replace(m, 0, 0, 0, 0);
    var endLocal := Replace(m, 23, 59, 59, 999_999);
    assert startLocal.wall == DayOf(m.wall) * MICROS_PER_DAY;
    assert endLocal.wall == DayOf(m.wall) * MICROS_PER_DAY + MICROS_PER_DAY - 1;
    match (ToUtc(startLocal), ToUtc(endLocal))
    case (Some(s), Some(e)) => Some(Window(s, e))
    case _ => None
  }

  /** The two ends of the window are local midnight and the last microsecond
      of the same local day. */
  lemma DayWindowEnds(m: LocalMoment)
    requires DayWindow(m).Some?
    ensures var w := DayWindow(m).value;
      && 0 <= w.start + m.offset < WALL_LIMIT && 0 <= w.end + m.offset < WALL_LIMIT
      && FieldsOf(w.start + m.offset) == Fields(FieldsOf(m.wall).day, 0, 0, 0, 0)
      && FieldsOf(w.end + m.offset) == Fields(FieldsOf(m.wall).day, 23, 59, 59, 999_999)
  {
    var s := Replace(m, 0, 0, 0, 0);
    var e := Replace(m, 23, 59, 59, 999_999);
    assert ToUtc(s) == Some(s.wall - m.offset);
    assert ToUtc(e) == Some(e.wall - m.offset);
  }

  /** Coarse time of day, from fixed inclusive hour bands. */
  datatype Label = Morning | Afternoon | Evening | Night {

    /** The word the prompt uses for the label. */
    function Name(): string {
      match this
      case Morning => "Morning"
      case Afternoon => "Afternoon"
      case Evening => "Evening"
      case Night => "Night"
    }
  }

  function TimeOfDay(hour: Hour): (l: Label)
    ensures l == Morning <==> 5 <= hour <= 11
    ensures l == Afternoon <==> 12 <= hour <= 16
    ensures l == Evening <==> 17 <= hour <= 20
    ensures l == Night <==> hour <= 4 || hour >= 21
  {
    if 5 <= hour <= 11 then Morning
    else if 12 <= hour <= 16 then Afternoon
    else if 17 <= hour <= 20 then Evening
    else Night
  }
}
