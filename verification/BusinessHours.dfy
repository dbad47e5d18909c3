/** The daily upload window, 18:00-24:00 in Shanghai (steam_pumper/fleet.py). */
module BusinessHours {
  import opened Time

  const WINDOW_START: int := 18 * HOUR
  const WINDOW_LENGTH: int := 6 * HOUR

  predicate InWindow(t: int) {
    LocalHour(t) >= 18
  }

  /** The reference: how many instants of [start, end) lie in the window, counted one by one. */
  ghost function WindowInstants(start: int, end: int): nat
    decreases end - start
  {
    if end <= start then 0
    else WindowInstants(start, end - 1) + if InWindow(end - 1) then 1 else 0
  }

  /** Window time elapsed before local instant `local`, counted from local day zero. */
  function WindowBefore(local: int): int {
    local / DAY * WINDOW_LENGTH + Max(0, local % DAY - WINDOW_START)
  }

  function BusinessMicros(start: int, end: int): int {
    if end <= start then 0 else WindowBefore(end + SHANGHAI) - WindowBefore(start + SHANGHAI)
  }

  /** The same reading of the clock by date and time of day; midnight may be read either way. */
  lemma WindowBeforeOn(date: int, timeOfDay: int)
    requires 0 <= timeOfDay <= DAY
    ensures WindowBefore(date * DAY + timeOfDay) == date * WINDOW_LENGTH + Max(0, timeOfDay - WINDOW_START)
  {
    var local := date * DAY + timeOfDay;
    if timeOfDay == DAY {
      assert local / DAY == date + 1 && local % DAY == 0;
    } else {
      assert local / DAY == date && local % DAY == timeOfDay;
    }
  }

  /** The day-by-day loop of the program: one window is intersected per local date. */
  method BusinessSeconds(start: int, end: int) returns (total: int)
    ensures total == BusinessMicros(start, end)
  {
    if end <= start {
      return 0;
    }
    var cursor, finish := start + SHANGHAI, end + SHANGHAI;
    total := 0;
    while cursor / DAY <= finish / DAY
      invariant cursor % DAY == 0 || cursor <= finish
      invariant cursor / DAY <= finish / DAY + 1
      invariant total == WindowBefore(Min(cursor, finish)) - WindowBefore(start + SHANGHAI)
      decreases finish / DAY - cursor / DAY
    {
      var date := cursor / DAY;
      var windowStart := date * DAY + WINDOW_START;
      var windowEnd := windowStart + WINDOW_LENGTH;
      var left, right := Max(cursor, windowStart), Min(finish, windowEnd);
      DayCovered(date, cursor, finish);
      if right > left {
        total := total + (right - left);
      }
      cursor := (date + 1) * DAY;
    }
    assert finish < cursor;
  }

  /** What one pass of the loop adds: the overlap of the window with [cursor, finish) on this date. */
  lemma DayCovered(date: int, cursor: int, finish: int)
    requires date == cursor / DAY && date <= finish / DAY
    requires cursor % DAY == 0 || cursor <= finish
    ensures cursor <= finish
    ensures (date + 1) * DAY / DAY == date + 1 && (date + 1) * DAY % DAY == 0
    ensures var windowStart := date * DAY + WINDOW_START;
            WindowBefore(Min((date + 1) * DAY, finish)) - WindowBefore(cursor)
            == Max(0, Min(finish, windowStart + WINDOW_LENGTH) - Max(cursor, windowStart))
  {
    var from := cursor - date * DAY;
    var to := Min(DAY, finish - date * DAY);
    assert from == cursor % DAY;
    assert finish >= date * DAY;
    WindowBeforeOn(date, from);
    WindowBeforeOn(date, to);
    assert Min((date + 1) * DAY, finish) == date * DAY + to;
  }

  lemma {:induction false} CountsWindowInstants(start: int, end: int)
    ensures BusinessMicros(start, end) == WindowInstants(start, end)
    decreases end - start
  {
    if start < end {
      CountsWindowInstants(start, end - 1);
      var last := end - 1 + SHANGHAI;
      var date, timeOfDay := last / DAY, last % DAY;
      WindowBeforeOn(date, timeOfDay);
      WindowBeforeOn(date, timeOfDay + 1);
      assert InWindow(end - 1) <==> timeOfDay >= WINDOW_START;
    }
  }

  lemma Additive(start: int, middle: int, end: int)
    requires start <= middle <= end
    ensures BusinessMicros(start, end) == BusinessMicros(start, middle) + BusinessMicros(middle, end)
  {}

  lemma {:induction false} WithinInterval(start: int, end: int)
    requires start <= end
    ensures 0 <= BusinessMicros(start, end) <= end - start
    decreases end - start
  {
    CountsWindowInstants(start, end);
    if start < end {
      WithinInterval(start, end - 1);
      CountsWindowInstants(start, end - 1);
    }
  }

  lemma Monotone(start: int, end: int, later: int)
    requires start <= end <= later
    ensures BusinessMicros(start, end) <= BusinessMicros(start, later)
  {
    Additive(start, end, later);
    WithinInterval(end, later);
  }

  lemma {:induction false} SixHoursADay(start: int, days: nat)
    ensures BusinessMicros(start, start + days * DAY) == days * WINDOW_LENGTH
  {
    var local := start + SHANGHAI;
    var date, timeOfDay := local / DAY, local % DAY;
    WindowBeforeOn(date, timeOfDay);
    WindowBeforeOn(date + days, timeOfDay);
    assert local + days * DAY == (date + days) * DAY + timeOfDay;
  }
}
