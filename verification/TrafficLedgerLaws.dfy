/** What the ledger guarantees over every run of polls of one account. */
module TrafficLedgerLaws {
  import opened Time
  import opened Wrappers
  import opened TrafficRows
  import opened TrafficLedger
  import BusinessHours

  // ---- reading a run of events

  /** The instant of the last poll. */
  function LastPoll(events: seq<Event>): Option<int> {
    if events == [] then None
    else
      var last := events[|events| - 1];
      if last.Polled? then Some(last.now) else LastPoll(events[..|events| - 1])
  }

  function FirstPoll(events: seq<Event>): Option<int> {
    if events == [] then None
    else
      var earlier := FirstPoll(events[..|events| - 1]);
      if earlier.Some? then earlier else LastPoll(events)
  }

  datatype Reading = Reading(item: Interface, now: int, uptime: Option<int>)

  /** The last poll that saw exactly one live interface. */
  function LastReading(events: seq<Event>): Option<Reading> {
    if events == [] then None
    else
      var last := events[|events| - 1];
      if last.Polled? && Observed(last.matches).Some? then Some(ReadingOf(last))
      else LastReading(events[..|events| - 1])
  }

  function FirstReading(events: seq<Event>): Option<Reading> {
    if events == [] then None
    else
      var earlier := FirstReading(events[..|events| - 1]);
      if earlier.Some? then earlier else LastReading(events)
  }

  /** Poll times never go back. */
  predicate Ordered(events: seq<Event>) {
    events == [] ||
    var before, last := events[..|events| - 1], events[|events| - 1];
    && Ordered(before)
    && (last.Polled? ==> last.now >= 0 && (LastPoll(before).Some? ==> LastPoll(before).value <= last.now))
  }

  /** Nothing of the account is old enough to be pruned. */
  predicate Unpruned(cfg: Config, events: seq<Event>) {
    events == [] ||
    var before, last := events[..|events| - 1], events[|events| - 1];
    && Unpruned(cfg, before)
    && (last.Polled? ==> PruneMinute(cfg, last.now) <= MinuteOf(FirstPoll(events).value))
  }

  /** The counters of two readings are of one uninterrupted count, and both increments
      are possible at line speed since the second in which the first was taken. */
  predicate Continuous(cfg: Config, from: Reading, to: Reading) {
    var elapsed := to.now - WholeSecond(from.now) * SECOND;
    && from.item.index == to.item.index
    && !Differ(from.item.discontinuity, to.item.discontinuity)
    && !Fell(from.uptime, to.uptime)
    && 0 <= UploadBetween(cfg, from, to) <= Ceiling(cfg.uploadCeilingMbps, elapsed)
    && 0 <= DownloadBetween(cfg, from, to) <= Ceiling(cfg.downloadCeilingMbps, elapsed)
  }

  function UploadBetween(cfg: Config, from: Reading, to: Reading): int {
    if cfg.directionSwap then to.item.inOctets - from.item.inOctets else to.item.outOctets - from.item.outOctets
  }

  function DownloadBetween(cfg: Config, from: Reading, to: Reading): int {
    if cfg.directionSwap then to.item.outOctets - from.item.outOctets else to.item.inOctets - from.item.inOctets
  }

  /** A poll later than the one before, whose reading, if it has one, continues the last. */
  predicate SteadyStep(cfg: Config, before: seq<Event>, event: Event) {
    event.Polled? ==>
      && event.now >= SECOND
      && (LastPoll(before).Some? ==> LastPoll(before).value < event.now)
      && (Observed(event.matches).Some? && LastReading(before).Some? ==>
            Continuous(cfg, LastReading(before).value, ReadingOf(event)))
  }

  function ReadingOf(event: Event): Reading
    requires event.Polled? && Observed(event.matches).Some?
  {
    Reading(Observed(event.matches).value, event.now, event.uptime)
  }

  /** Strictly increasing polls whose successive readings are continuous, whatever lies between. */
  predicate Steady(cfg: Config, events: seq<Event>) {
    events == [] ||
    var before, last := events[..|events| - 1], events[|events| - 1];
    Steady(cfg, before) && SteadyStep(cfg, before, last)
  }

  /** A spell of such polls after a run of any kind. */
  predicate SteadySince(cfg: Config, before: seq<Event>, spell: seq<Event>)
    decreases |spell|
  {
    spell == [] ||
    var front, last := spell[..|spell| - 1], spell[|spell| - 1];
    SteadySince(cfg, before, front) && SteadyStep(cfg, before + front, last)
  }

  lemma {:induction false} PollsExist(events: seq<Event>)
    ensures LastPoll(events).Some? <==> FirstPoll(events).Some?
    ensures LastReading(events).Some? <==> FirstReading(events).Some?
    ensures LastReading(events).Some? ==> LastPoll(events).Some?
  {
    if events != [] {
      PollsExist(events[..|events| - 1]);
    }
  }

  lemma {:induction false} SteadyIsOrdered(cfg: Config, events: seq<Event>)
    requires Steady(cfg, events)
    ensures Ordered(events)
  {
    if events != [] {
      SteadyIsOrdered(cfg, events[..|events| - 1]);
    }
  }

  // ---- what every run keeps

  /** The minutes the polls of a run span. */
  function FirstMinute(events: seq<Event>): int {
    if FirstPoll(events).Some? then MinuteOf(FirstPoll(events).value) else 0
  }

  function EndMinute(events: seq<Event>): int {
    if LastPoll(events).Some? then MinuteOf(LastPoll(events).value) + 1 else 0
  }

  /** How the cursor mirrors the polls so far. */
  predicate Mirrors(cursor: Option<Cursor>, events: seq<Event>) {
    && (cursor.Some? <==> LastPoll(events).Some?)
    && (LastReading(events).Some? || FirstPoll(events).Some? ==> LastPoll(events).Some?)
    && (cursor.Some? ==>
         var c := cursor.value;
         && FirstPoll(events).Some?
         && c.sampledAt == WholeSecond(LastPoll(events).value)
         && 0 <= FirstPoll(events).value <= LastPoll(events).value
         && match LastReading(events)
            case None => c.ifIndex.None? && c.baselineAt.None?
            case Some(r) =>
              && c.ifIndex == Some(r.item.index) && c.inOctets == Some(r.item.inOctets)
              && c.outOctets == Some(r.item.outOctets)
              && c.discontinuity == r.item.discontinuity && c.uptime == r.uptime
              && c.baselineAt == Some(WholeSecond(r.now))
              && FirstPoll(events).value <= r.now <= LastPoll(events).value)
  }

  ghost predicate Contained(rows: Rows, low: int, high: int) {
    Sound(rows) && Quiet(rows, low, high)
  }

  lemma SecondOf(t: int)
    requires t >= 0
    ensures 0 <= WholeSecond(t) * SECOND <= t < WholeSecond(t) * SECOND + SECOND
    ensures MinuteOf(WholeSecond(t) * SECOND) == MinuteOf(t)
  {}

  /** Booking between two instants of the run keeps the rows within its span. */
  lemma BookWithin(rows: Rows, start: int, now: int, values: Amounts, quality: Quality, low: int, high: int)
    requires Sound(rows) && Quiet(rows, low, high) && low <= MinuteOf(start) && MinuteOf(now) < high
    ensures Sound(AddInterval(rows, start, now, values, quality))
    ensures Quiet(AddInterval(rows, start, now, values, quality), low, high)
  {
    AddIntervalKeys(rows, start, now, values, quality);
    assert start < now ==> MinuteOf(now - 1) <= MinuteOf(now);
    AddIntervalQuiet(rows, start, now, values, quality, low, high);
  }

  lemma DropKeepsSound(rows: Rows, minute: int, low: int, high: int)
    requires Sound(rows) && Quiet(rows, low, high)
    ensures Sound(DropBefore(rows, minute)) && Quiet(DropBefore(rows, minute), low, high)
  {
    var after := DropBefore(rows, minute);
    forall m | !(low <= m < high) ensures RowAt(after, m).sums == ZERO {
      assert RowAt(rows, m).sums == ZERO;
    }
  }

  /** When a poll counts increments. */
  predicate Counts(c: Cursor, matches: seq<Interface>, uptime: Option<int>) {
    Observed(matches).Some? && !Fell(c.uptime, uptime) && !CounterReset(c, Observed(matches).value)
  }

  /** What a poll after the first books, from where, and on what rows. */
  datatype Booking = Booking(rows: Rows, start: int, amounts: Amounts, quality: Quality)

  function BookingOf(cfg: Config, rows: Rows, c: Cursor, matches: seq<Interface>, now: int,
                     uptime: Option<int>): Booking {
    if Observed(matches).None? then
      var since := c.sampledAt * SECOND;
      Booking(rows, since, PendingGapAmounts(since, now), PendingGap)
    else
      var start := BaselineSecond(c) * SECOND;
      var cleared := ClearUnknown(rows, MinuteOf(start), MinuteOf(now));
      if Counts(c, matches, uptime) then
        var item := Observed(matches).value;
        Booking(cleared, start, CountedAmounts(cfg, cleared, c, item, start, now),
                CountedQuality(cfg, c, item, Max(0, now - start)))
      else Booking(cleared, start, EstimatedGap(cleared, start, now), Quality.Reset)
  }

  function PolledRows(cfg: Config, ledger: Ledger, matches: seq<Interface>, now: int, uptime: Option<int>): Rows {
    Poll(cfg, ledger, matches, now, uptime).0.rows
  }

  lemma MissingBooks(cfg: Config, ledger: Ledger, matches: seq<Interface>, now: int, uptime: Option<int>)
    requires ledger.cursor.Some? && Observed(matches).None?
    ensures var b := BookingOf(cfg, ledger.rows, ledger.cursor.value, matches, now, uptime);
            PolledRows(cfg, ledger, matches, now, uptime) == AddInterval(b.rows, b.start, now, b.amounts, b.quality)
  {
  }

  lemma ResetBooks(cfg: Config, ledger: Ledger, matches: seq<Interface>, now: int, uptime: Option<int>)
    requires ledger.cursor.Some? && Observed(matches).Some? && !Counts(ledger.cursor.value, matches, uptime)
    ensures var b := BookingOf(cfg, ledger.rows, ledger.cursor.value, matches, now, uptime);
            PolledRows(cfg, ledger, matches, now, uptime) == AddInterval(b.rows, b.start, now, b.amounts, b.quality)
  {
  }

  lemma CountedBooks(cfg: Config, ledger: Ledger, matches: seq<Interface>, now: int, uptime: Option<int>)
    requires ledger.cursor.Some? && Counts(ledger.cursor.value, matches, uptime)
    ensures var b := BookingOf(cfg, ledger.rows, ledger.cursor.value, matches, now, uptime);
            PolledRows(cfg, ledger, matches, now, uptime) == AddInterval(b.rows, b.start, now, b.amounts, b.quality)
  {
  }

  lemma PollBooks(cfg: Config, ledger: Ledger, matches: seq<Interface>, now: int, uptime: Option<int>)
    requires ledger.cursor.Some?
    ensures var b := BookingOf(cfg, ledger.rows, ledger.cursor.value, matches, now, uptime);
            PolledRows(cfg, ledger, matches, now, uptime) == AddInterval(b.rows, b.start, now, b.amounts, b.quality)
  {
    if Observed(matches).None? {
      MissingBooks(cfg, ledger, matches, now, uptime);
    } else if Counts(ledger.cursor.value, matches, uptime) {
      CountedBooks(cfg, ledger, matches, now, uptime);
    } else {
      ResetBooks(cfg, ledger, matches, now, uptime);
    }
  }

  /** A poll books nothing outside the span of minutes that holds its cursor and itself. */
  lemma PollWithin(cfg: Config, ledger: Ledger, matches: seq<Interface>, now: int, uptime: Option<int>, low: int,
                   high: int)
    requires Contained(ledger.rows, low, high)
    requires ledger.cursor.Some? ==>
               && low <= MinuteOf(ledger.cursor.value.sampledAt * SECOND)
               && low <= MinuteOf(BaselineSecond(ledger.cursor.value) * SECOND)
               && MinuteOf(now) < high
    ensures Contained(PolledRows(cfg, ledger, matches, now, uptime), low, high)
  {
    if ledger.cursor.Some? {
      var c := ledger.cursor.value;
      var b := BookingOf(cfg, ledger.rows, c, matches, now, uptime);
      PollBooks(cfg, ledger, matches, now, uptime);
      ClearKeepsSound(ledger.rows, MinuteOf(BaselineSecond(c) * SECOND), MinuteOf(now), low, high);
      BookWithin(b.rows, b.start, now, b.amounts, b.quality, low, high);
    }
  }

  lemma PolledCursor(cfg: Config, ledger: Ledger, matches: seq<Interface>, now: int, uptime: Option<int>)
    ensures Poll(cfg, ledger, matches, now, uptime).0.cursor
         == Some(if Observed(matches).Some? then SavedCursor(Observed(matches).value, now, true, uptime)
                 else MissingCursor(ledger.cursor, now))
  {
  }

  lemma MirrorsStep(cfg: Config, ledger: Ledger, before: seq<Event>, event: Event)
    requires Ordered(before + [event]) && Mirrors(ledger.cursor, before)
    ensures Mirrors(Apply(cfg, ledger, event).cursor, before + [event])
  {
    assert (before + [event])[..|before|] == before;
    PollsExist(before);
    if event.Polled? {
      PolledCursor(cfg, ledger, event.matches, event.now, event.uptime);
    }
  }

  lemma {:induction false} CursorMirrors(cfg: Config, events: seq<Event>)
    requires Ordered(events)
    ensures Mirrors(Run(cfg, NEW_LEDGER, events).cursor, events)
  {
    if events != [] {
      var before, last := events[..|events| - 1], events[|events| - 1];
      assert before + [last] == events;
      CursorMirrors(cfg, before);
      MirrorsStep(cfg, Run(cfg, NEW_LEDGER, before), before, last);
    }
  }

  /** The facts of the cursor that bound where the next poll books. */
  lemma CursorInSpan(cursor: Option<Cursor>, events: seq<Event>)
    requires Mirrors(cursor, events) && cursor.Some?
    ensures FirstMinute(events) <= MinuteOf(BaselineSecond(cursor.value) * SECOND)
    ensures MinuteOf(BaselineSecond(cursor.value) * SECOND) <= MinuteOf(cursor.value.sampledAt * SECOND)
    ensures MinuteOf(cursor.value.sampledAt * SECOND) == EndMinute(events) - 1
  {
    SecondOf(LastPoll(events).value);
    if LastReading(events).Some? {
      SecondOf(LastReading(events).value.now);
    }
  }

  lemma ApplyContained(cfg: Config, ledger: Ledger, event: Event, low: int, high: int)
    requires Contained(ledger.rows, low, high)
    requires event.Polled? && ledger.cursor.Some? ==>
               && low <= MinuteOf(ledger.cursor.value.sampledAt * SECOND)
               && low <= MinuteOf(BaselineSecond(ledger.cursor.value) * SECOND)
               && MinuteOf(event.now) < high
    ensures Contained(Apply(cfg, ledger, event).rows, low, high)
  {
    match event
    case Polled(now, matches, uptime) =>
      PollWithin(cfg, ledger, matches, now, uptime, low, high);
      DropKeepsSound(PolledRows(cfg, ledger, matches, now, uptime), PruneMinute(cfg, now), low, high);
    case Downloaded(amount, at) =>
      if amount > 0 {
        DownloadContained(ledger.rows, MinuteOf(at), amount, low, high);
      }
  }

  lemma DownloadContained(rows: Rows, minute: int, amount: nat, low: int, high: int)
    requires Contained(rows, low, high)
    ensures Contained(AddDownload(rows, minute, amount), low, high)
  {
    var after := AddDownload(rows, minute, amount);
    assert ZERO.NonNegative();
    forall m | !(low <= m < high) ensures RowAt(after, m).sums == ZERO {
      assert RowAt(rows, m).sums == ZERO;
    }
  }

  lemma {:induction false} DownloadKeepsTotals(rows: Rows, minute: int, amount: nat, column: Column, low: int,
                                               high: int)
    ensures Total(AddDownload(rows, minute, amount), column, low, high) == Total(rows, column, low, high)
    decreases high - low
  {
    if low < high {
      DownloadKeepsTotals(rows, minute, amount, column, low, high - 1);
    }
  }

  lemma SpanGrows(before: seq<Event>, event: Event)
    requires Ordered(before + [event])
    ensures var events := before + [event];
            LastPoll(before).Some? && FirstPoll(before).Some? ==>
              FirstMinute(events) == FirstMinute(before) && EndMinute(before) <= EndMinute(events)
    ensures event.Polled? ==> EndMinute(before + [event]) == MinuteOf(event.now) + 1
    ensures event.Downloaded?
            ==> EndMinute(before + [event]) == EndMinute(before) && FirstMinute(before + [event]) == FirstMinute(before)
  {
    var events := before + [event];
    assert events[..|events| - 1] == before;
    PollsExist(before);
  }

  lemma {:induction false} RowsContained(cfg: Config, events: seq<Event>)
    requires Ordered(events)
    ensures Contained(Run(cfg, NEW_LEDGER, events).rows, FirstMinute(events), EndMinute(events))
  {
    if events != [] {
      var before, last := events[..|events| - 1], events[|events| - 1];
      assert events == before + [last];
      RowsContained(cfg, before);
      CursorMirrors(cfg, before);
      SpanGrows(before, last);
      var ledger := Run(cfg, NEW_LEDGER, before);
      if ledger.cursor.Some? {
        CursorInSpan(ledger.cursor, before);
      }
      WidenContained(ledger.rows, before, last);
      ApplyContained(cfg, ledger, last, FirstMinute(events), EndMinute(events));
    }
  }

  lemma WidenContained(rows: Rows, before: seq<Event>, event: Event)
    requires Ordered(before + [event]) && Contained(rows, FirstMinute(before), EndMinute(before))
    ensures Contained(rows, FirstMinute(before + [event]), EndMinute(before + [event]))
  {
    SpanGrows(before, event);
    PollsExist(before);
    var low, high := FirstMinute(before + [event]), EndMinute(before + [event]);
    forall m | !(low <= m < high) ensures RowAt(rows, m).sums == ZERO {
      assert !(FirstMinute(before) <= m < EndMinute(before));
    }
  }

  // ---- measured traffic telescopes

  function MeasuredBetween(cfg: Config, from: Reading, to: Reading, column: Column): int {
    if column == MeasuredUpload then UploadBetween(cfg, from, to) else DownloadBetween(cfg, from, to)
  }

  predicate Measured(column: Column) {
    column == MeasuredUpload || column == MeasuredDownload
  }

  /** An increment that cannot be right for the elapsed time is not counted. */
  function CountedMeasure(cfg: Config, c: Cursor, item: Interface, elapsed: int, column: Column): int
    requires c.inOctets.Some? && c.outOctets.Some?
  {
    if column == MeasuredUpload
    then if UploadValid(cfg, c, item, elapsed) then UploadOf(cfg, c, item) else 0
    else if DownloadValid(cfg, c, item, elapsed) then DownloadOf(cfg, c, item) else 0
  }

  /** What one event adds to a measured column: the increment of a poll that counts, if any time has
      passed since its baseline. */
  function Counted(cfg: Config, cursor: Option<Cursor>, event: Event, column: Column): int {
    if event.Polled? && cursor.Some? && Counts(cursor.value, event.matches, event.uptime)
       && BaselineSecond(cursor.value) * SECOND < event.now
    then
      var elapsed := event.now - BaselineSecond(cursor.value) * SECOND;
      CountedMeasure(cfg, cursor.value, Observed(event.matches).value, elapsed, column)
    else 0
  }

  /** The measured traffic of a run, poll by poll, each on the cursor of the events so far. */
  function CountedTotal(cfg: Config, events: seq<Event>, column: Column): int {
    if events == [] then 0
    else
      var before, last := events[..|events| - 1], events[|events| - 1];
      CountedTotal(cfg, before, column) + Counted(cfg, Run(cfg, NEW_LEDGER, before).cursor, last, column)
  }

  /** An estimate is never negative and extends the measured rate over the gap but at most half an
      hour; upload is estimated for the evening part of that time alone. */
  lemma EstimateIsModest(rows: Rows, start: int, end: int, column: Column)
    requires Sound(rows) && Estimate(rows, start, end, column).Some?
    ensures var (estimate, (bytes, seconds)) := (Estimate(rows, start, end, column).value,
                                                 RecentBytesAndSeconds(rows, start, column, 30 * MINUTE));
            && estimate >= 0 && seconds > 0
            && estimate * (seconds * SECOND) <= bytes * Min(Max(0, end - start), 30 * MINUTE)
            && (column == MeasuredUpload ==>
                  var cappedEnd := Min(end, start + 30 * MINUTE);
                  estimate * (seconds * SECOND) <= bytes * BusinessHours.BusinessMicros(start, cappedEnd))
  {
    var (bytes, seconds) := RecentBytesAndSeconds(rows, start, column, 30 * MINUTE);
    TotalNonNegative(rows, column, MinuteOf(start - 30 * MINUTE), MinuteOf(start) + 1);
    var cappedEnd := Min(end, start + 30 * MINUTE);
    var longest := Min(Max(0, end - start), 30 * MINUTE);
    if start <= cappedEnd {
      BusinessHours.WithinInterval(start, cappedEnd);
    }
    RateTimesTime(bytes, longest, longest, seconds * SECOND);
    RateTimesTime(bytes, BusinessHours.BusinessMicros(start, cappedEnd), longest, seconds * SECOND);
  }

  lemma RateTimesTime(bytes: int, time: int, longest: int, per: int)
    requires bytes >= 0 && 0 <= time <= longest && per > 0
    ensures 0 <= bytes * time / per
    ensures bytes * time / per * per <= bytes * time <= bytes * longest
  {
    assert 0 <= bytes * time;
    assert 0 <= bytes * (longest - time);
  }

  lemma BookedMeasure(cfg: Config, rows: Rows, c: Cursor, matches: seq<Interface>, now: int, uptime: Option<int>,
                      column: Column)
    requires Measured(column)
    ensures var amount := BookingOf(cfg, rows, c, matches, now, uptime).amounts.Get(column);
            && amount >= 0
            && amount == if Counts(c, matches, uptime)
                         then CountedMeasure(cfg, c, Observed(matches).value,
                                             Max(0, now - BaselineSecond(c) * SECOND), column)
                         else 0
  {
  }

  lemma BookedOnMeasured(cfg: Config, rows: Rows, c: Cursor, matches: seq<Interface>, now: int, uptime: Option<int>,
                         column: Column, low: int, high: int)
    requires Measured(column)
    ensures Total(BookingOf(cfg, rows, c, matches, now, uptime).rows, column, low, high)
            == Total(rows, column, low, high)
  {
    ClearTotal(rows, MinuteOf(BaselineSecond(c) * SECOND), MinuteOf(now), column, low, high);
  }

  /** One poll adds to a measured column what it counts, whatever kind of poll it is. */
  lemma PollAddsMeasured(cfg: Config, ledger: Ledger, event: Event, column: Column, low: int, high: int)
    requires Measured(column) && event.Polled? && ledger.cursor.Some?
    requires var start := BaselineSecond(ledger.cursor.value) * SECOND;
             && start <= event.now && low <= MinuteOf(start) && low <= MinuteOf(ledger.cursor.value.sampledAt * SECOND)
             && MinuteOf(event.now) < high
    ensures Total(PolledRows(cfg, ledger, event.matches, event.now, event.uptime), column, low, high)
         == Total(ledger.rows, column, low, high) + Counted(cfg, ledger.cursor, event, column)
  {
    var Polled(now, matches, uptime) := event;
    var c := ledger.cursor.value;
    var b := BookingOf(cfg, ledger.rows, c, matches, now, uptime);
    PollBooks(cfg, ledger, matches, now, uptime);
    BookedMeasure(cfg, ledger.rows, c, matches, now, uptime, column);
    BookedOnMeasured(cfg, ledger.rows, c, matches, now, uptime, column, low, high);
    AddIntervalTotal(b.rows, b.start, now, b.amounts, b.quality, column, low, high);
  }

  /** The cursor's baseline is never after the poll that follows. */
  lemma CursorBeforePoll(cursor: Option<Cursor>, before: seq<Event>, event: Event)
    requires Ordered(before + [event]) && Mirrors(cursor, before) && event.Polled? && cursor.Some?
    ensures BaselineSecond(cursor.value) * SECOND <= event.now
    ensures FirstMinute(before + [event]) <= MinuteOf(BaselineSecond(cursor.value) * SECOND)
    ensures FirstMinute(before + [event]) <= MinuteOf(cursor.value.sampledAt * SECOND)
    ensures EndMinute(before + [event]) == MinuteOf(event.now) + 1
  {
    assert (before + [event])[..|before|] == before;
    SpanGrows(before, event);
    CursorInSpan(cursor, before);
    SecondOf(LastPoll(before).value);
    if LastReading(before).Some? {
      SecondOf(LastReading(before).value.now);
    }
  }

  lemma ApplyMeasures(cfg: Config, ledger: Ledger, before: seq<Event>, event: Event, column: Column)
    requires Measured(column) && Ordered(before + [event]) && Unpruned(cfg, before + [event])
    requires Mirrors(ledger.cursor, before) && Contained(ledger.rows, FirstMinute(before), EndMinute(before))
    ensures var low, high := FirstMinute(before + [event]), EndMinute(before + [event]);
            Total(Apply(cfg, ledger, event).rows, column, low, high)
            == Total(ledger.rows, column, low, high) + Counted(cfg, ledger.cursor, event, column)
  {
    var low, high := FirstMinute(before + [event]), EndMinute(before + [event]);
    match event
    case Downloaded(amount, at) =>
      if amount > 0 {
        DownloadKeepsTotals(ledger.rows, MinuteOf(at), amount, column, low, high);
      }
    case Polled(now, matches, uptime) =>
      WidenContained(ledger.rows, before, event);
      if ledger.cursor.Some? {
        CursorBeforePoll(ledger.cursor, before, event);
        PollAddsMeasured(cfg, ledger, event, column, low, high);
      }
      PollWithin(cfg, ledger, matches, now, uptime, low, high);
      assert (before + [event])[..|before|] == before;
      DropTotal(PolledRows(cfg, ledger, matches, now, uptime), PruneMinute(cfg, now), column, low, high);
  }

  /** Over every run of polls in order, of which nothing is old enough to be pruned, the measured
      total is what its polls count, whatever resets, gaps and impossible increments lie between. */
  lemma {:induction false} RunCounts(cfg: Config, events: seq<Event>, column: Column)
    requires Measured(column) && Ordered(events) && Unpruned(cfg, events)
    ensures Total(Run(cfg, NEW_LEDGER, events).rows, column, FirstMinute(events), EndMinute(events))
         == CountedTotal(cfg, events, column)
  {
    if events != [] {
      var before, last := events[..|events| - 1], events[|events| - 1];
      assert before + [last] == events;
      RunCounts(cfg, before, column);
      CursorMirrors(cfg, before);
      RowsContained(cfg, before);
      var ledger := Run(cfg, NEW_LEDGER, before);
      ApplyMeasures(cfg, ledger, before, last, column);
      SameTotalWider(ledger.rows, before, last, column);
    }
  }

  lemma {:induction false} FirstBeforeLast(events: seq<Event>)
    requires Ordered(events)
    ensures FirstPoll(events).Some? <==> LastPoll(events).Some?
    ensures FirstPoll(events).Some? ==> FirstPoll(events).value <= LastPoll(events).value
  {
    if events != [] {
      FirstBeforeLast(events[..|events| - 1]);
    }
  }

  lemma SameTotalWider(rows: Rows, before: seq<Event>, event: Event, column: Column)
    requires Ordered(before + [event]) && Contained(rows, FirstMinute(before), EndMinute(before))
    ensures Total(rows, column, FirstMinute(before + [event]), EndMinute(before + [event]))
         == Total(rows, column, FirstMinute(before), EndMinute(before))
  {
    assert (before + [event])[..|before|] == before;
    SpanGrows(before, event);
    FirstBeforeLast(before);
    if FirstPoll(before).Some? {
      WiderTotal(rows, column, FirstMinute(before), EndMinute(before), EndMinute(before + [event]));
    } else {
      QuietTotal(rows, column, FirstMinute(before + [event]), EndMinute(before + [event]));
      QuietTotal(rows, column, FirstMinute(before), EndMinute(before));
    }
  }

  // ---- where polls are steady, counts are differences of readings

  /** What one poll adds to a measured column, in terms of the readings alone. */
  function Increment(cfg: Config, before: seq<Event>, event: Event, column: Column): int {
    if event.Polled? && Observed(event.matches).Some? && LastReading(before).Some?
    then MeasuredBetween(cfg, LastReading(before).value, ReadingOf(event), column)
    else 0
  }

  /** A steady poll counts exactly its increment. */
  lemma SteadyCounts(cfg: Config, cursor: Option<Cursor>, before: seq<Event>, event: Event, column: Column)
    requires Measured(column) && SteadyStep(cfg, before, event) && Mirrors(cursor, before)
    requires FirstPoll(before).Some? ==> FirstPoll(before).value >= SECOND
    ensures Counted(cfg, cursor, event, column) == Increment(cfg, before, event, column)
  {
    if event.Polled? && cursor.Some? {
      SecondOf(LastPoll(before).value);
      if LastReading(before).Some? {
        SecondOf(LastReading(before).value.now);
      }
    }
  }

  lemma {:induction false} FirstPollLate(cfg: Config, events: seq<Event>)
    requires Steady(cfg, events)
    ensures FirstPoll(events).Some? ==> FirstPoll(events).value >= SECOND
    ensures LastPoll(events).Some? ==> LastPoll(events).value >= SECOND
  {
    if events != [] {
      FirstPollLate(cfg, events[..|events| - 1]);
    }
  }

  /** The measured traffic of a run is what its readings say, increment by increment. */
  function Increments(cfg: Config, events: seq<Event>, column: Column): int {
    if events == [] then 0
    else
      var before, last := events[..|events| - 1], events[|events| - 1];
      Increments(cfg, before, column) + Increment(cfg, before, last, column)
  }

  lemma {:induction false} SteadyRunCounts(cfg: Config, events: seq<Event>, column: Column)
    requires Measured(column) && Steady(cfg, events)
    ensures CountedTotal(cfg, events, column) == Increments(cfg, events, column)
  {
    if events != [] {
      var before, last := events[..|events| - 1], events[|events| - 1];
      SteadyRunCounts(cfg, before, column);
      SteadyIsOrdered(cfg, before);
      CursorMirrors(cfg, before);
      FirstPollLate(cfg, before);
      SteadyCounts(cfg, Run(cfg, NEW_LEDGER, before).cursor, before, last, column);
    }
  }

  lemma RunMeasures(cfg: Config, events: seq<Event>, column: Column)
    requires Measured(column) && Steady(cfg, events) && Unpruned(cfg, events)
    ensures Total(Run(cfg, NEW_LEDGER, events).rows, column, FirstMinute(events), EndMinute(events))
         == Increments(cfg, events, column)
  {
    SteadyIsOrdered(cfg, events);
    RunCounts(cfg, events, column);
    SteadyRunCounts(cfg, events, column);
  }

  lemma {:induction false} IncrementsTelescope(cfg: Config, events: seq<Event>, column: Column)
    requires Measured(column)
    ensures Increments(cfg, events, column)
         == if LastReading(events).None? then 0
            else MeasuredBetween(cfg, FirstReading(events).value, LastReading(events).value, column)
  {
    PollsExist(events);
    if events != [] {
      PollsExist(events[..|events| - 1]);
      IncrementsTelescope(cfg, events[..|events| - 1], column);
    }
  }

  /** The ledger of a run of steady polls: over all its minutes, measured upload and download are
      exactly the difference between the last and the first counters seen, whatever polls
      in between were missing, offline or ambiguous, and no other minute holds anything. */
  lemma MeasuredTelescopes(cfg: Config, events: seq<Event>, column: Column)
    requires Measured(column) && Steady(cfg, events) && Unpruned(cfg, events)
    ensures var rows, low, high := Run(cfg, NEW_LEDGER, events).rows, FirstMinute(events), EndMinute(events);
            && Quiet(rows, low, high)
            && Total(rows, column, low, high)
               == if LastReading(events).None? then 0
                  else MeasuredBetween(cfg, FirstReading(events).value, LastReading(events).value, column)
  {
    SteadyIsOrdered(cfg, events);
    RowsContained(cfg, events);
    RunMeasures(cfg, events, column);
    IncrementsTelescope(cfg, events, column);
  }

  /** A steady poll adds the difference of its reading and the last one. */
  lemma SteadyEventCounts(cfg: Config, events: seq<Event>, event: Event, column: Column)
    requires Measured(column) && Ordered(events + [event]) && SteadyStep(cfg, events, event)
    requires FirstPoll(events).Some? && FirstPoll(events).value >= SECOND
    ensures FirstPoll(events + [event]) == FirstPoll(events)
    ensures CountedTotal(cfg, events + [event], column)
         == CountedTotal(cfg, events, column) + Increment(cfg, events, event, column)
  {
    assert (events + [event])[..|events|] == events;
    CursorMirrors(cfg, events);
    SteadyCounts(cfg, Run(cfg, NEW_LEDGER, events).cursor, events, event, column);
  }

  lemma ReadingMovesOn(cfg: Config, from: Reading, events: seq<Event>, event: Event, column: Column)
    requires LastReading(events).Some?
    ensures LastReading(events + [event]).Some?
    ensures MeasuredBetween(cfg, from, LastReading(events + [event]).value, column)
         == MeasuredBetween(cfg, from, LastReading(events).value, column) + Increment(cfg, events, event, column)
  {
    assert (events + [event])[..|events|] == events;
  }

  lemma {:induction false} SpellCounts(cfg: Config, before: seq<Event>, spell: seq<Event>, column: Column)
    requires Measured(column) && Ordered(before + spell) && SteadySince(cfg, before, spell)
    requires FirstPoll(before).Some? && FirstPoll(before).value >= SECOND && LastReading(before).Some?
    ensures FirstPoll(before + spell) == FirstPoll(before) && LastReading(before + spell).Some?
    ensures CountedTotal(cfg, before + spell, column) - CountedTotal(cfg, before, column)
         == MeasuredBetween(cfg, LastReading(before).value, LastReading(before + spell).value, column)
    decreases |spell|
  {
    if spell == [] {
      assert before + spell == before;
    } else {
      var front, last := spell[..|spell| - 1], spell[|spell| - 1];
      assert before + spell == before + front + [last];
      assert (before + spell)[..|before + spell| - 1] == before + front;
      SpellCounts(cfg, before, front, column);
      SteadyEventCounts(cfg, before + front, last, column);
      ReadingMovesOn(cfg, LastReading(before).value, before + front, last, column);
    }
  }

  /** Between resets measured traffic telescopes: whatever happened before, a spell of steady polls
      after a reading adds exactly the difference of the last and that reading's counters. */
  lemma SpellTelescopes(cfg: Config, before: seq<Event>, spell: seq<Event>, column: Column)
    requires Measured(column) && Ordered(before + spell) && Unpruned(cfg, before + spell)
    requires SteadySince(cfg, before, spell)
    requires FirstPoll(before).Some? && FirstPoll(before).value >= SECOND && LastReading(before).Some?
    ensures LastReading(before + spell).Some?
    ensures var events := before + spell;
            Total(Run(cfg, NEW_LEDGER, events).rows, column, FirstMinute(events), EndMinute(events))
            == Total(Run(cfg, NEW_LEDGER, before).rows, column, FirstMinute(before), EndMinute(before))
               + MeasuredBetween(cfg, LastReading(before).value, LastReading(events).value, column)
  {
    FrontOrdered(cfg, before, spell);
    RunCounts(cfg, before, column);
    RunCounts(cfg, before + spell, column);
    SpellCounts(cfg, before, spell, column);
  }

  lemma {:induction false} FrontOrdered(cfg: Config, before: seq<Event>, spell: seq<Event>)
    requires Ordered(before + spell) && Unpruned(cfg, before + spell)
    ensures Ordered(before) && Unpruned(cfg, before)
    decreases |spell|
  {
    if spell == [] {
      assert before + spell == before;
    } else {
      assert (before + spell)[..|before + spell| - 1] == before + spell[..|spell| - 1];
      FrontOrdered(cfg, before, spell[..|spell| - 1]);
    }
  }

  // ---- what one poll books, column by column

  const HALF_HOUR: int := 1800 * SECOND

  /** A column over the half hour before an instant, in whole minutes. */
  function Recent(rows: Rows, column: Column, at: int): int {
    Total(rows, column, MinuteOf(at - HALF_HOUR), MinuteOf(at) + 1)
  }

  /** The measured rate of the half hour before `start`, kept up until `now` but for half an hour at
      most; upload only flows in the evening window. Nothing where nothing was sampled. */
  ghost function Extrapolated(rows: Rows, column: Column, start: int, now: int): int {
    var seconds := Recent(rows, SampleSeconds, start);
    var end := if now - start < HALF_HOUR then now else start + HALF_HOUR;
    var time := if column == MeasuredUpload then BusinessHours.WindowInstants(start, end) else end - start;
    if seconds <= 0 then 0 else Recent(rows, column, start) * time / (seconds * SECOND)
  }

  lemma EstimateIs(rows: Rows, start: int, now: int, column: Column)
    requires start < now && Measured(column)
    ensures OrZero(Estimate(rows, start, now, column)) == Extrapolated(rows, column, start, now)
    ensures Estimate(rows, start, now, column).None? <==> Recent(rows, SampleSeconds, start) <= 0
  {
    BusinessHours.CountsWindowInstants(start, Min(now, start + HALF_HOUR));
  }

  lemma ClearedRecent(rows: Rows, first: int, last: int, column: Column, at: int)
    requires column != UnknownSeconds
    ensures Recent(ClearUnknown(rows, first, last), column, at) == Recent(rows, column, at)
  {
    ClearTotal(rows, first, last, column, MinuteOf(at - HALF_HOUR), MinuteOf(at) + 1);
  }

  lemma ClearedExtrapolates(rows: Rows, first: int, last: int, column: Column, start: int, now: int)
    requires Measured(column)
    ensures Extrapolated(ClearUnknown(rows, first, last), column, start, now) == Extrapolated(rows, column, start, now)
  {
    ClearedRecent(rows, first, last, column, start);
    ClearedRecent(rows, first, last, SampleSeconds, start);
  }

  lemma ExtrapolatedNotNegative(rows: Rows, column: Column, start: int, now: int)
    requires Sound(rows) && start <= now
    ensures Extrapolated(rows, column, start, now) >= 0
  {
    TotalNonNegative(rows, column, MinuteOf(start - HALF_HOUR), MinuteOf(start) + 1);
    var seconds := Recent(rows, SampleSeconds, start);
    var end := if now - start < HALF_HOUR then now else start + HALF_HOUR;
    var time := if column == MeasuredUpload then BusinessHours.WindowInstants(start, end) else end - start;
    if seconds > 0 {
      RateTimesTime(Recent(rows, column, start), time, time, seconds * SECOND);
    }
  }

  /** What a poll has added to a column over a range of minutes. */
  function Added(cfg: Config, ledger: Ledger, event: Event, column: Column, low: int, high: int): int
    requires event.Polled?
  {
    Total(PolledRows(cfg, ledger, event.matches, event.now, event.uptime), column, low, high)
    - Total(ledger.rows, column, low, high)
  }

  /** A poll some time after its baseline, within a range of minutes. */
  predicate Spans(ledger: Ledger, event: Event, low: int, high: int) {
    event.Polled? && ledger.cursor.Some? && Observed(event.matches).Some? &&
    var start := BaselineSecond(ledger.cursor.value) * SECOND;
    0 <= start < event.now && low <= MinuteOf(start) && MinuteOf(event.now) < high
  }

  lemma AddedIs(cfg: Config, ledger: Ledger, event: Event, column: Column, low: int, high: int)
    requires Spans(ledger, event, low, high) && column != UnknownSeconds
    requires BookingOf(cfg, ledger.rows, ledger.cursor.value, event.matches, event.now,
                       event.uptime).amounts.Get(column) >= 0
    ensures Added(cfg, ledger, event, column, low, high)
         == BookingOf(cfg, ledger.rows, ledger.cursor.value, event.matches, event.now, event.uptime).amounts.Get(column)
  {
    var c := ledger.cursor.value;
    var b := BookingOf(cfg, ledger.rows, c, event.matches, event.now, event.uptime);
    PollBooks(cfg, ledger, event.matches, event.now, event.uptime);
    ClearTotal(ledger.rows, MinuteOf(BaselineSecond(c) * SECOND), MinuteOf(event.now), column, low, high);
    AddIntervalTotal(b.rows, b.start, event.now, b.amounts, b.quality, column, low, high);
  }

  /** Unknown time from the baseline's minute on is what this poll books, and before it what it was. */
  lemma UnknownIs(cfg: Config, ledger: Ledger, event: Event, low: int, high: int)
    requires Spans(ledger, event, low, high)
    ensures var (b, first) := (BookingOf(cfg, ledger.rows, ledger.cursor.value, event.matches, event.now, event.uptime),
                               MinuteOf(BaselineSecond(ledger.cursor.value) * SECOND));
            var rows := PolledRows(cfg, ledger, event.matches, event.now, event.uptime);
            && Unknown(rows, first, MinuteOf(event.now) + 1) == b.amounts.unknownSeconds
            && Unknown(rows, low, first) == Unknown(ledger.rows, low, first)
  {
    var c := ledger.cursor.value;
    var b, first := BookingOf(cfg, ledger.rows, c, event.matches, event.now,
                              event.uptime), MinuteOf(BaselineSecond(c) * SECOND);
    PollBooks(cfg, ledger, event.matches, event.now, event.uptime);
    BookedUnknown(cfg, ledger.rows, c, event.matches, event.now, event.uptime);
    ClearTotal(ledger.rows, first, MinuteOf(event.now), UnknownSeconds, low, first);
    ClearTotal(ledger.rows, first, MinuteOf(event.now), UnknownSeconds, first, MinuteOf(event.now) + 1);
    AddIntervalTotal(b.rows, b.start, event.now, b.amounts, b.quality, UnknownSeconds, first, MinuteOf(event.now) + 1);
    AddIntervalTotal(b.rows, b.start, event.now, b.amounts, b.quality, UnknownSeconds, low, first);
  }

  /** A reset: nothing is measured, the gap is estimated from the half hour before, one interruption is
      counted, and unknown is what lies beyond half an hour, or the whole gap where there is no rate. */
  lemma ResetAdds(cfg: Config, ledger: Ledger, event: Event, low: int, high: int)
    requires Spans(ledger, event, low, high) && Sound(ledger.rows)
    requires !Counts(ledger.cursor.value, event.matches, event.uptime)
    ensures var start := BaselineSecond(ledger.cursor.value) * SECOND;
            var seconds := (event.now - start) / SECOND;
            && Added(cfg, ledger, event, EstimatedUpload, low, high)
               == Extrapolated(ledger.rows, MeasuredUpload, start, event.now)
            && Added(cfg, ledger, event, EstimatedDownload, low, high)
               == Extrapolated(ledger.rows, MeasuredDownload, start, event.now)
            && Added(cfg, ledger, event, MeasuredUpload, low, high) == 0
            && Added(cfg, ledger, event, MeasuredDownload, low, high) == 0
            && Added(cfg, ledger, event, SampleSeconds, low, high) == Min(seconds, 1800)
            && Added(cfg, ledger, event, Interruptions, low, high) == 1
            && Unknown(PolledRows(cfg, ledger, event.matches, event.now, event.uptime), MinuteOf(start),
                       MinuteOf(event.now) + 1)
               == if Recent(ledger.rows, SampleSeconds, start) <= 0 then seconds else Max(0, seconds - 1800)
  {
    var c := ledger.cursor.value;
    var start := BaselineSecond(c) * SECOND;
    ResetAmounts(cfg, ledger.rows, c, event.matches, event.now, event.uptime);
    forall column: Column | column != UnknownSeconds
      ensures Added(cfg, ledger, event, column, low, high)
           == BookingOf(cfg, ledger.rows, c, event.matches, event.now, event.uptime).amounts.Get(column)
    {
      AddedIs(cfg, ledger, event, column, low, high);
    }
    UnknownIs(cfg, ledger, event, low, high);
  }

  lemma ResetAmounts(cfg: Config, rows: Rows, c: Cursor, matches: seq<Interface>, now: int, uptime: Option<int>)
    requires Observed(matches).Some? && !Counts(c, matches, uptime) && Sound(rows) && BaselineSecond(c) * SECOND < now
    ensures var start := BaselineSecond(c) * SECOND;
            var seconds, amounts := (now - start) / SECOND, BookingOf(cfg, rows, c, matches, now, uptime).amounts;
            && amounts == Amounts(0, 0, Extrapolated(rows, MeasuredUpload, start, now),
                                  Extrapolated(rows, MeasuredDownload, start, now), amounts.unknownSeconds,
                                  Min(seconds, 1800), 1)
            && amounts.NonNegative()
            && amounts.unknownSeconds
               == if Recent(rows, SampleSeconds, start) <= 0 then seconds else Max(0, seconds - 1800)
  {
    var start := BaselineSecond(c) * SECOND;
    var cleared := ClearUnknown(rows, MinuteOf(start), MinuteOf(now));
    Estimates(rows, start, now, MeasuredUpload);
    Estimates(rows, start, now, MeasuredDownload);
  }

  /** Estimating from the cleared rows is estimating from the rows. */
  lemma Estimates(rows: Rows, start: int, now: int, column: Column)
    requires Measured(column) && start < now && Sound(rows)
    ensures var estimate := Estimate(ClearUnknown(rows, MinuteOf(start), MinuteOf(now)), start, now, column);
            && OrZero(estimate) == Extrapolated(rows, column, start, now) >= 0
            && (estimate.None? <==> Recent(rows, SampleSeconds, start) <= 0)
  {
    var cleared := ClearUnknown(rows, MinuteOf(start), MinuteOf(now));
    EstimateIs(cleared, start, now, column);
    ClearedExtrapolates(rows, MinuteOf(start), MinuteOf(now), column, start, now);
    ClearedRecent(rows, MinuteOf(start), MinuteOf(now), SampleSeconds, start);
    ExtrapolatedNotNegative(rows, column, start, now);
  }

  /** What a counter has gained; upload is what the router sends, unless the directions are swapped. */
  function Gained(cfg: Config, c: Cursor, item: Interface, column: Column): int
    requires c.inOctets.Some? && c.outOctets.Some?
  {
    if (column == MeasuredUpload) == cfg.directionSwap then item.inOctets - c.inOctets.value
    else item.outOctets - c.outOctets.value
  }

  /** More than a line of so many Mbit/s carries in that time with five per cent to spare. */
  predicate TooFast(mbps: nat, elapsed: int, bytes: int) {
    bytes * 8 * 100 > mbps * elapsed * 105
  }

  predicate Impossible(cfg: Config, c: Cursor, item: Interface, column: Column, elapsed: int)
    requires c.inOctets.Some? && c.outOctets.Some?
  {
    TooFast(if column == MeasuredUpload then cfg.uploadCeilingMbps else cfg.downloadCeilingMbps, elapsed,
            Gained(cfg, c, item, column))
  }

  lemma CeilingIsExact(mbps: nat, elapsed: nat, bytes: int)
    ensures bytes <= Ceiling(mbps, elapsed) <==> !TooFast(mbps, elapsed, bytes)
  {
  }

  /** A poll that counts: a possible gain is measured, an impossible one is estimated instead; unknown is
      the whole gap if an estimate was needed and there is no rate, and nothing otherwise. */
  lemma CountedAdds(cfg: Config, ledger: Ledger, event: Event, low: int, high: int)
    requires Spans(ledger, event, low, high) && Sound(ledger.rows)
    requires Counts(ledger.cursor.value, event.matches, event.uptime)
    ensures var (c, item) := (ledger.cursor.value, Observed(event.matches).value);
            var start := BaselineSecond(c) * SECOND;
            var elapsed := event.now - start;
            var (up, down) := (Impossible(cfg, c, item, MeasuredUpload, elapsed),
                               Impossible(cfg, c, item, MeasuredDownload, elapsed));
            && Added(cfg, ledger, event, MeasuredUpload, low, high)
               == (if up then 0 else Gained(cfg, c, item, MeasuredUpload))
            && Added(cfg, ledger, event, MeasuredDownload, low, high)
               == (if down then 0 else Gained(cfg, c, item, MeasuredDownload))
            && Added(cfg, ledger, event, EstimatedUpload, low, high)
               == (if up then Extrapolated(ledger.rows, MeasuredUpload, start, event.now) else 0)
            && Added(cfg, ledger, event, EstimatedDownload, low, high)
               == (if down then Extrapolated(ledger.rows, MeasuredDownload, start, event.now) else 0)
            && Added(cfg, ledger, event, SampleSeconds, low, high) == elapsed / SECOND
            && Added(cfg, ledger, event, Interruptions, low, high) == 0
            && Unknown(PolledRows(cfg, ledger, event.matches, event.now, event.uptime), MinuteOf(start),
                       MinuteOf(event.now) + 1)
               == if (up || down) && Recent(ledger.rows, SampleSeconds, start) <= 0 then elapsed / SECOND else 0
  {
    var c := ledger.cursor.value;
    CountedAmountsAre(cfg, ledger.rows, c, event.matches, event.now, event.uptime);
    forall column: Column | column != UnknownSeconds
      ensures Added(cfg, ledger, event, column, low, high)
           == BookingOf(cfg, ledger.rows, c, event.matches, event.now, event.uptime).amounts.Get(column)
    {
      AddedIs(cfg, ledger, event, column, low, high);
    }
    UnknownIs(cfg, ledger, event, low, high);
  }

  lemma CountedAmountsAre(cfg: Config, rows: Rows, c: Cursor, matches: seq<Interface>, now: int, uptime: Option<int>)
    requires Counts(c, matches, uptime) && Sound(rows) && BaselineSecond(c) * SECOND < now
    ensures var (item, start) := (Observed(matches).value, BaselineSecond(c) * SECOND);
            var (elapsed, amounts) := (now - start, BookingOf(cfg, rows, c, matches, now, uptime).amounts);
            var (up, down) := (Impossible(cfg, c, item, MeasuredUpload, elapsed),
                               Impossible(cfg, c, item, MeasuredDownload, elapsed));
            && amounts == Amounts(if up then 0 else Gained(cfg, c, item, MeasuredUpload),
                                  if down then 0 else Gained(cfg, c, item, MeasuredDownload),
                                  if up then Extrapolated(rows, MeasuredUpload, start, now) else 0,
                                  if down then Extrapolated(rows, MeasuredDownload, start, now) else 0,
                                  amounts.unknownSeconds, elapsed / SECOND, 0)
            && amounts.NonNegative()
            && amounts.unknownSeconds
               == if (up || down) && Recent(rows, SampleSeconds, start) <= 0 then elapsed / SECOND else 0
  {
    var item, start := Observed(matches).value, BaselineSecond(c) * SECOND;
    Estimates(rows, start, now, MeasuredUpload);
    Estimates(rows, start, now, MeasuredDownload);
    CeilingIsExact(cfg.uploadCeilingMbps, now - start, Gained(cfg, c, item, MeasuredUpload));
    CeilingIsExact(cfg.downloadCeilingMbps, now - start, Gained(cfg, c, item, MeasuredDownload));
  }

  /** Over a run, when a poll counts: there is a reading before it of the same interface, none of the
      counters has fallen since, and neither device nor counters are known to have started anew. */
  lemma CountsWhen(cfg: Config, before: seq<Event>, event: Event)
    requires Ordered(before + [event]) && event.Polled? && Observed(event.matches).Some? && LastPoll(before).Some?
    ensures Run(cfg, NEW_LEDGER, before).cursor.Some?
    ensures Counts(Run(cfg, NEW_LEDGER, before).cursor.value, event.matches, event.uptime)
            <==> LastReading(before).Some? && Uninterrupted(LastReading(before).value, ReadingOf(event))
  {
    assert (before + [event])[..|before|] == before;
    CursorMirrors(cfg, before);
  }

  predicate Uninterrupted(from: Reading, to: Reading) {
    && from.item.index == to.item.index
    && from.item.inOctets <= to.item.inOctets && from.item.outOctets <= to.item.outOctets
    && (from.item.discontinuity.Some? && to.item.discontinuity.Some?
        ==> from.item.discontinuity == to.item.discontinuity)
    && (from.uptime.Some? && to.uptime.Some? ==> from.uptime.value <= to.uptime.value)
  }

  /** A poll that sees no interface books the time since the last poll as unknown, and nothing else. */
  lemma MissingAdds(cfg: Config, ledger: Ledger, event: Event, column: Column, low: int, high: int)
    requires event.Polled? && ledger.cursor.Some? && Observed(event.matches).None?
    requires var since := ledger.cursor.value.sampledAt * SECOND;
             0 <= since < event.now && low <= MinuteOf(since) && MinuteOf(event.now) < high
    ensures Added(cfg, ledger, event, column, low, high)
         == if column == UnknownSeconds then WholeSecond(event.now) - ledger.cursor.value.sampledAt else 0
  {
    var since := ledger.cursor.value.sampledAt * SECOND;
    PollBooks(cfg, ledger, event.matches, event.now, event.uptime);
    AddIntervalTotal(ledger.rows, since, event.now, PendingGapAmounts(since, event.now), PendingGap, column, low, high);
  }

  // ---- what a poll says

  /** An interface that is up, or does not say. */
  predicate UpAt(matches: seq<Interface>, i: nat)
    requires i < |matches|
  {
    matches[i].operStatus == None || matches[i].operStatus == Some(1)
  }

  lemma {:induction false} UpIsLive(matches: seq<Interface>, i: nat)
    requires i < |matches| && UpAt(matches, i)
    ensures |LiveOnes(matches)| >= 1
    ensures (forall j: nat :: j < |matches| && j != i ==> !UpAt(matches, j)) ==> LiveOnes(matches) == [matches[i]]
    decreases |matches|
  {
    if i > 0 {
      assert UpAt(matches[1..], i - 1);
      UpIsLive(matches[1..], i - 1);
      if forall j: nat :: j < |matches| && j != i ==> !UpAt(matches, j) {
        assert !UpAt(matches, 0);
        forall j: nat | j < |matches[1..]| && j != i - 1 ensures !UpAt(matches[1..], j) {
          assert !UpAt(matches, j + 1);
        }
      }
    } else if forall j: nat :: j < |matches| && j != i ==> !UpAt(matches, j) {
      forall j: nat | j < |matches[1..]| ensures !UpAt(matches[1..], j) {
        assert !UpAt(matches, j + 1);
      }
      NoneIsLive(matches[1..]);
    }
  }

  lemma {:induction false} NoneIsLive(matches: seq<Interface>)
    requires forall j: nat :: j < |matches| ==> !UpAt(matches, j)
    ensures LiveOnes(matches) == []
    decreases |matches|
  {
    if matches != [] {
      assert !UpAt(matches, 0);
      forall j: nat | j < |matches[1..]| ensures !UpAt(matches[1..], j) {
        assert !UpAt(matches, j + 1);
      }
      NoneIsLive(matches[1..]);
    }
  }

  lemma {:induction false} TwoAreLive(matches: seq<Interface>, i: nat, j: nat)
    requires i < j < |matches| && UpAt(matches, i) && UpAt(matches, j)
    ensures |LiveOnes(matches)| >= 2
    decreases |matches|
  {
    assert UpAt(matches[1..], j - 1);
    if i > 0 {
      assert UpAt(matches[1..], i - 1);
      TwoAreLive(matches[1..], i - 1, j - 1);
    } else {
      UpIsLive(matches[1..], j - 1);
    }
  }

  /** A poll sees an interface exactly when one alone of those that bear the name is up; otherwise it
      says whether there are too many, none up, or none at all. */
  lemma ObservedIs(cfg: Config, ledger: Ledger, event: Event)
    requires event.Polled?
    ensures var (matches, verdict) := (event.matches, Poll(cfg, ledger, event.matches, event.now, event.uptime).1);
            && (forall i: nat, j: nat :: i < j < |matches| && UpAt(matches, i) && UpAt(matches, j) ==>
                  verdict == Ambiguous)
            && ((forall i: nat :: i < |matches| ==> !UpAt(matches, i))
                ==> verdict == if matches == [] then Missing else Offline)
            && (forall i: nat :: i < |matches| && UpAt(matches, i) && OnlyUp(matches, i) ==>
                  Observed(matches) == Some(matches[i]) && !verdict.Ambiguous? && !verdict.Offline?
                  && !verdict.Missing?)
  {
    var matches := event.matches;
    forall i: nat, j: nat | i < j < |matches| && UpAt(matches, i) && UpAt(matches, j)
      ensures |LiveOnes(matches)| >= 2
    {
      TwoAreLive(matches, i, j);
    }
    forall i: nat | i < |matches| && UpAt(matches, i) && OnlyUp(matches, i) ensures LiveOnes(matches) == [matches[i]] {
      UpIsLive(matches, i);
    }
    if forall i: nat :: i < |matches| ==> !UpAt(matches, i) {
      NoneIsLive(matches);
    }
  }

  predicate OnlyUp(matches: seq<Interface>, i: nat) {
    forall j: nat :: j < |matches| && j != i ==> !UpAt(matches, j)
  }

  /** Did the last poll see an interface? */
  function LastPollSaw(events: seq<Event>): bool {
    if events == [] then false
    else
      var last := events[|events| - 1];
      if last.Polled? then Observed(last.matches).Some? else LastPollSaw(events[..|events| - 1])
  }

  /** The first of the polls in vain since the last reading. */
  function InVainSince(events: seq<Event>): Option<int> {
    if events == [] then None
    else
      var before, last := events[..|events| - 1], events[|events| - 1];
      if !last.Polled? then InVainSince(before)
      else if Observed(last.matches).Some? then None
      else if InVainSince(before).Some? then InVainSince(before)
      else Some(WholeSecond(last.now))
  }

  /** The marks of the cursor: valid after a reading, with the state it had, and since when in vain. */
  predicate Marked(cursor: Option<Cursor>, events: seq<Event>) {
    if cursor.None? then !LastPollSaw(events) && InVainSince(events).None? && LastReading(events).None?
    else
      && cursor.value.valid == LastPollSaw(events) && cursor.value.missingSince == InVainSince(events)
      && cursor.value.operStatus
         == if LastReading(events).Some? then LastReading(events).value.item.operStatus else None
  }

  lemma {:induction false} CursorMarked(cfg: Config, events: seq<Event>)
    ensures Marked(Run(cfg, NEW_LEDGER, events).cursor, events)
  {
    if events != [] {
      var before, last := events[..|events| - 1], events[|events| - 1];
      CursorMarked(cfg, before);
      if last.Polled? {
        PolledCursor(cfg, Run(cfg, NEW_LEDGER, before), last.matches, last.now, last.uptime);
      }
    }
  }

  /** What a poll that sees an interface reports over a run: the first is a baseline, one that does not go
      on from the last reading is a reset. */
  lemma SeenVerdict(cfg: Config, before: seq<Event>, event: Event)
    requires Ordered(before + [event]) && event.Polled? && Observed(event.matches).Some?
    ensures var verdict := Poll(cfg, Run(cfg, NEW_LEDGER, before), event.matches, event.now, event.uptime).1;
            && (verdict == Baseline <==> LastPoll(before).None?)
            && (verdict == ResetSeen <==>
                  LastPoll(before).Some?
                  && !(LastReading(before).Some? && Uninterrupted(LastReading(before).value, ReadingOf(event))))
  {
    assert (before + [event])[..|before|] == before;
    CursorMirrors(cfg, before);
    if LastPoll(before).Some? {
      CountsWhen(cfg, before, event);
    }
  }

  /** And one that goes on says whether polls were in vain since, and if not whether both gains fit. */
  lemma CountedVerdict(cfg: Config, before: seq<Event>, event: Event)
    requires event.Polled? && Run(cfg, NEW_LEDGER, before).cursor.Some?
    requires Counts(Run(cfg, NEW_LEDGER, before).cursor.value, event.matches, event.uptime)
    ensures var (ledger, item) := (Run(cfg, NEW_LEDGER, before), Observed(event.matches).value);
            var c := ledger.cursor.value;
            var elapsed := Max(0, event.now - BaselineSecond(c) * SECOND);
            var (up, down) := (Impossible(cfg, c, item, MeasuredUpload, elapsed),
                               Impossible(cfg, c, item, MeasuredDownload, elapsed));
            Poll(cfg, ledger, event.matches, event.now, event.uptime).1
            == Verdict.Counted(if !LastPollSaw(before) then Recovered else if up || down then Anomaly else Quality.Ok)
  {
    CursorMarked(cfg, before);
    var ledger := Run(cfg, NEW_LEDGER, before);
    var c := ledger.cursor.value;
    CountedSays(cfg, ledger, c, event.matches, event.now, event.uptime);
    QualityIs(cfg, c, Observed(event.matches).value, Max(0, event.now - BaselineSecond(c) * SECOND));
  }

  lemma CountedSays(cfg: Config, ledger: Ledger, c: Cursor, matches: seq<Interface>, now: int, uptime: Option<int>)
    requires ledger.cursor == Some(c) && Counts(c, matches, uptime)
    ensures Poll(cfg, ledger, matches, now, uptime).1
         == Verdict.Counted(CountedQuality(cfg, c, Observed(matches).value, Max(0, now - BaselineSecond(c) * SECOND)))
  {
  }

  lemma QualityIs(cfg: Config, c: Cursor, item: Interface, elapsed: nat)
    requires c.inOctets.Some? && c.outOctets.Some? && item.inOctets >= c.inOctets.value
             && item.outOctets >= c.outOctets.value
    ensures var (up, down) := (Impossible(cfg, c, item, MeasuredUpload, elapsed),
                               Impossible(cfg, c, item, MeasuredDownload, elapsed));
            CountedQuality(cfg, c, item, elapsed)
            == if !c.valid then Recovered else if up || down then Anomaly else Quality.Ok
  {
    CeilingIsExact(cfg.uploadCeilingMbps, elapsed, Gained(cfg, c, item, MeasuredUpload));
    CeilingIsExact(cfg.downloadCeilingMbps, elapsed, Gained(cfg, c, item, MeasuredDownload));
  }

  // ---- the bytes the helper reports

  /** Bytes reported in a minute, from the last poll on that found it older than the rolling days. */
  function Reported(cfg: Config, events: seq<Event>, minute: int): int {
    if events == [] then 0
    else
      var before, last := events[..|events| - 1], events[|events| - 1];
      match last
      case Polled(now, _, _) =>
        if (minute + 1) * MINUTE <= now - (cfg.rollingDays + 1) * DAY then 0 else Reported(cfg, before, minute)
      case Downloaded(amount, at) =>
        Reported(cfg, before, minute) +
        if amount > 0 && minute * MINUTE <= at < (minute + 1) * MINUTE then amount else 0
  }

  lemma {:induction false} BookKeepsReported(rows: Rows, segments: seq<Segment>, parts: seq<Amounts>, quality: Quality,
                                             minute: int)
    requires |parts| == |segments|
    ensures RowAt(Book(rows, segments, parts, quality), minute).programDownload == RowAt(rows, minute).programDownload
    decreases |segments|
  {
    if segments != [] {
      var added := AddRow(rows, segments[0].minute, parts[0], quality);
      BookKeepsReported(added, segments[1..], parts[1..], quality, minute);
    }
  }

  lemma IntervalKeepsReported(rows: Rows, start: int, end: int, values: Amounts, quality: Quality, minute: int)
    ensures RowAt(AddInterval(rows, start, end, values, quality), minute).programDownload
         == RowAt(rows, minute).programDownload
  {
    if start < end {
      var segments := Segments(start, end);
      BookKeepsReported(rows, segments, Split(values, segments, values, end - start), quality, minute);
    }
  }

  lemma PollKeepsReported(cfg: Config, ledger: Ledger, matches: seq<Interface>, now: int, uptime: Option<int>,
                          minute: int)
    ensures RowAt(PolledRows(cfg, ledger, matches, now, uptime), minute).programDownload
         == RowAt(ledger.rows, minute).programDownload
  {
    if ledger.cursor.Some? {
      PollBooks(cfg, ledger, matches, now, uptime);
      var b := BookingOf(cfg, ledger.rows, ledger.cursor.value, matches, now, uptime);
      IntervalKeepsReported(b.rows, b.start, now, b.amounts, b.quality, minute);
    }
  }

  /** Over every run, what a minute says the helper downloaded is what was reported in that minute and
      not pruned since; no poll adds to it or takes from it. */
  lemma {:induction false} ReportedIsKept(cfg: Config, events: seq<Event>, minute: int)
    ensures RowAt(Run(cfg, NEW_LEDGER, events).rows, minute).programDownload == Reported(cfg, events, minute)
  {
    if events != [] {
      var before, last := events[..|events| - 1], events[|events| - 1];
      ReportedIsKept(cfg, before, minute);
      if last.Polled? {
        PollKeepsReported(cfg, Run(cfg, NEW_LEDGER, before), last.matches, last.now, last.uptime, minute);
      }
    }
  }

  // ---- the mark on a minute

  /** Some instant of [start, end) lies in the minute. */
  predicate Meets(start: int, end: int, minute: int) {
    start < end && minute * MINUTE < end && start < (minute + 1) * MINUTE
  }

  predicate Hits(segments: seq<Segment>, minute: int) {
    segments != [] && (segments[0].minute == minute || Hits(segments[1..], minute))
  }

  lemma {:induction false} HitsMeets(start: int, end: int, minute: int)
    ensures Hits(Segments(start, end), minute) <==> Meets(start, end, minute)
    decreases end - start
  {
    if start < end {
      NextMinute(start, end);
      HitsMeets(Boundary(start, end), end, minute);
      assert Segments(start, end)[1..] == Segments(Boundary(start, end), end);
    }
  }

  /** The first mark on a minute stays. */
  function FirstMark(was: Quality, met: bool, booked: Quality): Quality {
    if met && was == Quality.Ok then booked else was
  }

  lemma {:induction false} BookMarks(rows: Rows, segments: seq<Segment>, parts: seq<Amounts>, quality: Quality,
                                     minute: int)
    requires |parts| == |segments|
    ensures RowAt(Book(rows, segments, parts, quality), minute).quality
         == FirstMark(RowAt(rows, minute).quality, Hits(segments, minute), quality)
    decreases |segments|
  {
    if segments != [] {
      var added := AddRow(rows, segments[0].minute, parts[0], quality);
      BookMarks(added, segments[1..], parts[1..], quality, minute);
    }
  }

  lemma IntervalMarks(rows: Rows, start: int, end: int, values: Amounts, quality: Quality, minute: int)
    ensures RowAt(AddInterval(rows, start, end, values, quality), minute).quality
         == FirstMark(RowAt(rows, minute).quality, Meets(start, end, minute), quality)
  {
    if start < end {
      var segments := Segments(start, end);
      HitsMeets(start, end, minute);
      BookMarks(rows, segments, Split(values, segments, values, end - start), quality, minute);
    }
  }

  /** A poll that sees no interface marks the unmarked minutes since the last poll as a pending gap. */
  lemma MissingMarks(cfg: Config, ledger: Ledger, event: Event, minute: int)
    requires event.Polled? && ledger.cursor.Some? && Observed(event.matches).None?
    ensures RowAt(PolledRows(cfg, ledger, event.matches, event.now, event.uptime), minute).quality
         == FirstMark(RowAt(ledger.rows, minute).quality,
                      Meets(ledger.cursor.value.sampledAt * SECOND, event.now, minute), PendingGap)
  {
    var since := ledger.cursor.value.sampledAt * SECOND;
    PollBooks(cfg, ledger, event.matches, event.now, event.uptime);
    IntervalMarks(ledger.rows, since, event.now, PendingGapAmounts(since, event.now), PendingGap, minute);
  }

  /** A poll that sees it turns the pending gaps since the baseline into recovered ones, and marks the
      unmarked minutes since then with what it says. */
  lemma ReturnMarks(cfg: Config, ledger: Ledger, event: Event, minute: int)
    requires event.Polled? && ledger.cursor.Some? && Observed(event.matches).Some?
    ensures var start := BaselineSecond(ledger.cursor.value) * SECOND;
            var was := RowAt(ledger.rows, minute).quality;
            var recovered := was == PendingGap && start < (minute + 1) * MINUTE && minute * MINUTE <= event.now;
            var verdict := Poll(cfg, ledger, event.matches, event.now, event.uptime).1;
            RowAt(PolledRows(cfg, ledger, event.matches, event.now, event.uptime), minute).quality
            == FirstMark(if recovered then Recovered else was, Meets(start, event.now, minute),
                         if verdict.Counted? then verdict.quality else Quality.Reset)
  {
    var b := BookingOf(cfg, ledger.rows, ledger.cursor.value, event.matches, event.now, event.uptime);
    PollBooks(cfg, ledger, event.matches, event.now, event.uptime);
    IntervalMarks(b.rows, b.start, event.now, b.amounts, b.quality, minute);
  }

  // ---- unknown seconds are never counted twice

  /** Whole seconds between the first poll and the poll at `second`. */
  function SecondsSinceFirst(events: seq<Event>, second: int): int {
    if FirstPoll(events).Some? then second - WholeSecond(FirstPoll(events).value) else 0
  }

  function Unknown(rows: Rows, low: int, high: int): int {
    Total(rows, UnknownSeconds, low, high)
  }

  /** The induction: all unknown time lies before the cursor, and what lies in minutes before
      the baseline's was booked before the baseline. */
  predicate Accounted(ledger: Ledger, events: seq<Event>) {
    ledger.cursor.Some? && FirstPoll(events).Some? ==>
      var c, low := ledger.cursor.value, FirstMinute(events);
      && Unknown(ledger.rows, low, EndMinute(events)) <= SecondsSinceFirst(events, c.sampledAt)
      && Unknown(ledger.rows, low, MinuteOf(BaselineSecond(c) * SECOND)) <= SecondsSinceFirst(events, BaselineSecond(c))
  }

  lemma TotalPrefix(rows: Rows, low: int, middle: int, high: int)
    requires Sound(rows) && low <= middle <= high
    ensures Unknown(rows, low, middle) <= Unknown(rows, low, high)
  {
    TotalSplits(rows, UnknownSeconds, low, middle, high);
    TotalNonNegative(rows, UnknownSeconds, middle, high);
  }

  lemma MissingPollUnknown(cfg: Config, ledger: Ledger, matches: seq<Interface>, now: int, uptime: Option<int>,
                           low: int, high: int)
    requires ledger.cursor.Some? && Observed(matches).None?
    requires var since := ledger.cursor.value.sampledAt * SECOND;
             0 <= since <= now && low <= MinuteOf(since) && MinuteOf(now) < high
    ensures var rows := Poll(cfg, ledger, matches, now, uptime).0.rows;
            && Unknown(rows, low, high)
               == Unknown(ledger.rows, low, high) + WholeSecond(now) - ledger.cursor.value.sampledAt
            && forall middle :: middle <= MinuteOf(ledger.cursor.value.sampledAt * SECOND) ==>
                 Unknown(rows, low, middle) == Unknown(ledger.rows, low, middle)
  {
    var since := ledger.cursor.value.sampledAt * SECOND;
    var amounts := PendingGapAmounts(since, now);
    AddIntervalTotal(ledger.rows, since, now, amounts, PendingGap, UnknownSeconds, low, high);
    forall middle | middle <= MinuteOf(since)
      ensures Unknown(Poll(cfg, ledger, matches, now, uptime).0.rows, low, middle) == Unknown(ledger.rows, low, middle)
    {
      AddIntervalTotal(ledger.rows, since, now, amounts, PendingGap, UnknownSeconds, low, middle);
    }
  }

  /** What a returning counter books as unknown is at most the gap itself. */
  lemma BookedUnknown(cfg: Config, rows: Rows, c: Cursor, matches: seq<Interface>, now: int, uptime: Option<int>)
    requires Observed(matches).Some? && 0 <= BaselineSecond(c) * SECOND <= now
    ensures var b := BookingOf(cfg, rows, c, matches, now, uptime);
            && b.start == BaselineSecond(c) * SECOND
            && 0 <= b.amounts.unknownSeconds <= WholeSecond(now) - BaselineSecond(c)
  {
    assert (now - BaselineSecond(c) * SECOND) / SECOND == WholeSecond(now) - BaselineSecond(c);
  }

  lemma ClearedUnknown(cfg: Config, rows: Rows, c: Cursor, matches: seq<Interface>, now: int, uptime: Option<int>,
                       low: int, high: int)
    requires Observed(matches).Some?
    requires var first := MinuteOf(BaselineSecond(c) * SECOND); low <= first <= high && high == MinuteOf(now) + 1
    ensures var (cleared, first) := (BookingOf(cfg, rows, c, matches, now, uptime).rows,
                                     MinuteOf(BaselineSecond(c) * SECOND));
            && Unknown(cleared, low, first) == Unknown(rows, low, first)
            && Unknown(cleared, low, high) == Unknown(rows, low, first)
  {
    var first := MinuteOf(BaselineSecond(c) * SECOND);
    ClearTotal(rows, first, MinuteOf(now), UnknownSeconds, low, first);
    ClearTotal(rows, first, MinuteOf(now), UnknownSeconds, first, high);
    TotalSplits(ClearUnknown(rows, first, MinuteOf(now)), UnknownSeconds, low, first, high);
  }

  /** A returning counter forgets everything unknown since its baseline and books at most the gap itself. */
  lemma ReturnUnknown(cfg: Config, ledger: Ledger, matches: seq<Interface>, now: int, uptime: Option<int>, low: int,
                      high: int)
    requires ledger.cursor.Some? && Observed(matches).Some?
    requires var start := BaselineSecond(ledger.cursor.value) * SECOND;
             0 <= start <= now && low <= MinuteOf(start) && high == MinuteOf(now) + 1
    ensures var rows, baseline := PolledRows(cfg, ledger, matches, now, uptime), BaselineSecond(ledger.cursor.value);
            var first := MinuteOf(baseline * SECOND);
            && Unknown(rows, low, high) <= Unknown(ledger.rows, low, first) + WholeSecond(now) - baseline
            && Unknown(rows, low, first) == Unknown(ledger.rows, low, first)
  {
    var c := ledger.cursor.value;
    var b := BookingOf(cfg, ledger.rows, c, matches, now, uptime);
    PollBooks(cfg, ledger, matches, now, uptime);
    BookedUnknown(cfg, ledger.rows, c, matches, now, uptime);
    ClearedUnknown(cfg, ledger.rows, c, matches, now, uptime, low, high);
    AddIntervalTotal(b.rows, b.start, now, b.amounts, b.quality, UnknownSeconds, low, high);
    AddIntervalTotal(b.rows, b.start, now, b.amounts, b.quality, UnknownSeconds, low, MinuteOf(b.start));
  }

  lemma FirstPollAccounted(cfg: Config, ledger: Ledger, before: seq<Event>, event: Event)
    requires event.Polled? && Ordered(before + [event]) && ledger.cursor.None?
    requires Mirrors(ledger.cursor, before) && Contained(ledger.rows, FirstMinute(before), EndMinute(before))
    ensures Accounted(Poll(cfg, ledger, event.matches, event.now, event.uptime).0, before + [event])
  {
    var events := before + [event];
    assert events[..|before|] == before;
    PollsExist(before);
    var after := Poll(cfg, ledger, event.matches, event.now, event.uptime).0;
    SecondOf(event.now);
    QuietTotal(ledger.rows, UnknownSeconds, FirstMinute(events), EndMinute(events));
    QuietTotal(ledger.rows, UnknownSeconds, FirstMinute(events), MinuteOf(BaselineSecond(after.cursor.value) * SECOND));
  }

  lemma MissingAccounted(cfg: Config, ledger: Ledger, before: seq<Event>, event: Event)
    requires event.Polled? && Ordered(before + [event]) && ledger.cursor.Some? && Observed(event.matches).None?
    requires Mirrors(ledger.cursor, before) && Contained(ledger.rows, FirstMinute(before), EndMinute(before))
    requires Accounted(ledger, before)
    ensures Accounted(Poll(cfg, ledger, event.matches, event.now, event.uptime).0, before + [event])
  {
    var events, c := before + [event], ledger.cursor.value;
    CursorBeforePoll(ledger.cursor, before, event);
    CursorInSpan(ledger.cursor, before);
    SpanGrows(before, event);
    SecondOf(event.now);
    SecondOf(LastPoll(before).value);
    var low, high := FirstMinute(events), EndMinute(events);
    SameTotalWider(ledger.rows, before, event, UnknownSeconds);
    MissingPollUnknown(cfg, ledger, event.matches, event.now, event.uptime, low, high);
    PolledPrefix(cfg, ledger, before, event);
  }

  lemma CursorNotNegative(cursor: Option<Cursor>, events: seq<Event>)
    requires Mirrors(cursor, events) && cursor.Some?
    ensures FirstPoll(events).Some? && LastPoll(events).Some?
    ensures 0 <= BaselineSecond(cursor.value) <= WholeSecond(LastPoll(events).value) == cursor.value.sampledAt
    ensures WholeSecond(FirstPoll(events).value) <= BaselineSecond(cursor.value)
  {
  }

  lemma ReturnAccounted(cfg: Config, ledger: Ledger, before: seq<Event>, event: Event)
    requires event.Polled? && Ordered(before + [event]) && ledger.cursor.Some? && Observed(event.matches).Some?
    requires Mirrors(ledger.cursor, before) && Contained(ledger.rows, FirstMinute(before), EndMinute(before))
    requires Accounted(ledger, before)
    ensures Accounted(Poll(cfg, ledger, event.matches, event.now, event.uptime).0, before + [event])
  {
    var events, c := before + [event], ledger.cursor.value;
    assert events[..|before|] == before;
    CursorBeforePoll(ledger.cursor, before, event);
    CursorNotNegative(ledger.cursor, before);
    SpanGrows(before, event);
    SecondOf(event.now);
    PolledCursor(cfg, ledger, event.matches, event.now, event.uptime);
    ReturnUnknown(cfg, ledger, event.matches, event.now, event.uptime, FirstMinute(events), EndMinute(events));
    PolledPrefix(cfg, ledger, before, event);
  }

  /** What lies before the minute of a poll is at most all. */
  lemma PolledPrefix(cfg: Config, ledger: Ledger, before: seq<Event>, event: Event)
    requires event.Polled? && Ordered(before + [event]) && ledger.cursor.Some?
    requires Mirrors(ledger.cursor, before) && Contained(ledger.rows, FirstMinute(before), EndMinute(before))
    ensures var rows, events := PolledRows(cfg, ledger, event.matches, event.now, event.uptime), before + [event];
            Unknown(rows, FirstMinute(events), MinuteOf(WholeSecond(event.now) * SECOND))
            <= Unknown(rows, FirstMinute(events), EndMinute(events))
  {
    var events := before + [event];
    var low, high := FirstMinute(events), EndMinute(events);
    CursorBeforePoll(ledger.cursor, before, event);
    WidenContained(ledger.rows, before, event);
    PollWithin(cfg, ledger, event.matches, event.now, event.uptime, low, high);
    assert events[|before|] == event;
    SecondOf(event.now);
    TotalPrefix(PolledRows(cfg, ledger, event.matches, event.now, event.uptime), low, MinuteOf(event.now), high);
  }

  lemma PollAccounted(cfg: Config, ledger: Ledger, before: seq<Event>, event: Event)
    requires event.Polled? && Ordered(before + [event])
    requires Mirrors(ledger.cursor, before) && Contained(ledger.rows, FirstMinute(before), EndMinute(before))
    requires Accounted(ledger, before)
    ensures Accounted(Poll(cfg, ledger, event.matches, event.now, event.uptime).0, before + [event])
  {
    if ledger.cursor.None? {
      FirstPollAccounted(cfg, ledger, before, event);
    } else if Observed(event.matches).None? {
      MissingAccounted(cfg, ledger, before, event);
    } else {
      ReturnAccounted(cfg, ledger, before, event);
    }
  }

  lemma {:induction false} RunAccounted(cfg: Config, events: seq<Event>)
    requires Ordered(events)
    ensures Accounted(Run(cfg, NEW_LEDGER, events), events)
  {
    if events != [] {
      var before, last := events[..|events| - 1], events[|events| - 1];
      assert before + [last] == events;
      RunAccounted(cfg, before);
      CursorMirrors(cfg, before);
      RowsContained(cfg, before);
      ApplyAccounted(cfg, Run(cfg, NEW_LEDGER, before), before, last);
    }
  }

  lemma ApplyAccounted(cfg: Config, ledger: Ledger, before: seq<Event>, event: Event)
    requires Ordered(before + [event])
    requires Mirrors(ledger.cursor, before) && Contained(ledger.rows, FirstMinute(before), EndMinute(before))
    requires Accounted(ledger, before)
    ensures Accounted(Apply(cfg, ledger, event), before + [event])
  {
    var events := before + [event];
    var low, high := FirstMinute(events), EndMinute(events);
    SpanGrows(before, event);
    assert events[..|before|] == before;
    match event
    case Downloaded(amount, at) =>
      if amount > 0 && ledger.cursor.Some? {
        DownloadKeepsTotals(ledger.rows, MinuteOf(at), amount, UnknownSeconds, low, high);
        DownloadKeepsTotals(ledger.rows, MinuteOf(at), amount, UnknownSeconds, low,
                            MinuteOf(BaselineSecond(ledger.cursor.value) * SECOND));
      }
    case Polled(now, matches, uptime) =>
      PollAccounted(cfg, ledger, before, event);
      var polled := Poll(cfg, ledger, matches, now, uptime).0;
      if ledger.cursor.Some? { CursorInSpan(ledger.cursor, before); }
      WidenContained(ledger.rows, before, event);
      PollWithin(cfg, ledger, matches, now, uptime, low, high);
      DropTotal(polled.rows, PruneMinute(cfg, now), UnknownSeconds, low, high);
      DropTotal(polled.rows, PruneMinute(cfg, now), UnknownSeconds, low,
                MinuteOf(BaselineSecond(polled.cursor.value) * SECOND));
  }

  /** However polls fail, reset or recover, the unknown time on the books never exceeds
      the whole seconds since the first poll. */
  lemma UnknownNeverDoubleCounted(cfg: Config, events: seq<Event>)
    requires Ordered(events) && LastPoll(events).Some?
    ensures var rows, low, high := Run(cfg, NEW_LEDGER, events).rows, FirstMinute(events), EndMinute(events);
            && Quiet(rows, low, high)
            && 0 <= Unknown(rows, low, high)
            && Unknown(rows, low, high) <= WholeSecond(LastPoll(events).value) - WholeSecond(FirstPoll(events).value)
  {
    PollsExist(events);
    RowsContained(cfg, events);
    CursorMirrors(cfg, events);
    RunAccounted(cfg, events);
    TotalNonNegative(Run(cfg, NEW_LEDGER, events).rows, UnknownSeconds, FirstMinute(events), EndMinute(events));
  }

  /** Polls that all fail to see the line, in order, after second `since`; nothing is old enough to prune. */
  predicate Blind(cfg: Config, polls: seq<Event>, since: int, low: int, high: int) {
    polls == [] ||
    var before, last := polls[..|polls| - 1], polls[|polls| - 1];
    && Blind(cfg, before, since, low, high)
    && last.Polled? && Observed(last.matches).None?
    && BlindUntil(before, since) * SECOND <= last.now
    && MinuteOf(last.now) < high && PruneMinute(cfg, last.now) <= low
  }

  function BlindUntil(polls: seq<Event>, since: int): int {
    if LastPoll(polls).Some? then WholeSecond(LastPoll(polls).value) else since
  }

  /** Consecutive missing polls book exactly the whole seconds they span, however many they are. */
  lemma {:induction false} BlindSpellIsItsLength(cfg: Config, ledger: Ledger, polls: seq<Event>, low: int, high: int)
    requires ledger.cursor.Some? && Contained(ledger.rows, low, high)
    requires var since := ledger.cursor.value.sampledAt;
             0 <= since && low <= MinuteOf(since * SECOND)
             && low <= MinuteOf(BaselineSecond(ledger.cursor.value) * SECOND)
             && Blind(cfg, polls, since, low, high)
    ensures var after, since := Run(cfg, ledger, polls), ledger.cursor.value.sampledAt;
            && after.cursor.Some? && after.cursor.value.sampledAt == BlindUntil(polls, since) >= since
            && low <= MinuteOf(BaselineSecond(after.cursor.value) * SECOND)
            && Contained(after.rows, low, high)
            && Unknown(after.rows, low, high) == Unknown(ledger.rows, low, high) + BlindUntil(polls, since) - since
  {
    if polls != [] {
      var before, last := polls[..|polls| - 1], polls[|polls| - 1];
      BlindSpellIsItsLength(cfg, ledger, before, low, high);
      var middle := Run(cfg, ledger, before);
      SecondOf(last.now);
      MissingPollUnknown(cfg, middle, last.matches, last.now, last.uptime, low, high);
      ApplyContained(cfg, middle, last, low, high);
      PollWithin(cfg, middle, last.matches, last.now, last.uptime, low, high);
      DropTotal(Poll(cfg, middle, last.matches, last.now, last.uptime).0.rows, PruneMinute(cfg, last.now),
                UnknownSeconds, low, high);
    }
  }

  /** A recovery that counts both directions leaves no unknown second from the baseline's minute on. */
  lemma RecoveryLeavesNothingUnknown(cfg: Config, ledger: Ledger, matches: seq<Interface>, now: int,
                                     uptime: Option<int>)
    requires ledger.cursor.Some? && Counts(ledger.cursor.value, matches, uptime)
    requires var elapsed := Max(0, now - BaselineSecond(ledger.cursor.value) * SECOND);
             && UploadValid(cfg, ledger.cursor.value, Observed(matches).value, elapsed)
             && DownloadValid(cfg, ledger.cursor.value, Observed(matches).value, elapsed)
    ensures var low, high := MinuteOf(BaselineSecond(ledger.cursor.value) * SECOND), MinuteOf(now) + 1;
            Unknown(Poll(cfg, ledger, matches, now, uptime).0.rows, low, high) == 0
  {
    var c, item := ledger.cursor.value, Observed(matches).value;
    var start := BaselineSecond(c) * SECOND;
    var cleared := ClearUnknown(ledger.rows, MinuteOf(start), MinuteOf(now));
    ClearTotal(ledger.rows, MinuteOf(start), MinuteOf(now), UnknownSeconds, MinuteOf(start), MinuteOf(now) + 1);
    var amounts := CountedAmounts(cfg, cleared, c, item, start, now);
    assert amounts.unknownSeconds == 0;
    AddIntervalTotal(cleared, start, now, amounts, CountedQuality(cfg, c, item, Max(0, now - start)), UnknownSeconds,
                     MinuteOf(start), MinuteOf(now) + 1);
  }
}
