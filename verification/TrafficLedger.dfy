/** The ledger of one account: its minute rows and its SNMP cursor, and what one
    poll does to them (steam_pumper/fleet.py, FleetStore.record_snmp). */
module TrafficLedger {
  import opened Time
  import opened Wrappers
  import opened TrafficRows
  import BusinessHours

  datatype Interface = Interface(index: int, name: string, alias: string, inOctets: nat, outOctets: nat,
                                 discontinuity: Option<int>, operStatus: Option<int>)
  {
    predicate Live() { operStatus.None? || operStatus.value == 1 }
  }

  datatype Config = Config(directionSwap: bool, uploadCeilingMbps: nat, downloadCeilingMbps: nat, rollingDays: nat)

  /** Times in a cursor are whole seconds. */
  datatype Cursor = Cursor(ifIndex: Option<int>, inOctets: Option<int>, outOctets: Option<int>,
                           discontinuity: Option<int>, sampledAt: int, valid: bool,
                           baselineAt: Option<int>, uptime: Option<int>,
                           missingSince: Option<int>, operStatus: Option<int>)

  datatype Ledger = Ledger(rows: Rows, cursor: Option<Cursor>)

  datatype Verdict = Baseline | Ambiguous | Offline | Missing | ResetSeen | Counted(quality: Quality)

  const NEW_LEDGER := Ledger(map[], None)

  function LiveOnes(matches: seq<Interface>): seq<Interface> {
    if matches == [] then []
    else (if matches[0].Live() then [matches[0]] else []) + LiveOnes(matches[1..])
  }

  /** The interface a poll counts: the only live one among those bearing the account's name. */
  function Observed(matches: seq<Interface>): Option<Interface> {
    var live := LiveOnes(matches);
    if |live| == 1 then Some(live[0]) else None
  }

  function Unavailable(matches: seq<Interface>): Verdict {
    if |LiveOnes(matches)| > 1 then Ambiguous else if matches != [] then Offline else Missing
  }

  function SavedCursor(item: Interface, now: int, valid: bool, uptime: Option<int>): Cursor {
    Cursor(Some(item.index), Some(item.inOctets), Some(item.outOctets), item.discontinuity, WholeSecond(now), valid,
           Some(WholeSecond(now)), uptime, None, item.operStatus)
  }

  function MissingCursor(prior: Option<Cursor>, now: int): Cursor {
    match prior
    case None => Cursor(None, None, None, None, WholeSecond(now), false, None, None, Some(WholeSecond(now)), None)
    case Some(c) => c.(sampledAt := WholeSecond(now), valid := false,
                       missingSince := if c.missingSince.Some? then c.missingSince else Some(WholeSecond(now)))
  }

  /** Where the interval of a returning counter starts; a stored zero counts as absent. */
  function BaselineSecond(c: Cursor): int {
    if c.baselineAt.Some? && c.baselineAt.value != 0 then c.baselineAt.value else c.sampledAt
  }

  function RecentBytesAndSeconds(rows: Rows, before: int, column: Column, window: int): (int, int) {
    var low, high := MinuteOf(before - window), MinuteOf(before) + 1;
    (Total(rows, column, low, high), Total(rows, SampleSeconds, low, high))
  }

  /** Recent measured rate times the (business) time of the first half hour, rounded down. */
  function Estimate(rows: Rows, start: int, end: int, column: Column): Option<int> {
    var (bytes, seconds) := RecentBytesAndSeconds(rows, start, column, 30 * MINUTE);
    if seconds <= 0 then None
    else
      var cappedEnd := Min(end, start + 30 * MINUTE);
      var micros :=
        if column == MeasuredUpload then BusinessHours.BusinessMicros(start, cappedEnd) else Max(0, cappedEnd - start);
      Some(bytes * micros / (seconds * SECOND))
  }

  function OrZero(value: Option<int>): int {
    if value.Some? then value.value else 0
  }

  function EstimatedGap(rows: Rows, start: int, end: int): Amounts {
    var elapsed := Max(0, end - start) / SECOND;
    var upload, download := Estimate(rows, start, end, MeasuredUpload), Estimate(rows, start, end, MeasuredDownload);
    var capped := Min(elapsed, 30 * 60);
    var unknown := if upload.None? || download.None? then elapsed else Max(0, elapsed - capped);
    Amounts(0, 0, OrZero(upload), OrZero(download), unknown, capped, 1)
  }

  function Ceiling(mbps: nat, elapsed: int): int {
    mbps * elapsed * 105 / 800
  }

  function UploadOf(cfg: Config, c: Cursor, item: Interface): int
    requires c.inOctets.Some? && c.outOctets.Some?
  {
    if cfg.directionSwap then item.inOctets - c.inOctets.value else item.outOctets - c.outOctets.value
  }

  function DownloadOf(cfg: Config, c: Cursor, item: Interface): int
    requires c.inOctets.Some? && c.outOctets.Some?
  {
    if cfg.directionSwap then item.outOctets - c.outOctets.value else item.inOctets - c.inOctets.value
  }

  predicate Differ(a: Option<int>, b: Option<int>) {
    a.Some? && b.Some? && a.value != b.value
  }

  predicate Fell(before: Option<int>, after: Option<int>) {
    before.Some? && after.Some? && after.value < before.value
  }

  predicate CounterReset(c: Cursor, item: Interface) {
    || c.ifIndex.None? || c.ifIndex.value != item.index
    || c.inOctets.None? || c.outOctets.None?
    || item.inOctets < c.inOctets.value || item.outOctets < c.outOctets.value
    || Differ(c.discontinuity, item.discontinuity)
  }

  predicate UploadValid(cfg: Config, c: Cursor, item: Interface, elapsed: int)
    requires c.inOctets.Some? && c.outOctets.Some?
  {
    0 <= UploadOf(cfg, c, item) <= Ceiling(cfg.uploadCeilingMbps, elapsed)
  }

  predicate DownloadValid(cfg: Config, c: Cursor, item: Interface, elapsed: int)
    requires c.inOctets.Some? && c.outOctets.Some?
  {
    0 <= DownloadOf(cfg, c, item) <= Ceiling(cfg.downloadCeilingMbps, elapsed)
  }

  function CountedAmounts(cfg: Config, rows: Rows, c: Cursor, item: Interface, start: int, now: int): Amounts
    requires c.inOctets.Some? && c.outOctets.Some?
  {
    var elapsed := Max(0, now - start);
    var uploadValid, downloadValid := UploadValid(cfg, c, item, elapsed), DownloadValid(cfg, c, item, elapsed);
    var upload := if uploadValid then Some(0) else Estimate(rows, start, now, MeasuredUpload);
    var download := if downloadValid then Some(0) else Estimate(rows, start, now, MeasuredDownload);
    Amounts(if uploadValid then UploadOf(cfg, c, item) else 0,
            if downloadValid then DownloadOf(cfg, c, item) else 0,
            OrZero(upload), OrZero(download),
            if upload.None? || download.None? then elapsed / SECOND else 0,
            elapsed / SECOND, 0)
  }

  function CountedQuality(cfg: Config, c: Cursor, item: Interface, elapsed: int): Quality
    requires c.inOctets.Some? && c.outOctets.Some?
  {
    if !c.valid then Recovered
    else if UploadValid(cfg, c, item, elapsed) && DownloadValid(cfg, c, item, elapsed) then Quality.Ok
    else Anomaly
  }

  function PendingGapAmounts(since: int, now: int): Amounts {
    ZERO.(unknownSeconds := Max(0, now - since) / SECOND)
  }

  function Poll(cfg: Config, ledger: Ledger, matches: seq<Interface>, now: int, uptime: Option<int>)
    : (Ledger, Verdict)
  {
    var observed := Observed(matches);
    match ledger.cursor
    case None =>
      if observed.Some? then (ledger.(cursor := Some(SavedCursor(observed.value, now, true, uptime))), Baseline)
      else (ledger.(cursor := Some(MissingCursor(None, now))), Unavailable(matches))
    case Some(c) =>
      if observed.None? then
        var since := c.sampledAt * SECOND;
        (Ledger(AddInterval(ledger.rows, since, now, PendingGapAmounts(since, now), PendingGap),
                Some(MissingCursor(Some(c), now))),
         Unavailable(matches))
      else
        var item, start := observed.value, BaselineSecond(c) * SECOND;
        var cleared := ClearUnknown(ledger.rows, MinuteOf(start), MinuteOf(now));
        var saved := Some(SavedCursor(item, now, true, uptime));
        if Fell(c.uptime, uptime) || CounterReset(c, item) then
          (Ledger(AddInterval(cleared, start, now, EstimatedGap(cleared, start, now), Quality.Reset), saved), ResetSeen)
        else
          var quality := CountedQuality(cfg, c, item, Max(0, now - start));
          (Ledger(AddInterval(cleared, start, now, CountedAmounts(cfg, cleared, c, item, start, now), quality), saved),
           Counted(quality))
  }

  function PruneMinute(cfg: Config, now: int): int {
    MinuteOf(now - (cfg.rollingDays + 1) * DAY)
  }

  function Pruned(cfg: Config, ledger: Ledger, now: int): Ledger {
    ledger.(rows := DropBefore(ledger.rows, PruneMinute(cfg, now)))
  }

  // ---- runs

  datatype Event = Polled(now: int, matches: seq<Interface>, uptime: Option<int>) | Downloaded(amount: int, at: int)

  function Apply(cfg: Config, ledger: Ledger, event: Event): Ledger {
    match event
    case Polled(now, matches, uptime) => Pruned(cfg, Poll(cfg, ledger, matches, now, uptime).0, now)
    case Downloaded(amount, at) =>
      if amount <= 0 then ledger
      else ledger.(rows := AddDownload(ledger.rows, MinuteOf(at), amount))
  }

  function Run(cfg: Config, ledger: Ledger, events: seq<Event>): Ledger {
    if events == [] then ledger
    else Apply(cfg, Run(cfg, ledger, events[..|events| - 1]), events[|events| - 1])
  }
}
