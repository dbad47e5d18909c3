/** Which lines run: health, quarantine, quota and rotation
    (steam_pumper/fleet.py, class FleetController). */
module FleetScheduler {
  import opened Time
  import opened Ordering
  import opened LineHealth
  import opened FleetStore
  import opened TrafficLedger

  datatype Settings = Settings(limits: Limits, rotation: int, cooldown: int, targetRatio: real)

  datatype Line = Line(account: Account, startedAt: int, lastBytes: int, lastProgressAt: int, samples: seq<Sample>)

  /** What an engine shows when polled. */
  datatype Report = Report(totalBytes: int, stopped: bool)

  /** What the store knows of an account when the scheduler asks. */
  datatype Standing = Standing(upload: nat, download: nat, served: int, lastStarted: int)

  /** `active` is in order of insertion, one line an account. */
  datatype Fleet = Fleet(manualEnabled: bool, accounts: seq<Account>, quality: map<string, Verdict>,
                         active: seq<Line>, cooldowns: map<string, int>)

  function Ids(lines: seq<Line>): seq<string> {
    seq(|lines|, i requires 0 <= i < |lines| => lines[i].account.id)
  }

  predicate DistinctLines(lines: seq<Line>) {
    forall i, j :: 0 <= i < j < |lines| ==> lines[i].account.id != lines[j].account.id
  }

  function AccountIds(accounts: seq<Account>): seq<string> {
    seq(|accounts|, i requires 0 <= i < |accounts| => accounts[i].id)
  }

  function ActiveIds(fleet: Fleet): set<string> {
    Elements(Ids(fleet.active))
  }

  // ---- polling the engines

  datatype LinePoll = Healthy(line: Line) | Gone | Failed

  predicate Stalled(settings: Settings, line: Line, now: int) {
    Max(0, now - line.lastProgressAt) >= settings.limits.stall
  }

  function Updated(line: Line, report: Report, now: int): Line {
    var delta := Max(0, report.totalBytes - line.lastBytes);
    line.(lastBytes := report.totalBytes,
          samples := Appended(line.samples, Sample(now, report.totalBytes)),
          lastProgressAt := if delta > 0 then now else line.lastProgressAt)
  }

  function PollLine(settings: Settings, line: Line, report: Report, now: int): LinePoll {
    var updated := Updated(line, report, now);
    if report.stopped then Gone
    else if Stalled(settings, updated, now) then Failed
    else
      var trimmed := Trimmed(updated.samples, now - settings.limits.slowWindow);
      if Slow(settings.limits, trimmed) then Failed else Healthy(updated.(samples := trimmed))
  }

  function Outcomes(settings: Settings, lines: seq<Line>, reports: string -> Report, now: int): seq<LinePoll> {
    seq(|lines|, i requires 0 <= i < |lines| => PollLine(settings, lines[i], reports(lines[i].account.id), now))
  }

  /** The sweep over the lines: what remains, and the cooldowns with the new quarantines. */
  function Sweep(lines: seq<Line>, outcomes: seq<LinePoll>, until: int, cooldowns: map<string, int>)
    : (seq<Line>, map<string, int>)
    requires |outcomes| == |lines|
  {
    if lines == [] then ([], cooldowns)
    else
      match outcomes[0]
      case Healthy(line) =>
        var (rest, after) := Sweep(lines[1..], outcomes[1..], until, cooldowns);
        ([line] + rest, after)
      case Gone => Sweep(lines[1..], outcomes[1..], until, cooldowns)
      case Failed => Sweep(lines[1..], outcomes[1..], until, cooldowns[lines[0].account.id := until])
  }

  function EnginesSwept(settings: Settings, fleet: Fleet, reports: string -> Report, now: int): Fleet {
    var (active, cooldowns) :=
      Sweep(fleet.active, Outcomes(settings, fleet.active, reports, now), now + settings.cooldown, fleet.cooldowns);
    fleet.(active := active, cooldowns := cooldowns)
  }

  // ---- choosing lines

  /** Quota by Shanghai hour; the whole evening belongs to uploads. */
  function Desired(now: int): nat {
    var hour := LocalHour(now);
    if hour == 0 then 10 else if 1 <= hour < 7 then 20 else if 7 <= hour < 18 then 10 else 0
  }

  function Unexpired(cooldowns: map<string, int>, now: int): map<string, int> {
    map id | id in cooldowns && now < cooldowns[id] :: cooldowns[id]
  }

  predicate Usable(fleet: Fleet, account: Account, now: int) {
    && account.enabled
    && account.id !in Unexpired(fleet.cooldowns, now)
    && (account.id in fleet.quality ==> !fleet.quality[account.id].Offline? && !fleet.quality[account.id].Missing?
                                        && !fleet.quality[account.id].Ambiguous?)
  }

  function Eligible(fleet: Fleet, now: int): seq<Account> {
    Filter(fleet.accounts, account => Usable(fleet, account, now))
  }

  function EligibleIds(fleet: Fleet, now: int): set<string> {
    Elements(AccountIds(Eligible(fleet, now)))
  }

  /** A line the rotation minimum protects: eligible, young, and its engine well (`broken` are not). */
  predicate Protected(settings: Settings, fleet: Fleet, line: Line, broken: set<string>, now: int) {
    && line.account.enabled
    && line.account.id in EligibleIds(fleet, now)
    && now - line.startedAt < settings.rotation
    && line.account.id !in broken
  }

  function Guard(settings: Settings, fleet: Fleet, broken: set<string>, now: int): Line -> bool {
    line => Protected(settings, fleet, line, broken, now)
  }

  function ProtectedLines(settings: Settings, fleet: Fleet, broken: set<string>, now: int): seq<Line> {
    Filter(fleet.active, Guard(settings, fleet, broken, now))
  }

  /** The protected lines that fit the quota, oldest insertion first. */
  function Kept(settings: Settings, fleet: Fleet, broken: set<string>, now: int): seq<string> {
    Ids(First(ProtectedLines(settings, fleet, broken, now), Desired(now)))
  }

  /** Download still owed to the target ratio: ceil(upload * ratio) - download, never negative. */
  function Debt(settings: Settings, standing: Standing): int {
    Max(0, Ceiling(standing.upload as real * settings.targetRatio) - standing.download)
  }

  function Ceiling(x: real): int { -((-x).Floor) }

  predicate Owes(settings: Settings, standing: Standing) {
    standing.upload != 0 && standing.download as real < standing.upload as real * settings.targetRatio
  }

  datatype Key = Key(settled: int, minusDebt: int, served: int, lastStarted: int, id: string)

  function Priority(settings: Settings, id: string, standing: Standing): Key {
    Key(if Owes(settings, standing) then 0 else 1, -Debt(settings, standing), standing.served, standing.lastStarted, id)
  }

  /** Tuple order. */
  predicate KeyLe(a: Key, b: Key) {
    a.settled < b.settled || (a.settled == b.settled &&
      (a.minusDebt < b.minusDebt || (a.minusDebt == b.minusDebt &&
        (a.served < b.served || (a.served == b.served &&
          (a.lastStarted < b.lastStarted || (a.lastStarted == b.lastStarted && StringLe(a.id, b.id))))))))
  }

  function Before(settings: Settings, standings: string -> Standing): (Account, Account) -> bool {
    (a: Account, b: Account) => KeyLe(Priority(settings, a.id, standings(a.id)),
                                      Priority(settings, b.id, standings(b.id)))
  }

  /** The eligible accounts that no kept line serves, in order of priority. */
  function Candidates(settings: Settings, fleet: Fleet, broken: set<string>, standings: string -> Standing,
                      now: int): seq<Account> {
    var kept := Kept(settings, fleet, broken, now);
    Sort(Filter(Eligible(fleet, now), (account: Account) => account.id !in kept), Before(settings, standings))
  }

  function Chosen(settings: Settings, fleet: Fleet, broken: set<string>, standings: string -> Standing,
                  now: int): seq<Account> {
    First(Candidates(settings, fleet, broken, standings, now),
          Max(0, Desired(now) - |Kept(settings, fleet, broken, now)|))
  }

  function Selected(settings: Settings, fleet: Fleet, broken: set<string>, standings: string -> Standing,
                    now: int): set<string> {
    Elements(Kept(settings, fleet, broken, now)) + Elements(AccountIds(Chosen(settings, fleet, broken, standings, now)))
  }

  function NewLine(account: Account, now: int): Line {
    Line(account, now, 0, now, [Sample(now, 0)])
  }

  function Survivors(active: seq<Line>, selected: set<string>): seq<Line> {
    Filter(active, (line: Line) => line.account.id in selected)
  }

  /** Lines started for `ids`, in whatever order a set is walked. */
  ghost predicate Started(lines: seq<Line>, accounts: seq<Account>, ids: set<string>, now: int) {
    && DistinctLines(lines) && Elements(Ids(lines)) == ids
    && forall line :: line in lines ==> line.account in accounts && line == NewLine(line.account, now)
  }

  /** One scheduling step. */
  ghost predicate Scheduled(settings: Settings, fleet: Fleet, broken: set<string>, standings: string -> Standing,
                            now: int, after: Fleet) {
    if !fleet.manualEnabled || (forall account :: account in fleet.accounts ==> !account.enabled) then
      after == fleet.(active := [])
    else
      var selected := Selected(settings, fleet, broken, standings, now);
      var survivors := Survivors(fleet.active, selected);
      exists launched :: Started(launched, fleet.accounts, selected - ActiveIds(fleet), now)
                      && after == fleet.(active := survivors + launched, cooldowns := Unexpired(fleet.cooldowns, now))
  }

  // ---- everything that can happen to the fleet

  datatype FleetEvent =
    | EnginesPolled(now: int, reports: string -> Report)
    | SchedulerRan(now: int, broken: set<string>, standings: string -> Standing)
    | QualityRecorded(quality: map<string, Verdict>)
    | ManualSwitched(enabled: bool)
    | AccountsImported(accounts: seq<Account>)

  ghost predicate Step(settings: Settings, fleet: Fleet, event: FleetEvent, after: Fleet) {
    match event
    case EnginesPolled(now, reports) => after == EnginesSwept(settings, fleet, reports, now)
    case SchedulerRan(now, broken, standings) => Scheduled(settings, fleet, broken, standings, now, after)
    case QualityRecorded(quality) => after == fleet.(quality := quality)
    case ManualSwitched(enabled) =>
      after == fleet.(manualEnabled := enabled, active := if enabled then fleet.active else [])
    case AccountsImported(accounts) => DistinctIds(accounts) && after == fleet.(accounts := accounts, active := [])
  }

  predicate Timed(event: FleetEvent) {
    event.EnginesPolled? || event.SchedulerRan?
  }

  /** As the controller starts: nothing runs, nothing cools down. */
  function NewFleet(manualEnabled: bool, accounts: seq<Account>): Fleet {
    Fleet(manualEnabled, accounts, map[], [], map[])
  }

  ghost predicate IsRun(settings: Settings, states: seq<Fleet>, events: seq<FleetEvent>) {
    && |states| == |events| + 1
    && DistinctIds(states[0].accounts) && states[0] == NewFleet(states[0].manualEnabled, states[0].accounts)
    && forall i :: 0 <= i < |events| ==> StepAt(settings, states, events, i)
  }

  ghost predicate StepAt(settings: Settings, states: seq<Fleet>, events: seq<FleetEvent>, i: nat)
    requires i < |events| && |states| == |events| + 1
  {
    Step(settings, states[i], events[i], states[i + 1])
  }
}
