/** What the circuit breaker keeps over every interleaving of claims, outcomes and reloads. */
module SourceHealthLaws {
  import opened Time
  import opened Wrappers
  import opened SourceHealth

  /** A download that was granted and has not reported back. */
  datatype Attempt = Attempt(id: nat, url: Url, epoch: nat, probe: bool)

  datatype Outcome = Failure(at: int) | Success | Cancelled

  datatype Event =
    | Ask(url: Url, now: int)
    | Finish(attempt: Attempt, outcome: Outcome)
    | Reload(urls: set<Url>)
    | Track(urls: set<Url>)

  datatype System = System(health: Health, attempts: set<Attempt>, nextId: nat)

  const START := System(Health(map[], None, 0), {}, 0)

  function Asked(system: System, url: Url, now: int): System {
    var (health, grant) := Claim(system.health, url, now);
    if !grant.allowed then system
    else System(health, system.attempts + {Attempt(system.nextId, url, grant.epoch, grant.probe)}, system.nextId + 1)
  }

  function Ended(health: Health, attempt: Attempt, outcome: Outcome): Health {
    match outcome
    case Failure(at) => Failed(health, attempt.url, attempt.epoch, at, attempt.probe).0
    case Success => Succeeded(health, attempt.url, attempt.epoch).0
    case Cancelled => if attempt.probe then Released(health, attempt.url, attempt.epoch) else health
  }

  function Finished(system: System, attempt: Attempt, outcome: Outcome): System {
    System(Ended(system.health, attempt, outcome), system.attempts - {attempt}, system.nextId)
  }

  ghost predicate Step(before: System, event: Event, after: System) {
    match event
    case Ask(url, now) => after == Asked(before, url, now)
    case Finish(attempt, outcome) => attempt in before.attempts && after == Finished(before, attempt, outcome)
    case Reload(urls) => after == before.(health := after.health) && Retained(before.health, urls, after.health)
    case Track(urls) => after == before.(health := after.health) && Tracked(before.health, urls, after.health)
  }

  ghost predicate Run(states: seq<System>, events: seq<Event>) {
    && |states| == |events| + 1 && states[0] == START
    && forall i :: 0 <= i < |events| ==> Step(states[i], events[i], states[i + 1])
  }

  // ---- Soundness: no source is stuck half-open ----

  predicate ProbeOf(attempt: Attempt, url: Url, epoch: nat) {
    attempt.probe && attempt.url == url && attempt.epoch == epoch
  }

  ghost predicate ProbeOut(system: System, url: Url) {
    exists a :: a in system.attempts && ProbeOf(a, url, EpochOf(system.health, url))
  }

  predicate InFlight(health: Health, url: Url) {
    url in health.states && health.states[url].probeInFlight
  }

  ghost predicate EpochsSound(health: Health) {
    && health.states.Keys <= TrackedUrls(health)
    && Numbered(EpochMap(health), 0, health.nextEpoch)
  }

  ghost predicate AttemptsSound(system: System) {
    forall a :: a in system.attempts ==>
      && a.id < system.nextId
      && a.epoch <= system.health.nextEpoch && (a.probe ==> a.epoch > 0)
      && (system.health.epochs.None? ==> a.epoch == 0)
  }

  ghost predicate NoneStuck(system: System) {
    forall url :: InFlight(system.health, url) ==> ProbeOut(system, url)
  }

  ghost predicate Sound(system: System) {
    EpochsSound(system.health) && AttemptsSound(system) && NoneStuck(system)
  }

  lemma EpochsStep(before: System, event: Event, after: System)
    requires EpochsSound(before.health) && Step(before, event, after)
    ensures EpochsSound(after.health) && before.health.nextEpoch <= after.health.nextEpoch
  {
    if event.Reload? || event.Track? {
      var old', new' := EpochMap(before.health), EpochMap(after.health);
      forall url | url in new' && url !in old'
        ensures url in new' - old'.Keys && (new' - old'.Keys)[url] == new'[url]
      {
      }
    }
  }

  /** A URL in either of two successive states keeps its epoch, loses it, or gets one above every
      epoch handed out before. */
  lemma EpochMoves(before: System, event: Event, after: System, url: Url)
    requires EpochsSound(before.health) && Step(before, event, after)
    ensures EpochOf(after.health, url) == EpochOf(before.health, url) || EpochOf(after.health, url) == 0
            || EpochOf(after.health, url) > before.health.nextEpoch
    ensures EpochOf(before.health, url) != 0 && EpochOf(after.health, url) != 0
            ==> EpochOf(after.health, url) == EpochOf(before.health, url)
  {
    if event.Reload? || event.Track? {
      var old', new' := EpochMap(before.health), EpochMap(after.health);
      if url in new' && url !in old' { assert url in new' - old'.Keys; }
    }
  }

  lemma AskMarks(system: System, url: Url, now: int, other: Url)
    requires EpochsSound(system.health)
    ensures Asked(system, url, now).health.epochs == system.health.epochs
    ensures system.attempts <= Asked(system, url, now).attempts
    ensures InFlight(Asked(system, url, now).health, other) && !InFlight(system.health, other)
            ==> other == url && Asked(system, url, now).attempts
                == system.attempts + {Attempt(system.nextId, url, EpochOf(system.health, url), true)}
    ensures InFlight(system.health, other) ==> InFlight(Asked(system, url, now).health, other)
  {
  }

  /** An outcome never sets a mark, its own URL's probe clears it, and only a recorded success or the
      probe itself can. */
  lemma EndMarks(health: Health, attempt: Attempt, outcome: Outcome, url: Url)
    requires EpochsSound(health) && (attempt.probe ==> attempt.epoch > 0)
    ensures Ended(health, attempt, outcome).epochs == health.epochs
    ensures Ended(health, attempt, outcome).nextEpoch == health.nextEpoch
    ensures InFlight(Ended(health, attempt, outcome), url) ==> InFlight(health, url)
    ensures ProbeOf(attempt, url, EpochOf(health, url)) ==> !InFlight(Ended(health, attempt, outcome), url)
    ensures InFlight(health, url) && !InFlight(Ended(health, attempt, outcome), url)
            ==> attempt.url == url && attempt.epoch == EpochOf(health, url) && (attempt.probe || outcome.Success?)
  {
    if attempt.url == url {} else {}
  }

  lemma ReloadMarks(before: System, event: Event, after: System, url: Url)
    requires EpochsSound(before.health) && Step(before, event, after) && (event.Reload? || event.Track?)
    ensures InFlight(after.health, url) <==> InFlight(before.health, url) && url in TrackedUrls(after.health)
    ensures InFlight(after.health, url) ==> EpochOf(after.health, url) == EpochOf(before.health, url)
  {
  }

  lemma MarkHasProbe(before: System, event: Event, after: System, url: Url)
    requires Sound(before) && Step(before, event, after) && InFlight(after.health, url)
    ensures ProbeOut(after, url)
  {
    match event
    case Ask(asked, now) =>
      AskMarks(before, asked, now, url);
      if InFlight(before.health, url) {
        var a :| a in before.attempts && ProbeOf(a, url, EpochOf(before.health, url));
        assert a in after.attempts;
      } else {
        var probe := Attempt(before.nextId, url, EpochOf(before.health, url), true);
        assert probe in after.attempts && ProbeOf(probe, url, EpochOf(after.health, url));
      }
    case Finish(attempt, outcome) =>
      EndMarks(before.health, attempt, outcome, url);
      var a :| a in before.attempts && ProbeOf(a, url, EpochOf(before.health, url));
      assert a != attempt;
      assert a in after.attempts;
    case _ =>
      ReloadMarks(before, event, after, url);
      var a :| a in before.attempts && ProbeOf(a, url, EpochOf(before.health, url));
      assert a in after.attempts;
  }

  lemma SoundStep(before: System, event: Event, after: System)
    requires Sound(before) && Step(before, event, after)
    ensures Sound(after)
  {
    EpochsStep(before, event, after);
    forall url | InFlight(after.health, url) ensures ProbeOut(after, url) {
      MarkHasProbe(before, event, after, url);
    }
  }

  /** At every moment of every run a half-open source has a probe that will still report. */
  lemma {:induction false} NoSourceStuckHalfOpen(states: seq<System>, events: seq<Event>, i: nat)
    requires Run(states, events) && i < |states|
    ensures Sound(states[i])
    ensures forall url :: InFlight(states[i].health, url) ==> ProbeOut(states[i], url)
    decreases i
  {
    if i > 0 {
      NoSourceStuckHalfOpen(states, events, i - 1);
      SoundStep(states[i - 1], events[i - 1], states[i]);
    }
  }

  // ---- Epochs: what was claimed before a URL was removed has no effect ever after ----

  /** An outcome of a stale attempt changes nothing. */
  lemma StaleChangesNothing(system: System, attempt: Attempt, outcome: Outcome)
    requires Sound(system) && EpochOf(system.health, attempt.url) != attempt.epoch
    ensures Ended(system.health, attempt, outcome) == system.health
  {
  }

  lemma {:induction false} StaleStays(states: seq<System>, events: seq<Event>, i: nat, j: nat, attempt: Attempt)
    requires Run(states, events) && i <= j < |states|
    requires attempt.epoch <= states[i].health.nextEpoch && attempt.epoch != 0
    requires EpochOf(states[i].health, attempt.url) != attempt.epoch
    ensures attempt.epoch <= states[j].health.nextEpoch
    ensures EpochOf(states[j].health, attempt.url) != attempt.epoch
    decreases j
  {
    if i < j {
      StaleStays(states, events, i, j - 1, attempt);
      NoSourceStuckHalfOpen(states, events, j - 1);
      EpochMoves(states[j - 1], events[j - 1], states[j], attempt.url);
      EpochsStep(states[j - 1], events[j - 1], states[j]);
    }
  }

  /** An attempt outstanding when its URL was not tracked has no effect at any later time, however
      often the URL has come back. */
  lemma RemovalSilences(states: seq<System>, events: seq<Event>, i: nat, j: nat, attempt: Attempt, outcome: Outcome)
    requires Run(states, events) && i <= j < |states|
    requires attempt in states[i].attempts && attempt.url !in TrackedUrls(states[i].health)
    ensures Ended(states[j].health, attempt, outcome) == states[j].health
  {
    NoSourceStuckHalfOpen(states, events, i);
    NoSourceStuckHalfOpen(states, events, j);
    if attempt.epoch != 0 {
      StaleStays(states, events, i, j, attempt);
      StaleChangesNothing(states[j], attempt, outcome);
    }
  }

  // ---- Orderly runs: one probe at a time, levels and deadlines ----

  /** No ordinary attempt succeeds while a probe of the same URL epoch is outstanding. */
  ghost predicate Orderly(system: System, event: Event) {
    event.Finish? && event.outcome.Success? && !event.attempt.probe
      && Current(system.health, event.attempt.url, event.attempt.epoch)
    ==> !ProbeOut(system, event.attempt.url)
  }

  /** What was recorded of a URL since its last success: failures, failed probes among them, and
      when the last failure that counted happened (later ones during a quarantine do not). */
  datatype Record = Record(strikes: nat, failedProbes: nat, since: int)

  function Struck(record: Record, at: int, probe: bool): Record {
    if probe then Record(record.strikes + 1, record.failedProbes + 1, at)
    else if record.strikes < 3 then Record(record.strikes + 1, record.failedProbes, at)
    else record.(strikes := record.strikes + 1)
  }

  function RecordOf(log: map<Url, Record>, url: Url): Record {
    if url in log then log[url] else Record(0, 0, 0)
  }

  /** The log as the events alone determine it. */
  function Logged(log: map<Url, Record>, before: System, event: Event): map<Url, Record> {
    match event
    case Finish(a, outcome) =>
      if !Current(before.health, a.url, a.epoch) then log
      else (match outcome
            case Failure(at) => log[a.url := Struck(RecordOf(log, a.url), at, a.probe)]
            case Success => log - {a.url}
            case Cancelled => log)
    case Reload(urls) => Only(log, urls)
    case _ => log
  }

  function LevelFor(record: Record): nat {
    if record.strikes < 3 then 0 else Min(record.failedProbes + 1, 3)
  }

  /** How long a URL is out after the last failure that counted: a second, two seconds, and from the
      third strike on ten minutes, half an hour or an hour, by the probes that have failed since. */
  function PauseFor(record: Record): int {
    match record.strikes
    case 0 => 0
    case 1 => SECOND
    case 2 => 2 * SECOND
    case _ =>
      match record.failedProbes
      case 0 => 10 * MINUTE
      case 1 => 30 * MINUTE
      case _ => 60 * MINUTE
  }

  function DeadlineFor(record: Record): int {
    record.since + PauseFor(record)
  }

  predicate Matches(state: SourceState, record: Record) {
    && state.failures == record.strikes > 0
    && (record.strikes < 3 ==> record.failedProbes == 0 && !state.probeInFlight)
    && state.level == LevelFor(record) && state.retryAfter == DeadlineFor(record)
  }

  ghost predicate AllMatch(system: System, log: map<Url, Record>) {
    && log.Keys == system.health.states.Keys
    && forall url :: url in log ==> Matches(system.health.states[url], log[url])
  }

  /** At most one probe per URL epoch is outstanding. */
  ghost predicate OneProbe(system: System) {
    forall a, b :: a in system.attempts && b in system.attempts && a.probe && ProbeOf(b, a.url, a.epoch) ==> a == b
  }

  /** The half-open mark is set exactly while a probe of the current epoch is outstanding. */
  ghost predicate Exclusive(system: System) {
    forall url :: InFlight(system.health, url) <==> ProbeOut(system, url)
  }

  ghost predicate Ordered(system: System, log: map<Url, Record>) {
    Sound(system) && AllMatch(system, log) && OneProbe(system) && Exclusive(system)
  }

  lemma RecordStep(before: SourceState, record: Record, at: int, probe: bool)
    requires if before == NEW_STATE then record == Record(0, 0, 0) else Matches(before, record)
    requires probe ==> before.probeInFlight
    ensures Matches(FailedState(before, at, probe), Struck(record, at, probe))
  {
  }

  lemma MatchFailure(before: System, log: map<Url, Record>, a: Attempt, at: int)
    requires Ordered(before, log) && a in before.attempts && Current(before.health, a.url, a.epoch)
    ensures AllMatch(Finished(before, a, Failure(at)), Logged(log, before, Finish(a, Failure(at))))
  {
    if a.probe {
      assert ProbeOf(a, a.url, EpochOf(before.health, a.url));
      assert ProbeOut(before, a.url);
      assert InFlight(before.health, a.url);
    }
    assert a.url in log ==> Matches(before.health.states[a.url], log[a.url]);
    RecordStep(StateOf(before.health, a.url), RecordOf(log, a.url), at, a.probe);
  }

  lemma MatchStep(before: System, log: map<Url, Record>, event: Event, after: System)
    requires Ordered(before, log) && Step(before, event, after)
    ensures AllMatch(after, Logged(log, before, event))
  {
    if event.Finish? && event.outcome.Failure? && Current(before.health, event.attempt.url, event.attempt.epoch) {
      MatchFailure(before, log, event.attempt, event.outcome.at);
    } else if event.Ask? {
      AskMatches(before, log, event.url, event.now);
    }
  }

  lemma AskMatches(before: System, log: map<Url, Record>, url: Url, now: int)
    requires AllMatch(before, log)
    ensures AllMatch(Asked(before, url, now), log)
  {
  }

  /** A probe is only granted while no other of that URL epoch is outstanding. */
  lemma NewProbeIsAlone(system: System, url: Url, now: int, other: Attempt)
    requires Exclusive(system) && Claim(system.health, url, now).1.probe
    requires other in system.attempts
    ensures !ProbeOf(other, url, EpochOf(system.health, url))
  {
    assert !InFlight(system.health, url);
    assert !ProbeOut(system, url);
  }

  lemma OneProbeStep(before: System, log: map<Url, Record>, event: Event, after: System)
    requires Ordered(before, log) && Step(before, event, after)
    ensures OneProbe(after)
  {
    if event.Ask? && Claim(before.health, event.url, event.now).1.probe {
      forall other | other in before.attempts ensures !ProbeOf(other, event.url, EpochOf(before.health, event.url)) {
        NewProbeIsAlone(before, event.url, event.now, other);
      }
    }
  }

  /** One direction is soundness; this is the other: an outstanding probe keeps the mark. */
  lemma ProbeKeepsMark(before: System, event: Event, after: System, probe: Attempt, url: Url)
    requires Sound(before) && OneProbe(before) && Exclusive(before)
    requires Step(before, event, after) && Orderly(before, event)
    requires probe in before.attempts && probe in after.attempts && ProbeOf(probe, url, EpochOf(after.health, url))
    ensures InFlight(after.health, url)
  {
    EpochMoves(before, event, after, url);
    assert ProbeOf(probe, url, EpochOf(before.health, url));
    assert ProbeOut(before, url) && InFlight(before.health, url);
    match event
    case Ask(asked, now) => AskMarks(before, asked, now, url);
    case Finish(attempt, outcome) =>
      EndMarks(before.health, attempt, outcome, url);
      assert attempt != probe;
    case _ => ReloadMarks(before, event, after, url);
  }

  lemma ExclusiveStep(before: System, log: map<Url, Record>, event: Event, after: System)
    requires Ordered(before, log) && Step(before, event, after) && Orderly(before, event)
    ensures Exclusive(after)
  {
    SoundStep(before, event, after);
    forall url | ProbeOut(after, url) ensures InFlight(after.health, url) {
      var p :| p in after.attempts && ProbeOf(p, url, EpochOf(after.health, url));
      if p in before.attempts {
        ProbeKeepsMark(before, event, after, p, url);
      } else {
        assert event.Ask?;
      }
    }
  }

  lemma OrderedStep(before: System, log: map<Url, Record>, event: Event, after: System)
    requires Ordered(before, log) && Step(before, event, after) && Orderly(before, event)
    ensures Ordered(after, Logged(log, before, event))
  {
    SoundStep(before, event, after);
    MatchStep(before, log, event, after);
    OneProbeStep(before, log, event, after);
    ExclusiveStep(before, log, event, after);
  }

  ghost predicate OrderlyRun(states: seq<System>, events: seq<Event>) {
    Run(states, events) && forall i :: 0 <= i < |events| ==> Orderly(states[i], events[i])
  }

  ghost function LogAt(states: seq<System>, events: seq<Event>, i: nat): map<Url, Record>
    requires |states| == |events| + 1 && i < |states|
  {
    if i == 0 then map[] else Logged(LogAt(states, events, i - 1), states[i - 1], events[i - 1])
  }

  /** In an orderly run there is at every moment at most one probe per URL epoch, the mark is set
      exactly while it runs, and every level and deadline is what the record asks for: level
      min(k + 1, 3) after k failed probes. */
  lemma {:induction false} OrderlyRunsAreOrdered(states: seq<System>, events: seq<Event>, i: nat)
    requires OrderlyRun(states, events) && i < |states|
    ensures Ordered(states[i], LogAt(states, events, i))
    decreases i
  {
    if i > 0 {
      OrderlyRunsAreOrdered(states, events, i - 1);
      OrderedStep(states[i - 1], LogAt(states, events, i - 1), events[i - 1], states[i]);
    }
  }

  /** The quarantine of a level. */
  function Sentence(level: nat): int {
    match level
    case 0 => 0
    case 1 => 10 * MINUTE
    case 2 => 30 * MINUTE
    case _ => 60 * MINUTE
  }

  /** A failed probe of level l starts a quarantine of level min(l + 1, 3) at that moment, and a late
      ordinary failure moves neither the deadline nor the level nor the mark of a running one. */
  lemma FailureMoves(states: seq<System>, events: seq<Event>, i: nat)
    requires OrderlyRun(states, events) && i < |events| && events[i].Finish? && events[i].outcome.Failure?
    requires Current(states[i].health, events[i].attempt.url, events[i].attempt.epoch)
    ensures var (url, at) := (events[i].attempt.url, events[i].outcome.at);
            var (before, after) := (StateOf(states[i].health, url), StateOf(states[i + 1].health, url));
            && (events[i].attempt.probe
                ==> && before.level > 0 && before.probeInFlight && !after.probeInFlight
                    && after.level == Min(before.level + 1, 3) && after.retryAfter == at + Sentence(after.level))
            && (!events[i].attempt.probe && before.level > 0 ==> after == before.(failures := before.failures + 1))
            && (!events[i].attempt.probe && before.level == 0 ==> after.level == if before.failures == 2 then 1 else 0)
  {
    OrderlyRunsAreOrdered(states, events, i);
    var a := events[i].attempt;
    if a.probe {
      assert ProbeOf(a, a.url, EpochOf(states[i].health, a.url));
      assert ProbeOut(states[i], a.url) && InFlight(states[i].health, a.url);
    }
  }

  /** What any failure does to any state, in runs of whatever kind: a failed probe raises the level to 1,
      2 or 3 and starts its quarantine; an ordinary one waits a second or two until the third, which
      starts a quarantine if none is running and otherwise is only counted. */
  lemma AnyFailure(state: SourceState, at: int, probe: bool)
    ensures var after := FailedState(state, at, probe);
            && after.failures == state.failures + 1
            && (probe ==> && !after.probeInFlight && after.retryAfter == at + Sentence(after.level)
                          && after.level == if state.level == 0 then 1 else if state.level == 1 then 2 else 3)
            && (!probe ==> after.probeInFlight == state.probeInFlight)
            && (!probe && state.failures < 2 ==>
                  && after.level == state.level
                  && after.retryAfter == at + if state.failures == 0 then SECOND else 2 * SECOND)
            && (!probe && state.failures >= 2 ==>
                  if state.level == 0 then after.level == 1 && after.retryAfter == at + Sentence(1)
                  else after.level == state.level && after.retryAfter == state.retryAfter)
  {
  }

  /** After k failed probes a download of the URL is granted only as a probe, only when no other is
      running, and only once the delay of level min(k + 1, 3) has passed since the last of them. */
  lemma NoClaimInQuarantine(states: seq<System>, events: seq<Event>, i: nat)
    requires OrderlyRun(states, events) && i < |events| && events[i].Ask? && states[i + 1] != states[i]
    ensures var record := RecordOf(LogAt(states, events, i), events[i].url);
            && (record.strikes > 0 ==> events[i].now >= DeadlineFor(record))
            && (record.strikes >= 3
                ==> InFlight(states[i + 1].health, events[i].url) && !ProbeOut(states[i], events[i].url))
  {
    OrderlyRunsAreOrdered(states, events, i);
  }

  /** May a download of this URL start? Before any list is tracked every URL may. */
  ghost predicate Ready(system: System, log: map<Url, Record>, url: Url, now: int) {
    var record := RecordOf(log, url);
    && Known(system.health, url)
    && (record.strikes == 0 || now >= DeadlineFor(record))
    && (record.strikes < 3 || !ProbeOut(system, url))
  }

  predicate Known(health: Health, url: Url) {
    health.epochs.None? || url in TrackedUrls(health)
  }

  lemma ClaimIsExact(system: System, log: map<Url, Record>, url: Url, now: int)
    requires Ordered(system, log)
    ensures var (grant, record) := (Claim(system.health, url, now).1, RecordOf(log, url));
            && (grant.allowed <==> Ready(system, log, url, now))
            && (grant.allowed ==> grant.retryIn == 0 && grant.epoch == EpochOf(system.health, url))
            && (grant.allowed ==> (grant.probe <==> record.strikes >= 3))
            && (!grant.allowed ==>
                  grant.retryIn == if !Known(system.health, url) then 0
                                   else if now < DeadlineFor(record) then DeadlineFor(record) - now
                                   else SECOND / 4)
  {
    if url in log {
      assert Matches(system.health.states[url], log[url]);
    }
  }

  /** Exactly when a request for a URL starts a download in an orderly run, and as what: not before the
      pause after the last counted failure is over, from the third strike on as a probe and only while
      no other is running. A refusal tells what is left of the pause, or a quarter second. */
  lemma AskIsExact(states: seq<System>, events: seq<Event>, i: nat)
    requires OrderlyRun(states, events) && i < |events| && events[i].Ask?
    ensures var (url, now, log) := (events[i].url, events[i].now, LogAt(states, events, i));
            var record := RecordOf(log, url);
            if Ready(states[i], log, url, now) then
              states[i + 1].attempts
              == states[i].attempts
                 + {Attempt(states[i].nextId, url, EpochOf(states[i].health, url), record.strikes >= 3)}
              && states[i + 1] != states[i]
            else
              states[i + 1] == states[i]
              && Claim(states[i].health, url, now).1.retryIn
                 == if !Known(states[i].health, url) then 0
                    else if now < DeadlineFor(record) then DeadlineFor(record) - now
                    else SECOND / 4
  {
    OrderlyRunsAreOrdered(states, events, i);
    ClaimIsExact(states[i], LogAt(states, events, i), events[i].url, events[i].now);
  }

  /** The walk comes to every listed source. */
  lemma CandidateOf(sources: seq<Url>, start: nat, i: nat) returns (k: nat)
    requires i < |sources|
    ensures k < |sources| && Candidate(sources, start, k) == sources[i]
  {
    var n := |sources|;
    var r, q := start % n, start / n;
    assert start == q * n + r;
    if i >= r {
      k := i - r;
      ModuloUp(i, q, n);
    } else {
      k := i + n - r;
      assert (q + 1) * n == q * n + n;
      ModuloUp(i, q + 1, n);
    }
  }

  lemma ModuloUp(i: nat, q: nat, n: nat)
    requires i < n
    ensures (q * n + i) % n == i
  {
    var m := q * n + i;
    var d := m / n - q;
    assert n * d == i - m % n;
    if d != 0 {
      FarFromZero(n, d);
    }
  }

  lemma FarFromZero(n: int, d: int)
    requires n > 0 && d != 0
    ensures n * d >= n || n * d <= -n
  {
    if d > 0 {
      AtLeastOnce(d, n);
    } else {
      AtLeastOnce(-d, n);
    }
  }

  lemma AtLeastOnce(times: int, amount: int)
    requires times >= 1 && amount >= 0
    ensures times * amount >= amount && amount * times == times * amount && amount * -times == -(times * amount)
  {
    assert (times - 1) * amount >= 0;
  }

  /** A worker never waits while a listed source may be downloaded from. */
  lemma NeverIdleBesideAReadySource(states: seq<System>, events: seq<Event>, i: nat, sources: seq<Url>, start: nat,
                                    now: int, url: Url)
    requires OrderlyRun(states, events) && i < |states| && url in sources
    requires Ready(states[i], LogAt(states, events, i), url, now)
    ensures !AllDenied(states[i].health, sources, start, |sources|, now)
  {
    OrderlyRunsAreOrdered(states, events, i);
    var j :| 0 <= j < |sources| && sources[j] == url;
    var k := CandidateOf(sources, start, j);
    ClaimIsExact(states[i], LogAt(states, events, i), url, now);
  }

  /** And what it waits otherwise is the least wait that any of them asks for. */
  lemma {:induction false} WaitIsShortest(health: Health, sources: seq<Url>, start: nat, count: nat, now: int, k: nat)
    requires k < count <= |sources|
    ensures var (wait, asked) := (ShortestWait(health, sources, start, count, now),
                                  Claim(health, Candidate(sources, start, k), now).1.retryIn);
            asked > 0 ==> 0 < wait <= asked
    decreases count
  {
    if k < count - 1 {
      WaitIsShortest(health, sources, start, count - 1, now, k);
    }
  }

  lemma {:induction false} WaitIsAsked(health: Health, sources: seq<Url>, start: nat, count: nat, now: int)
    returns (k: int)
    requires count <= |sources|
    ensures var wait := ShortestWait(health, sources, start, count, now);
            && wait >= 0
            && (wait > 0 ==> 0 <= k < count && Claim(health, Candidate(sources, start, k), now).1.retryIn == wait)
    decreases count
  {
    k := -1;
    if count > 0 {
      k := WaitIsAsked(health, sources, start, count - 1, now);
      var last := Claim(health, Candidate(sources, start, count - 1), now).1.retryIn;
      if last > 0 && last == ShortestWait(health, sources, start, count, now) {
        k := count - 1;
      }
    }
  }

  // ---- Answers ----

  /** A failure is recorded exactly in the current epoch, and a success reports a recovery exactly when
      it ends a record of the current epoch. */
  lemma OutcomesAnswer(states: seq<System>, events: seq<Event>, i: nat, url: Url, epoch: nat, now: int, probe: bool)
    requires OrderlyRun(states, events) && i < |states|
    ensures var (health, log) := (states[i].health, LogAt(states, events, i));
            var current := epoch != 0 && EpochOf(health, url) == epoch;
            && (Failed(health, url, epoch, now, probe).1 <==> current)
            && (Succeeded(health, url, epoch).1 <==> current && RecordOf(log, url).strikes > 0)
  {
    OrderlyRunsAreOrdered(states, events, i);
    var log := LogAt(states, events, i);
    assert url in log ==> Matches(states[i].health.states[url], log[url]);
  }

  /** The delay between tries doubles from one second on, up to half a minute. */
  lemma RetryDelayDoubles(failures: int)
    ensures failures <= 0 ==> RetryDelay(failures) == 0
    ensures RetryDelay(1) == SECOND
    ensures failures >= 1 ==> RetryDelay(failures + 1) == Min(2 * RetryDelay(failures), 30 * SECOND)
  {
  }

  // ---- The boundary: an ordinary success while a probe runs ----

  /** An ordinary success keeps the mark exact if and only if no probe of that URL is outstanding. */
  lemma OrderlyIsExact(system: System, log: map<Url, Record>, attempt: Attempt)
    requires Ordered(system, log) && attempt in system.attempts && !attempt.probe
    requires Current(system.health, attempt.url, attempt.epoch)
    ensures Exclusive(Finished(system, attempt, Success)) <==> !ProbeOut(system, attempt.url)
  {
    var after := Finished(system, attempt, Success);
    if ProbeOut(system, attempt.url) {
      var p :| p in system.attempts && ProbeOf(p, attempt.url, attempt.epoch);
      assert p in after.attempts && ProbeOf(p, attempt.url, EpochOf(after.health, attempt.url));
      assert ProbeOut(after, attempt.url) && !InFlight(after.health, attempt.url);
    } else {
      ExclusiveStep(system, log, Finish(attempt, Success), after);
    }
  }

  /** Four ordinary downloads outlasting a probe are enough for a second probe beside the first:
      one succeeds, three fail, and the ten minutes of the new quarantine pass. */
  lemma SecondProbe(system: System, log: map<Url, Record>, p: Attempt, a: seq<Attempt>, now: int)
    requires Ordered(system, log) && p in system.attempts && p.probe && Current(system.health, p.url, p.epoch)
    requires |a| == 4 && forall j, k :: 0 <= j < k < 4 ==> a[j] != a[k]
    requires forall k :: 0 <= k < 4 ==>
               a[k] in system.attempts && a[k].url == p.url && a[k].epoch == p.epoch && !a[k].probe
    ensures var s1 := Finished(system, a[0], Success);
            var s2 := Finished(s1, a[1], Failure(now));
            var s3 := Finished(s2, a[2], Failure(now));
            var s4 := Finished(s3, a[3], Failure(now));
            !OneProbe(Asked(s4, p.url, now + 10 * MINUTE))
  {
    var second := Attempt(system.nextId, p.url, p.epoch, true);
    assert ProbeOf(second, p.url, p.epoch) && second != p;
  }

  ghost predicate Reachable(system: System) {
    exists states: seq<System>, events: seq<Event> :: Run(states, events) && states[|events|] == system
  }

  lemma Reach(before: System, event: Event, after: System)
    requires Reachable(before) && Step(before, event, after)
    ensures Reachable(after)
  {
    var states: seq<System>, events: seq<Event> :| Run(states, events) && states[|events|] == before;
    assert Run(states + [after], events + [event]);
  }

  const MIRROR := "mirror"
  const FRESH := Health(map[], Some(map[MIRROR := 1]), 1)
  const BAD := SourceState(3, 1, 10 * MINUTE, false)

  function Ordinary(id: nat): Attempt { Attempt(id, MIRROR, 1, false) }

  function Batch(low: nat, high: nat): set<Attempt> {
    set i: nat | low <= i < high :: Ordinary(i)
  }

  lemma SevenDownloads()
    ensures Reachable(System(FRESH, Batch(0, 7), 7))
  {
    assert Run([START], []);
    assert EpochMap(FRESH) - {} == map[MIRROR := 1];
    Reach(START, Track({MIRROR}), System(FRESH, {}, 0));
    assert Batch(0, 0) == {};
    for n := 0 to 7
      invariant Reachable(System(FRESH, Batch(0, n), n))
    {
      var before := System(FRESH, Batch(0, n), n);
      forall i: nat | i < n + 1 ensures Ordinary(i) in Batch(0, n) + {Ordinary(n)} { if i < n {} }
      assert Batch(0, n + 1) == Batch(0, n) + {Ordinary(n)};
      assert EpochOf(FRESH, MIRROR) == 1;
      assert Asked(before, MIRROR, 0) == System(FRESH, Batch(0, n + 1), n + 1);
      Reach(before, Ask(MIRROR, 0), Asked(before, MIRROR, 0));
    }
  }

  function Failing(failures: nat): SourceState {
    if failures < 3 then SourceState(failures, 0, RetryDelay(failures), false) else BAD
  }

  lemma ThreeFailures()
    ensures Reachable(System(FRESH.(states := map[MIRROR := BAD]), Batch(3, 7), 7))
  {
    SevenDownloads();
    for n := 0 to 3
      invariant Reachable(System(if n == 0 then FRESH else FRESH.(states := map[MIRROR := Failing(n)]), Batch(n, 7), 7))
    {
      var before := System(if n == 0 then FRESH else FRESH.(states := map[MIRROR := Failing(n)]), Batch(n, 7), 7);
      var after := Finished(before, Ordinary(n), Failure(0));
      assert after.attempts == Batch(n + 1, 7);
      assert after.health.states == map[MIRROR := Failing(n + 1)];
      assert Ordinary(n) in before.attempts;
      Reach(before, Finish(Ordinary(n), Failure(0)), after);
    }
  }

  lemma ProbeBesideFour()
    ensures Reachable(System(FRESH.(states := map[MIRROR := BAD.(probeInFlight := true)]),
                             Batch(3, 7) + {Attempt(7, MIRROR, 1, true)}, 8))
  {
    ThreeFailures();
    var before := System(FRESH.(states := map[MIRROR := BAD]), Batch(3, 7), 7);
    var after := Asked(before, MIRROR, 10 * MINUTE);
    Reach(before, Ask(MIRROR, 10 * MINUTE), after);
    assert after.health.states == map[MIRROR := BAD.(probeInFlight := true)];
  }

  /** The situation of SecondProbe is reached: seven downloads start, three fail, the probe starts
      beside the four that are left. */
  lemma SecondProbeHappens()
    ensures exists system :: Reachable(system) && !OneProbe(system)
  {
    ProbeBesideFour();
    var probe := Attempt(7, MIRROR, 1, true);
    var p := System(FRESH.(states := map[MIRROR := BAD.(probeInFlight := true)]),
                    Batch(3, 7) + {probe}, 8);
    var q0 := Finished(p, Ordinary(3), Success);
    Reach(p, Finish(Ordinary(3), Success), q0);
    var late := Failure(10 * MINUTE);
    var q1 := Finished(q0, Ordinary(4), late);
    Reach(q0, Finish(Ordinary(4), late), q1);
    var q2 := Finished(q1, Ordinary(5), late);
    Reach(q1, Finish(Ordinary(5), late), q2);
    var q3 := Finished(q2, Ordinary(6), late);
    Reach(q2, Finish(Ordinary(6), late), q3);
    assert q3.health.states == map[MIRROR := BAD.(retryAfter := 20 * MINUTE)];
    var last := Asked(q3, MIRROR, 20 * MINUTE);
    Reach(q3, Ask(MIRROR, 20 * MINUTE), last);
    var second := Attempt(8, MIRROR, 1, true);
    assert probe in last.attempts && second in last.attempts && ProbeOf(second, MIRROR, 1);
  }
}
