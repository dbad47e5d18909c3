/** What the publisher keeps over every run and every crash point. */
module PublisherLaws {
  import opened Time
  import opened Wrappers
  import opened Calendar
  import opened Manifest
  import opened Publisher
  import SourceManager

  datatype World = World(store: Store, state: State, now: int)

  datatype Event =
    | Publish(now: int, results: seq<Probe>, envelope: Bytes, releasePut: Effect, latestPut: Effect, stateWrite: Effect)
    | NoteFailure(now: int, failures: nat, nextRetry: int)
    | NoteSuccess(now: int)

  ghost predicate Step(config: Config, before: World, event: Event, after: World) {
    0 <= before.now <= event.now == after.now &&
    match event
    case Publish(now, results, envelope, releasePut, latestPut, stateWrite) =>
      var r := Transaction(config, before.store, before.state, now, results, envelope, releasePut, latestPut,
                           stateWrite);
      after.store == r.0 && after.state == r.1
    case NoteFailure(_, failures, nextRetry) =>
      after.store == before.store && after.state == FailureNoted(before.state, failures, nextRetry)
    case NoteSuccess(now) => after.store == before.store && after.state == SuccessNoted(before.state, now)
  }

  ghost predicate Run(config: Config, states: seq<World>, events: seq<Event>) {
    && |states| == |events| + 1
    && states[0].store == Store(map[], None) && states[0].state == State(0, None, 0, None) && states[0].now >= 0
    && forall i :: 0 <= i < |events| ==> Step(config, states[i], events[i], states[i + 1])
  }

  /** The revision of latest.json; 0 when there is none. */
  function LatestRevision(config: Config, store: Store): int {
    if store.latest.None? then 0 else SourceManager.RevisionOf(config.verify, store.latest.value)
  }

  /** The local day latest.json was generated on. */
  function LatestDay(config: Config, store: Store): int {
    if store.latest.None? then -1
    else
      var document := config.verify(store.latest.value);
      if document.None? then -1 else LocalDate(document.value.generatedAt)
  }

  /** latest.json, if it exists, has a byte-identical release under its revision, was generated in the
      past, and the local revision is not ahead of it. */
  ghost predicate Sound(config: Config, world: World) {
    && !Recovered(config, world.store).Invalid?
    && 0 <= world.state.lastRevision <= LatestRevision(config, world.store)
    && (world.store.latest.Some? ==> Recovered(config, world.store).document.generatedAt <= world.now)
  }

  ghost predicate WriteOnce(before: map<int, Bytes>, after: map<int, Bytes>) {
    forall r :: r in before ==> r in after && after[r] == before[r]
  }

  /** Does `store` hold this envelope as latest.json and as the release of this revision? */
  ghost predicate Published(store: Store, revision: int, envelope: Bytes) {
    store.latest == Some(envelope) && revision in store.releases && store.releases[revision] == envelope
  }

  /** Whatever becomes of the effects: releases are only added, and latest.json and the local revision
      stay as they were unless the release is there as well. */
  lemma EffectsInOrder(store: Store, state: State, now: int, revision: int, envelope: Bytes,
                       releasePut: Effect, latestPut: Effect, stateWrite: Effect)
    ensures var (after, saved, done) := Effects(store, state, now, revision, envelope, releasePut, latestPut,
                                                stateWrite);
            && WriteOnce(store.releases, after.releases)
            && ((after.latest == store.latest && saved == state) || Published(after, revision, envelope))
            && (saved == state || saved.lastRevision == revision)
            && (done ==> Published(after, revision, envelope) && saved.lastRevision == revision)
  {
  }

  function CandidateOf(config: Config, world: World, event: Event): Option<Document>
    requires event.Publish? && event.now >= 0
  {
    Candidate(config, world.store, world.state, event.now, event.results, event.envelope)
  }

  /** A publication leaves latest.json alone, or puts the candidate there beside its release. */
  lemma PublicationMoves(config: Config, before: World, event: Event, after: World)
    requires event.Publish? && event.now >= 0 && Step(config, before, event, after)
    ensures WriteOnce(before.store.releases, after.store.releases)
    ensures var (recovery, c) := (Recovered(config, before.store), CandidateOf(config, before, event));
            || (after.store.latest == before.store.latest && after.state.lastRevision == before.state.lastRevision)
            || (after.store == before.store && AlreadyToday(before.state, recovery, event.now)
                && after.state.lastRevision == recovery.document.revision)
            || (c.Some? && Published(after.store, c.value.revision, event.envelope)
                && after.state.lastRevision in {before.state.lastRevision, c.value.revision})
  {
    var c := CandidateOf(config, before, event);
    if c.Some? {
      EffectsInOrder(before.store, before.state, event.now, c.value.revision, event.envelope,
                     event.releasePut, event.latestPut, event.stateWrite);
    }
  }

  lemma SoundStep(config: Config, before: World, event: Event, after: World)
    requires Sound(config, before) && Step(config, before, event, after)
    ensures Sound(config, after)
  {
    if event.Publish? {
      PublicationMoves(config, before, event, after);
      CandidateFacts(config, before, event);
      var c := CandidateOf(config, before, event);
      if after.store.latest == before.store.latest {
        SameLatest(config, before.store, after.store);
      } else {
        NewLatest(config, after.store, c.value, event.envelope);
      }
    }
  }

  lemma NewLatest(config: Config, store: Store, document: Document, envelope: Bytes)
    requires config.verify(envelope) == Some(document)
    requires document.schema == 1 && FourteenDigits(document.revision)
    requires Published(store, document.revision, envelope)
    ensures Recovered(config, store) == Found(document, envelope) && LatestRevision(config, store) == document.revision
    ensures LatestDay(config, store) == LocalDate(document.generatedAt)
  {
  }

  lemma SameLatest(config: Config, before: Store, after: Store)
    requires WriteOnce(before.releases, after.releases) && after.latest == before.latest
    requires !Recovered(config, before).Invalid?
    ensures Recovered(config, after) == Recovered(config, before)
    ensures LatestRevision(config, after) == LatestRevision(config, before)
  {
  }

  /** A document to be published has a greater revision than anything before, and a new day. */
  lemma CandidateFacts(config: Config, world: World, event: Event)
    requires Sound(config, world) && event.Publish? && 0 <= world.now <= event.now
    ensures var c := CandidateOf(config, world, event);
            c.Some? ==>
              && config.verify(event.envelope) == c && c.value.schema == 1 && FourteenDigits(c.value.revision)
              && c.value.revision > LatestRevision(config, world.store)
              && c.value.generatedAt <= event.now && LocalDate(c.value.generatedAt) == LocalDate(event.now)
              && LocalDate(c.value.generatedAt) > LatestDay(config, world.store)
  {
    if CandidateOf(config, world, event).Some? {
      BuiltToday(config, world, event);
      LaterDay(config, world, event.now);
      SameDay(event.now);
    }
  }

  lemma SameDay(now: int)
    ensures Timestamp(now) <= now && LocalDate(Timestamp(now)) == LocalDate(now)
  {
  }

  /** What was not published on this day was published on an earlier one, or never. */
  lemma LaterDay(config: Config, world: World, now: int)
    requires Sound(config, world) && 0 <= world.now <= now
    requires !AlreadyToday(world.state, Recovered(config, world.store), now)
    ensures LatestDay(config, world.store) < LocalDate(now)
  {
    if world.store.latest.Some? {
      assert LatestDay(config, world.store) == LocalDate(Recovered(config, world.store).document.generatedAt);
    }
  }

  lemma BuiltToday(config: Config, world: World, event: Event)
    requires Sound(config, world) && event.Publish? && 0 <= world.now <= event.now
    ensures var c := CandidateOf(config, world, event);
            c.Some? ==>
              && config.verify(event.envelope) == c && c.value.schema == 1 && FourteenDigits(c.value.revision)
              && c.value.revision > LatestRevision(config, world.store) && c.value.generatedAt == Timestamp(event.now)
              && !AlreadyToday(world.state, Recovered(config, world.store), event.now)
  {
  }

  lemma {:induction false} RunsAreSound(config: Config, states: seq<World>, events: seq<Event>, i: nat)
    requires Run(config, states, events) && i < |states|
    ensures Sound(config, states[i]) && states[i].now >= 0
    decreases i
  {
    if i > 0 {
      RunsAreSound(config, states, events, i - 1);
      SoundStep(config, states[i - 1], events[i - 1], states[i]);
    }
  }

  lemma OnwardTransitive(config: Config, a: World, b: World, c: World)
    requires Onward(config, a, b) && Onward(config, b, c)
    ensures Onward(config, a, c)
  {
  }

  /** From one moment to a later one: releases are only added, a replaced latest.json has a greater
      revision and a later day, and the local revision does not fall. */
  ghost predicate Onward(config: Config, before: World, after: World) {
    && WriteOnce(before.store.releases, after.store.releases)
    && before.state.lastRevision <= after.state.lastRevision
    && (after.store.latest != before.store.latest ==>
          && after.store.latest.Some?
          && LatestRevision(config, after.store) > LatestRevision(config, before.store)
          && LatestDay(config, after.store) > LatestDay(config, before.store))
  }

  lemma OnwardStep(config: Config, before: World, event: Event, after: World)
    requires Sound(config, before) && Step(config, before, event, after)
    ensures Onward(config, before, after)
    ensures after.store.latest != before.store.latest ==> LatestDay(config, after.store) == LocalDate(event.now)
  {
    if event.Publish? {
      PublicationMoves(config, before, event, after);
      CandidateFacts(config, before, event);
      if after.store.latest != before.store.latest {
        NewLatest(config, after.store, CandidateOf(config, before, event).value, event.envelope);
      }
    }
  }

  lemma NextOnward(config: Config, states: seq<World>, events: seq<Event>, i: nat)
    requires Run(config, states, events) && i < |events|
    ensures Onward(config, states[i], states[i + 1])
  {
    RunsAreSound(config, states, events, i);
    OnwardStep(config, states[i], events[i], states[i + 1]);
  }

  ghost predicate OnwardAt(config: Config, states: seq<World>, i: nat)
    requires i + 1 < |states|
  {
    Onward(config, states[i], states[i + 1])
  }

  lemma {:induction false} OnwardThroughout(config: Config, states: seq<World>, i: nat, j: nat)
    requires i <= j < |states| && forall k :: 0 <= k < |states| - 1 ==> OnwardAt(config, states, k)
    ensures Onward(config, states[i], states[j])
    decreases j
  {
    if i < j {
      OnwardThroughout(config, states, i, j - 1);
      assert OnwardAt(config, states, j - 1);
      OnwardTransitive(config, states[i], states[j - 1], states[j]);
    }
  }

  /** Over every run and crash point: write-once releases, and revisions and days of latest.json that
      grow strictly with each replacement. */
  lemma RunsGoOnward(config: Config, states: seq<World>, events: seq<Event>, i: nat, j: nat)
    requires Run(config, states, events) && i <= j < |states|
    ensures Onward(config, states[i], states[j])
  {
    forall k | 0 <= k < |states| - 1 ensures OnwardAt(config, states, k) {
      NextOnward(config, states, events, k);
    }
    OnwardThroughout(config, states, i, j);
  }

  /** Two replacements of latest.json never happen on the same local day. */
  lemma OncePerDay(config: Config, states: seq<World>, events: seq<Event>, i: nat, j: nat)
    requires Run(config, states, events) && i < j < |events|
    requires states[i + 1].store.latest != states[i].store.latest
    requires states[j + 1].store.latest != states[j].store.latest
    ensures LocalDate(events[i].now) < LocalDate(events[j].now)
  {
    RunsAreSound(config, states, events, i);
    OnwardStep(config, states[i], events[i], states[i + 1]);
    RunsGoOnward(config, states, events, i + 1, j);
    RunsAreSound(config, states, events, j);
    OnwardStep(config, states[j], events[j], states[j + 1]);
  }

  /** A run on the day of latest.json, such as the one after a crash that came between the upload and
      the state write, publishes nothing and brings the local revision up to it. */
  lemma NextRunFinishes(config: Config, world: World, event: Event, after: World)
    requires Sound(config, world) && Step(config, world, event, after) && event.Publish? && event.stateWrite.Done?
    requires world.store.latest.Some? && LatestDay(config, world.store) == LocalDate(event.now)
    ensures after.store == world.store && after.state.lastRevision == LatestRevision(config, world.store)
    ensures after.state.failures == 0
  {
  }

  /** A run that reports success has brought the local revision up to latest.json. */
  lemma SuccessIsCommitted(config: Config, world: World, event: Event, after: World)
    requires Sound(config, world) && Step(config, world, event, after) && event.Publish?
    requires Transaction(config, world.store, world.state, event.now, event.results, event.envelope,
                         event.releasePut, event.latestPut, event.stateWrite).2.Success?
    ensures after.store.latest.Some? && after.state.lastRevision == LatestRevision(config, after.store)
    ensures LatestDay(config, after.store) == LocalDate(event.now)
  {
    CandidateFacts(config, world, event);
  }

  /** The scheduler's notes leave the revision and the store alone. */
  lemma NotesKeepRevision(config: Config, before: World, event: Event, after: World)
    requires Step(config, before, event, after) && !event.Publish?
    ensures after.state.lastRevision == before.state.lastRevision && after.store == before.store
    ensures event.NoteFailure? ==>
              && after.state.failures == event.failures && after.state.lastSuccess == before.state.lastSuccess
              && after.state.nextRetry == Some(WholeSecond(event.nextRetry) * SECOND)
    ensures event.NoteSuccess? ==>
              && after.state.failures == 0 && after.state.nextRetry.None?
              && after.state.lastSuccess == Some(WholeSecond(event.now) * SECOND)
  {
  }

  // ---- When a run publishes ----

  /** A probe that succeeded and is no slower than the least speed asked for. */
  predicate Quick(config: Config, probe: Probe) {
    probe.success && match probe.speed
                     case Finite(mbps) => mbps >= config.minMbps
                     case Infinite => true
                     case NotANumber => false
  }

  function QuickOnes(config: Config, probes: seq<Probe>): seq<Probe>
    decreases |probes|
  {
    if probes == [] then []
    else (if Quick(config, probes[0]) then [probes[0]] else []) + QuickOnes(config, probes[1..])
  }

  lemma {:induction false} QuickAreFast(config: Config, probes: seq<Probe>)
    ensures QuickOnes(config, probes) == Fast(config, probes)
    decreases |probes|
  {
    if probes != [] {
      QuickAreFast(config, probes[1..]);
    }
  }

  /** A commit is found exactly if latest.json verifies, is of the first schema, has a revision of
      fourteen digits, and a release under it with the same bytes. */
  lemma FoundWhen(config: Config, store: Store)
    ensures Recovered(config, store) == Absent <==> store.latest.None?
    ensures Recovered(config, store).Found? <==>
              && store.latest.Some? && config.verify(store.latest.value).Some?
              && var (envelope, document) := (store.latest.value, config.verify(store.latest.value).value);
                 && document.schema == 1 && 9_999_999_999_999 < document.revision < 100_000_000_000_000
                 && document.revision in store.releases && store.releases[document.revision] == envelope
    ensures Recovered(config, store).Found? ==>
              Recovered(config, store).document == config.verify(store.latest.value).value
              && store.latest == Some(Recovered(config, store).envelope)
  {
  }

  /** What a run may publish: the quick probes, at its time, above the revision of latest.json. */
  function Draft(config: Config, world: World, event: Event): Document
    requires event.Publish? && event.now >= 0
  {
    Build(QuickOnes(config, event.results), event.now, config.maxHealthy, LatestRevision(config, world.store))
  }

  /** It does if nothing was published that day, enough sources are quick, what was signed verifies as the
      draft, the revision has fourteen digits, and no other release stands in its place. */
  ghost predicate Publishes(config: Config, world: World, event: Event)
    requires event.Publish? && event.now >= 0
  {
    var draft := Draft(config, world, event);
    && LatestDay(config, world.store) != LocalDate(event.now)
    && |QuickOnes(config, event.results)| >= config.minHealthy
    && config.verify(event.envelope) == Some(draft)
    && 9_999_999_999_999 < draft.revision < 100_000_000_000_000
    && (draft.revision in world.store.releases ==> world.store.releases[draft.revision] == event.envelope)
  }

  predicate EffectsDone(event: Event) {
    event.Publish? && event.releasePut.Done? && event.latestPut.Done? && event.stateWrite.Done?
  }

  /** Exactly what a run does whose effects succeed: it publishes, or finds the day's publication and
      catches up with it, or fails and leaves everything alone. */
  lemma PublicationIsExact(config: Config, before: World, event: Event, after: World)
    requires Sound(config, before) && Step(config, before, event, after) && EffectsDone(event)
    ensures var result := Transaction(config, before.store, before.state, event.now, event.results, event.envelope,
                                      event.releasePut, event.latestPut, event.stateWrite).2;
            var (draft, saved) := (Draft(config, before, event), Some(WholeSecond(event.now) * SECOND));
            if LatestDay(config, before.store) == LocalDate(event.now) then
              && after.store == before.store && result.Success?
              && after.state == State(LatestRevision(config, before.store), saved, 0, None)
            else if Publishes(config, before, event) then
              && after.store == Store(before.store.releases[draft.revision := event.envelope], Some(event.envelope))
              && after.state == State(draft.revision, saved, 0, None)
              && result == Success(draft.revision, |QuickOnes(config, event.results)|, event.envelope)
            else after.store == before.store && after.state == before.state && result == Raised
  {
    QuickAreFast(config, event.results);
    PreviousIsLatest(config, before);
    TodayIs(config, before, event.now);
    if LatestDay(config, before.store) != LocalDate(event.now) {
      CandidateWhen(config, before, event);
    }
  }

  /** On the day of latest.json a run only saves the state, and succeeds, with the number of sources
      published, if it knows that it has. */
  lemma TodayFates(config: Config, before: World, event: Event, after: World)
    requires Sound(config, before) && Step(config, before, event, after) && event.Publish?
    requires LatestDay(config, before.store) == LocalDate(event.now)
    ensures before.store.latest.Some? && config.verify(before.store.latest.value).Some?
    ensures var (latest, revision) := (before.store.latest.value, LatestRevision(config, before.store));
            && after.store == before.store
            && after.state == (if event.stateWrite.NotDone? then before.state
                               else State(revision, Some(WholeSecond(event.now) * SECOND), 0, None))
            && ResultOf(config, before, event)
               == if event.stateWrite.Done? then Success(revision, |config.verify(latest).value.sources|,
                                                         latest) else Raised
  {
    TodayIs(config, before, event.now);
    FoundWhen(config, before.store);
    assert before.store.latest.Some?;
  }

  function ResultOf(config: Config, world: World, event: Event): Result
    requires event.Publish? && event.now >= 0
  {
    Transaction(config, world.store, world.state, event.now, event.results, event.envelope,
                event.releasePut, event.latestPut, event.stateWrite).2
  }

  /** How far a publication comes: the release first, unless it is there already; latest.json only when
      the release is known to be there; the state only when latest.json is known to be; and success only
      when the state is known to be written. What happens unknown to the run still happens. */
  lemma PublicationFates(config: Config, before: World, event: Event, after: World)
    requires Sound(config, before) && Step(config, before, event, after) && event.Publish?
    requires Publishes(config, before, event)
    ensures var draft := Draft(config, before, event);
            var released := draft.revision in before.store.releases || !event.releasePut.NotDone?;
            var known := draft.revision in before.store.releases || event.releasePut.Done?;
            var latest := known && !event.latestPut.NotDone?;
            var stated := known && event.latestPut.Done? && !event.stateWrite.NotDone?;
            && after.store.releases
               == (if released then before.store.releases[draft.revision := event.envelope] else before.store.releases)
            && after.store.latest == (if latest then Some(event.envelope) else before.store.latest)
            && after.state == (if stated then State(draft.revision, Some(WholeSecond(event.now) * SECOND), 0, None)
                               else before.state)
            && ResultOf(config, before, event)
               == if known && event.latestPut.Done? && event.stateWrite.Done? then
                    Success(draft.revision, |QuickOnes(config, event.results)|, event.envelope)
                  else Raised
  {
    QuickAreFast(config, event.results);
    TodayIs(config, before, event.now);
    CandidateWhen(config, before, event);
  }

  /** Nothing happens on any other day to a run that has nothing to publish. */
  lemma NothingToPublish(config: Config, before: World, event: Event, after: World)
    requires Sound(config, before) && Step(config, before, event, after) && event.Publish?
    requires LatestDay(config, before.store) != LocalDate(event.now) && !Publishes(config, before, event)
    ensures after.store == before.store && after.state == before.state && ResultOf(config, before, event) == Raised
  {
    QuickAreFast(config, event.results);
    TodayIs(config, before, event.now);
    CandidateWhen(config, before, event);
  }

  lemma PreviousIsLatest(config: Config, world: World)
    requires Sound(config, world)
    ensures PreviousRevision(world.state, Recovered(config, world.store)) == LatestRevision(config, world.store)
  {
  }

  lemma TodayIs(config: Config, world: World, now: int)
    requires Sound(config, world) && now >= 0
    ensures AlreadyToday(world.state, Recovered(config, world.store), now)
            <==> LatestDay(config, world.store) == LocalDate(now)
  {
    assert LocalDate(now) >= 0;
  }

  lemma CandidateWhen(config: Config, world: World, event: Event)
    requires Sound(config, world) && event.Publish? && event.now >= 0
    requires LatestDay(config, world.store) != LocalDate(event.now)
    ensures var draft := Draft(config, world, event);
            CandidateOf(config, world, event)
            == if |QuickOnes(config, event.results)| >= config.minHealthy
            && config.verify(event.envelope) == Some(draft)
                  && 9_999_999_999_999 < draft.revision < 100_000_000_000_000
               then Some(draft) else None
  {
    QuickAreFast(config, event.results);
    PreviousIsLatest(config, world);
    TodayIs(config, world, event.now);
  }

  // ---- Revisions are the clock's ----

  /** The revision of latest.json is the instant it was generated, written out. */
  ghost predicate ClockStamped(config: Config, store: Store) {
    Recovered(config, store).Found? ==>
      var document := Recovered(config, store).document;
      document.generatedAt >= 0 && document.revision == Stamp(document.generatedAt)
  }

  lemma StampOfTimestamp(t: int)
    requires t >= 0
    ensures 0 <= Timestamp(t) && Stamp(Timestamp(t)) == Stamp(t)
  {
    assert LocalDate(Timestamp(t)) == LocalDate(t);
    assert SecondOfDay(Timestamp(t)) == SecondOfDay(t);
  }

  /** A replacement is on a later day, so the clock has left the last revision behind. */
  lemma CandidateIsStamped(config: Config, world: World, event: Event)
    requires Sound(config, world) && ClockStamped(config, world.store) && event.Publish? && 0 <= world.now <= event.now
    ensures var c := CandidateOf(config, world, event);
            c.Some? ==>
              && c == Some(Build(Fast(config, event.results), event.now, config.maxHealthy,
                                 PreviousRevision(world.state, Recovered(config, world.store))))
              && PreviousRevision(world.state, Recovered(config, world.store)) < Stamp(event.now) == c.value.revision
  {
    CandidateFacts(config, world, event);
    CandidateIsBuilt(config, world, event);
    if CandidateOf(config, world, event).Some? {
      ClockIsAhead(config, world, event.now);
    }
  }

  lemma CandidateIsBuilt(config: Config, world: World, event: Event)
    requires event.Publish? && 0 <= event.now
    ensures var c := CandidateOf(config, world, event);
            c.Some? ==> c == Some(Build(Fast(config, event.results), event.now, config.maxHealthy,
                                        PreviousRevision(world.state, Recovered(config, world.store))))
  {
  }

  /** On a later day the clock's revision is beyond every revision known. */
  lemma ClockIsAhead(config: Config, world: World, now: int)
    requires Sound(config, world) && ClockStamped(config, world.store) && 0 <= world.now <= now
    requires LatestDay(config, world.store) < LocalDate(now)
    ensures PreviousRevision(world.state, Recovered(config, world.store)) < Stamp(now)
  {
    StampPositive(now);
    if world.store.latest.Some? {
      var generatedAt := Recovered(config, world.store).document.generatedAt;
      assert LatestDay(config, world.store) == LocalDate(generatedAt);
      LaterDate(generatedAt, now);
    }
  }

  lemma StampedStep(config: Config, before: World, event: Event, after: World)
    requires Sound(config, before) && ClockStamped(config, before.store) && Step(config, before, event, after)
    ensures ClockStamped(config, after.store)
  {
    if event.Publish? {
      PublicationMoves(config, before, event, after);
      if after.store.latest == before.store.latest {
        SameLatest(config, before.store, after.store);
      } else {
        NewIsStamped(config, before, event, after.store);
      }
    }
  }

  lemma NewIsStamped(config: Config, before: World, event: Event, store: Store)
    requires Sound(config, before) && ClockStamped(config, before.store) && event.Publish?
             && 0 <= before.now <= event.now
    requires var c := CandidateOf(config, before, event); c.Some? && Published(store, c.value.revision, event.envelope)
    ensures ClockStamped(config, store)
  {
    CandidateFacts(config, before, event);
    CandidateIsStamped(config, before, event);
    StampOfTimestamp(event.now);
    NewLatest(config, store, CandidateOf(config, before, event).value, event.envelope);
  }

  /** Over every run and crash point the revision of latest.json is the clock's, never one counted up. */
  lemma {:induction false} RevisionsAreStamps(config: Config, states: seq<World>, events: seq<Event>, i: nat)
    requires Run(config, states, events) && i < |states|
    ensures ClockStamped(config, states[i].store)
    decreases i
  {
    if i > 0 {
      RevisionsAreStamps(config, states, events, i - 1);
      RunsAreSound(config, states, events, i - 1);
      StampedStep(config, states[i - 1], events[i - 1], states[i]);
    }
  }

  /** The probes a run publishes. */
  function PublishedProbes(config: Config, event: Event): seq<Probe>
    requires event.Publish?
  {
    Chosen(Fast(config, event.results), config.maxHealthy)
  }

  /** latest.json as a run has put it there is accepted by the downloader exactly if its probes are
      publishable, and then from ten minutes before its generation until 72 hours after. */
  lemma LatestIsAccepted(config: Config, states: seq<World>, events: seq<Event>, i: nat,
                         downloader: SourceManager.Config, now: int)
    requires Run(config, states, events) && i < |events| && states[i + 1].store.latest != states[i].store.latest
    requires downloader.verify == config.verify && DateOf(events[i].now).year <= 9999
    ensures states[i + 1].store.latest.Some?
    ensures var manifest := SourceManager.Read(downloader, states[i + 1].store.latest.value, now, false);
            && (manifest.Some? <==>
                  && Publishable(downloader.rules, PublishedProbes(config, events[i]), events[i].now)
                  && Timestamp(events[i].now) - 10 * MINUTE <= now < Timestamp(events[i].now) + 72 * HOUR)
            && (manifest.Some? ==> manifest.value.revision == Stamp(events[i].now))
  {
    RunsAreSound(config, states, events, i);
    RevisionsAreStamps(config, states, events, i);
    NewIsCandidate(config, states[i], events[i], states[i + 1]);
    CandidateIsAccepted(config, states[i], events[i], downloader, now);
  }

  lemma NewIsCandidate(config: Config, before: World, event: Event, after: World)
    requires Step(config, before, event, after) && after.store.latest != before.store.latest
    ensures event.Publish? && CandidateOf(config, before, event).Some? && after.store.latest == Some(event.envelope)
  {
    if event.Publish? {
      PublicationMoves(config, before, event, after);
    }
  }

  lemma CandidateIsAccepted(config: Config, world: World, event: Event, downloader: SourceManager.Config, now: int)
    requires Sound(config, world) && ClockStamped(config, world.store) && event.Publish? && 0 <= world.now <= event.now
    requires CandidateOf(config, world, event).Some?
    requires downloader.verify == config.verify && DateOf(event.now).year <= 9999
    ensures var manifest := SourceManager.Read(downloader, event.envelope, now, false);
            && (manifest.Some? <==>
                  && Publishable(downloader.rules, PublishedProbes(config, event), event.now)
                  && Timestamp(event.now) - 10 * MINUTE <= now < Timestamp(event.now) + 72 * HOUR)
            && (manifest.Some? ==> manifest.value.revision == Stamp(event.now))
  {
    var previous := PreviousRevision(world.state, Recovered(config, world.store));
    CandidateFacts(config, world, event);
    CandidateIsStamped(config, world, event);
    StampValid(event.now);
    AcceptedUntilExpiry(downloader.rules, Fast(config, event.results), event.now, config.maxHealthy, previous, now);
  }

  /** From publisher to downloader: a downloader that holds what latest.json was at some time accepts
      what it is at any later time, if it can read it at all. It never sees a rollback. */
  lemma DownloaderFollows(config: Config, states: seq<World>, events: seq<Event>, i: nat, j: nat,
                          downloader: SourceManager.Config, memory: SourceManager.Memory, etag: SourceManager.Tag,
                          now: int)
    requires Run(config, states, events) && i <= j < |states|
    requires states[i].store.latest.Some? && states[j].store.latest.Some? && downloader.verify == config.verify
    requires memory.envelope == states[i].store.latest
    requires memory.manifest.Some?
             && memory.manifest == SourceManager.Read(downloader, states[i].store.latest.value, now, true)
    ensures var fetched := SourceManager.Fetched(states[j].store.latest.value, etag);
            SourceManager.Accepted(downloader, memory, fetched, now)
            == SourceManager.Read(downloader, states[j].store.latest.value, now, false)
  {
    RunsGoOnward(config, states, events, i, j);
  }

  /** And reads it, while it is valid: whichever earlier latest.json it holds, it accepts the current one
      exactly then. */
  lemma DownloaderAccepts(config: Config, states: seq<World>, events: seq<Event>, k: nat, i: nat, j: nat,
                          downloader: SourceManager.Config, memory: SourceManager.Memory, etag: SourceManager.Tag,
                          now: int)
    requires Run(config, states, events) && i < j < |states| && k <= j && states[k].store.latest.Some?
    requires states[i + 1].store.latest != states[i].store.latest
             && states[j].store.latest == states[i + 1].store.latest
    requires downloader.verify == config.verify && DateOf(events[i].now).year <= 9999
    requires memory.envelope == states[k].store.latest
    requires memory.manifest.Some?
             && memory.manifest == SourceManager.Read(downloader, states[k].store.latest.value, now, true)
    ensures states[j].store.latest.Some?
    ensures var fetched := SourceManager.Fetched(states[j].store.latest.value, etag);
            var accepted := SourceManager.Accepted(downloader, memory, fetched, now);
            && (accepted.Some? <==>
                  && Publishable(downloader.rules, PublishedProbes(config, events[i]), events[i].now)
                  && Timestamp(events[i].now) - 10 * MINUTE <= now < Timestamp(events[i].now) + 72 * HOUR)
            && (accepted.Some? ==> accepted.value.revision == Stamp(events[i].now))
  {
    LatestIsAccepted(config, states, events, i, downloader, now);
    DownloaderFollows(config, states, events, k, j, downloader, memory, etag, now);
  }
}
