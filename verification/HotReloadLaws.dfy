/** The hot reload over every run of results, retries, signals, exits, restarts and rebuilds. */
module HotReloadLaws {
  import opened Time
  import opened Wrappers
  import opened HotReload

  /** `latest` is the revision of the last result that brought a list, or of the loaded one. */
  datatype World = World(engines: seq<Engine>, pool: Pool, latest: int)

  datatype Event =
    | Result(refresh: Refresh, now: int, luck: seq<Luck>)
    | Advance(now: int, luck: seq<Luck>)
    | Start(line: nat, launch: Launch)
    | HandleSignal(line: nat, readable: bool)
    | Hear(line: nat)
    | Exit(line: nat)
    | Reap(line: nat)
    | Rebuild(localPool: seq<Url>, files: seq<Option<SourcesFile>>)

  function Rebuilt(pool: Pool, localPool: seq<Url>): Pool {
    if pool.origin.LocalFallback? then pool.(effective := localPool) else pool
  }

  /** Fresh engines over whatever sources files lie about. */
  function NewEngines(pool: Pool, files: seq<Option<SourcesFile>>): seq<Engine> {
    seq(|files|, i requires 0 <= i < |files| =>
          NewEngine(pool.effective, if pool.activeRevision != 0 then Some(pool.activeRevision) else None, files[i]))
  }

  ghost predicate OneLine(before: World, line: nat, after: World, engine: Engine) {
    line < |before.engines| && after == before.(engines := before.engines[line := engine])
  }

  ghost predicate Step(before: World, event: Event, after: World) {
    match event
    case Result(refresh, now, luck) =>
      && |luck| == |before.engines|
      && after.latest == (if refresh.failed || refresh.sources == [] then before.latest else refresh.revision)
      && var read := Consumed(before.pool, refresh);
         if Replaces(refresh) then
           after.pool == StagingNoted(read, now) && after.engines == StagedAll(before.engines, read, luck)
         else after.pool == read && after.engines == before.engines
    case Advance(now, luck) =>
      && |luck| == |before.engines| && after.latest == before.latest
      && if MaySwitch(before.engines, before.pool) then
           after.pool == Switched(before.pool) && after.engines == before.engines
         else if MustRetry(before.engines, before.pool, now) then
           after.pool == StagingNoted(before.pool, now) && after.engines == StagedAll(before.engines, before.pool, luck)
         else after == before
    case Start(line, launch) =>
      line < |before.engines| && OneLine(before, line, after, Launched(before.engines[line], launch))
    case HandleSignal(line, readable) =>
      && line < |before.engines| && Alive(before.engines[line]) && before.engines[line].helper.value.hup
      && OneLine(before, line, after, Answered(before.engines[line], readable))
    case Hear(line) =>
      && line < |before.engines| && before.engines[line].helper.Some? && before.engines[line].helper.value.outbox != []
      && OneLine(before, line, after, Heard(before.engines[line]))
    case Exit(line) =>
      line < |before.engines| && before.engines[line].helper.Some?
      && OneLine(before, line, after, Exited(before.engines[line]))
    case Reap(line) =>
      line < |before.engines| && OneLine(before, line, after, Reaped(before.engines[line]))
    case Rebuild(localPool, files) =>
      && after.latest == before.latest && after.pool == Rebuilt(before.pool, localPool)
      && after.engines == NewEngines(after.pool, files)
  }

  /** What the source manager guarantees of its results: revisions do not fall, and a changed list has
      a greater one. */
  predicate Honest(before: World, event: Event) {
    event.Result? && !event.refresh.failed && event.refresh.sources != [] ==>
      before.latest <= event.refresh.revision && (event.refresh.changed ==> before.latest < event.refresh.revision)
  }

  /** The controller as it starts: on the loaded list, or on the local one with revision 0, nothing
      pending, and one new engine for each sources file lying about. */
  function Fresh(sources: seq<Url>, revision: int, files: seq<Option<SourcesFile>>): World {
    var pool := Pool(sources, if revision == 0 then LocalFallback else LastKnownGood, revision, [], 0, None, 0);
    World(NewEngines(pool, files), pool, revision)
  }

  ghost predicate Run(states: seq<World>, events: seq<Event>) {
    && |states| == |events| + 1
    && (exists sources, revision, files :: states[0] == Fresh(sources, revision, files))
    && forall i :: 0 <= i < |events| ==> StepAt(states, events, i)
  }

  ghost predicate StepAt(states: seq<World>, events: seq<Event>, i: nat)
    requires i < |events| && |states| == |events| + 1
  {
    Step(states[i], events[i], states[i + 1]) && Honest(states[i], events[i])
  }

  // ---- What every state keeps ----

  predicate AtMost(generation: Generation, latest: int) {
    generation.Some? ==> generation.value <= latest
  }

  ghost predicate AnswersAtMost(answers: seq<Answer>, latest: int) {
    forall k :: 0 <= k < |answers| && answers[k].Reloaded? ==> answers[k].generation <= latest
  }

  /** No generation anywhere is beyond the last result. */
  ghost predicate Known(e: Engine, latest: int) {
    && AtMost(e.pending, latest) && AtMost(e.confirmed, latest)
    && (e.helper.Some? ==> AnswersAtMost(e.helper.value.outbox, latest))
    && (e.helper.Some? && e.helper.value.hup ==> e.file.Some? && AtMost(e.file.value.generation, latest))
  }

  /** A confirmation of g, given or on its way. */
  ghost predicate Confirming(e: Engine, g: int) {
    || e.confirmed == Some(g)
    || (e.helper.Some? && (Reloaded(g) in e.helper.value.outbox
                           || (e.helper.value.hup && e.file.Some? && e.file.value.generation == Some(g))))
  }

  /** The helper has read this generation, or the line took it while there was none. */
  predicate Told(e: Engine, g: int) {
    e.confirmed == Some(g) || (e.helper.Some? && Reloaded(g) in e.helper.value.outbox)
  }

  /** A living helper downloads from these sources. */
  predicate RunsOn(e: Engine, sources: seq<Url>) {
    Alive(e) ==> e.helper.value.running == sources
  }

  /** A line that confirms the pending generation, or is about to, has the pending pool, and its helper
      runs on it once it has read it; with nothing pending line and helper are on the effective pool. */
  ghost predicate Agrees(e: Engine, pool: Pool) {
    if pool.pendingGeneration.Some? then
      var g := pool.pendingGeneration.value;
      && (Confirming(e, g) ==> e.sources == pool.pendingPool)
      && (Told(e, g) ==> RunsOn(e, pool.pendingPool))
    else e.sources == pool.effective && RunsOn(e, pool.effective)
  }

  /** A signal is only under way to a living helper whose file holds the line's sources. */
  predicate Signalled(e: Engine) {
    e.helper.Some? && e.helper.value.hup ==> Alive(e) && e.file.Some? && e.file.value.sources == e.sources
  }

  /** What a line keeps. */
  ghost predicate Fine(e: Engine, pool: Pool, latest: int) {
    Known(e, latest) && Signalled(e) && Agrees(e, pool)
  }

  ghost predicate Sound(world: World) {
    && (forall i :: 0 <= i < |world.engines| ==> Fine(world.engines[i], world.pool, world.latest))
    && world.pool.activeRevision <= world.latest
    && (world.pool.pendingGeneration.Some? ==>
          && world.pool.pendingGeneration == Some(world.pool.pendingRevision)
          && world.pool.activeRevision < world.pool.pendingRevision <= world.latest
          && world.pool.pendingPool != [])
  }

  lemma StartIsSound(sources: seq<Url>, revision: int, files: seq<Option<SourcesFile>>)
    ensures Sound(Fresh(sources, revision, files))
  {
  }

  lemma StagedNew(e: Engine, before: Pool, after: Pool, latest: int, luck: Luck)
    requires Fine(e, before, latest) && after.pendingPool != []
    requires after.pendingGeneration.Some? && latest < after.pendingGeneration.value
    ensures Fine(Staged(e, after.pendingPool, after.pendingGeneration.value, luck), after,
                 after.pendingGeneration.value)
  {
  }

  lemma StagedAgain(e: Engine, pool: Pool, latest: int, luck: Luck)
    requires Fine(e, pool, latest) && pool.pendingGeneration.Some?
    requires pool.pendingGeneration.value <= latest && pool.pendingPool != []
    ensures Fine(Staged(e, pool.pendingPool, pool.pendingGeneration.value, luck), pool, latest)
  {
  }

  lemma AnsweredStep(e: Engine, pool: Pool, latest: int, readable: bool)
    requires Fine(e, pool, latest) && Alive(e) && e.helper.value.hup
    ensures Fine(Answered(e, readable), pool, latest)
  {
  }

  lemma HeardStep(e: Engine, pool: Pool, latest: int)
    requires Fine(e, pool, latest) && e.helper.Some? && e.helper.value.outbox != []
    ensures Fine(Heard(e), pool, latest)
  {
    var outbox := e.helper.value.outbox;
    assert forall k :: 0 <= k < |outbox[1..]| ==> outbox[1..][k] == outbox[k + 1];
    assert outbox[0] in outbox;
  }

  lemma QuietStep(e: Engine, pool: Pool, latest: int, launch: Launch)
    requires Fine(e, pool, latest)
    ensures Fine(Launched(e, launch), pool, latest) && Fine(Reaped(e), pool, latest)
    ensures e.helper.Some? ==> Fine(Exited(e), pool, latest)
  {
  }

  lemma SwitchedFine(e: Engine, pool: Pool, latest: int)
    requires Fine(e, pool, latest) && pool.pendingGeneration.Some? && e.confirmed == pool.pendingGeneration
    ensures Fine(e, Switched(pool), latest)
  {
  }

  lemma ResultFine(e: Engine, before: Pool, refresh: Refresh, latest: int, later: int)
    requires Fine(e, before, latest) && latest <= later && !Replaces(refresh)
    ensures Fine(e, Consumed(before, refresh), later)
  {
  }

  lemma SoundStep(before: World, event: Event, after: World)
    requires Sound(before) && Step(before, event, after) && Honest(before, event)
    ensures Sound(after)
  {
    match event
    case Result(refresh, now, luck) =>
      forall i | 0 <= i < |after.engines| ensures Fine(after.engines[i], after.pool, after.latest) {
        if Replaces(refresh) {
          StagedNew(before.engines[i], before.pool, after.pool, before.latest, luck[i]);
        } else {
          ResultFine(before.engines[i], before.pool, refresh, before.latest, after.latest);
        }
      }
    case Advance(now, luck) =>
      forall i | 0 <= i < |after.engines| ensures Fine(after.engines[i], after.pool, after.latest) {
        if MaySwitch(before.engines, before.pool) {
          SwitchedFine(before.engines[i], before.pool, before.latest);
        } else if MustRetry(before.engines, before.pool, now) {
          StagedAgain(before.engines[i], before.pool, before.latest, luck[i]);
        }
      }
    case Rebuild(localPool, files) =>
    case HandleSignal(line, readable) => AnsweredStep(before.engines[line], before.pool, before.latest, readable);
    case Hear(line) => HeardStep(before.engines[line], before.pool, before.latest);
    case Start(line, launch) => QuietStep(before.engines[line], before.pool, before.latest, launch);
    case _ => QuietStep(before.engines[event.line], before.pool, before.latest, Spawned);
  }

  lemma {:induction false} RunsAreSound(states: seq<World>, events: seq<Event>, i: nat)
    requires Run(states, events) && i < |states|
    ensures Sound(states[i])
    decreases i
  {
    if i == 0 {
      var sources, revision, files :| states[0] == Fresh(sources, revision, files);
      StartIsSound(sources, revision, files);
    } else {
      RunsAreSound(states, events, i - 1);
      assert StepAt(states, events, i - 1);
      SoundStep(states[i - 1], events[i - 1], states[i]);
    }
  }

  // ---- The switch ----

  /** Every line has the pool, and every living helper downloads from it. */
  predicate AllRunOn(engines: seq<Engine>, pool: seq<Url>) {
    forall k :: 0 <= k < |engines| ==> engines[k].sources == pool && RunsOn(engines[k], pool)
  }

  /** A step in which the controller switches: every line has confirmed the pending generation, and
      every line and every living helper already runs on the new effective pool, whether or not that
      differs from the old one. */
  lemma SwitchIsUnanimous(states: seq<World>, events: seq<Event>, i: nat)
    requires Run(states, events) && i < |events|
    requires events[i].Advance? && MaySwitch(states[i].engines, states[i].pool)
    ensures AllConfirmed(states[i].engines, states[i].pool.pendingGeneration)
    ensures states[i + 1].pool.effective == states[i].pool.pendingPool
    ensures states[i + 1].pool.pendingGeneration.None?
    ensures states[i].pool.pendingGeneration == Some(states[i + 1].pool.activeRevision)
    ensures AllRunOn(states[i + 1].engines, states[i + 1].pool.effective)
  {
    RunsAreSound(states, events, i);
    assert StepAt(states, events, i);
    SwitchStep(states[i], events[i], states[i + 1]);
  }

  lemma SwitchStep(before: World, event: Event, after: World)
    requires Sound(before) && Step(before, event, after)
    requires event.Advance? && MaySwitch(before.engines, before.pool)
    ensures after.pool == Switched(before.pool) && before.pool.pendingGeneration == Some(after.pool.activeRevision)
    ensures AllRunOn(after.engines, after.pool.effective)
  {
    var engines, pool := before.engines, before.pool;
    forall k | 0 <= k < |engines| ensures engines[k].sources == pool.pendingPool
    && RunsOn(engines[k], pool.pendingPool) {
      assert Fine(engines[k], pool, before.latest) && engines[k].confirmed == pool.pendingGeneration;
    }
  }

  /** The effective pool changes only in such a step or by local configuration, and by the latter only
      while no remote list has ever been used; then too every line runs on the new one. */
  lemma OnlySwitchesChangeThePool(states: seq<World>, events: seq<Event>, i: nat)
    requires Run(states, events) && i < |events|
    requires states[i + 1].pool.effective != states[i].pool.effective
    ensures || (events[i].Advance? && MaySwitch(states[i].engines, states[i].pool))
            || (events[i].Rebuild? && states[i].pool.origin.LocalFallback?)
    ensures AllRunOn(states[i + 1].engines, states[i + 1].pool.effective)
  {
    assert StepAt(states, events, i);
    if events[i].Advance? {
      SwitchIsUnanimous(states, events, i);
    }
  }

  /** Whenever nothing is pending every line has the effective pool and every living helper runs on it,
      whatever signals, exits, restarts and rebuilds came in between. */
  lemma IdleRunsOnEffective(states: seq<World>, events: seq<Event>, i: nat)
    requires Run(states, events) && i < |states| && states[i].pool.pendingGeneration.None?
    ensures AllRunOn(states[i].engines, states[i].pool.effective)
  {
    RunsAreSound(states, events, i);
    forall k | 0 <= k < |states[i].engines|
      ensures states[i].engines[k].sources == states[i].pool.effective
              && RunsOn(states[i].engines[k], states[i].pool.effective)
    {
      assert Fine(states[i].engines[k], states[i].pool, states[i].latest);
    }
  }

  // ---- Staging, retries and results ----

  /** What one staging must do to a line: if the file is written the line takes the pool, and a line
      without a living helper confirms at once, one with a living helper is signalled if that works.
      Without the file it stays as it was and only waits for the generation. */
  predicate StagedOn(before: Engine, after: Engine, sources: seq<Url>, g: int, luck: Luck) {
    if !luck.written then
      && after.sources == before.sources && after.file == before.file && after.helper == before.helper
      && after.confirmed == before.confirmed && after.pending == Some(g) && after.pendingSources == sources
      && after.failed
    else
      && after.sources == sources && after.file == Some(SourcesFile(Some(g), sources))
      && (if before.helper.None? || !before.helper.value.alive then
            && after.helper == before.helper && after.confirmed == Some(g)
            && after.pending.None? && after.pendingSources == [] && !after.failed
          else
            && after.confirmed == before.confirmed && after.pending == Some(g) && after.pendingSources == sources
            && after.failed == !luck.signalled
            && after.helper == (if luck.signalled then Some(before.helper.value.(hup := true)) else before.helper))
  }

  ghost predicate AllStaged(before: World, after: World, luck: seq<Luck>) {
    && after.pool.pendingGeneration.Some?
    && |before.engines| == |after.engines| == |luck|
    && forall i :: 0 <= i < |luck| ==>
         StagedOn(before.engines[i], after.engines[i], after.pool.pendingPool, after.pool.pendingGeneration.value,
                  luck[i])
  }

  lemma StagedIs(e: Engine, sources: seq<Url>, g: int, luck: Luck)
    ensures sources != [] ==> StagedOn(e, Staged(e, sources, g, luck), sources, g, luck)
    ensures sources == [] ==> Staged(e, sources, g, luck) == e
  {
  }

  /** While something is pending that some line has not confirmed, nothing happens before the retry is
      due, and from then on every line is staged again and the next retry is five seconds later. */
  lemma RetryIsExact(before: World, event: Event, after: World, line: nat)
    requires Sound(before) && Step(before, event, after) && event.Advance? && before.pool.pendingGeneration.Some?
    requires line < |before.engines| && before.engines[line].confirmed != before.pool.pendingGeneration
    ensures event.now < before.pool.retryAt ==> after == before
    ensures event.now >= before.pool.retryAt ==>
              && after.pool == before.pool.(retryAt := event.now + 5 * SECOND) && after.latest == before.latest
              && AllStaged(before, after, event.luck)
  {
    var pool := before.pool;
    assert !AllConfirmed(before.engines, pool.pendingGeneration);
    forall i | 0 <= i < |event.luck|
      ensures StagedOn(before.engines[i],
                       Staged(before.engines[i], pool.pendingPool, pool.pendingGeneration.value, event.luck[i]),
                       pool.pendingPool, pool.pendingGeneration.value, event.luck[i])
    {
      StagedIs(before.engines[i], pool.pendingPool, pool.pendingGeneration.value, event.luck[i]);
    }
  }

  /** With nothing pending there is nothing to advance; with every line confirmed the pool is switched. */
  lemma AdvanceIsExact(before: World, event: Event, after: World)
    requires Sound(before) && Step(before, event, after) && event.Advance?
    ensures before.pool.pendingGeneration.None? ==> after == before
    ensures before.pool.pendingGeneration.Some?
            && (forall i :: 0 <= i < |before.engines| ==> before.engines[i].confirmed == before.pool.pendingGeneration)
            ==> && after.engines == before.engines
                && after.pool.effective == before.pool.pendingPool && after.pool.origin.Remote?
                && after.pool.activeRevision == before.pool.pendingRevision && after.pool.pendingGeneration.None?
                && after.pool.pendingPool == [] && after.pool.pendingRevision == 0
  {
  }

  /** A start leaves a living helper alone. Otherwise the file gets the line's sources, under the
      generation it waits for or else the one it has, and a helper that comes up runs on them. */
  lemma StartIsExact(before: World, event: Event, after: World)
    requires Step(before, event, after) && event.Start?
    ensures var (e, line) := (before.engines[event.line], after.engines[event.line]);
            if e.helper.Some? && e.helper.value.alive then after == before
            else
              && line.sources == e.sources && line.confirmed == e.confirmed && line.pending == e.pending
              && (event.launch.NotWritten? ==> line.file == e.file && line.helper.None?)
              && (event.launch.NotSpawned? ==> line.helper.None?)
              && (event.launch.Spawned? ==> line.helper == Some(Helper(true, false, [], e.sources)))
              && (!event.launch.NotWritten? ==>
                    line.file == Some(SourcesFile(if e.pending.None? then e.confirmed else e.pending, e.sources)))
  {
  }

  /** An answer is heard once. It confirms only the generation the line waits for, which also ends any
      error shown; a rejected file shows one. */
  lemma HearingIsExact(before: World, event: Event, after: World)
    requires Step(before, event, after) && event.Hear?
    ensures var (e, line) := (before.engines[event.line], after.engines[event.line]);
            var answer := e.helper.value.outbox[0];
            && line.helper == Some(e.helper.value.(outbox := e.helper.value.outbox[1..]))
            && line.sources == e.sources && line.file == e.file
            && (if answer.Rejected? then
                  line.failed && line.confirmed == e.confirmed && line.pending == e.pending
                  && line.pendingSources == e.pendingSources
                else if e.pending == Some(answer.generation) then
                  !line.failed && line.confirmed == Some(answer.generation) && line.pending.None?
                  && line.pendingSources == []
                else line == e.(helper := line.helper))
  {
  }

  /** A helper that exits is dead, and what it has said may still be heard. */
  lemma ExitIsDeath(before: World, event: Event, after: World)
    requires Sound(before) && Step(before, event, after) && event.Exit?
    ensures !Alive(after.engines[event.line]) && !after.engines[event.line].helper.value.hup
    ensures after.engines[event.line].helper.value.outbox == before.engines[event.line].helper.value.outbox
    ensures after.engines[event.line].sources == before.engines[event.line].sources
  {
  }

  /** A signal that was handled is not handled again. */
  lemma SignalIsHandledOnce(before: World, event: Event, after: World)
    requires Sound(before) && Step(before, event, after) && event.HandleSignal?
    ensures Alive(after.engines[event.line]) && !after.engines[event.line].helper.value.hup
    ensures event.readable ==> after.engines[event.line].helper.value.running == before.engines[event.line].sources
    ensures !event.readable ==>
              after.engines[event.line].helper.value.running == before.engines[event.line].helper.value.running
  {
  }

  /** New lines have the effective pool, and the active revision, if any, counts as confirmed. */
  lemma RebuiltLines(before: World, event: Event, after: World, i: nat)
    requires Step(before, event, after) && event.Rebuild? && i < |event.files|
    ensures |after.engines| == |event.files|
    ensures var e := after.engines[i];
            && e.sources == after.pool.effective && e.file == event.files[i] && e.helper.None?
            && e.pending.None? && e.pendingSources == [] && !e.failed
            && e.confirmed == if after.pool.activeRevision == 0 then None else Some(after.pool.activeRevision)
    ensures after.pool.effective == if before.pool.origin.LocalFallback? then event.localPool else before.pool.effective
  {
  }

  /** What a result does: a failure makes a remote pool a last-known-good one; a changed list is pending
      at once, on every line, with its own revision; an unchanged one makes its revision the active one
      if nothing is pending; and an empty list does nothing. */
  lemma ResultIsExact(before: World, event: Event, after: World)
    requires Step(before, event, after) && event.Result?
    ensures var (refresh, pool) := (event.refresh, before.pool);
            if refresh.failed then
              after == before.(pool := if pool.origin.Remote? then pool.(origin := LastKnownGood) else pool)
            else if refresh.sources == [] then after == before
            else if refresh.changed then
              && after.pool == pool.(pendingPool := refresh.sources, pendingRevision := refresh.revision,
                                     pendingGeneration := Some(refresh.revision), retryAt := event.now + 5 * SECOND)
              && AllStaged(before, after, event.luck) && after.latest == refresh.revision
            else if pool.pendingGeneration.None? then
              after == before.(pool := pool.(origin := Remote, activeRevision := refresh.revision),
                               latest := refresh.revision)
            else after == before.(latest := refresh.revision)
  {
    var refresh := event.refresh;
    if Replaces(refresh) {
      forall i | 0 <= i < |event.luck|
        ensures StagedOn(before.engines[i], Staged(before.engines[i], refresh.sources, refresh.revision, event.luck[i]),
                         refresh.sources, refresh.revision, event.luck[i])
      {
        StagedIs(before.engines[i], refresh.sources, refresh.revision, event.luck[i]);
      }
    }
  }

  /** The active revision never decreases. */
  lemma {:induction false} ActiveRevisionGrows(states: seq<World>, events: seq<Event>, i: nat, j: nat)
    requires Run(states, events) && i <= j < |states|
    ensures states[i].pool.activeRevision <= states[j].pool.activeRevision
    decreases j
  {
    if i < j {
      ActiveRevisionGrows(states, events, i, j - 1);
      assert StepAt(states, events, j - 1);
      RunsAreSound(states, events, j - 1);
    }
  }

  /** Reading an error, or an acknowledgement of another generation, confirms nothing: a line that has
      not confirmed what the controller waits for still has not. */
  lemma OtherAcksConfirmNothing(e: Engine, g: int)
    requires e.helper.Some? && e.helper.value.outbox != []
    requires e.helper.value.outbox[0] != Reloaded(g) || e.pending != Some(g)
    ensures Heard(e).confirmed == Some(g) ==> e.confirmed == Some(g)
    ensures e.helper.value.outbox[0].Rejected? || e.pending != Some(e.helper.value.outbox[0].generation)
            ==> Heard(e) == e.(helper := Heard(e).helper, failed := Heard(e).failed)
  {
  }

  function HeardAll(e: Engine): Engine
    decreases if e.helper.Some? then |e.helper.value.outbox| else 0
  {
    if e.helper.None? || e.helper.value.outbox == [] then e else HeardAll(Heard(e))
  }

  lemma {:induction false} LastAckConfirms(e: Engine, g: int)
    requires e.helper.Some? && Reloaded(g) in e.helper.value.outbox && (e.pending == Some(g) || e.confirmed == Some(g))
    requires e.pending.Some? ==> e.pending == Some(g)
    ensures HeardAll(e).confirmed == Some(g)
    decreases |e.helper.value.outbox|
  {
    var rest := Heard(e);
    if rest.confirmed == Some(g) {
      StillConfirmed(rest, g);
    } else {
      LastAckConfirms(rest, g);
    }
  }

  lemma {:induction false} NoAckNoConfirmation(e: Engine, g: int)
    requires e.confirmed != Some(g) && (e.helper.Some? ==> Reloaded(g) !in e.helper.value.outbox)
    ensures HeardAll(e).confirmed != Some(g)
    decreases if e.helper.Some? then |e.helper.value.outbox| else 0
  {
    if e.helper.Some? && e.helper.value.outbox != [] {
      NoAckNoConfirmation(Heard(e), g);
    }
  }

  /** One staging whose write and signal succeed, whatever failed before: a line whose helper is dead
      confirms at once; one whose helper lives confirms, once it has read all answers, exactly if the
      helper can read the file or the line had been told of this generation before. */
  lemma RetryConfirms(e: Engine, sources: seq<Url>, g: int, readable: bool)
    requires sources != []
    ensures var staged := Staged(e, sources, g, Luck(true, true));
            staged.sources == sources
            && if Alive(e) then
                 && Alive(staged) && staged.helper.value.hup
                 && (HeardAll(Answered(staged, readable)).confirmed == Some(g)
                     <==> readable || e.confirmed == Some(g) || Reloaded(g) in e.helper.value.outbox)
               else staged.confirmed == Some(g)
  {
    var staged := Staged(e, sources, g, Luck(true, true));
    if Alive(e) {
      var answered := Answered(staged, readable);
      assert answered.helper.value.outbox == e.helper.value.outbox + [if readable then Reloaded(g) else Rejected];
      if readable || Reloaded(g) in e.helper.value.outbox {
        LastAckConfirms(answered, g);
      } else if e.confirmed == Some(g) {
        StillConfirmed(answered, g);
      } else {
        NoAckNoConfirmation(answered, g);
      }
    }
  }

  lemma {:induction false} StillConfirmed(e: Engine, g: int)
    requires e.confirmed == Some(g) && (e.pending.Some? ==> e.pending == Some(g))
    ensures HeardAll(e).confirmed == Some(g)
    decreases if e.helper.Some? then |e.helper.value.outbox| else 0
  {
    if e.helper.Some? && e.helper.value.outbox != [] {
      StillConfirmed(Heard(e), g);
    }
  }

  lemma {:induction false} HearingKeepsSources(e: Engine)
    ensures HeardAll(e).sources == e.sources
    ensures e.helper.Some? ==> HeardAll(e).helper == Some(e.helper.value.(outbox := []))
    ensures e.helper.None? ==> HeardAll(e).helper.None?
    decreases if e.helper.Some? then |e.helper.value.outbox| else 0
  {
    if e.helper.Some? && e.helper.value.outbox != [] {
      HearingKeepsSources(Heard(e));
    }
  }

  /** A line whose helper, if it lives, has read the file and has been heard. */
  function Settled(e: Engine): Engine {
    if Alive(e) then HeardAll(Answered(e, true)) else e
  }

  /** Does this event stage the pending pool on all lines, with every write and signal succeeding? */
  predicate StagesWell(world: World, event: Event) {
    match event
    case Result(refresh, now, luck) => Replaces(refresh) && AllWell(luck)
    case Advance(now, luck) =>
      && world.pool.pendingGeneration.Some? && now >= world.pool.retryAt && AllWell(luck)
      && exists i :: 0 <= i < |world.engines| && world.engines[i].confirmed != world.pool.pendingGeneration
    case _ => false
  }

  predicate AllWell(luck: seq<Luck>) {
    forall i :: 0 <= i < |luck| ==> luck[i] == Luck(true, true)
  }

  lemma SettledConfirms(e: Engine, sources: seq<Url>, g: int)
    requires sources != []
    ensures var settled := Settled(Staged(e, sources, g, Luck(true, true)));
            settled.confirmed == Some(g) && settled.sources == sources && RunsOn(settled, sources)
  {
    RetryConfirms(e, sources, g, true);
    var staged := Staged(e, sources, g, Luck(true, true));
    if Alive(e) {
      HearingKeepsSources(Answered(staged, true));
    }
  }

  lemma StagedWell(before: World, event: Event, staged: World, i: nat)
    requires Sound(before) && Step(before, event, staged) && Honest(before, event) && StagesWell(before, event)
    ensures |staged.engines| == |before.engines| && staged.pool.pendingGeneration.Some? && staged.pool.pendingPool != []
    ensures i < |before.engines| ==>
              staged.engines[i]
              == Staged(before.engines[i], staged.pool.pendingPool, staged.pool.pendingGeneration.value,
                        Luck(true, true))
  {
  }

  /** Whatever went wrong before: after one staging that succeeds on all lines, once each living helper
      has answered from a readable file and been heard, the controller switches, and every line runs on
      the new pool. */
  lemma RetrySwitches(before: World, event: Event, staged: World, settled: World, advance: Event, after: World)
    requires Sound(before) && Step(before, event, staged) && Honest(before, event) && StagesWell(before, event)
    requires |settled.engines| == |staged.engines|
    requires settled == staged.(engines := settled.engines)
    requires forall i :: 0 <= i < |staged.engines| ==> settled.engines[i] == Settled(staged.engines[i])
    requires advance.Advance? && Step(settled, advance, after)
    ensures after.pool == Switched(staged.pool) && AllRunOn(after.engines, staged.pool.pendingPool)
  {
    StagedWell(before, event, staged, 0);
    var pool, g := staged.pool.pendingPool, staged.pool.pendingGeneration.value;
    forall i | 0 <= i < |settled.engines|
      ensures settled.engines[i].confirmed == Some(g)
      ensures settled.engines[i].sources == pool && RunsOn(settled.engines[i], pool)
    {
      StagedWell(before, event, staged, i);
      SettledConfirms(before.engines[i], pool, g);
    }
    assert MaySwitch(settled.engines, settled.pool);
  }
}
