/** The two-phase hot reload: a new source pool is staged on every line and becomes the effective pool
    once every line has confirmed it (steam_pumper/controller.py, steam_pumper/engine.py). */
module HotReload {
  import opened Time
  import opened Wrappers

  type Url = string

  // A generation is a revision written out; None is the empty one.
  type Generation = Option<int>

  datatype SourcesFile = SourcesFile(generation: Generation, sources: seq<Url>)

  /** What a helper says of a reload: the generation it reads now, or that it could not read the file. */
  datatype Answer = Reloaded(generation: int) | Rejected

  /** The helper process: `hup` is a signal it has not handled, `outbox` the answers the engine has
      not read, `running` the sources it downloads from. */
  datatype Helper = Helper(alive: bool, hup: bool, outbox: seq<Answer>, running: seq<Url>)

  /** `failed` stands for the text of the last reload error. */
  datatype Engine = Engine(sources: seq<Url>, pendingSources: seq<Url>, pending: Generation, confirmed: Generation,
                           failed: bool, file: Option<SourcesFile>, helper: Option<Helper>)

  datatype Origin = LocalFallback | LastKnownGood | Remote

  /** Do the file write and the signal of one staging succeed? */
  datatype Luck = Luck(written: bool, signalled: bool)

  /** How far starting a helper gets: nowhere, only to the file, or all the way. */
  datatype Launch = NotWritten | NotSpawned | Spawned

  datatype Refresh = Refresh(changed: bool, sources: seq<Url>, revision: int, failed: bool)

  datatype Pool = Pool(effective: seq<Url>, origin: Origin, activeRevision: int,
                       pendingPool: seq<Url>, pendingRevision: int, pendingGeneration: Generation, retryAt: int)

  const RETRY: int := 5 * SECOND

  // ---- One line ----

  function NewEngine(sources: seq<Url>, generation: Generation, file: Option<SourcesFile>): Engine {
    Engine(sources, [], None, generation, false, file, None)
  }

  function Alive(e: Engine): bool {
    e.helper.Some? && e.helper.value.alive
  }

  function Confirmed(e: Engine, generation: Generation): Engine {
    if generation != e.pending then e
    else e.(confirmed := generation, pending := None, pendingSources := [], failed := false)
  }

  function Staged(e: Engine, sources: seq<Url>, generation: int, luck: Luck): Engine {
    if sources == [] then e
    else
      var asked := e.(pending := Some(generation), pendingSources := sources, failed := false);
      if !luck.written then asked.(failed := true)
      else
        var written := asked.(file := Some(SourcesFile(Some(generation), sources)), sources := sources);
        if !Alive(e) then Confirmed(written, Some(generation))
        else if !luck.signalled then written.(failed := true)
        else written.(helper := Some(e.helper.value.(hup := true)))
  }

  /** A new helper, unless one is alive: it starts from the sources file written for it. */
  function Launched(e: Engine, launch: Launch): Engine {
    if Alive(e) then e
    else if launch.NotWritten? then e.(helper := None)
    else e.(file := Some(SourcesFile(if e.pending.Some? then e.pending else e.confirmed, e.sources)),
            helper := if launch.Spawned? then Some(Helper(true, false, [], e.sources)) else None)
  }

  /** The helper handles the signal: it goes over to the sources of the file and acknowledges its
      generation, if it has one, or stays where it is and answers that it cannot read the file. */
  function Answered(e: Engine, readable: bool): Engine
    requires Alive(e)
  {
    var answer := if !readable || e.file.None? then [Rejected]
                  else if e.file.value.generation.Some? then [Reloaded(e.file.value.generation.value)] else [];
    var running := if readable && e.file.Some? then e.file.value.sources else e.helper.value.running;
    e.(helper := Some(Helper(true, false, e.helper.value.outbox + answer, running)))
  }

  /** The engine reads the next answer. */
  function Heard(e: Engine): Engine
    requires e.helper.Some? && e.helper.value.outbox != []
  {
    var helper := e.helper.value;
    var rest := e.(helper := Some(helper.(outbox := helper.outbox[1..])));
    match helper.outbox[0]
    case Reloaded(generation) => Confirmed(rest, Some(generation))
    case Rejected => rest.(failed := true)
  }

  function Exited(e: Engine): Engine
    requires e.helper.Some?
  {
    e.(helper := Some(e.helper.value.(alive := false, hup := false)))
  }

  /** The engine notices the exit; what it has not read is lost. */
  function Reaped(e: Engine): Engine {
    e.(helper := None)
  }

  class EngineProcess {
    var sources: seq<Url>
    var pendingSources: seq<Url>
    var pendingGeneration: Generation
    var confirmedGeneration: Generation
    var reloadFailed: bool
    var sourcesFile: Option<SourcesFile>
    var helper: Option<Helper>

    function View(): Engine
      reads this
    {
      Engine(sources, pendingSources, pendingGeneration, confirmedGeneration, reloadFailed, sourcesFile, helper)
    }

    constructor (sources: seq<Url>, generation: Generation, file: Option<SourcesFile>)
      ensures View() == NewEngine(sources, generation, file)
    {
      this.sources, pendingSources, pendingGeneration := sources, [], None;
      confirmedGeneration, reloadFailed, sourcesFile, helper := generation, false, file, None;
    }

    method ConfirmSourceGeneration(generation: Generation)
      modifies this`confirmedGeneration, this`pendingGeneration, this`pendingSources, this`reloadFailed
      ensures View() == Confirmed(old(View()), generation)
    {
      if generation != pendingGeneration {
        return;
      }
      confirmedGeneration := generation;
      pendingGeneration, pendingSources, reloadFailed := None, [], false;
    }

    method StageSources(newSources: seq<Url>, generation: int, luck: Luck) returns (ok: bool)
      modifies this
      ensures View() == Staged(old(View()), newSources, generation, luck)
      ensures ok == (newSources != [] && luck.written && (!old(Alive(View())) || luck.signalled))
    {
      if newSources == [] {
        return false;
      }
      pendingSources, pendingGeneration, reloadFailed := newSources, Some(generation), false;
      if !luck.written {
        reloadFailed := true;
        return false;
      }
      sourcesFile := Some(SourcesFile(Some(generation), newSources));
      sources := newSources;
      if helper.None? || !helper.value.alive {
        ConfirmSourceGeneration(Some(generation));
        return true;
      }
      if !luck.signalled {
        reloadFailed := true;
        return false;
      }
      helper := Some(helper.value.(hup := true));
      ok := true;
    }

    method Start(launch: Launch)
      modifies this`sourcesFile, this`helper
      ensures View() == Launched(old(View()), launch)
    {
      if helper.Some? && helper.value.alive {
        return;
      }
      if launch.NotWritten? {
        helper := None;
        return;
      }
      var generation := if pendingGeneration.Some? then pendingGeneration else confirmedGeneration;
      sourcesFile := Some(SourcesFile(generation, sources));
      helper := if launch.Spawned? then Some(Helper(true, false, [], sources)) else None;
    }

    /** A source-list line of the helper's output. */
    method ConsumeSourceList()
      requires helper.Some? && helper.value.outbox != []
      modifies this
      ensures View() == Heard(old(View()))
    {
      var answer := helper.value.outbox[0];
      helper := Some(helper.value.(outbox := helper.value.outbox[1..]));
      if answer.Rejected? {
        reloadFailed := true;
        return;
      }
      ConfirmSourceGeneration(Some(answer.generation));
    }
  }

  // ---- All lines ----

  function StagedAll(engines: seq<Engine>, pool: Pool, luck: seq<Luck>): (r: seq<Engine>)
    requires |luck| == |engines|
    ensures |r| == |engines|
  {
    if pool.pendingGeneration.None? then engines
    else seq(|engines|, i requires 0 <= i < |engines| =>
               Staged(engines[i], pool.pendingPool, pool.pendingGeneration.value, luck[i]))
  }

  function StagingNoted(pool: Pool, now: int): Pool {
    if pool.pendingGeneration.None? then pool else pool.(retryAt := now + RETRY)
  }

  predicate AllConfirmed(engines: seq<Engine>, generation: Generation) {
    forall i :: 0 <= i < |engines| ==> engines[i].confirmed == generation
  }

  lemma OneMoreConfirmed(engines: seq<Engine>, i: nat, generation: Generation)
    requires i < |engines|
    ensures AllConfirmed(engines[..i + 1], generation)
            <==> AllConfirmed(engines[..i], generation) && engines[i].confirmed == generation
  {
    assert engines[..i + 1] == engines[..i] + [engines[i]];
    assert engines[..i + 1][i] == engines[i];
    assert forall k :: 0 <= k < i ==> engines[..i + 1][k] == engines[..i][k];
  }

  /** Does this result replace what is pending? */
  predicate Replaces(refresh: Refresh) {
    !refresh.failed && refresh.sources != [] && refresh.changed
  }

  /** The controller's fields after it has read a refresh result, before staging. */
  function Consumed(pool: Pool, refresh: Refresh): Pool {
    if refresh.failed then
      if pool.origin.Remote? then pool.(origin := LastKnownGood) else pool
    else if refresh.sources == [] then pool
    else if refresh.changed then
      pool.(pendingPool := refresh.sources, pendingRevision := refresh.revision,
            pendingGeneration := Some(refresh.revision))
    else if pool.pendingGeneration.None? then pool.(origin := Remote, activeRevision := refresh.revision)
    else pool
  }

  function Switched(pool: Pool): Pool {
    pool.(effective := pool.pendingPool, origin := Remote, activeRevision := pool.pendingRevision,
          pendingPool := [], pendingRevision := 0, pendingGeneration := None)
  }

  predicate MaySwitch(engines: seq<Engine>, pool: Pool) {
    pool.pendingGeneration.Some? && AllConfirmed(engines, pool.pendingGeneration)
  }

  predicate MustRetry(engines: seq<Engine>, pool: Pool, now: int) {
    pool.pendingGeneration.Some? && !AllConfirmed(engines, pool.pendingGeneration) && now >= pool.retryAt
  }

  class Controller {
    var engines: seq<EngineProcess>
    var pool: Pool

    /** One engine object per line. */
    ghost predicate Valid()
      reads this
    {
      forall i, j :: 0 <= i < j < |engines| ==> engines[i] != engines[j]
    }

    function Views(): (r: seq<Engine>)
      reads this, engines
      ensures |r| == |engines|
    {
      seq(|engines|, i requires 0 <= i < |engines| reads this, engines => engines[i].View())
    }

    constructor (engines: seq<EngineProcess>, sources: seq<Url>, revision: int)
      ensures this.engines == engines
      ensures pool == Pool(sources, if revision == 0 then LocalFallback else LastKnownGood, revision, [], 0, None, 0)
    {
      this.engines := engines;
      pool := Pool(sources, if revision == 0 then LocalFallback else LastKnownGood, revision, [], 0, None, 0);
    }

    method StagePending(now: int, luck: seq<Luck>)
      requires Valid() && |luck| == |engines|
      modifies this`pool, engines
      ensures pool == StagingNoted(old(pool), now)
      ensures Views() == StagedAll(old(Views()), old(pool), luck)
    {
      if pool.pendingGeneration.None? {
        return;
      }
      for k := 0 to |engines|
        invariant pool == old(pool) && engines == old(engines)
        invariant forall i :: 0 <= i < k ==>
                    engines[i].View() == Staged(old(engines[i].View()), pool.pendingPool,
                                                pool.pendingGeneration.value, luck[i])
        invariant forall i :: k <= i < |engines| ==> engines[i].View() == old(engines[i].View())
      {
        var ok := engines[k].StageSources(pool.pendingPool, pool.pendingGeneration.value, luck[k]);
      }
      pool := pool.(retryAt := now + RETRY);
    }

    method ConsumeRefreshResult(refresh: Refresh, now: int, luck: seq<Luck>)
      requires Valid() && |luck| == |engines|
      modifies this`pool, engines
      ensures var read := Consumed(old(pool), refresh);
              && pool == (if Replaces(refresh) then StagingNoted(read, now) else read)
              && Views() == (if Replaces(refresh) then StagedAll(old(Views()), read, luck) else old(Views()))
    {
      if refresh.failed {
        if pool.origin.Remote? {
          pool := pool.(origin := LastKnownGood);
        }
        return;
      }
      if refresh.sources != [] {
        if refresh.changed {
          pool := pool.(pendingPool := refresh.sources, pendingRevision := refresh.revision,
                        pendingGeneration := Some(refresh.revision));
          StagePending(now, luck);
        } else if pool.pendingGeneration.None? {
          pool := pool.(origin := Remote, activeRevision := refresh.revision);
        }
      }
    }

    method AdvancePending(now: int, luck: seq<Luck>) returns (switched: bool)
      requires Valid() && |luck| == |engines|
      modifies this`pool, engines
      ensures switched == old(MaySwitch(Views(), pool))
      ensures pool == if switched then Switched(old(pool))
                      else if old(MustRetry(Views(), pool, now)) then StagingNoted(old(pool), now)
                      else old(pool)
      ensures Views() == if old(MustRetry(Views(), pool, now)) then StagedAll(old(Views()), old(pool), luck)
                         else old(Views())
    {
      var generation := pool.pendingGeneration;
      if generation.None? {
        return false;
      }
      var confirmations := true;
      for i := 0 to |engines|
        invariant confirmations == AllConfirmed(Views()[..i], generation)
        invariant pool == old(pool) && Views() == old(Views())
      {
        OneMoreConfirmed(Views(), i, generation);
        confirmations := confirmations && engines[i].confirmedGeneration == generation;
      }
      assert Views()[..|engines|] == Views();
      if confirmations {
        pool := Switched(pool);
        return true;
      }
      if now >= pool.retryAt {
        StagePending(now, luck);
      }
      switched := false;
    }
  }
}
