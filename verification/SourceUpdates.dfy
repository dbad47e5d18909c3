/** The source manager and the controller as one process: what the one accepts is what the other
    switches to (steam_pumper/controller.py, steam_pumper/remote_sources.py). */
module SourceUpdates {
  import opened Wrappers
  import opened Manifest
  import HotReload
  import Lines = HotReloadLaws
  import SourceManager
  import Manager = SourceManagerLaws

  /** `waiting` is a refresh result the controller has not read. The process is dead while the manager
      has no memory. */
  datatype Process = Process(manager: Manager.World, lines: Lines.World, waiting: Option<HotReload.Refresh>)

  datatype Event =
    | Boot(now: int, write: SourceManager.Write, localPool: seq<Url>, files: seq<Option<HotReload.SourcesFile>>)
    | Fetch(refresh: Manager.Event)
    | Deliver(now: int, luck: seq<HotReload.Luck>)
    | Line(event: Lines.Event)

  /** What the worker hands over: nothing when the refresh was cancelled or the process died. */
  function ResultOf(config: SourceManager.Config, before: Manager.World,
                    refresh: Manager.Event): Option<HotReload.Refresh>
    requires refresh.Refresh? && before.memory.Some?
  {
    var r := SourceManager.Refreshed(config, before.disk, before.memory.value, refresh.response, refresh.now,
                                     refresh.stateWrite, refresh.envelopeWrite, refresh.failureWrite);
    if refresh.response.Cancelled? || r.memory.None? then None
    else Some(HotReload.Refresh(r.changed, r.memory.value.urls, SourceManager.Revision(r.memory.value),
                                r.memory.value.failureCount == before.memory.value.failureCount + 1))
  }

  /** The controller starts on the loaded list, or on the local one when there is none. */
  function Booted(memory: SourceManager.Memory, localPool: seq<Url>,
                  files: seq<Option<HotReload.SourcesFile>>): Lines.World {
    if memory.urls != [] then Lines.Fresh(memory.urls, SourceManager.Revision(memory), files)
    else Lines.Fresh(localPool, 0, files)
  }

  ghost predicate Step(config: SourceManager.Config, before: Process, event: Event, after: Process) {
    match event
    case Boot(now, write, localPool, files) =>
      && Manager.Step(config, before.manager, Manager.Start(now, write), after.manager) && after.waiting.None?
      && after.lines == (if after.manager.memory.Some? then Booted(after.manager.memory.value, localPool, files)
                         else before.lines)
    case Fetch(refresh) =>
      && refresh.Refresh? && before.manager.memory.Some? && before.waiting.None?
      && Manager.Step(config, before.manager, refresh, after.manager)
      && after.lines == before.lines && after.waiting == ResultOf(config, before.manager, refresh)
    case Deliver(now, luck) =>
      && before.manager.memory.Some? && before.waiting.Some?
      && Lines.Step(before.lines, Lines.Result(before.waiting.value, now, luck), after.lines)
      && after.manager == before.manager && after.waiting.None?
    case Line(line) =>
      && before.manager.memory.Some? && !line.Result? && Lines.Step(before.lines, line, after.lines)
      && after == before.(lines := after.lines)
  }

  ghost predicate Run(config: SourceManager.Config, states: seq<Process>, events: seq<Event>) {
    && |states| == |events| + 1
    && states[0].manager.disk == SourceManager.Disk(None, None) && states[0].manager.memory.None?
    && states[0].lines == Lines.Fresh([], 0, []) && states[0].waiting.None?
    && forall i :: 0 <= i < |events| ==> StepAt(config, states, events, i)
  }

  ghost predicate StepAt(config: SourceManager.Config, states: seq<Process>, events: seq<Event>, i: nat)
    requires i < |events| && |states| == |events| + 1
  {
    Step(config, states[i], events[i], states[i + 1])
  }

  /** The revision of the envelope on disk; 0 when there is none. */
  function OnDisk(config: SourceManager.Config, manager: Manager.World): int {
    if manager.disk.envelope.None? then 0 else SourceManager.RevisionOf(config.verify, manager.disk.envelope.value)
  }

  /** No revision the controller knows is beyond the one on disk, and a changed list that waits for it
      is newer than all it has seen. */
  ghost predicate Joined(config: SourceManager.Config, p: Process) {
    && Manager.Sound(config, p.manager) && Lines.Sound(p.lines)
    && p.lines.latest <= OnDisk(config, p.manager)
    && (p.waiting.Some? ==>
          && p.lines.latest <= p.waiting.value.revision <= OnDisk(config, p.manager)
          && (p.waiting.value.changed ==> p.lines.latest < p.waiting.value.revision))
  }

  lemma RevisionIsOnDisk(config: SourceManager.Config, manager: Manager.World)
    requires Manager.Sound(config, manager) && manager.memory.Some?
    ensures SourceManager.Revision(manager.memory.value) == OnDisk(config, manager)
  {
  }

  lemma OnDiskGrows(config: SourceManager.Config, before: Manager.World, event: Manager.Event, after: Manager.World)
    requires Manager.Sound(config, before) && Manager.Step(config, before, event, after)
    ensures Manager.Sound(config, after) && 0 <= OnDisk(config, before) <= OnDisk(config, after)
  {
    Manager.SoundStep(config, before, event, after);
    Manager.NotOlderStep(config, before, event, after);
  }

  lemma FetchedIsHonest(config: SourceManager.Config, p: Process, refresh: Manager.Event, after: Manager.World)
    requires Joined(config, p) && refresh.Refresh? && Manager.Step(config, p.manager, refresh, after)
    ensures var r := ResultOf(config, p.manager, refresh);
            r.Some? ==> p.lines.latest <= r.value.revision == OnDisk(config, after)
                        && (r.value.changed ==> p.lines.latest < r.value.revision)
  {
    OnDiskGrows(config, p.manager, refresh, after);
    RevisionIsOnDisk(config, p.manager);
    if after.memory.Some? {
      RevisionIsOnDisk(config, after);
      Manager.ResultsAdvance(config, p.manager, refresh, after);
    }
  }

  lemma BootIsJoined(config: SourceManager.Config, memory: SourceManager.Memory, localPool: seq<Url>,
                     files: seq<Option<HotReload.SourcesFile>>)
    ensures Lines.Sound(Booted(memory, localPool, files))
  {
    if memory.urls != [] {
      Lines.StartIsSound(memory.urls, SourceManager.Revision(memory), files);
    } else {
      Lines.StartIsSound(localPool, 0, files);
    }
  }

  lemma JoinedStep(config: SourceManager.Config, before: Process, event: Event, after: Process)
    requires Joined(config, before) && Step(config, before, event, after)
    ensures Joined(config, after)
  {
    match event
    case Boot(now, write, localPool, files) =>
      OnDiskGrows(config, before.manager, Manager.Start(now, write), after.manager);
      if after.manager.memory.Some? {
        RevisionIsOnDisk(config, after.manager);
        BootIsJoined(config, after.manager.memory.value, localPool, files);
      }
    case Fetch(refresh) =>
      OnDiskGrows(config, before.manager, refresh, after.manager);
      FetchedIsHonest(config, before, refresh, after.manager);
    case Deliver(now, luck) =>
      Lines.SoundStep(before.lines, Lines.Result(before.waiting.value, now, luck), after.lines);
    case Line(line) =>
      Lines.SoundStep(before.lines, line, after.lines);
  }

  lemma {:induction false} RunsAreJoined(config: SourceManager.Config, states: seq<Process>, events: seq<Event>, i: nat)
    requires Run(config, states, events) && i < |states|
    ensures Joined(config, states[i])
    decreases i
  {
    if i == 0 {
      Lines.StartIsSound([], 0, []);
    } else {
      RunsAreJoined(config, states, events, i - 1);
      assert StepAt(config, states, events, i - 1);
      JoinedStep(config, states[i - 1], events[i - 1], states[i]);
    }
  }

  /** Every result the controller reads is honest: its revision is no smaller than any it has seen,
      and a changed list has a greater one. */
  lemma ManagerIsHonest(config: SourceManager.Config, states: seq<Process>, events: seq<Event>, i: nat)
    requires Run(config, states, events) && i < |events| && events[i].Deliver?
    ensures states[i].waiting.Some?
    ensures Lines.Honest(states[i].lines, Lines.Result(states[i].waiting.value, events[i].now, events[i].luck))
  {
    RunsAreJoined(config, states, events, i);
    assert StepAt(config, states, events, i);
  }

  lemma ActiveStep(config: SourceManager.Config, before: Process, event: Event, after: Process)
    requires config.rules.minSources > 0 && Joined(config, before) && Step(config, before, event, after)
    ensures before.lines.pool.activeRevision <= after.lines.pool.activeRevision
  {
    if event.Boot? && after.manager.memory.Some? {
      OnDiskGrows(config, before.manager, Manager.Start(event.now, event.write), after.manager);
      RevisionIsOnDisk(config, after.manager);
    }
  }

  lemma NextActive(config: SourceManager.Config, states: seq<Process>, events: seq<Event>, i: nat)
    requires Run(config, states, events) && config.rules.minSources > 0 && i < |events|
    ensures states[i].lines.pool.activeRevision <= states[i + 1].lines.pool.activeRevision
  {
    RunsAreJoined(config, states, events, i);
    assert StepAt(config, states, events, i);
    ActiveStep(config, states[i], events[i], states[i + 1]);
  }

  /** Over every run of the process, restarts and crashes included, the active revision never falls. */
  lemma {:induction false} ActiveRevisionNeverFalls(config: SourceManager.Config, states: seq<Process>,
                                                    events: seq<Event>, i: nat, j: nat)
    requires Run(config, states, events) && config.rules.minSources > 0 && i <= j < |states|
    ensures states[i].lines.pool.activeRevision <= states[j].lines.pool.activeRevision
    decreases j
  {
    if i < j {
      ActiveRevisionNeverFalls(config, states, events, i, j - 1);
      NextActive(config, states, events, j - 1);
    }
  }

  /** And whenever it switches, every line runs on the new pool, whose revision was accepted before. */
  lemma SwitchesAreUnanimous(config: SourceManager.Config, states: seq<Process>, events: seq<Event>, i: nat)
    requires Run(config, states, events) && i < |events| && events[i].Line? && events[i].event.Advance?
    requires HotReload.MaySwitch(states[i].lines.engines, states[i].lines.pool)
    ensures Lines.AllRunOn(states[i + 1].lines.engines, states[i].lines.pool.pendingPool)
    ensures states[i + 1].lines.pool.effective == states[i].lines.pool.pendingPool
    ensures states[i + 1].lines.pool.activeRevision <= OnDisk(config, states[i].manager)
  {
    RunsAreJoined(config, states, events, i);
    assert StepAt(config, states, events, i);
    Lines.SwitchStep(states[i].lines, events[i].event, states[i + 1].lines);
  }
}
