/** Rollback protection, crash safety and entity tags over every run of the source manager. */
module SourceManagerLaws {
  import opened Wrappers
  import opened Calendar
  import opened Manifest
  import opened SourceManager

  /** `issued` are the pairs of envelope and entity tag the server has sent. */
  datatype World = World(disk: Disk, memory: Option<Memory>, now: int, issued: set<(Bytes, Tag)>)

  datatype Event =
    | Start(now: int, write: Write)
    | Refresh(now: int, response: Response, stateWrite: Write, envelopeWrite: Write, failureWrite: Write)

  function Issue(issued: set<(Bytes, Tag)>, response: Response): set<(Bytes, Tag)> {
    if response.Fetched? then issued + {(response.body, response.etag)} else issued
  }

  /** A process may start at any time; only a running one refreshes. The clock does not go back. */
  ghost predicate Step(config: Config, before: World, event: Event, after: World) {
    before.now <= event.now == after.now &&
    match event
    case Start(now, write) =>
      var r := Loaded(config, before.disk, now, write);
      after.disk == r.disk && after.memory == r.memory && after.issued == before.issued
    case Refresh(now, response, w1, w2, w3) =>
      before.memory.Some? &&
      var r := Refreshed(config, before.disk, before.memory.value, response, now, w1, w2, w3);
      after.disk == r.disk && after.memory == r.memory && after.issued == Issue(before.issued, response)
  }

  ghost predicate Run(config: Config, states: seq<World>, events: seq<Event>) {
    && |states| == |events| + 1 && states[0].disk == Disk(None, None) && states[0].memory.None?
    && forall i :: 0 <= i < |events| ==> StepAt(config, states, events, i)
  }

  ghost predicate StepAt(config: Config, states: seq<World>, events: seq<Event>, i: nat)
    requires i < |events| && |states| == |events| + 1
  {
    Step(config, states[i], events[i], states[i + 1])
  }

  /** What a load would make of the envelope on disk. */
  function OnFile(config: Config, disk: Disk, now: int): Option<Manifest> {
    if disk.envelope.Some? then Read(config, disk.envelope.value, now, true) else None
  }

  // ---- Disk and memory agree ----

  /** The envelope on disk is readable, and memory holds exactly that envelope. */
  ghost predicate Sound(config: Config, world: World) {
    && (world.disk.envelope.Some? ==> OnFile(config, world.disk, world.now).Some?)
    && (world.memory.Some? ==>
          var memory := world.memory.value;
          && memory.envelope == world.disk.envelope
          && memory.manifest == OnFile(config, world.disk, world.now)
          && memory.urls == UrlsOf(memory.manifest))
  }

  lemma ReadLater(config: Config, envelope: Bytes, now: int, later: int, allowExpired: bool)
    requires Read(config, envelope, now, allowExpired).Some? && now <= later
    ensures Read(config, envelope, later, true) == Read(config, envelope, now, allowExpired)
  {
    AcceptedForGood(config.rules, config.verify(envelope).value, now, later, allowExpired);
  }

  lemma StillOnFile(config: Config, world: World, later: int)
    requires Sound(config, world) && world.now <= later
    ensures OnFile(config, world.disk, later) == OnFile(config, world.disk, world.now)
  {
    if world.disk.envelope.Some? {
      ReadLater(config, world.disk.envelope.value, world.now, later, true);
    }
  }

  /** What committing does to the envelope on disk and to memory: a failure keeps both, an equal
      revision or a 304 keeps the former, and a new revision is in memory only once it is on disk. */
  lemma CommitMoves(disk: Disk, memory: Memory, manifest: Manifest, response: Response, w1: Write, w2: Write, w3: Write)
    ensures var r := Committed(disk, memory, manifest, response, w1, w2, w3);
            var envelope := if response.Fetched? then Some(response.body) else memory.envelope;
            var accepted := Memory(Some(manifest), envelope, Urls(manifest), NewTag(memory, response), 0);
            var renewed := !response.Fetched? || (memory.manifest.Some? && manifest.revision == Revision(memory));
            if r.disk.envelope == disk.envelope then
              r.memory.Some? ==>
                || r.memory.value == memory.(failureCount := memory.failureCount + 1)
                || (r.memory.value == accepted && (renewed || envelope == disk.envelope))
            else
              !renewed && r.disk.envelope == envelope && (r.memory.Some? ==> r.memory.value == accepted)
  {
  }

  /** A refresh leaves the envelope on disk and what memory makes of it alone, or brings a newer one. */
  lemma RefreshMoves(config: Config, before: World, event: Event, after: World)
    requires Sound(config, before) && Step(config, before, event, after) && event.Refresh?
    ensures var m := before.memory.value;
            if after.disk.envelope == before.disk.envelope then
              after.memory.Some? ==>
                after.memory.value.manifest == m.manifest && after.memory.value.envelope == m.envelope
                && after.memory.value.urls == m.urls
            else
              && event.response.Fetched? && after.disk.envelope == Some(event.response.body)
              && var accepted := Read(config, event.response.body, event.now, false);
                 && accepted.Some? && (m.manifest.Some? ==> accepted.value.revision > Revision(m))
                 && (after.memory.Some? ==>
                       && after.memory.value.manifest == accepted
                       && after.memory.value.envelope == Some(event.response.body)
                       && after.memory.value.urls == Urls(accepted.value))
  {
    var m, response := before.memory.value, event.response;
    var accepted := Accepted(config, m, response, event.now);
    StillOnFile(config, before, event.now);
    if !response.Cancelled? && accepted.Some? {
      CommitMoves(before.disk, m, accepted.value, response, event.stateWrite, event.envelopeWrite, event.failureWrite);
      if response.Fetched? {
        ReadLater(config, response.body, event.now, event.now, false);
      }
    }
  }

  lemma SoundStep(config: Config, before: World, event: Event, after: World)
    requires Sound(config, before) && Step(config, before, event, after)
    ensures Sound(config, after)
  {
    StillOnFile(config, before, event.now);
    if event.Refresh? {
      RefreshMoves(config, before, event, after);
      if after.disk.envelope != before.disk.envelope {
        ReadLater(config, event.response.body, event.now, event.now, false);
      }
    }
  }

  lemma {:induction false} RunsAreSound(config: Config, states: seq<World>, events: seq<Event>, i: nat)
    requires Run(config, states, events) && i < |states|
    ensures Sound(config, states[i])
    decreases i
  {
    if i > 0 {
      RunsAreSound(config, states, events, i - 1);
      assert StepAt(config, states, events, i - 1);
      SoundStep(config, states[i - 1], events[i - 1], states[i]);
    }
  }

  // ---- No rollback ----

  ghost predicate NotOlder(config: Config, before: Disk, after: Disk) {
    before.envelope.Some? ==>
      && after.envelope.Some?
      && RevisionOf(config.verify, after.envelope.value) >= RevisionOf(config.verify, before.envelope.value)
      && (RevisionOf(config.verify, after.envelope.value) == RevisionOf(config.verify, before.envelope.value)
          ==> after.envelope == before.envelope)
  }

  lemma NotOlderTransitive(config: Config, a: Disk, b: Disk, c: Disk)
    requires NotOlder(config, a, b) && NotOlder(config, b, c)
    ensures NotOlder(config, a, c)
  {
  }

  lemma NotOlderStep(config: Config, before: World, event: Event, after: World)
    requires Sound(config, before) && Step(config, before, event, after)
    ensures NotOlder(config, before.disk, after.disk)
  {
    if event.Refresh? {
      RefreshMoves(config, before, event, after);
    }
  }

  /** Over every run, whatever the server answers and wherever the process dies: the revision on disk
      never falls, and one revision is always the same bytes. */
  lemma {:induction false} NoRollback(config: Config, states: seq<World>, events: seq<Event>, i: nat, j: nat)
    requires Run(config, states, events) && i <= j < |states|
    ensures NotOlder(config, states[i].disk, states[j].disk)
    decreases j
  {
    if i < j {
      NoRollback(config, states, events, i, j - 1);
      RunsAreSound(config, states, events, j - 1);
      assert StepAt(config, states, events, j - 1);
      NotOlderStep(config, states[j - 1], events[j - 1], states[j]);
      NotOlderTransitive(config, states[i].disk, states[j - 1].disk, states[j].disk);
    }
  }

  // ---- Reloading, failing ----

  lemma FileAfterRefresh(config: Config, before: World, refresh: Event, middle: World)
    requires Sound(config, before) && Step(config, before, refresh, middle) && refresh.Refresh?
    ensures OnFile(config, middle.disk, refresh.now)
            == if middle.disk.envelope == before.disk.envelope then before.memory.value.manifest
               else Accepted(config, before.memory.value, refresh.response, refresh.now)
  {
    StillOnFile(config, before, refresh.now);
    if refresh.response.Fetched? && Read(config, refresh.response.body, refresh.now, false).Some? {
      ReadLater(config, refresh.response.body, refresh.now, refresh.now, false);
    }
  }

  /** After a refresh, interrupted or not, a reload finds the manifest of before or the accepted one:
      the accepted one exactly when its envelope is on disk, and always the one in memory if the
      process is still alive. */
  lemma ReloadBeforeOrAfter(config: Config, before: World, refresh: Event, middle: World, start: Event, after: World)
    requires Sound(config, before) && Step(config, before, refresh, middle) && Step(config, middle, start, after)
    requires refresh.Refresh? && start.Start? && after.memory.Some?
    ensures var accepted := Accepted(config, before.memory.value, refresh.response, refresh.now);
            var loaded := after.memory.value.manifest;
            && (loaded == before.memory.value.manifest || loaded == accepted)
            && (middle.disk.envelope != before.disk.envelope ==> loaded == accepted && loaded.Some?)
            && (middle.disk.envelope == before.disk.envelope ==> loaded == before.memory.value.manifest)
            && (middle.memory.Some?
                ==> loaded == middle.memory.value.manifest && after.memory.value.urls == middle.memory.value.urls)
  {
    SoundStep(config, before, refresh, middle);
    SoundStep(config, middle, start, after);
    FileAfterRefresh(config, before, refresh, middle);
    StillOnFile(config, middle, start.now);
  }

  /** A refresh that was cancelled and one that counted another failure leave manifest, envelope, URLs,
      tag and the envelope on disk as they were. */
  lemma FailureChangesNothing(config: Config, before: World, event: Event, after: World)
    requires Sound(config, before) && Step(config, before, event, after) && event.Refresh? && after.memory.Some?
    requires event.response.Cancelled? || after.memory.value.failureCount == before.memory.value.failureCount + 1
    ensures var (old', new') := (before.memory.value, after.memory.value);
            && new' == old'.(failureCount := new'.failureCount)
            && after.disk.envelope == before.disk.envelope
  {
  }

  /** A rejected answer is a failure, whatever it was: a fetch that did not verify, an older revision,
      other bytes of the same revision, or a 304 while nothing is held. */
  lemma RejectedIsFailure(config: Config, before: World, event: Event, after: World)
    requires Step(config, before, event, after) && event.Refresh? && !event.response.Cancelled?
    requires Accepted(config, before.memory.value, event.response, event.now).None?
    ensures after.memory.Some? ==> after.memory.value.failureCount == before.memory.value.failureCount + 1
    ensures after.disk.envelope == before.disk.envelope
  {
  }

  // ---- When a refresh succeeds ----

  /** Every write succeeds. */
  predicate WritesDone(event: Event) {
    event.Refresh? && event.stateWrite.Done? && event.envelopeWrite.Done? && event.failureWrite.Done?
  }

  /** An answer that must be taken: a 304 while a list is held, or an envelope that reads as a current
      list and is the first, a newer one, or the held one again. */
  predicate Welcome(config: Config, memory: Memory, response: Response, now: int) {
    match response
    case Cancelled => false
    case Unavailable => false
    case NotModified => memory.manifest.Some?
    case Fetched(body, _) =>
      && Read(config, body, now, false).Some?
      && (memory.manifest.Some? ==>
            || Read(config, body, now, false).value.revision > memory.manifest.value.revision
            || memory.envelope == Some(body))
  }

  lemma WelcomeIsAccepted(config: Config, world: World, response: Response, now: int)
    requires Sound(config, world) && world.memory.Some? && world.now <= now
    ensures Accepted(config, world.memory.value, response, now).Some?
            <==> Welcome(config, world.memory.value, response, now)
  {
    StillOnFile(config, world, now);
    if response.Fetched? && Read(config, response.body, now, false).Some? {
      ReadLater(config, response.body, now, now, false);
    }
  }

  /** A refresh that is not cancelled succeeds exactly with a welcome answer. Otherwise it counts one
      failure more, in memory and on disk. */
  lemma SuccessIsExact(config: Config, before: World, event: Event, after: World)
    requires Sound(config, before) && Step(config, before, event, after) && WritesDone(event)
    ensures after.memory.Some?
    ensures event.response.Cancelled? ==> after.memory == before.memory && after.disk == before.disk
    ensures !event.response.Cancelled? ==>
              var (m, n) := (before.memory.value, after.memory.value);
              if Welcome(config, m, event.response, event.now) then n.failureCount == 0
              else
                && n == m.(failureCount := m.failureCount + 1)
                && after.disk == before.disk.(state := Some(Saved(Revision(m), m.etag, m.failureCount + 1)))
  {
    WelcomeIsAccepted(config, before, event.response, event.now);
  }

  /** A 304 for the held list clears the failures and changes nothing else. */
  lemma NotModifiedKeepsAll(config: Config, before: World, event: Event, after: World)
    requires Sound(config, before) && Step(config, before, event, after) && WritesDone(event)
    requires event.response.NotModified? && before.memory.value.manifest.Some?
    ensures var m := before.memory.value;
            && after.memory == Some(m.(failureCount := 0))
            && after.disk == before.disk.(state := Some(Saved(Revision(m), m.etag, 0)))
            && !ChangedBy(config, before, event)
  {
  }

  /** Does the refresh report a changed list? */
  function ChangedBy(config: Config, before: World, event: Event): bool
    requires event.Refresh? && before.memory.Some?
  {
    Refreshed(config, before.disk, before.memory.value, event.response, event.now,
              event.stateWrite, event.envelopeWrite, event.failureWrite).changed
  }

  /** A welcome envelope is in memory and on disk afterwards, with its own tag or, if it has none, the
      old one, and it is reported exactly if no list was held or its URLs are others. */
  lemma WelcomeIsHeld(config: Config, before: World, event: Event, after: World)
    requires Sound(config, before) && Step(config, before, event, after) && WritesDone(event)
    requires event.response.Fetched? && Welcome(config, before.memory.value, event.response, event.now)
    ensures var (m, list) := (before.memory.value, Read(config, event.response.body, event.now, false).value);
            var etag := if event.response.etag == "" then m.etag else event.response.etag;
            && after.memory == Some(Memory(Some(list), Some(event.response.body), Urls(list), etag, 0))
            && after.disk == Disk(Some(Saved(list.revision, etag, 0)), Some(event.response.body))
            && (ChangedBy(config, before, event) <==> m.manifest.None? || Urls(list) != m.urls)
  {
    WelcomeIsAccepted(config, before, event.response, event.now);
    StillOnFile(config, before, event.now);
    ReadLater(config, event.response.body, event.now, event.now, false);
  }

  /** After a refresh whose writes succeed, a start brings back exactly what was in memory. */
  lemma StartRestores(config: Config, before: World, refresh: Event, middle: World, start: Event, after: World)
    requires Sound(config, before) && Step(config, before, refresh, middle) && WritesDone(refresh)
    requires !refresh.response.Cancelled? && Step(config, middle, start, after) && start.Start?
    ensures after.memory == middle.memory && after.disk == middle.disk
  {
    SoundStep(config, before, refresh, middle);
    StillOnFile(config, middle, start.now);
    SuccessIsExact(config, before, refresh, middle);
    MirrorsMemory(config, before, refresh, middle);
    HeldHasRevision(config, middle);
  }

  /** The state file mirrors memory after such a refresh. */
  lemma MirrorsMemory(config: Config, before: World, event: Event, after: World)
    requires Sound(config, before) && Step(config, before, event, after) && WritesDone(event)
    requires !event.response.Cancelled?
    ensures after.memory.Some?
    ensures var m := after.memory.value; after.disk.state == Some(Saved(Revision(m), m.etag, m.failureCount))
  {
    SuccessIsExact(config, before, event, after);
    if Welcome(config, before.memory.value, event.response, event.now) {
      if event.response.NotModified? {
        NotModifiedKeepsAll(config, before, event, after);
      } else {
        WelcomeIsHeld(config, before, event, after);
      }
    }
  }

  /** A held list has a revision other than that of no list. */
  lemma HeldHasRevision(config: Config, world: World)
    requires Sound(config, world) && world.memory.Some?
    ensures world.memory.value.manifest.Some? ==> Revision(world.memory.value) > 0
    ensures world.memory.value.manifest.None? ==> world.disk.envelope.None? && world.memory.value.envelope.None?
  {
  }

  // ---- What becomes of every write ----

  function TagFor(memory: Memory, response: Response): Tag {
    if response.Fetched? && response.etag != "" then response.etag else memory.etag
  }

  predicate Deadly(write: Write) {
    write in {CrashBefore, CrashAfter}
  }

  predicate Lasting(write: Write) {
    write in {Done, CrashAfter}
  }

  /** A counted failure: in memory if the process survives saving it, on disk if it was saved. */
  ghost predicate FailedWith(m: Memory, state: Option<Saved>, write: Write, before: World, after: World) {
    && after.disk.envelope == before.disk.envelope
    && after.memory == (if Deadly(write) then None else Some(m.(failureCount := m.failureCount + 1)))
    && after.disk.state == if Lasting(write) then Some(Saved(Revision(m), m.etag, m.failureCount + 1)) else state
  }

  /** An answer that is not welcome only counts a failure, whatever becomes of saving it. */
  lemma UnwelcomeFates(config: Config, before: World, event: Event, after: World)
    requires Sound(config, before) && Step(config, before, event, after) && event.Refresh?
    requires !event.response.Cancelled? && !Welcome(config, before.memory.value, event.response, event.now)
    ensures FailedWith(before.memory.value, before.disk.state, event.failureWrite, before, after)
    ensures !ChangedBy(config, before, event)
  {
    WelcomeIsAccepted(config, before, event.response, event.now);
  }

  /** If the new state is refused the refresh has failed, and if the process dies on it nothing but that
      state is on disk. */
  lemma StateWriteFates(config: Config, before: World, event: Event, after: World)
    requires Sound(config, before) && Step(config, before, event, after) && event.Refresh?
    requires Welcome(config, before.memory.value, event.response, event.now) && !event.stateWrite.Done?
    ensures !ChangedBy(config, before, event)
    ensures event.stateWrite.Refused? ==>
              FailedWith(before.memory.value, before.disk.state, event.failureWrite, before, after)
    ensures !event.stateWrite.Refused? ==>
              && after.memory.None? && after.disk.envelope == before.disk.envelope
              && (event.stateWrite.CrashBefore? ==> after.disk == before.disk)
              && (event.stateWrite.CrashAfter? ==>
                    after.disk.state.Some? && after.disk.state.value.failureCount == 0
                    && after.disk.state.value.etag == TagFor(before.memory.value, event.response))
  {
    WelcomeIsAccepted(config, before, event.response, event.now);
  }

  /** A first or newer envelope that is refused makes the refresh a failure, with the new state on disk
      unless the failure was saved over it; and if the process dies on it, it is on disk or not. */
  lemma EnvelopeWriteFates(config: Config, before: World, event: Event, after: World)
    requires Sound(config, before) && Step(config, before, event, after) && event.Refresh? && event.response.Fetched?
    requires Welcome(config, before.memory.value, event.response, event.now) && event.stateWrite.Done?
    requires before.memory.value.envelope != Some(event.response.body) && !event.envelopeWrite.Done?
    ensures var (m, list) := (before.memory.value, Read(config, event.response.body, event.now, false).value);
            var state := Some(Saved(list.revision, TagFor(m, event.response), 0));
            && !ChangedBy(config, before, event)
            && (event.envelopeWrite.Refused? ==> FailedWith(m, state, event.failureWrite, before, after))
            && (!event.envelopeWrite.Refused? ==>
                  && after.memory.None? && after.disk.state == state
                  && after.disk.envelope
                     == if event.envelopeWrite.CrashAfter? then Some(event.response.body) else before.disk.envelope)
  {
    WelcomeIsAccepted(config, before, event.response, event.now);
    StillOnFile(config, before, event.now);
    ReadLater(config, event.response.body, event.now, event.now, false);
  }

  /** Where nothing new is to be written to the envelope file, its write plays no part. */
  lemma HeldNeedsNoEnvelopeWrite(config: Config, before: World, event: Event, after: World)
    requires Sound(config, before) && Step(config, before, event, after) && event.Refresh? && event.stateWrite.Done?
    requires Welcome(config, before.memory.value, event.response, event.now)
    requires event.response.NotModified? || before.memory.value.envelope == Some(event.response.body)
    ensures var m := before.memory.value;
            && after.memory == Some(m.(failureCount := 0, etag := TagFor(m, event.response)))
            && after.disk == before.disk.(state := Some(Saved(Revision(m), TagFor(m, event.response), 0)))
            && !ChangedBy(config, before, event)
  {
    WelcomeIsAccepted(config, before, event.response, event.now);
    StillOnFile(config, before, event.now);
    if event.response.Fetched? {
      ReadLater(config, event.response.body, event.now, event.now, false);
    }
  }

  /** A start holds the list on disk. It trusts tag and failures of a state of the same revision, or of no
      list if there is none; otherwise it begins anew, and saves that beside a list, if it can. */
  lemma StartIsExact(config: Config, before: World, event: Event, after: World)
    requires Sound(config, before) && Step(config, before, event, after) && event.Start?
    ensures var (disk, list) := (before.disk, OnFile(config, before.disk, before.now));
            var revision := if list.Some? then list.value.revision else 0;
            var trusted := disk.state.Some? && disk.state.value.revision == revision;
            var (etag, failures) := if trusted then (disk.state.value.etag, disk.state.value.failureCount) else ("", 0);
            var held := Memory(list, disk.envelope, UrlsOf(list), etag, failures);
            if trusted || list.None? then after.disk == disk && after.memory == Some(held)
            else
              && after.disk == disk.(state := if Lasting(event.write) then Some(Saved(revision, "", 0)) else disk.state)
              && after.memory == if Deadly(event.write) then None else Some(held)
  {
    StillOnFile(config, before, event.now);
    if before.disk.envelope.Some? {
      RevisionIsPositive(config, before);
    }
  }

  lemma RevisionIsPositive(config: Config, world: World)
    requires Sound(config, world) && world.disk.envelope.Some?
    ensures OnFile(config, world.disk, world.now).Some? && OnFile(config, world.disk, world.now).value.revision > 0
  {
  }

  // ---- Results handed to the controller ----

  /** A changed list has a greater revision, and no result has a smaller one. */
  lemma ResultsAdvance(config: Config, before: World, event: Event, after: World)
    requires Sound(config, before) && Step(config, before, event, after) && event.Refresh? && after.memory.Some?
    ensures var (m, n) := (before.memory.value, after.memory.value);
            var r := Refreshed(config, before.disk, m, event.response, event.now, event.stateWrite,
                               event.envelopeWrite, event.failureWrite);
            && Revision(n) >= Revision(m)
            && (r.changed ==> Revision(n) > Revision(m))
            && (!r.changed ==> n.urls == m.urls)
  {
    StillOnFile(config, before, event.now);
    if event.response.Fetched? && Read(config, event.response.body, event.now, false).Some? {
      ReadLater(config, event.response.body, event.now, event.now, false);
    }
  }

  // ---- Entity tags ----

  ghost predicate Issued(world: World, envelope: Bytes, etag: Tag) {
    (envelope, etag) in world.issued
  }

  /** The tag the manager would send was issued for the envelope it holds; none when it holds none. */
  ghost predicate TagOfHeld(world: World) {
    world.memory.Some? && world.memory.value.etag != "" ==>
      world.memory.value.envelope.Some? && Issued(world, world.memory.value.envelope.value, world.memory.value.etag)
  }

  /** A saved tag that a load would use was issued for the envelope on disk. */
  ghost predicate TagOnDisk(config: Config, world: World) {
    world.disk.state.Some? && world.disk.state.value.etag != "" ==>
      && world.disk.state.value.revision != 0
      && (world.disk.envelope.Some?
          && world.disk.state.value.revision == RevisionOf(config.verify, world.disk.envelope.value)
          ==> Issued(world, world.disk.envelope.value, world.disk.state.value.etag))
  }

  ghost predicate TagsSound(config: Config, world: World) {
    Sound(config, world) && TagOfHeld(world) && TagOnDisk(config, world)
  }

  /** The server sends an entity tag with every envelope. */
  predicate Tagged(event: Event) {
    event.Refresh? && event.response.Fetched? ==> event.response.etag != ""
  }

  lemma TagsStep(config: Config, before: World, event: Event, after: World)
    requires TagsSound(config, before) && Step(config, before, event, after) && Tagged(event)
    ensures TagsSound(config, after)
  {
    SoundStep(config, before, event, after);
    StillOnFile(config, before, event.now);
    match event
    case Start(_, _) =>
    case Refresh(now, response, w1, w2, w3) =>
      var memory := before.memory.value;
      var manifest := Accepted(config, memory, response, now);
      if response.Cancelled? {
      } else if manifest.None? {
        RejectedTags(config, before, event, after);
      } else {
        CommittedTags(config, before, event, after, manifest.value);
      }
  }

  lemma RejectedTags(config: Config, before: World, event: Event, after: World)
    requires TagsSound(config, before) && Step(config, before, event, after) && event.Refresh?
    requires Accepted(config, before.memory.value, event.response, event.now).None?
    ensures TagOfHeld(after) && TagOnDisk(config, after)
  {
    StillOnFile(config, before, event.now);
  }

  lemma CommittedTags(config: Config, before: World, event: Event, after: World, manifest: Manifest)
    requires TagsSound(config, before) && Step(config, before, event, after) && Tagged(event)
    requires event.Refresh? && !event.response.Cancelled?
    requires Accepted(config, before.memory.value, event.response, event.now) == Some(manifest)
    ensures TagOfHeld(after) && TagOnDisk(config, after)
  {
    StillOnFile(config, before, event.now);
  }

  /** With a tag on every envelope, in every reachable state, also after a crash between the two
      writes, the tag the manager would send was issued for the envelope it holds. */
  lemma {:induction false} TagsStaySound(config: Config, states: seq<World>, events: seq<Event>, i: nat)
    requires Run(config, states, events) && i < |states|
    requires forall k :: 0 <= k < i ==> Tagged(events[k])
    ensures TagsSound(config, states[i])
    decreases i
  {
    if i > 0 {
      TagsStaySound(config, states, events, i - 1);
      assert StepAt(config, states, events, i - 1);
      TagsStep(config, states[i - 1], events[i - 1], states[i]);
    }
  }

  /** Strong tags: one tag, one envelope. */
  ghost predicate Strong(issued: set<(Bytes, Tag)>) {
    forall a, b :: a in issued && b in issued && a.1 == b.1 && a.1 != "" ==> a.0 == b.0
  }

  /** A 304 then means what the manager takes it to mean: the server's envelope is the held one. */
  lemma NotModifiedIsRight(config: Config, world: World, current: Bytes)
    requires TagsSound(config, world) && world.memory.Some? && world.memory.value.etag != ""
    requires Strong(world.issued) && Issued(world, current, world.memory.value.etag)
    ensures world.memory.value.envelope == Some(current)
  {
  }

  /** An accepted envelope without a tag keeps the tags right exactly when no tag is held or the
      envelope on disk stays the same: the revision is the held one, or the process fails or dies
      before the new envelope is written. Otherwise the old tag stays with the new envelope, also when
      the process dies right after writing it. */
  lemma MissingTag(config: Config, before: World, event: Event, after: World)
    requires TagsSound(config, before) && Step(config, before, event, after) && event.Refresh?
    requires event.response.Fetched? && event.response.etag == ""
    requires Accepted(config, before.memory.value, event.response, event.now).Some?
    requires Strong(before.issued)
    ensures TagsSound(config, after) <==> before.memory.value.etag == "" || after.disk.envelope == before.disk.envelope
    ensures after.disk.envelope == before.disk.envelope
            <==> || RevisionOf(config.verify, event.response.body) == Revision(before.memory.value)
                 || !event.stateWrite.Done? || event.envelopeWrite.Refused? || event.envelopeWrite.CrashBefore?
  {
    SoundStep(config, before, event, after);
    WhenEnvelopeMoves(config, before, event, after);
    var memory, body := before.memory.value, event.response.body;
    if memory.etag != "" && after.disk.envelope != before.disk.envelope {
      NotOfBody(before, body);
    }
  }

  lemma WhenEnvelopeMoves(config: Config, before: World, event: Event, after: World)
    requires Sound(config, before) && Step(config, before, event, after) && event.Refresh? && event.response.Fetched?
    requires Accepted(config, before.memory.value, event.response, event.now).Some?
    ensures after.disk.envelope == before.disk.envelope
            <==> || RevisionOf(config.verify, event.response.body) == Revision(before.memory.value)
                 || !event.stateWrite.Done? || event.envelopeWrite.Refused? || event.envelopeWrite.CrashBefore?
  {
    StillOnFile(config, before, event.now);
  }

  /** A held tag was not issued for another envelope. */
  lemma NotOfBody(world: World, body: Bytes)
    requires TagOfHeld(world) && world.memory.Some? && world.memory.value.etag != "" && Strong(world.issued)
    requires world.memory.value.envelope != Some(body)
    ensures (body, world.memory.value.etag) !in Issue(world.issued, Fetched(body, ""))
  {
  }

  const URLS: seq<Url> := ["http://a.example/", "http://b.example/", "http://c.example/"]

  /** A server of two lists that sends a tag with the first one only. */
  function TwoLists(): Config {
    Config(Rules(3, (url: Url) => Some(url)),
           (envelope: Bytes) => if envelope == "one" then Some(ListOf(OLD))
                                else if envelope == "two" then Some(ListOf(NEW)) else None)
  }

  function ListOf(revision: int): Document {
    var entry := (url: Url) => Entry(url, 0, Finite(80.0));
    Document(1, revision, 0, VALIDITY, [entry(URLS[0]), entry(URLS[1]), entry(URLS[2])])
  }

  const OLD: int := 20260101000001
  const NEW: int := 20260101000002

  function ListHeld(envelope: Bytes, revision: int): Memory {
    Memory(Some(ManifestOf(TwoLists().rules, ListOf(revision))), Some(envelope), URLS, "t", 0)
  }

  const EMPTY := World(Disk(None, None), None, 0, {})
  const STARTED := EMPTY.(memory := Some(Memory(None, None, [], "", 0)))
  const FIRST := World(Disk(Some(Saved(OLD, "t", 0)), Some("one")), Some(ListHeld("one", OLD)), 0, {("one", "t")})
  const DEAD := World(Disk(Some(Saved(NEW, "t", 0)), Some("two")), None, 0, {("one", "t"), ("two", "")})
  const AGAIN := DEAD.(memory := Some(ListHeld("two", NEW)))

  lemma ListReads(revision: int, allowExpired: bool)
    requires ValidRevision(revision)
    ensures Parsed(TwoLists().rules, ListOf(revision), 0, allowExpired)
            == Some(ManifestOf(TwoLists().rules, ListOf(revision)))
  {
  }

  lemma TwoRevisions()
    ensures ValidRevision(OLD) && ValidRevision(NEW)
  {
    assert OLD / 100 == 202601010000 == NEW / 100 && 202601010000 / 10000 == 20260101;
    assert ValidMinute(202601010000);
  }

  lemma TwoListsRead(allowExpired: bool)
    ensures Read(TwoLists(), "one", 0, allowExpired) == ListHeld("one", OLD).manifest
    ensures Read(TwoLists(), "two", 0, allowExpired) == ListHeld("two", NEW).manifest
  {
    TwoRevisions();
    ListReads(OLD, allowExpired);
    ListReads(NEW, allowExpired);
  }

  lemma FirstList()
    ensures Step(TwoLists(), STARTED, Refresh(0, Fetched("one", "t"), Done, Done, Done), FIRST)
  {
    TwoListsRead(false);
    assert Urls(FIRST.memory.value.manifest.value) == URLS;
  }

  lemma SecondList()
    ensures Step(TwoLists(), FIRST, Refresh(0, Fetched("two", ""), Done, CrashAfter, Done), DEAD)
  {
    TwoListsRead(false);
  }

  lemma StartAgain()
    ensures Step(TwoLists(), DEAD, Start(0, Done), AGAIN)
  {
    TwoListsRead(true);
    assert Urls(AGAIN.memory.value.manifest.value) == URLS;
  }

  ghost predicate Reachable(config: Config, world: World) {
    exists states: seq<World>, events: seq<Event> :: Run(config, states, events) && states[|events|] == world
  }

  lemma Reach(config: Config, before: World, event: Event, after: World)
    requires Reachable(config, before) && Step(config, before, event, after)
    ensures Reachable(config, after)
  {
    var states: seq<World>, events: seq<Event> :| Run(config, states, events) && states[|events|] == before;
    forall i | 0 <= i < |events| + 1 ensures StepAt(config, states + [after], events + [event], i) {
      assert i < |events| ==> StepAt(config, states, events, i);
    }
    assert Run(config, states + [after], events + [event]);
  }

  /** A run that dies right after writing an envelope without a tag, and then starts again, holds
      the second list with the tag of the first. */
  lemma OldTagForNewEnvelope()
    ensures exists world :: Reachable(TwoLists(), world) && !TagOfHeld(world)
  {
    assert Run(TwoLists(), [EMPTY], []);
    Reach(TwoLists(), EMPTY, Start(0, Done), STARTED);
    FirstList();
    Reach(TwoLists(), STARTED, Refresh(0, Fetched("one", "t"), Done, Done, Done), FIRST);
    SecondList();
    Reach(TwoLists(), FIRST, Refresh(0, Fetched("two", ""), Done, CrashAfter, Done), DEAD);
    StartAgain();
    Reach(TwoLists(), DEAD, Start(0, Done), AGAIN);
    OldTagHeld();
  }

  lemma OldTagHeld()
    ensures !TagOfHeld(AGAIN)
  {
  }
}
