/** The publication transaction (source_publisher/service.py): write-once releases, one latest.json,
    a local state file, and recovery from what the store already holds. */
module Publisher {
  import opened Time
  import opened Wrappers
  import opened Ordering
  import opened Manifest

  type Bytes = string

  /** `verify` checks an envelope against the signing key and gives its payload. */
  datatype Config = Config(verify: Bytes -> Option<Document>, minMbps: real, minHealthy: nat, maxHealthy: nat)

  /** The public objects: releases by revision, and latest.json. */
  datatype Store = Store(releases: map<int, Bytes>, latest: Option<Bytes>)

  /** The local state file; revision 0 when nothing was published. */
  datatype State = State(lastRevision: int, lastSuccess: Option<int>, failures: nat, nextRetry: Option<int>)

  /** What becomes of an upload or a file write: done and known, not done, or done while the run fails
      or dies before knowing. Every abort and crash between two effects is one of these. */
  datatype Effect = Done | NotDone | DoneUnknown

  datatype Recovery = Absent | Invalid | Found(document: Document, envelope: Bytes)

  datatype Result = Raised | Success(revision: int, sourceCount: nat, envelope: Bytes)

  /** Only a revision of fourteen digits has an object key (source_publisher/oss.py:18, 93-106). */
  predicate FourteenDigits(revision: int) {
    10_000_000_000_000 <= revision < 100_000_000_000_000
  }

  function Happened(effect: Effect): bool {
    effect.Done? || effect.DoneUnknown?
  }

  /** A commit found in the store: a valid latest.json with a byte-identical release. */
  function Recovered(config: Config, store: Store): Recovery {
    if store.latest.None? then Absent
    else
      var envelope := store.latest.value;
      var document := config.verify(envelope);
      if document.None? || document.value.schema != 1 || !FourteenDigits(document.value.revision) then Invalid
      else if document.value.revision !in store.releases then Invalid
      else if store.releases[document.value.revision] != envelope then Invalid
      else Found(document.value, envelope)
  }

  predicate FastEnough(config: Config, probe: Probe) {
    probe.success && (probe.speed.Infinite? || (probe.speed.Finite? && probe.speed.mbps >= config.minMbps))
  }

  function Fast(config: Config, results: seq<Probe>): seq<Probe> {
    Filter(results, probe => FastEnough(config, probe))
  }

  function Saved(state: State, now: int, revision: int, write: Effect): State {
    if Happened(write) then State(revision, Some(Timestamp(now)), 0, None) else state
  }

  /** The revision a new manifest must exceed. */
  function PreviousRevision(state: State, recovery: Recovery): int {
    if recovery.Found? then Max(state.lastRevision, recovery.document.revision) else state.lastRevision
  }

  predicate AlreadyToday(state: State, recovery: Recovery, now: int) {
    && recovery.Found? && recovery.document.revision >= state.lastRevision
    && LocalDate(recovery.document.generatedAt) == LocalDate(now)
  }

  function Releases(store: Store, revision: int, envelope: Bytes, put: Effect): Store {
    if revision !in store.releases && Happened(put) then
      store.(releases := store.releases[revision := envelope])
    else store
  }

  /** Is the release in place, identical, and known to be? An existing one is never overwritten. */
  predicate ReleaseReady(store: Store, revision: int, envelope: Bytes, put: Effect) {
    if revision in store.releases then store.releases[revision] == envelope else put.Done?
  }

  class PublicationService {
    const config: Config
    var store: Store
    var state: State

    constructor (config: Config, store: Store, state: State)
      ensures this.config == config && this.store == store && this.state == state
    {
      this.config, this.store, this.state := config, store, state;
    }

    method WriteSuccessState(now: int, revision: int, write: Effect)
      modifies this`state
      ensures state == Saved(old(state), now, revision, write)
    {
      if Happened(write) {
        state := State(revision, Some(Timestamp(now)), 0, None);
      }
    }

    method RecoverRemoteCommit() returns (recovery: Recovery)
      ensures recovery == Recovered(config, store)
    {
      if store.latest.None? {
        return Absent;
      }
      var latest := store.latest.value;
      var document := config.verify(latest);
      if document.None? {
        return Invalid;
      }
      if document.value.schema != 1 || !FourteenDigits(document.value.revision) {
        return Invalid;
      }
      var revision := document.value.revision;
      if revision !in store.releases || store.releases[revision] != latest {
        return Invalid;
      }
      recovery := Found(document.value, latest);
    }

    /** Upload the release unless it is there, and read it back. */
    method PutRelease(revision: int, envelope: Bytes, put: Effect) returns (ready: bool)
      modifies this`store
      ensures store == Releases(old(store), revision, envelope, put)
      ensures ready == ReleaseReady(old(store), revision, envelope, put)
    {
      if revision in store.releases {
        ready := store.releases[revision] == envelope;
      } else {
        if Happened(put) {
          store := store.(releases := store.releases[revision := envelope]);
        }
        ready := put.Done?;
      }
    }

    /** `results` are the probes, `envelope` is what signing returned for the payload. */
    method Run(now: int, results: seq<Probe>, envelope: Bytes,
               releasePut: Effect, latestPut: Effect, stateWrite: Effect)
      returns (result: Result)
      requires now >= 0
      modifies this
      ensures (store, state, result)
              == Transaction(config, old(store), old(state), now, results, envelope, releasePut, latestPut, stateWrite)
    {
      var recovery := RecoverRemoteCommit();
      if recovery.Invalid? {
        return Raised;
      }
      if AlreadyToday(state, recovery, now) {
        WriteSuccessState(now, recovery.document.revision, stateWrite);
        if !stateWrite.Done? {
          return Raised;
        }
        return Success(recovery.document.revision, |recovery.document.sources|, recovery.envelope);
      }
      var fast := Fast(config, results);
      if |fast| < config.minHealthy {
        return Raised;
      }
      var document := Build(fast, now, config.maxHealthy, PreviousRevision(state, recovery));
      if config.verify(envelope) != Some(document) || !FourteenDigits(document.revision) {
        return Raised;
      }
      assert Candidate(config, store, state, now, results, envelope) == Some(document);
      var done := Publish(now, document.revision, envelope, releasePut, latestPut, stateWrite);
      result := if done then Success(document.revision, |fast|, envelope) else Raised;
    }

    method Publish(now: int, revision: int, envelope: Bytes, releasePut: Effect, latestPut: Effect, stateWrite: Effect)
      returns (done: bool)
      modifies this
      ensures (store, state, done)
           == Effects(old(store), old(state), now, revision, envelope, releasePut, latestPut, stateWrite)
    {
      var ready := PutRelease(revision, envelope, releasePut);
      if !ready {
        return false;
      }
      if Happened(latestPut) {
        store := store.(latest := Some(envelope));
      }
      if !latestPut.Done? {
        return false;
      }
      WriteSuccessState(now, revision, stateWrite);
      done := stateWrite.Done?;
    }
  }

  /** The document a run would publish; None when it would publish nothing. */
  function Candidate(config: Config, store: Store, state: State, now: int, results: seq<Probe>,
                     envelope: Bytes): Option<Document>
    requires now >= 0
  {
    var recovery, fast := Recovered(config, store), Fast(config, results);
    if recovery.Invalid? || AlreadyToday(state, recovery, now) || |fast| < config.minHealthy then None
    else
      var document := Build(fast, now, config.maxHealthy, PreviousRevision(state, recovery));
      if config.verify(envelope) == Some(document) && FourteenDigits(document.revision) then Some(document) else None
  }

  /** The three effects in order, each only after the one before is known to be done: what they leave
      behind, and whether all were. */
  function Effects(store: Store, state: State, now: int, revision: int, envelope: Bytes,
                   releasePut: Effect, latestPut: Effect, stateWrite: Effect): (Store, State, bool) {
    var released := Releases(store, revision, envelope, releasePut);
    if !ReleaseReady(store, revision, envelope, releasePut) then (released, state, false)
    else
      var latest := if Happened(latestPut) then released.(latest := Some(envelope)) else released;
      if !latestPut.Done? then (latest, state, false)
      else (latest, Saved(state, now, revision, stateWrite), stateWrite.Done?)
  }

  function Transaction(config: Config, store: Store, state: State, now: int, results: seq<Probe>, envelope: Bytes,
                       releasePut: Effect, latestPut: Effect, stateWrite: Effect): (Store, State, Result)
    requires now >= 0
  {
    var recovery := Recovered(config, store);
    var candidate := Candidate(config, store, state, now, results, envelope);
    if !recovery.Invalid? && AlreadyToday(state, recovery, now) then
      var (revision, sources) := (recovery.document.revision, recovery.document.sources);
      (store, Saved(state, now, revision, stateWrite),
       if stateWrite.Done? then Success(revision, |sources|, recovery.envelope) else Raised)
    else if candidate.None? then (store, state, Raised)
    else
      var revision := candidate.value.revision;
      var (after, saved, done) := Effects(store, state, now, revision, envelope, releasePut, latestPut, stateWrite);
      (after, saved, if done then Success(revision, |Fast(config, results)|, envelope) else Raised)
  }

  /** What the scheduler notes in the state file after a failed run. */
  function FailureNoted(state: State, failures: nat, nextRetry: int): State {
    state.(failures := failures, nextRetry := Some(Timestamp(nextRetry)))
  }

  /** And after a successful one. */
  function SuccessNoted(state: State, at: int): State {
    state.(lastSuccess := Some(Timestamp(at)), failures := 0, nextRetry := None)
  }
}
