/** The shared circuit breaker of the download helper (cmd/discarder/main.go, sourceHealth). */
module SourceHealth {
  import opened Time
  import opened Wrappers

  type Url = string

  const PROBE_WAIT: int := 250_000

  datatype SourceState = SourceState(failures: nat, level: nat, retryAfter: int, probeInFlight: bool)

  const NEW_STATE := SourceState(0, 0, 0, false)

  /** `epochs` is None until URLs are tracked; zero is no epoch. */
  datatype Health = Health(states: map<Url, SourceState>, epochs: Option<map<Url, nat>>, nextEpoch: nat)

  datatype Grant = Grant(allowed: bool, retryIn: int, probe: bool, epoch: nat)

  function RetryDelay(failures: int): int {
    if failures < 1 then 0
    else
      var shift := Min(failures - 1, 5);
      Min(SECOND * [1, 2, 4, 8, 16, 32][shift], 30 * SECOND)
  }

  function QuarantineDelay(level: int): int {
    if level == 1 then 10 * MINUTE else if level == 2 then 30 * MINUTE else 60 * MINUTE
  }

  /** Zero when the URL is not tracked. */
  function EpochOf(health: Health, url: Url): nat {
    if health.epochs.Some? && url in health.epochs.value then health.epochs.value[url] else 0
  }

  /** An outcome of this epoch is recorded; one of any other is ignored. */
  predicate Current(health: Health, url: Url, epoch: nat) {
    epoch != 0 && EpochOf(health, url) == epoch
  }

  function Claim(health: Health, url: Url, now: int): (Health, Grant) {
    var epoch := EpochOf(health, url);
    if health.epochs.Some? && url !in health.epochs.value then (health, Grant(false, 0, false, 0))
    else if url !in health.states then (health, Grant(true, 0, false, epoch))
    else
      var state := health.states[url];
      if now < state.retryAfter then (health, Grant(false, state.retryAfter - now, false, epoch))
      else if state.level == 0 then (health, Grant(true, 0, false, epoch))
      else if state.probeInFlight then (health, Grant(false, PROBE_WAIT, false, epoch))
      else (health.(states := health.states[url := state.(probeInFlight := true)]), Grant(true, 0, true, epoch))
  }

  function FailedState(before: SourceState, now: int, wasProbe: bool): SourceState {
    var state := before.(failures := before.failures + 1);
    if wasProbe then
      var level := Min(Max(state.level + 1, 1), 3);
      state.(probeInFlight := false, level := level, retryAfter := now + QuarantineDelay(level))
    else if state.failures >= 3 then
      if state.level == 0 then state.(level := 1, retryAfter := now + QuarantineDelay(1)) else state
    else state.(retryAfter := now + RetryDelay(state.failures))
  }

  function StateOf(health: Health, url: Url): SourceState {
    if url in health.states then health.states[url] else NEW_STATE
  }

  function Failed(health: Health, url: Url, epoch: nat, now: int, wasProbe: bool): (Health, bool) {
    if !Current(health, url, epoch) then (health, false)
    else (health.(states := health.states[url := FailedState(StateOf(health, url), now, wasProbe)]), true)
  }

  function Succeeded(health: Health, url: Url, epoch: nat): (Health, bool) {
    if !Current(health, url, epoch) then (health, false)
    else (health.(states := health.states - {url}), url in health.states)
  }

  function Released(health: Health, url: Url, epoch: nat): Health {
    if (health.epochs.Some? && EpochOf(health, url) != epoch) || url !in health.states then health
    else health.(states := health.states[url := health.states[url].(probeInFlight := false)])
  }

  function EpochMap(health: Health): map<Url, nat> {
    if health.epochs.Some? then health.epochs.value else map[]
  }

  /** Each URL has an epoch of its own between `low` (excluded) and `high`. */
  ghost predicate Numbered(epochs: map<Url, nat>, low: nat, high: nat) {
    && low <= high
    && (forall url :: url in epochs ==> low < epochs[url] <= high)
    && (forall a, b :: a in epochs && b in epochs && epochs[a] == epochs[b] ==> a == b)
  }

  lemma NumberedNext(epochs: map<Url, nat>, low: nat, high: nat, url: Url)
    requires Numbered(epochs, low, high)
    ensures Numbered(epochs[url := high + 1], low, high + 1)
  {
  }

  /** URLs tracked before and after keep their epoch; the new ones get epochs above every earlier one. */
  ghost predicate FreshEpochs(before: Health, after: Health) {
    && after.epochs.Some?
    && (forall url :: url in EpochMap(before) && url in EpochMap(after) ==>
          EpochMap(after)[url] == EpochMap(before)[url])
    && Numbered(EpochMap(after) - EpochMap(before).Keys, before.nextEpoch, after.nextEpoch)
  }

  /** After a reload exactly `urls` are tracked; the others are forgotten. */
  ghost predicate Retained(before: Health, urls: set<Url>, after: Health) {
    && FreshEpochs(before, after) && EpochMap(after).Keys == urls
    && after.states == Only(before.states, urls)
  }

  function Only<V>(entries: map<Url, V>, urls: set<Url>): map<Url, V> {
    map url | url in entries && url in urls :: entries[url]
  }

  lemma OnlyTwice<V>(entries: map<Url, V>, stale: set<Url>, urls: set<Url>)
    ensures Only(entries - (stale - urls), urls) == Only(entries, urls)
  {
  }

  lemma RetainedBy(before: Health, keep: set<Url>, numbered: map<Url, nat>, next: nat)
    requires numbered.Keys == keep - TrackedUrls(before)
    requires Numbered(numbered, before.nextEpoch, next)
    ensures Retained(before, keep,
                     Health(Only(before.states, keep), Some(Only(EpochMap(before), keep) + numbered), next))
  {
    var epochs := Only(EpochMap(before), keep) + numbered;
    assert epochs - EpochMap(before).Keys == numbered;
    assert epochs.Keys == keep;
  }

  ghost predicate Tracked(before: Health, urls: set<Url>, after: Health) {
    if before.epochs.Some? then after == before
    else FreshEpochs(before, after) && EpochMap(after).Keys == urls && after.states == before.states
  }

  class SourceHealth {
    var states: map<Url, SourceState>
    var activeEpoch: Option<map<Url, nat>>
    var nextEpoch: nat

    constructor ()
      ensures View() == Health(map[], None, 0)
    {
      states, activeEpoch, nextEpoch := map[], None, 0;
    }

    function View(): Health
      reads this
    {
      Health(states, activeEpoch, nextEpoch)
    }

    method ClaimCurrent(url: Url, now: int) returns (grant: Grant)
      modifies this`states
      ensures (View(), grant) == Claim(old(View()), url, now)
    {
      var epoch := 0;
      if activeEpoch.Some? {
        if url !in activeEpoch.value {
          return Grant(false, 0, false, 0);
        }
        epoch := activeEpoch.value[url];
      }
      if url !in states {
        return Grant(true, 0, false, epoch);
      }
      var state := states[url];
      if now < state.retryAfter {
        return Grant(false, state.retryAfter - now, false, epoch);
      }
      if state.level == 0 {
        return Grant(true, 0, false, epoch);
      }
      if state.probeInFlight {
        return Grant(false, PROBE_WAIT, false, epoch);
      }
      states := states[url := state.(probeInFlight := true)];
      grant := Grant(true, 0, true, epoch);
    }

    method FailedCurrent(url: Url, epoch: nat, now: int, wasProbe: bool) returns (recorded: bool)
      modifies this`states
      ensures (View(), recorded) == Failed(old(View()), url, epoch, now, wasProbe)
    {
      if activeEpoch.None? || epoch == 0 || EpochOf(View(), url) != epoch {
        return false;
      }
      var state := if url in states then states[url] else NEW_STATE;
      state := state.(failures := state.failures + 1);
      if wasProbe {
        state := state.(probeInFlight := false, level := Min(Max(state.level + 1, 1), 3));
        state := state.(retryAfter := now + QuarantineDelay(state.level));
      } else if state.failures >= 3 {
        if state.level == 0 {
          state := state.(level := 1, retryAfter := now + QuarantineDelay(1));
        }
      } else {
        state := state.(retryAfter := now + RetryDelay(state.failures));
      }
      states := states[url := state];
      recorded := true;
    }

    method SucceededCurrent(url: Url, epoch: nat) returns (hadFailures: bool)
      modifies this`states
      ensures (View(), hadFailures) == Succeeded(old(View()), url, epoch)
    {
      if activeEpoch.None? || epoch == 0 || EpochOf(View(), url) != epoch {
        return false;
      }
      hadFailures := url in states;
      states := states - {url};
    }

    method ReleaseProbeCurrent(url: Url, epoch: nat)
      modifies this`states
      ensures View() == Released(old(View()), url, epoch)
    {
      if activeEpoch.Some? && EpochOf(View(), url) != epoch {
        return;
      }
      if url in states {
        states := states[url := states[url].(probeInFlight := false)];
      }
    }

    /** Give `todo` fresh epochs, in whatever order a map is walked. */
    method Number(todo: set<Url>) returns (epochs: map<Url, nat>)
      modifies this`nextEpoch
      ensures epochs.Keys == todo && nextEpoch == old(nextEpoch) + |todo|
      ensures Numbered(epochs, old(nextEpoch), nextEpoch)
    {
      epochs := map[];
      var left := todo;
      while left != {}
        invariant left <= todo && epochs.Keys == todo - left
        invariant nextEpoch == old(nextEpoch) + |todo| - |left|
        invariant Numbered(epochs, old(nextEpoch), nextEpoch)
        decreases left
      {
        var url :| url in left;
        NumberedNext(epochs, old(nextEpoch), nextEpoch, url);
        nextEpoch := nextEpoch + 1;
        epochs := epochs[url := nextEpoch];
        left := left - {url};
      }
    }

    method Retain(urls: seq<Url>)
      modifies this
      ensures Retained(old(View()), Listed(urls), View())
      ensures nextEpoch == old(nextEpoch) + |Listed(urls) - TrackedUrls(old(View()))|
    {
      ghost var before := View();
      var keep, current := Listed(urls), EpochMap(View());
      OnlyTwice(states, current.Keys, keep);
      states := states - (current.Keys - keep);
      var numbered := Number(keep - current.Keys);
      RetainedBy(before, keep, numbered, nextEpoch);
      activeEpoch := Some(Only(current, keep) + numbered);
      states := Only(states, keep);
    }

    method EnsureTracked(urls: seq<Url>)
      modifies this`activeEpoch, this`nextEpoch
      ensures Tracked(old(View()), Listed(urls), View())
    {
      if activeEpoch.Some? {
        return;
      }
      var epochs: map<Url, nat> := map[];
      for i := 0 to |urls|
        invariant activeEpoch.None?
        invariant nextEpoch == old(nextEpoch) + i && epochs.Keys == Listed(urls[..i])
        invariant Numbered(epochs, old(nextEpoch), nextEpoch)
      {
        assert urls[..i + 1] == urls[..i] + [urls[i]];
        NumberedNext(epochs, old(nextEpoch), nextEpoch, urls[i]);
        nextEpoch := nextEpoch + 1;
        epochs := epochs[urls[i] := nextEpoch];
      }
      assert urls[..|urls|] == urls;
      activeEpoch := Some(epochs);
      assert epochs - {} == epochs;
    }

    /** A worker's walk over the sources, from where it left off: the first that may be claimed,
        or how long to wait: the shortest wait any of them asks for, a quarter second when none does. */
    method SelectSource(sources: seq<Url>, start: nat, now: int)
      returns (chosen: Option<(Url, Grant)>, index: nat, wait: int)
      modifies this`states
      ensures chosen.Some? ==>
                exists k :: 0 <= k < |sources| && index == start + k + 1
                  && AllDenied(old(View()), sources, start, k, now)
                  && chosen.value.0 == Candidate(sources, start, k)
                  && (View(), chosen.value.1) == Claim(old(View()), Candidate(sources, start, k), now)
                  && chosen.value.1.allowed
      ensures chosen.None? ==> View() == old(View()) && index == start + |sources|
      ensures chosen.None? ==> AllDenied(View(), sources, start, |sources|, now)
      ensures chosen.None? ==>
                var shortest := ShortestWait(View(), sources, start, |sources|, now);
                wait == if shortest > 0 then shortest else SECOND / 4
    {
      index, wait := start, 0;
      for checked := 0 to |sources|
        invariant View() == old(View()) && index == start + checked
        invariant AllDenied(View(), sources, start, checked, now)
        invariant wait == ShortestWait(View(), sources, start, checked, now)
      {
        var candidate := sources[index % |sources|];
        index := index + 1;
        var grant := ClaimCurrent(candidate, now);
        if grant.allowed {
          assert Candidate(sources, start, checked) == candidate;
          return Some((candidate, grant)), index, wait;
        }
        if grant.retryIn > 0 && (wait == 0 || grant.retryIn < wait) {
          wait := grant.retryIn;
        }
      }
      chosen := None;
      if wait <= 0 {
        wait := SECOND / 4;
      }
    }
  }

  function Listed(urls: seq<Url>): set<Url> {
    set url | url in urls
  }

  function TrackedUrls(health: Health): set<Url> {
    EpochMap(health).Keys
  }

  function Candidate(sources: seq<Url>, start: nat, k: nat): Url
    requires sources != []
  {
    sources[(start + k) % |sources|]
  }

  predicate AllDenied(health: Health, sources: seq<Url>, start: nat, count: nat, now: int)
    requires count <= |sources|
  {
    forall k :: 0 <= k < count ==> !Claim(health, Candidate(sources, start, k), now).1.allowed
  }

  /** The least positive wait among the first `count` candidates; 0 when there is none. */
  function ShortestWait(health: Health, sources: seq<Url>, start: nat, count: nat, now: int): (wait: int)
    requires count <= |sources|
    ensures wait >= 0
  {
    if count == 0 then 0
    else
      var before := ShortestWait(health, sources, start, count - 1, now);
      var retryIn := Claim(health, Candidate(sources, start, count - 1), now).1.retryIn;
      if retryIn > 0 && (before == 0 || retryIn < before) then retryIn else before
  }
}
