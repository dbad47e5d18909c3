/** What the helper's event loop keeps over every sequence of signals and worker exits. */
module WorkerPoolLaws {
  import opened WorkerPool

  datatype Event =
    | Grow
    | Shrink
    | Reload
    | Report(instance: Instance)
    | Take

  ghost predicate Ready(pool: Pool) {
    InSlots(pool.workers, pool.max) && pool.target <= pool.max
  }

  ghost predicate Step(before: Pool, event: Event, after: Pool) {
    match event
    case Grow => Ready(before) && after == Grown(before)
    case Shrink => after == Shrunk(before)
    case Reload => after == Reloaded(before)
    case Report(instance) => instance in before.running && after == Reported(before, instance)
    case Take => Ready(before) && before.results != [] && after == Taken(before)
  }

  function Active(workers: map<nat, Worker>): set<nat> {
    set id | id in workers && !workers[id].stopping
  }

  // ---- Shape: slots, tokens and instances ----

  ghost predicate TokensDistinct(pool: Pool) {
    && (forall id :: id in pool.workers ==> 1 <= pool.workers[id].token <= pool.nextToken)
    && forall a, b ::
         a in pool.workers && b in pool.workers && pool.workers[a].token == pool.workers[b].token ==> a == b
  }

  predicate Owned(pool: Pool, instance: Instance) {
    instance.id in pool.workers && pool.workers[instance.id].token == instance.token
  }

  /** Every worker is one goroutine that is running or has its result in the channel, and there are
      no others. */
  ghost predicate OneInstanceEach(pool: Pool) {
    && (forall id :: id in pool.workers ==>
          Instance(id, pool.workers[id].token) in pool.running || Instance(id, pool.workers[id].token) in pool.results)
    && (forall instance :: instance in pool.running ==> Owned(pool, instance) && instance !in pool.results)
    && (forall k :: 0 <= k < |pool.results| ==> Owned(pool, pool.results[k]))
    && forall j, k :: 0 <= j < k < |pool.results| ==> pool.results[j] != pool.results[k]
  }

  ghost predicate Shaped(pool: Pool) {
    InSlots(pool.workers, pool.max) && pool.target <= pool.max && TokensDistinct(pool) && OneInstanceEach(pool)
  }

  lemma StartedShaped(pool: Pool, id: nat)
    requires Shaped(pool) && 1 <= id <= pool.max && id !in pool.workers
    ensures Shaped(Started(pool, id))
  {
    var after := Started(pool, id);
    forall k | 0 <= k < |after.results| ensures Owned(after, after.results[k]) {
      assert Owned(pool, pool.results[k]);
    }
  }

  lemma {:induction false} ReconciledShaped(pool: Pool)
    requires Shaped(pool)
    ensures Shaped(Reconciled(pool))
    ensures Reconciled(pool).target == pool.target && Reconciled(pool).max == pool.max
    decreases pool.target - |pool.workers|
  {
    if |pool.workers| < pool.target {
      FreeSlot(pool.workers, pool.max);
      var id := FirstFree(pool.workers, 1, pool.max);
      StartedShaped(pool, id);
      ReconciledShaped(Started(pool, id));
    }
  }

  /** Reconciling adds as many workers as the target asks for, none of them stopping, with the next
      tokens. */
  lemma {:induction false} ReconciledCounts(pool: Pool)
    requires Ready(pool)
    ensures var r := Reconciled(pool);
            var missing := if |pool.workers| < pool.target then pool.target - |pool.workers| else 0;
            && |r.workers| == |pool.workers| + missing
            && |Active(r.workers)| == |Active(pool.workers)| + missing
            && r.nextToken == pool.nextToken + missing
    decreases pool.target - |pool.workers|
  {
    if |pool.workers| < pool.target {
      FreeSlot(pool.workers, pool.max);
      var id := FirstFree(pool.workers, 1, pool.max);
      assert Active(Started(pool, id).workers) == Active(pool.workers) + {id};
      ReconciledCounts(Started(pool, id));
    }
  }

  /** The workers there were stay as they were. */
  lemma {:induction false} ReconciledKeeps(pool: Pool, id: nat)
    requires Ready(pool) && id in pool.workers
    ensures id in Reconciled(pool).workers && Reconciled(pool).workers[id] == pool.workers[id]
    decreases pool.target - |pool.workers|
  {
    if |pool.workers| < pool.target {
      FreeSlot(pool.workers, pool.max);
      ReconciledKeeps(Started(pool, FirstFree(pool.workers, 1, pool.max)), id);
    }
  }

  lemma StoppedShaped(pool: Pool, workers: map<nat, Worker>, target: nat)
    requires Shaped(pool) && workers.Keys == pool.workers.Keys && target <= pool.max
    requires forall id :: id in workers ==> workers[id].token == pool.workers[id].token
    ensures Shaped(pool.(workers := workers, target := target))
  {
    var after := pool.(workers := workers, target := target);
    forall k | 0 <= k < |after.results| ensures Owned(after, after.results[k]) {
      assert Owned(pool, pool.results[k]);
    }
  }

  lemma ReportedShaped(pool: Pool, instance: Instance)
    requires Shaped(pool) && instance in pool.running
    ensures Shaped(Reported(pool, instance))
  {
    var after := Reported(pool, instance);
    assert instance in after.results by { assert after.results[|pool.results|] == instance; }
    forall i | i in pool.results ensures i in after.results {}
    forall k | 0 <= k < |after.results| ensures Owned(after, after.results[k]) {
      if k < |pool.results| { assert Owned(pool, pool.results[k]); }
    }
  }

  function Removed(pool: Pool): Pool
    requires pool.results != []
  {
    pool.(results := pool.results[1..], workers := pool.workers - {pool.results[0].id})
  }

  lemma RemovedShaped(pool: Pool)
    requires Shaped(pool) && pool.results != []
    ensures Shaped(Removed(pool))
  {
    var after, gone := Removed(pool), pool.results[0];
    assert Owned(pool, gone);
    forall k | 0 <= k < |after.results| ensures Owned(after, after.results[k]) {
      assert after.results[k] == pool.results[k + 1] && Owned(pool, pool.results[k + 1]);
      assert pool.results[0] != pool.results[k + 1];
    }
    forall id | id in after.workers
      ensures Instance(id, after.workers[id].token) in after.running
              || Instance(id, after.workers[id].token) in after.results
    {
      var i := Instance(id, pool.workers[id].token);
      if i in pool.results { assert i in pool.results[1..]; }
    }
  }

  // ---- Counts ----

  /** Non-stopping workers <= target <= live workers <= max. */
  ghost predicate Counted(pool: Pool) {
    |Active(pool.workers)| <= pool.target <= |pool.workers| <= pool.max && 1 <= pool.target
  }

  ghost predicate Sound(pool: Pool) {
    Shaped(pool) && Counted(pool)
  }

  lemma ActiveAtMost(workers: map<nat, Worker>)
    ensures |Active(workers)| <= |workers|
    ensures (exists id :: id in workers && workers[id].stopping) ==> |Active(workers)| < |workers|
    ensures (forall id :: id in workers ==> !workers[id].stopping) ==> |Active(workers)| == |workers|
  {
    assert |workers| == |workers.Keys|;
    Subset(Active(workers), workers.Keys);
    if forall id :: id in workers ==> !workers[id].stopping {
      assert Active(workers) == workers.Keys;
    }
  }

  lemma {:induction false} Subset<T>(a: set<T>, b: set<T>)
    requires a <= b
    ensures |a| <= |b| && (a != b ==> |a| < |b|)
    decreases a
  {
    if a != {} {
      var x :| x in a;
      Subset(a - {x}, b - {x});
    }
  }

  /** Filling up to the target leaves no more than the target active. */
  ghost predicate Fillable(pool: Pool) {
    && 1 <= pool.target && |Active(pool.workers)| <= pool.target && |pool.workers| <= pool.max
    && (|pool.workers| < pool.target ==> |Active(pool.workers)| <= |pool.workers|)
  }

  lemma ReconciledSound(pool: Pool)
    requires Shaped(pool) && Fillable(pool)
    ensures Sound(Reconciled(pool)) && Reconciled(pool).max == pool.max && pool.nextToken <= Reconciled(pool).nextToken
  {
    ReconciledShaped(pool);
    ReconciledCounts(pool);
  }

  function Raised(pool: Pool): Pool {
    pool.(target := pool.target + 1)
  }

  lemma RaisedFillable(pool: Pool)
    requires Sound(pool) && pool.target < pool.max
    ensures Shaped(Raised(pool)) && Fillable(Raised(pool))
  {
    ActiveAtMost(pool.workers);
    StoppedShaped(pool, pool.workers, pool.target + 1);
    assert pool.(workers := pool.workers, target := pool.target + 1) == Raised(pool);
  }

  lemma GrownSound(pool: Pool, after: Pool)
    requires Sound(pool) && after == Grown(pool)
    ensures Sound(after) && after.max == pool.max && pool.nextToken <= after.nextToken
  {
    if pool.target >= pool.max {
      assert after == pool;
    } else {
      var asked := Raised(pool);
      assert Shaped(asked) && Fillable(asked) by { RaisedFillable(pool); }
      assert after == Reconciled(asked);
      ReconciledSound(asked);
    }
  }

  /** Shrinking marks one worker, if there is one that is not stopping. */
  lemma OneFewerActive(workers: map<nat, Worker>, max: nat)
    requires InSlots(workers, max)
    ensures var after := Stopped(workers, LastActive(workers, max));
            && after.Keys == workers.Keys && |after| == |workers|
            && (forall id :: id in after ==> after[id].token == workers[id].token)
            && |Active(after)| == if |Active(workers)| > 0 then |Active(workers)| - 1 else 0
  {
    LastActiveIs(workers, max);
    var id := LastActive(workers, max);
    var after := Stopped(workers, id);
    assert |after| == |after.Keys| && |workers| == |workers.Keys|;
    if id == 0 {
      assert Active(workers) == {};
    } else {
      assert Active(after) == Active(workers) - {id};
    }
  }

  lemma ShrunkSound(pool: Pool)
    requires Sound(pool)
    ensures Sound(Shrunk(pool))
  {
    if pool.target > 1 {
      OneFewerActive(pool.workers, pool.max);
      StoppedShaped(pool, Shrunk(pool).workers, pool.target - 1);
    }
  }

  lemma ReloadedSound(pool: Pool)
    requires Sound(pool)
    ensures Sound(Reloaded(pool)) && Active(Reloaded(pool).workers) == {}
  {
    var after := Reloaded(pool);
    StoppedShaped(pool, after.workers, pool.target);
    assert after.workers.Keys == pool.workers.Keys;
    assert |after.workers| == |after.workers.Keys| && |pool.workers| == |pool.workers.Keys|;
    assert Active(after.workers) == {};
  }

  lemma TakenSound(pool: Pool)
    requires Sound(pool) && pool.results != []
    ensures Sound(Taken(pool)) && Taken(pool).max == pool.max && pool.nextToken <= Taken(pool).nextToken
  {
    var rest, id := Removed(pool), pool.results[0].id;
    RemovedShaped(pool);
    assert Owned(pool, pool.results[0]);
    assert rest.workers.Keys == pool.workers.Keys - {id};
    assert |rest.workers| == |rest.workers.Keys| && |pool.workers| == |pool.workers.Keys|;
    assert Active(rest.workers) == Active(pool.workers) - {id};
    ActiveAtMost(pool.workers);
    ActiveAtMost(rest.workers);
    ReconciledSound(rest);
  }

  lemma StepSound(before: Pool, event: Event, after: Pool)
    requires Sound(before) && Step(before, event, after)
    ensures Sound(after) && after.max == before.max && before.nextToken <= after.nextToken
  {
    match event
    case Grow => GrownSound(before, after);
    case Shrink => ShrunkSound(before);
    case Reload => ReloadedSound(before);
    case Report(instance) => ReportedShaped(before, instance);
    case Take => TakenSound(before);
  }

  ghost function Initial(connections: nat, max: nat): Pool
    requires connections <= max
  {
    Reconciled(Pool(max, connections, map[], 0, {}, []))
  }

  ghost predicate Run(states: seq<Pool>, events: seq<Event>, connections: nat, max: nat) {
    && 1 <= connections <= max
    && |states| == |events| + 1 && states[0] == Initial(connections, max)
    && forall i :: 0 <= i < |events| ==> Step(states[i], events[i], states[i + 1])
  }

  /** At every loop head of every run: non-stopping <= target <= live <= max, slots in range, tokens
      distinct, and one goroutine for each worker. */
  lemma {:induction false} LoopHeadsAreSound(states: seq<Pool>, events: seq<Event>, connections: nat, max: nat, i: nat)
    requires Run(states, events, connections, max) && i < |states|
    ensures Sound(states[i]) && states[i].max == max
    decreases i
  {
    if i == 0 {
      var empty := Pool(max, connections, map[], 0, {}, []);
      assert Active(map[]) == {};
      ReconciledSound(empty);
    } else {
      LoopHeadsAreSound(states, events, connections, max, i - 1);
      StepSound(states[i - 1], events[i - 1], states[i]);
    }
  }

  /** Each signal moves the target by one, within 1 and the maximum, and nothing else does. */
  lemma TargetMovesByOne(before: Pool, event: Event, after: Pool)
    requires Sound(before) && Step(before, event, after)
    ensures after.target == if event.Grow? && before.target < before.max then before.target + 1
                            else if event.Shrink? && before.target > 1 then before.target - 1
                            else before.target
  {
    if event.Grow? && before.target < before.max {
      RaisedFillable(before);
      ReconciledShaped(Raised(before));
    } else if event.Take? {
      assert Owned(before, before.results[0]);
      RemovedShaped(before);
      ReconciledShaped(Removed(before));
    }
  }

  /** A worker is told to stop by a reload, or by shrinking if no active one has a higher slot; otherwise
      it is left as it was until its result is taken. */
  lemma StoppedWhen(before: Pool, event: Event, after: Pool, id: nat)
    requires Sound(before) && Step(before, event, after) && id in before.workers
    requires event.Take? ==> before.results[0].id != id
    ensures id in after.workers && after.workers[id].token == before.workers[id].token
    ensures after.workers[id].stopping <==>
              || before.workers[id].stopping || event.Reload?
              || (event.Shrink? && before.target > 1
                  && forall other :: other in before.workers && other > id ==> before.workers[other].stopping)
  {
    match event
    case Grow =>
      if before.target < before.max {
        ReconciledKeeps(Raised(before), id);
      }
    case Shrink => LastActiveIs(before.workers, before.max);
    case Reload =>
    case Report(_) =>
    case Take =>
      assert Owned(before, before.results[0]);
      RemovedShaped(before);
      ReconciledKeeps(Removed(before), id);
  }

  /** With nobody stopping there are exactly as many workers as asked for. */
  lemma SettledMeansTarget(pool: Pool)
    requires Sound(pool) && forall id :: id in pool.workers ==> !pool.workers[id].stopping
    ensures |pool.workers| == pool.target
  {
    ActiveAtMost(pool.workers);
  }

  /** Every result taken is that of the worker now in its slot, which it removes; the slot of any
      other worker is left alone. */
  lemma ResultMeetsItsWorker(pool: Pool)
    requires Sound(pool) && pool.results != []
    ensures Owned(pool, pool.results[0])
    ensures !Owned(Taken(pool), pool.results[0])
    ensures forall id :: id in pool.workers && id != pool.results[0].id
                         ==> id in Taken(pool).workers && Taken(pool).workers[id] == pool.workers[id]
  {
    assert Owned(pool, pool.results[0]);
    RemovedShaped(pool);
    forall id | id in pool.workers && id != pool.results[0].id
      ensures id in Taken(pool).workers && Taken(pool).workers[id] == pool.workers[id]
    {
      ReconciledKeeps(Removed(pool), id);
    }
    FreshTokens(Removed(pool), pool.results[0]);
  }

  lemma {:induction false} FreshTokens(pool: Pool, gone: Instance)
    requires Shaped(pool) && !Owned(pool, gone) && gone.token <= pool.nextToken
    ensures !Owned(Reconciled(pool), gone)
    decreases pool.target - |pool.workers|
  {
    if |pool.workers| < pool.target {
      FreeSlot(pool.workers, pool.max);
      var id := FirstFree(pool.workers, 1, pool.max);
      StartedShaped(pool, id);
      FreshTokens(Started(pool, id), gone);
    }
  }

  lemma {:induction false} DistinctResults(results: seq<Instance>, ids: set<nat>)
    requires forall k :: 0 <= k < |results| ==> results[k].id in ids
    requires forall j, k :: 0 <= j < k < |results| ==> results[j].id != results[k].id
    ensures |results| <= |ids|
    decreases |results|
  {
    if results != [] {
      var n := |results| - 1;
      DistinctResults(results[..n], ids - {results[n].id});
    }
  }

  /** The channel holds max + 1 results, so no goroutine waits to report. */
  lemma ReportsNeverBlock(pool: Pool, instance: Instance)
    requires Sound(pool) && instance in pool.running
    ensures |Reported(pool, instance).results| <= pool.max
  {
    ReportedShaped(pool, instance);
    var results, ids := Reported(pool, instance).results, pool.workers.Keys;
    forall j, k | 0 <= j < k < |results| ensures results[j].id != results[k].id {
      assert Owned(Reported(pool, instance), results[j]) && Owned(Reported(pool, instance), results[k]);
    }
    forall k | 0 <= k < |results| ensures results[k].id in ids {
      assert Owned(Reported(pool, instance), results[k]);
    }
    DistinctResults(results, ids);
    assert |pool.workers| == |ids|;
  }
}
