/** The worker set of the download helper: slots, signals and results (cmd/discarder/main.go, run). */
module WorkerPool {
  import opened Wrappers

  const LIMIT: int := 12

  datatype Worker = Worker(token: nat, stopping: bool)

  /** A goroutine: started once for a slot, reporting once. */
  datatype Instance = Instance(id: nat, token: nat)

  /** `running` are the goroutines that have not reported; `results` is the channel they report to. */
  datatype Pool = Pool(max: nat, target: nat, workers: map<nat, Worker>, nextToken: nat,
                       running: set<Instance>, results: seq<Instance>)

  ghost predicate InSlots(workers: map<nat, Worker>, max: nat) {
    forall id :: id in workers ==> 1 <= id <= max
  }

  /** The smallest slot from `from` on that is free; `max` when none is. */
  function FirstFree(workers: map<nat, Worker>, from: nat, max: nat): nat
    decreases max - from
  {
    if from !in workers || from >= max then from else FirstFree(workers, from + 1, max)
  }

  /** The largest slot up to `from` whose worker is not stopping; 0 when there is none. */
  function LastActive(workers: map<nat, Worker>, from: nat): nat
    decreases from
  {
    if from < 1 then 0
    else if from in workers && !workers[from].stopping then from
    else LastActive(workers, from - 1)
  }

  /** As many workers as slots when every slot is taken. */
  lemma {:induction false} AllTaken(ids: set<nat>, max: nat)
    requires forall id :: 1 <= id <= max ==> id in ids
    ensures |ids| >= max
    decreases max
  {
    if max > 0 {
      AllTaken(ids - {max}, max - 1);
    }
  }

  lemma {:induction false} FirstFreeFrom(workers: map<nat, Worker>, from: nat, max: nat)
    requires from <= max
    ensures from <= FirstFree(workers, from, max) <= max
    ensures forall id :: from <= id < FirstFree(workers, from, max) ==> id in workers
    ensures FirstFree(workers, from, max) in workers ==> FirstFree(workers, from, max) == max
    decreases max - from
  {
    if from in workers && from < max {
      FirstFreeFrom(workers, from + 1, max);
    }
  }

  /** With fewer workers than slots some slot is free, and the first one is found. */
  lemma FreeSlot(workers: map<nat, Worker>, max: nat)
    requires InSlots(workers, max) && |workers| < max
    ensures 1 <= FirstFree(workers, 1, max) <= max && FirstFree(workers, 1, max) !in workers
    ensures forall id :: 1 <= id < FirstFree(workers, 1, max) ==> id in workers
  {
    FirstFreeFrom(workers, 1, max);
    if FirstFree(workers, 1, max) in workers {
      AllTaken(workers.Keys, max);
    }
    assert |workers| == |workers.Keys|;
  }

  lemma {:induction false} LastActiveIs(workers: map<nat, Worker>, from: nat)
    ensures var id := LastActive(workers, from);
            && (id == 0 || (1 <= id <= from && id in workers && !workers[id].stopping))
            && forall k :: id < k <= from && 1 <= k && k in workers ==> workers[k].stopping
    decreases from
  {
    if from >= 1 {
      LastActiveIs(workers, from - 1);
    }
  }

  function Started(pool: Pool, id: nat): Pool {
    pool.(workers := pool.workers[id := Worker(pool.nextToken + 1, false)],
          nextToken := pool.nextToken + 1,
          running := pool.running + {Instance(id, pool.nextToken + 1)})
  }

  ghost function Reconciled(pool: Pool): (r: Pool)
    requires InSlots(pool.workers, pool.max) && pool.target <= pool.max
    decreases pool.target - |pool.workers|
  {
    if |pool.workers| >= pool.target then pool
    else
      FreeSlot(pool.workers, pool.max);
      Reconciled(Started(pool, FirstFree(pool.workers, 1, pool.max)))
  }

  ghost function Grown(pool: Pool): Pool
    requires InSlots(pool.workers, pool.max) && pool.target <= pool.max
  {
    if pool.target < pool.max then Reconciled(pool.(target := pool.target + 1)) else pool
  }

  /** Nothing is in slot 0. */
  function Stopped(workers: map<nat, Worker>, id: nat): map<nat, Worker> {
    if id > 0 && id in workers then workers[id := workers[id].(stopping := true)] else workers
  }

  function Shrunk(pool: Pool): Pool {
    if pool.target > 1 then
      pool.(target := pool.target - 1, workers := Stopped(pool.workers, LastActive(pool.workers, pool.max)))
    else pool
  }

  function Reloaded(pool: Pool): Pool {
    pool.(workers := map id | id in pool.workers :: pool.workers[id].(stopping := true))
  }

  /** A goroutine ends and puts its result in the channel. */
  function Reported(pool: Pool, instance: Instance): Pool {
    pool.(running := pool.running - {instance}, results := pool.results + [instance])
  }

  /** The event loop takes the next result. */
  ghost function Taken(pool: Pool): Pool
    requires InSlots(pool.workers, pool.max) && pool.target <= pool.max
    requires pool.results != []
  {
    var result := pool.results[0];
    var rest := pool.(results := pool.results[1..]);
    if result.id !in pool.workers || pool.workers[result.id].token != result.token then rest
    else Reconciled(rest.(workers := pool.workers - {result.id}))
  }

  /** What validateOptions makes of the two connection options, 0 standing for an absent one. */
  function Connections(connections: int, max: int): (r: Option<(nat, nat)>)
    ensures r.Some? ==> 1 <= r.value.0 <= r.value.1 <= 12
    ensures r.Some? ==> r.value.0 == (if connections == 0 then 1 else connections)
    ensures r.Some? ==> r.value.1 == (if max == 0 then 12 else max)
    ensures r.None? ==>
              connections < 0 || max < 0 || connections > 12 || max > 12 || (max != 0 && connections > max)
  {
    var c, m := if connections == 0 then 1 else connections, if max == 0 then LIMIT else max;
    if 1 <= c <= LIMIT && 1 <= m <= LIMIT && c <= m then Some((c, m)) else None
  }

  class WorkerPool {
    const max: nat
    var target: nat
    var workers: map<nat, Worker>
    var nextToken: nat
    var running: set<Instance>
    var results: seq<Instance>

    function State(): Pool
      reads this
    {
      Pool(max, target, workers, nextToken, running, results)
    }

    ghost predicate InRange()
      reads this
    {
      InSlots(workers, max) && target <= max
    }

    constructor (connections: nat, max: nat)
      requires 1 <= connections <= max
      ensures State() == Reconciled(Pool(max, connections, map[], 0, {}, []))
    {
      this.max, target, workers, nextToken, running, results := max, connections, map[], 0, {}, [];
      new;
      Reconcile();
    }

    method StartWorker(id: nat)
      modifies this`workers, this`nextToken, this`running
      ensures State() == Started(old(State()), id)
    {
      nextToken := nextToken + 1;
      workers := workers[id := Worker(nextToken, false)];
      running := running + {Instance(id, nextToken)};
    }

    method Reconcile()
      requires InRange()
      modifies this`workers, this`nextToken, this`running
      ensures State() == Reconciled(old(State()))
    {
      while |workers| < target
        invariant InRange() && Reconciled(State()) == Reconciled(old(State()))
        decreases target - |workers|
      {
        FreeSlot(workers, max);
        ghost var before, free := State(), FirstFree(workers, 1, max);
        var id := 1;
        while id <= max && id in workers
          invariant 1 <= id <= free && State() == before
        {
          id := id + 1;
        }
        assert id == free;
        StartWorker(id);
      }
    }

    method Grow()
      requires InRange()
      modifies this
      ensures State() == Grown(old(State()))
    {
      if target < max {
        target := target + 1;
        Reconcile();
      }
    }

    method Shrink()
      modifies this`target, this`workers
      ensures State() == Shrunk(old(State()))
    {
      if target > 1 {
        target := target - 1;
        var id := max;
        while id >= 1
          invariant 0 <= id <= max && LastActive(workers, id) == LastActive(workers, max)
          invariant workers == old(workers) && target == old(target) - 1
        {
          if id in workers && !workers[id].stopping {
            assert id == LastActive(workers, max);
            workers := workers[id := workers[id].(stopping := true)];
            return;
          }
          id := id - 1;
        }
        LastActiveIs(workers, max);
      }
    }

    method Reload()
      modifies this`workers
      ensures State() == Reloaded(old(State()))
    {
      var todo: set<nat> := workers.Keys;
      while todo != {}
        invariant todo <= workers.Keys && workers.Keys == old(workers).Keys
        invariant forall id :: id in todo ==> workers[id] == old(workers)[id]
        invariant forall id :: id in workers.Keys - todo ==> workers[id] == old(workers)[id].(stopping := true)
        decreases todo
      {
        var id :| id in todo;
        workers := workers[id := workers[id].(stopping := true)];
        todo := todo - {id};
      }
    }

    method TakeResult()
      requires InRange() && results != []
      modifies this
      ensures State() == Taken(old(State()))
    {
      var result := results[0];
      results := results[1..];
      if result.id !in workers || workers[result.id].token != result.token {
        return;
      }
      workers := workers - {result.id};
      Reconcile();
    }
  }
}
