/** A pool of worker threads, each with its own FIFO of tasks and its own stop flag
    (YetAnotherThreadPool.cpp/.h). Work arrives at a worker picked at random. One pass of a
    worker's `run()` loop either stops, runs the front of its own queue, or probes up to half the
    pool at random for a peer whose lock it gets and whose queue is not empty, and runs that
    peer's front task. Randomness and lock contention are oracle arguments: the raw draws of the
    random number generator and the set of workers whose `try_to_lock` fails. Tasks are opaque
    ids. */
module ThreadPools {

  /** The number of workers the constructor creates for `thread_count`: a non-positive request
      means `hardware_concurrency()` (which reports 0 when it cannot tell), and the count is
      then raised to at least one. */
  function WorkerCount(threadCount: int, hardware: nat): (n: nat)
    ensures n >= 1
    ensures threadCount >= 1 ==> n == threadCount
    ensures threadCount <= 0 && hardware >= 1 ==> n == hardware
    ensures threadCount <= 0 && hardware == 0 ==> n == 1
  {
    var requested := if threadCount <= 0 then hardware else threadCount;
    if requested < 1 then 1 else requested
  }

  /** `random_id()` for a pool of `count` workers: 0 when there is at most one worker (the
      generator is not consulted), otherwise the generator's draw mapped to `[0, count - 1]`. */
  function RandomId(count: nat, draw: nat): (id: nat)
    ensures count <= 1 ==> id == 0
    ensures count >= 1 ==> id < count
  {
    if count - 1 < 1 then 0 else draw % count
  }

  /** Every worker can be the one `random_id()` picks. */
  lemma RandomIdReachesEvery(count: nat, k: nat)
    requires k < count
    ensures RandomId(count, k) == k
  {
  }

  /** All the tasks held in a list of queues. */
  function Bag(qs: seq<seq<nat>>): multiset<nat>
  {
    if qs == [] then multiset{} else Bag(qs[..|qs| - 1]) + multiset(qs[|qs| - 1])
  }

  /** Replacing one queue by one that holds `extra` more tasks makes the queues hold exactly
      `extra` more. */
  lemma {:induction false} BagGrow(qs: seq<seq<nat>>, k: nat, q: seq<nat>, extra: multiset<nat>)
    requires k < |qs| && multiset(q) == multiset(qs[k]) + extra
    ensures Bag(qs[k := q]) == Bag(qs) + extra
    decreases |qs|
  {
    var last := |qs| - 1;
    var init := qs[..last];
    var updated := qs[k := q];
    assert Bag(qs) == Bag(init) + multiset(qs[last]);
    assert Bag(updated) == Bag(updated[..last]) + multiset(updated[last]);
    if k == last {
      assert updated[..last] == init;
    } else {
      assert updated[..last] == init[k := q];
      assert updated[last] == qs[last];
      BagGrow(init, k, q, extra);
    }
  }

  /** Queues that are all empty hold no task. */
  lemma {:induction false} BagOfEmpty(qs: seq<seq<nat>>)
    requires forall i :: 0 <= i < |qs| ==> qs[i] == []
    ensures Bag(qs) == multiset{}
    decreases |qs|
  {
    if qs != [] {
      BagOfEmpty(qs[..|qs| - 1]);
    }
  }

  /** No task is lost or duplicated: each accepted task is queued, ran or was discarded. */
  ghost predicate Conserved(accepted: seq<nat>, qs: seq<seq<nat>>, ran: seq<nat>, discarded: seq<nat>)
  {
    multiset(accepted) == Bag(qs) + multiset(ran) + multiset(discarded)
  }

  /** Accepting a task onto queue `k` keeps every task accounted for. */
  lemma ConservedPush(accepted: seq<nat>, qs: seq<seq<nat>>, ran: seq<nat>, discarded: seq<nat>, k: nat, task: nat)
    requires Conserved(accepted, qs, ran, discarded) && k < |qs|
    ensures Conserved(accepted + [task], qs[k := qs[k] + [task]], ran, discarded)
  {
    BagGrow(qs, k, qs[k] + [task], multiset{task});
    assert multiset(accepted + [task]) == multiset(accepted) + multiset{task};
  }

  /** Running the front task of queue `k` keeps every task accounted for. */
  lemma ConservedTake(accepted: seq<nat>, qs: seq<seq<nat>>, ran: seq<nat>, discarded: seq<nat>, k: nat)
    requires Conserved(accepted, qs, ran, discarded) && k < |qs| && qs[k] != []
    ensures Conserved(accepted, qs[k := qs[k][1..]], ran + [qs[k][0]], discarded)
  {
    var taken := qs[k := qs[k][1..]];
    assert qs[k] == [qs[k][0]] + qs[k][1..];
    assert taken[k := qs[k]] == qs;
    BagGrow(taken, k, qs[k], multiset{qs[k][0]});
    assert multiset(ran + [qs[k][0]]) == multiset(ran) + multiset{qs[k][0]};
  }

  /** Discarding queue `k` keeps every task accounted for. */
  lemma ConservedDrop(accepted: seq<nat>, qs: seq<seq<nat>>, ran: seq<nat>, discarded: seq<nat>, k: nat)
    requires Conserved(accepted, qs, ran, discarded) && k < |qs|
    ensures Conserved(accepted, qs[k := []], ran, discarded + qs[k])
  {
    var cleared := qs[k := []];
    assert cleared[k := qs[k]] == qs;
    BagGrow(cleared, k, qs[k], multiset(qs[k]));
    assert multiset(discarded + qs[k]) == multiset(discarded) + multiset(qs[k]);
  }

  /** A probe of the stealing loop succeeds: the `j`th draw picks a worker whose lock is free
      and whose queue holds a task. */
  ghost predicate Takeable(qs: seq<seq<nat>>, contended: set<nat>, draws: seq<nat>, j: nat)
    requires j < |draws|
  {
    var id := RandomId(|qs|, draws[j]);
    id < |qs| && id !in contended && qs[id] != []
  }

  /** The branch one pass of a worker's `run()` took; a steal names the peer and the probe. */
  datatype StepResult = Exited | RanOwn | Stole(peer: nat, probe: nat) | Waited

  class WorkerThread {
    var done: bool
    /** `run()` has returned. */
    var exited: bool
    /** `worker_exception_ptr_` holds the exception a task threw. */
    var failed: bool
    /** `work_queue_`, front first. */
    var queue: seq<nat>
    /** Every task pushed onto the queue, in order. */
    ghost var pushed: seq<nat>
    /** Every task removed from the front of the queue, in order. */
    ghost var removed: seq<nat>

    /** The queue is FIFO: what was removed from its front, then what it still holds, is what was
        pushed at its back. */
    ghost predicate Valid()
      reads this
    {
      removed + queue == pushed
    }

    /** The constructor starts the thread with an empty queue. */
    constructor ()
      ensures Valid() && !done && !exited && !failed
      ensures queue == [] && pushed == [] && removed == []
    {
      done := false;
      exited := false;
      failed := false;
      queue := [];
      pushed := [];
      removed := [];
    }

    /** `enqueue_work`: throws (`ok` false) once the worker is stopped, changing nothing;
        otherwise pushes the task at the back of the queue. */
    method EnqueueWork(task: nat) returns (ok: bool)
      requires Valid()
      modifies this
      ensures Valid()
      ensures ok == !old(done)
      ensures queue == if ok then old(queue) + [task] else old(queue)
      ensures pushed == if ok then old(pushed) + [task] else old(pushed)
      ensures done == old(done) && exited == old(exited) && failed == old(failed) && removed == old(removed)
    {
      if done {
        return false;
      }
      queue := queue + [task];
      pushed := pushed + [task];
      ok := true;
    }

    /** `stop()`: sets `done_`. */
    method Stop()
      requires Valid()
      modifies this
      ensures Valid() && done
      ensures exited == old(exited) && failed == old(failed)
      ensures queue == old(queue) && pushed == old(pushed) && removed == old(removed)
    {
      done := true;
    }

    /** `front()` then `pop()`: takes the oldest task. */
    method PopFront() returns (task: nat)
      requires Valid() && queue != []
      modifies this
      ensures Valid()
      ensures task == old(queue[0]) && queue == old(queue[1..])
      ensures removed == old(removed) + [task]
      ensures done == old(done) && exited == old(exited) && failed == old(failed) && pushed == old(pushed)
    {
      task := queue[0];
      queue := queue[1..];
      removed := removed + [task];
    }

    /** The stop branch of `run()`: the queue is swapped out, its tasks destroyed unrun with the
        swapped copy, and the loop returns. */
    method ExitLoop() returns (dropped: seq<nat>)
      requires Valid()
      modifies this
      ensures Valid() && exited
      ensures dropped == old(queue) && queue == [] && removed == old(removed) + dropped
      ensures done == old(done) && failed == old(failed) && pushed == old(pushed)
    {
      dropped := queue;
      queue := [];
      removed := removed + dropped;
      exited := true;
    }

    /** The `catch (...)` around the loop: a task that throws is stored in
        `worker_exception_ptr_` and the loop is over, with whatever is still queued left there. */
    method Fail()
      requires Valid()
      modifies this
      ensures Valid() && exited && failed
      ensures done == old(done) && queue == old(queue) && pushed == old(pushed) && removed == old(removed)
    {
      failed := true;
      exited := true;
    }
  }

  class YetAnotherThreadPool {
    /** `workers_`. */
    const workers: seq<WorkerThread>
    /** Every task the pool's `enqueue_work` accepted, in order. */
    ghost var accepted: seq<nat>
    /** Every task a worker took and ran, in order. */
    ghost var ran: seq<nat>
    /** The tasks stopped workers threw away unrun. */
    ghost var discarded: seq<nat>

    /** The queues of the workers, in worker order. */
    ghost var queues: seq<seq<nat>>

    /** At least one worker, and no worker twice. */
    ghost predicate Distinct()
    {
      && |workers| >= 1
      && (forall i, j :: 0 <= i < j < |workers| ==> workers[i] != workers[j])
    }

    /** Every worker's queue is FIFO and is the one `queues` lists for it. */
    ghost predicate WorkersValid()
      reads this, workers
    {
      && |queues| == |workers|
      && (forall i :: 0 <= i < |workers| ==> workers[i].Valid() && workers[i].queue == queues[i])
    }

    /** Distinct workers whose queues are all FIFO, and no task lost or duplicated. */
    ghost predicate Valid()
      reads this, workers
    {
      && Distinct()
      && WorkersValid()
      && Conserved(accepted, queues, ran, discarded)
    }

    /** `YetAnotherThreadPool(thread_count)`: creates `WorkerCount(thread_count, hardware)` idle
        workers, where `hardware` is what `hardware_concurrency()` reports. */
    constructor (threadCount: int, hardware: nat)
      ensures Valid()
      ensures |workers| == WorkerCount(threadCount, hardware)
      ensures forall i :: 0 <= i < |workers| ==> fresh(workers[i])
      ensures forall i :: 0 <= i < |workers| ==> !workers[i].done && !workers[i].exited && workers[i].queue == []
      ensures accepted == [] && ran == [] && discarded == []
    {
      var count := WorkerCount(threadCount, hardware);
      var ws: seq<WorkerThread> := [];
      for i := 0 to count
        invariant |ws| == i
        invariant forall j :: 0 <= j < i ==> fresh(ws[j])
        invariant forall j, k :: 0 <= j < k < i ==> ws[j] != ws[k]
        invariant forall j :: 0 <= j < i ==> ws[j].Valid() && !ws[j].done && !ws[j].exited && ws[j].queue == []
      {
        var w := new WorkerThread();
        ws := ws + [w];
      }
      workers := ws;
      accepted := [];
      ran := [];
      discarded := [];
      queues := seq(count, i => []);
      new;
      BagOfEmpty(queues);
    }

    /** The pool's `enqueue_work`: hands the task to the worker `random_id()` picks, which
        refuses it once stopped. No other worker is touched. */
    method EnqueueWork(task: nat, draw: nat) returns (ok: bool)
      requires Valid()
      modifies this, workers[RandomId(|workers|, draw)]
      ensures Valid()
      ensures var id := RandomId(|workers|, draw);
              && ok == !old(workers[id].done)
              && queues == if ok then old(queues)[id := old(workers[id].queue) + [task]] else old(queues)
      ensures accepted == if ok then old(accepted) + [task] else old(accepted)
      ensures ran == old(ran) && discarded == old(discarded)
      ensures var id := RandomId(|workers|, draw);
              && workers[id].done == old(workers[id].done) && workers[id].exited == old(workers[id].exited)
              && workers[id].failed == old(workers[id].failed)
    {
      var id := RandomId(|workers|, draw);
      var w := workers[id];
      assert queues[id] == w.queue;
      ok := w.EnqueueWork(task);
      if ok {
        ConservedPush(accepted, queues, ran, discarded, id, task);
        accepted := accepted + [task];
        queues := queues[id := w.queue];
      }
      Untouched(id);
    }

    /** The pool's `stop()`: stops every worker, leaving every queue as it is. */
    method Stop()
      requires Valid()
      modifies workers
      ensures Valid()
      ensures forall i :: 0 <= i < |workers| ==> workers[i].done
      ensures queues == old(queues)
      ensures forall i :: 0 <= i < |workers| ==>
                workers[i].exited == old(workers[i].exited) && workers[i].failed == old(workers[i].failed)
    {
      for i := 0 to |workers|
        invariant forall j :: 0 <= j < i ==> workers[j].done
        invariant forall j :: 0 <= j < |workers| ==>
                    && workers[j].Valid()
                    && workers[j].queue == old(workers[j].queue)
                    && workers[j].exited == old(workers[j].exited)
                    && workers[j].failed == old(workers[j].failed)
      {
        workers[i].Stop();
      }
    }

    /** Changing worker `k` alone keeps every other worker's queue FIFO. */
    twostate lemma Untouched(k: nat)
      requires Distinct() && old(WorkersValid()) && k < |workers|
      requires workers[k].Valid() && queues == old(queues)[k := workers[k].queue]
      requires forall i :: 0 <= i < |workers| && i != k ==> unchanged(workers[i])
      ensures WorkersValid()
    {
    }

    /** The front task of worker `k` (its own queue, or a peer's when stealing) is taken and
        run. */
    method Take(k: nat) returns (task: nat)
      requires Valid() && k < |workers| && workers[k].queue != []
      modifies this, workers[k]
      ensures Valid()
      ensures task == old(queues)[k][0]
      ensures queues == old(queues)[k := old(queues)[k][1..]]
      ensures ran == old(ran) + [task] && accepted == old(accepted) && discarded == old(discarded)
      ensures workers[k].done == old(workers[k].done) && workers[k].exited == old(workers[k].exited)
      ensures workers[k].failed == old(workers[k].failed)
    {
      ConservedTake(accepted, queues, ran, discarded, k);
      task := workers[k].PopFront();
      ran := ran + [task];
      queues := queues[k := workers[k].queue];
      Untouched(k);
    }

    /** A task run by worker `me` threw: the `catch (...)` around the loop stores the exception
        and the loop is over; no queue changes. */
    method Abort(me: nat)
      requires Valid() && me < |workers|
      modifies workers[me]
      ensures Valid() && queues == old(queues)
      ensures workers[me].exited && workers[me].failed && workers[me].done == old(workers[me].done)
    {
      workers[me].Fail();
      Untouched(me);
    }

    /** Worker `k` leaves its loop on a stop, discarding its queue. */
    method Discard(k: nat)
      requires Valid() && k < |workers|
      modifies this, workers[k]
      ensures Valid() && workers[k].exited
      ensures queues == old(queues)[k := []]
      ensures discarded == old(discarded) + old(queues)[k]
      ensures ran == old(ran) && accepted == old(accepted)
      ensures workers[k].done == old(workers[k].done) && workers[k].failed == old(workers[k].failed)
    {
      ConservedDrop(accepted, queues, ran, discarded, k);
      var dropped := workers[k].ExitLoop();
      discarded := discarded + dropped;
      queues := queues[k := []];
      Untouched(k);
    }

    /** The probing loop of `run()`, over up to `workers_.size() / 2` draws: a probe whose peer is
        contended or has an empty queue is skipped, and the first probe that finds work ends the
        loop. `found` says whether one did, and `probe` which. */
    method Probe(draws: seq<nat>, contended: set<nat>) returns (found: bool, probe: nat)
      requires Valid() && |draws| >= |workers| / 2
      ensures found ==> probe < |workers| / 2 && Takeable(queues, contended, draws, probe)
      ensures forall j :: 0 <= j < (if found then probe else |workers| / 2) ==> !Takeable(queues, contended, draws, j)
    {
      var i := 0;
      while i < |workers| / 2
        invariant 0 <= i <= |workers| / 2
        invariant forall j :: 0 <= j < i ==> !Takeable(queues, contended, draws, j)
      {
        var id := RandomId(|workers|, draws[i]);
        if id !in contended && workers[id].queue != [] {
          return true, i;
        }
        i := i + 1;
      }
      found, probe := false, 0;
    }

    /** One pass of the `run()` loop of worker `me`. Once stopped it discards its own queue and
        returns. Otherwise it runs the front of its own queue without touching any peer. Otherwise
        it probes up to half the pool and runs the front task of the first peer it can take one
        from, or else waits with nothing changed. A task that throws (`throws`) ends the worker's
        loop. At most one task leaves the queues, and none is lost. */
    method Step(me: nat, draws: seq<nat>, contended: set<nat>, throws: bool) returns (r: StepResult)
      requires Valid() && me < |workers| && !workers[me].exited && |draws| >= |workers| / 2
      modifies this, workers
      ensures Valid()
      ensures old(workers[me].done) ==>
                && r == Exited && workers[me].exited
                && queues == old(queues)[me := []]
                && discarded == old(discarded) + old(queues)[me] && ran == old(ran)
      ensures !old(workers[me].done) && old(queues)[me] != [] ==>
                && r == RanOwn
                && queues == old(queues)[me := old(queues)[me][1..]]
                && ran == old(ran) + [old(queues)[me][0]]
      ensures !old(workers[me].done) && old(queues)[me] == [] ==> r.Stole? || r == Waited
      ensures r.Stole? ==>
                && r.probe < |workers| / 2 && r.peer == RandomId(|workers|, draws[r.probe])
                && Takeable(old(queues), contended, draws, r.probe)
                && (forall j :: 0 <= j < r.probe ==> !Takeable(old(queues), contended, draws, j))
                && queues == old(queues)[r.peer := old(queues)[r.peer][1..]]
                && ran == old(ran) + [old(queues)[r.peer][0]]
      ensures r == Waited ==>
                && (forall j :: 0 <= j < |workers| / 2 ==> !Takeable(old(queues), contended, draws, j))
                && queues == old(queues) && ran == old(ran)
      ensures r != Exited ==> discarded == old(discarded)
      ensures (r == RanOwn || r.Stole?) && throws ==> workers[me].exited && workers[me].failed
      ensures r == Waited || ((r == RanOwn || r.Stole?) && !throws) ==>
                !workers[me].exited && workers[me].failed == old(workers[me].failed)
      ensures accepted == old(accepted)
      ensures forall i :: 0 <= i < |workers| ==> workers[i].done == old(workers[i].done)
      ensures forall i :: 0 <= i < |workers| && i != me ==>
                workers[i].exited == old(workers[i].exited) && workers[i].failed == old(workers[i].failed)
    {
      assert queues[me] == workers[me].queue;
      if workers[me].done {
        Discard(me);
        return Exited;
      }
      if workers[me].queue != [] {
        var task := Take(me);
        if throws {
          Abort(me);
        }
        return RanOwn;
      }
      r := Steal(me, draws, contended, throws);
    }

    /** The stealing part of a pass of worker `me`, reached with its own queue empty: the probing
        loop, then the front task of the peer it found is taken and run; with no peer found the
        worker waits. */
    method Steal(me: nat, draws: seq<nat>, contended: set<nat>, throws: bool) returns (r: StepResult)
      requires Valid() && me < |workers| && |draws| >= |workers| / 2
      modifies this, workers
      ensures Valid()
      ensures r.Stole? || r == Waited
      ensures r.Stole? ==>
                && r.probe < |workers| / 2 && r.peer == RandomId(|workers|, draws[r.probe])
                && Takeable(old(queues), contended, draws, r.probe)
                && (forall j :: 0 <= j < r.probe ==> !Takeable(old(queues), contended, draws, j))
                && queues == old(queues)[r.peer := old(queues)[r.peer][1..]]
                && ran == old(ran) + [old(queues)[r.peer][0]]
      ensures r == Waited ==>
                && (forall j :: 0 <= j < |workers| / 2 ==> !Takeable(old(queues), contended, draws, j))
                && queues == old(queues) && ran == old(ran)
      ensures r.Stole? && throws ==> workers[me].exited && workers[me].failed
      ensures r == Waited || !throws ==>
                workers[me].exited == old(workers[me].exited) && workers[me].failed == old(workers[me].failed)
      ensures accepted == old(accepted) && discarded == old(discarded)
      ensures forall i :: 0 <= i < |workers| ==> workers[i].done == old(workers[i].done)
      ensures forall i :: 0 <= i < |workers| && i != me ==>
                workers[i].exited == old(workers[i].exited) && workers[i].failed == old(workers[i].failed)
    {
      var found, probe := Probe(draws, contended);
      if !found {
        return Waited;
      }
      var peer := RandomId(|workers|, draws[probe]);
      var task := Take(peer);
      if throws {
        Abort(me);
      }
      r := Stole(peer, probe);
    }

    /** `~WorkerThread()` of worker `k`: it stops the worker, then joins its thread; unless its loop
        already ended, the next pass sees the stop and discards the queue. */
    method Join(k: nat)
      requires Valid() && k < |workers|
      modifies this, workers[k]
      ensures Valid() && workers[k].done && workers[k].exited
      ensures old(workers[k].exited) ==> queues == old(queues) && discarded == old(discarded)
      ensures !old(workers[k].exited) ==>
                queues == old(queues)[k := []] && discarded == old(discarded) + old(queues)[k]
      ensures forall i :: 0 <= i < |workers| && i != k ==>
                workers[i].done == old(workers[i].done) && workers[i].exited == old(workers[i].exited)
      ensures forall i :: 0 <= i < |workers| ==> workers[i].failed == old(workers[i].failed)
      ensures ran == old(ran) && accepted == old(accepted)
    {
      workers[k].Stop();
      Untouched(k);
      if !workers[k].exited {
        Discard(k);
      }
    }

    /** `~YetAnotherThreadPool()`: stops every worker, then destroying `workers_` joins each
        thread, whose next pass sees the stop and discards its queue. A worker whose loop already
        ended (a task threw) keeps its queue, unrun. */
    method Destroy()
      requires Valid()
      modifies this, workers
      ensures Valid()
      ensures forall i :: 0 <= i < |workers| ==> workers[i].done && workers[i].exited
      ensures forall i :: 0 <= i < |workers| ==>
                if old(workers[i].exited) then queues[i] == old(queues)[i] else queues[i] == []
      ensures forall i :: 0 <= i < |workers| ==> workers[i].failed == old(workers[i].failed)
      ensures ran == old(ran) && accepted == old(accepted)
    {
      Stop();
      for i := 0 to |workers|
        invariant Valid()
        invariant ran == old(ran) && accepted == old(accepted)
        invariant forall j :: 0 <= j < |workers| ==>
                    && workers[j].done
                    && workers[j].failed == old(workers[j].failed)
                    && (if j < i then
                          && workers[j].exited
                          && (if old(workers[j].exited) then queues[j] == old(queues)[j] else queues[j] == [])
                        else workers[j].exited == old(workers[j].exited) && queues[j] == old(queues)[j])
      {
        Join(i);
      }
    }
  }

  /** The `while (true)` loop of worker `me`'s `run()`, over the passes the oracles describe
      (pass `p` draws `draws[p]` and finds the peers in `contended[p]` locked), none of whose tasks
      throws. Without a stop the loop goes on through every pass; with one the first pass leaves
      the loop. Tasks only ever leave the queues, and no task is lost. */
  method Run(pool: YetAnotherThreadPool, me: nat, draws: seq<seq<nat>>, contended: seq<set<nat>>)
      returns (passes: nat)
    requires pool.Valid() && me < |pool.workers| && !pool.workers[me].exited
    requires |contended| == |draws| && forall p :: 0 <= p < |draws| ==> |draws[p]| >= |pool.workers| / 2
    modifies pool, pool.workers
    ensures pool.Valid() && pool.accepted == old(pool.accepted) && old(pool.ran) <= pool.ran
    ensures passes == if old(pool.workers[me].done) && |draws| >= 1 then 1 else |draws|
    ensures pool.workers[me].exited <==> old(pool.workers[me].done) && |draws| >= 1
  {
    passes := 0;
    while passes < |draws|
      invariant pool.Valid() && passes <= |draws|
      invariant pool.accepted == old(pool.accepted) && old(pool.ran) <= pool.ran
      invariant pool.workers[me].done == old(pool.workers[me].done) && !pool.workers[me].exited
      invariant old(pool.workers[me].done) ==> passes == 0
    {
      var r := pool.Step(me, draws[passes], contended[passes], false);
      passes := passes + 1;
      if r == Exited {
        return;
      }
    }
  }

  /** Once the pool is stopped, every later `enqueue_work` is refused. */
  method StopThenEnqueue(pool: YetAnotherThreadPool, task: nat, draw: nat) returns (ok: bool)
    requires pool.Valid()
    modifies pool, pool.workers
    ensures pool.Valid() && !ok
    ensures pool.queues == old(pool.queues) && pool.accepted == old(pool.accepted)
  {
    pool.Stop();
    ok := pool.EnqueueWork(task, draw);
  }
}
