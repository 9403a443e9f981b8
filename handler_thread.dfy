/** A single consumer thread with a FIFO of tasks and a fixed table of signal handlers
    (HandlerThread.h). The thread is modelled as a sequential state machine: every public
    operation that runs under the mutex is one atomic method, and one pass of the `for (;;)`
    loop of `run()` is `Step`. A pass first checks for a stop, then runs one queued task, then
    takes a snapshot of the signal bits and runs their handlers, and otherwise waits. Tasks and
    handlers are opaque ids; running one appends it to the ghost `executed` log. */
module HandlerThreads {

  /** An entry of `handlers_`: `nullptr`, or a handler, identified by its id. */
  datatype Slot = NoHandler | Handler(id: nat)

  /** What the thread ran: a queued task, or the handler stored in a signal slot. */
  datatype Run = RanTask(task: nat) | RanHandler(slot: nat, handler: nat)

  /** The reply of `request_signal`: `true`, `false`, the already-pending case (a bare `return;`
      that yields no value) and the `std::out_of_range` that `bitset::test` throws for a bit
      outside the set. */
  datatype SignalReply = Accepted | Refused | AlreadyPending | OutOfRange

  /** The branch one pass of `run()` took. */
  datatype StepResult = Exited | TaskRun | SignalsRun | Waited

  /** `std::find`: the first position holding `x`, or `|s|` (the end iterator) when none does. */
  function FirstIndex(s: seq<Slot>, x: Slot): (p: nat)
    ensures p <= |s|
    ensures p < |s| ==> s[p] == x
    ensures forall k :: 0 <= k < p ==> s[k] != x
  {
    if s == [] then 0 else if s[0] == x then 0 else 1 + FirstIndex(s[1..], x)
  }

  lemma FirstIndexAbsent(s: seq<Slot>, x: Slot)
    ensures FirstIndex(s, x) == |s| <==> x !in s
  {
  }

  /** The tasks of a log, in the order they ran. */
  function Tasks(log: seq<Run>): seq<nat>
  {
    if log == [] then []
    else Tasks(log[..|log| - 1]) + (if log[|log| - 1].RanTask? then [log[|log| - 1].task] else [])
  }

  lemma {:induction false} TasksAppend(a: seq<Run>, b: seq<Run>)
    ensures Tasks(a + b) == Tasks(a) + Tasks(b)
    decreases |b|
  {
    if b != [] {
      assert (a + b)[..|a + b| - 1] == a + b[..|b| - 1];
      assert (a + b)[|a + b| - 1] == b[|b| - 1];
      TasksAppend(a, b[..|b| - 1]);
    } else {
      assert a + b == a;
    }
  }

  /** The handlers one signal pass runs over the first `n` slots: those whose bit is set in the
      snapshot and whose slot is not empty, in slot order. */
  function Dispatched(pending: seq<bool>, handlers: seq<Slot>, n: nat): seq<Run>
    requires n <= |pending| && n <= |handlers|
  {
    if n == 0 then []
    else
      Dispatched(pending, handlers, n - 1)
      + (if pending[n - 1] && handlers[n - 1].Handler? then [RanHandler(n - 1, handlers[n - 1].id)] else [])
  }

  /** Every handler it runs had its bit set in the snapshot and
      was stored in the slot it ran from. */
  lemma {:induction false} DispatchedSound(pending: seq<bool>, handlers: seq<Slot>, n: nat)
    requires n <= |pending| && n <= |handlers|
    ensures forall k :: 0 <= k < |Dispatched(pending, handlers, n)| ==>
              var run := Dispatched(pending, handlers, n)[k];
              run.RanHandler? && run.slot < n && pending[run.slot] && handlers[run.slot] == Handler(run.handler)
  {
    if n > 0 {
      DispatchedSound(pending, handlers, n - 1);
      var d := Dispatched(pending, handlers, n - 1);
      var tail: seq<Run> := if pending[n - 1] && handlers[n - 1].Handler? then [RanHandler(n - 1, handlers[n - 1].id)] else [];
      assert Dispatched(pending, handlers, n) == d + tail;
      forall k | 0 <= k < |d + tail|
        ensures var run := (d + tail)[k];
                run.RanHandler? && run.slot < n && pending[run.slot] && handlers[run.slot] == Handler(run.handler)
      {
        if k < |d| {
          assert (d + tail)[k] == d[k];
        } else {
          assert (d + tail)[k] == tail[0];
        }
      }
    }
  }

  /** A signal pass runs handlers only, no queued task. */
  lemma {:induction false} DispatchedRunsNoTask(pending: seq<bool>, handlers: seq<Slot>, n: nat)
    requires n <= |pending| && n <= |handlers|
    ensures Tasks(Dispatched(pending, handlers, n)) == []
  {
    if n > 0 {
      DispatchedRunsNoTask(pending, handlers, n - 1);
      var d := Dispatched(pending, handlers, n - 1);
      var tail: seq<Run> := if pending[n - 1] && handlers[n - 1].Handler? then [RanHandler(n - 1, handlers[n - 1].id)] else [];
      TasksAppend(d, tail);
      assert Tasks(tail) == [] by {
        if tail != [] {
          assert tail[..0] == [];
        }
      }
    }
  }

  /** Handlers run in increasing slot order, hence each slot at most once per pass. */
  lemma {:induction false} DispatchedInSlotOrder(pending: seq<bool>, handlers: seq<Slot>, n: nat)
    requires n <= |pending| && n <= |handlers|
    ensures forall a, b :: 0 <= a < b < |Dispatched(pending, handlers, n)| ==>
              && Dispatched(pending, handlers, n)[a].RanHandler?
              && Dispatched(pending, handlers, n)[b].RanHandler?
              && Dispatched(pending, handlers, n)[a].slot < Dispatched(pending, handlers, n)[b].slot
  {
    if n > 0 {
      DispatchedInSlotOrder(pending, handlers, n - 1);
      DispatchedSound(pending, handlers, n - 1);
      var d := Dispatched(pending, handlers, n - 1);
      var tail: seq<Run> := if pending[n - 1] && handlers[n - 1].Handler? then [RanHandler(n - 1, handlers[n - 1].id)] else [];
      assert Dispatched(pending, handlers, n) == d + tail;
      var all := Dispatched(pending, handlers, n);
      forall a, b | 0 <= a < b < |all|
        ensures all[a].RanHandler? && all[b].RanHandler? && all[a].slot < all[b].slot
      {
        assert (d + tail)[a] == d[a];
        assert d[a].RanHandler? && d[a].slot < n - 1;
        if b >= |d| {
          assert (d + tail)[b] == tail[0];
          assert tail[0].slot == n - 1;
        } else {
          assert (d + tail)[b] == d[b];
          assert d[a].slot < d[b].slot;
        }
      }
    } else {
      assert Dispatched(pending, handlers, n) == [];
    }
  }

  /** Every slot whose bit is set in the snapshot and that holds a handler has that handler run. */
  lemma {:induction false} DispatchedComplete(pending: seq<bool>, handlers: seq<Slot>, n: nat, i: nat)
    requires n <= |pending| && n <= |handlers|
    requires i < n && pending[i] && handlers[i].Handler?
    ensures RanHandler(i, handlers[i].id) in Dispatched(pending, handlers, n)
  {
    var d := Dispatched(pending, handlers, n - 1);
    var tail: seq<Run> := if pending[n - 1] && handlers[n - 1].Handler? then [RanHandler(n - 1, handlers[n - 1].id)] else [];
    assert Dispatched(pending, handlers, n) == d + tail;
    if i < n - 1 {
      DispatchedComplete(pending, handlers, n - 1, i);
      assert RanHandler(i, handlers[i].id) in d;
    } else {
      assert tail == [RanHandler(i, handlers[i].id)];
    }
  }

  /** `handler_exceptions_` went from `before` to `after` by running the handlers of the first
      `n` slots: a slot records an exception when its handler ran and threw, and otherwise keeps
      what it held. */
  ghost predicate Caught(before: seq<bool>, after: seq<bool>, pending: seq<bool>, handlers: seq<Slot>, throwing: set<nat>, n: nat)
  {
    && |after| == |before|
    && forall i :: 0 <= i < |after| ==>
         after[i] == (before[i] || (i < n && i < |pending| && i < |handlers| && pending[i] && handlers[i].Handler? && i in throwing))
  }

  /** Running slot `i` extends what the first `i` slots recorded to the first `i + 1`. */
  lemma CaughtNext(before: seq<bool>, mid: seq<bool>, after: seq<bool>, pending: seq<bool>, handlers: seq<Slot>, throwing: set<nat>, i: nat)
    requires Caught(before, mid, pending, handlers, throwing, i)
    requires i < |pending| && i < |handlers| && i < |mid|
    requires after == (if pending[i] && handlers[i].Handler? && i in throwing then mid[i := true] else mid)
    ensures Caught(before, after, pending, handlers, throwing, i + 1)
  {
  }

  lemma LogOne(log: seq<Run>, runs: seq<Run>, run: Run)
    ensures log + runs + [run] == log + (runs + [run])
  {
  }

  /** A bitset of `n` cleared bits. */
  function NoFlags(n: nat): (f: seq<bool>)
    ensures |f| == n && true !in f
  {
    seq(n, _ => false)
  }

  class HandlerThread {
    /** `MaxHandlers`, the template argument: the number of signal slots (30 by default). */
    const maxHandlers: nat
    var done: bool
    /** `thread_.joinable()`: the thread was started and has not been joined. */
    var joinable: bool
    /** `run()` has returned. */
    var exited: bool
    /** `flags_`: the pending signal bits. */
    var flags: seq<bool>
    /** `handlers_`. */
    var handlers: seq<Slot>
    /** `handler_exceptions_`: whether each slot holds a captured exception. */
    var exceptions: seq<bool>
    /** `work_queue_`, front first. */
    var workQueue: seq<nat>
    /** Every task `enqueue_work` accepted, in order. */
    ghost var accepted: seq<nat>
    /** The tasks thrown away unrun when the loop stopped. */
    ghost var discarded: seq<nat>
    /** Everything the thread ran, in order. */
    ghost var executed: seq<Run>

    /** The tables have `MaxHandlers` entries, and the queue is FIFO: the tasks that ran, then
        those discarded, then those still queued are exactly the accepted tasks in order. */
    ghost predicate Valid()
      reads this
    {
      && |flags| == maxHandlers && |handlers| == maxHandlers && |exceptions| == maxHandlers
      && Tasks(executed) + discarded + workQueue == accepted
      && (discarded != [] ==> exited)
    }

    /** `is_running()`. */
    predicate IsRunning()
      reads this
    {
      !done && joinable
    }

    /** The constructor starts the thread. On Windows `run()` returns at once when COM cannot be
        initialised; `comInitialized` is that outcome. */
    constructor (handlerCount: nat, comInitialized: bool)
      ensures Valid() && maxHandlers == handlerCount
      ensures IsRunning() && exited == !comInitialized
      ensures true !in flags && (forall i :: 0 <= i < |handlers| ==> handlers[i] == NoHandler)
      ensures true !in exceptions
      ensures workQueue == [] && accepted == [] && discarded == [] && executed == []
    {
      maxHandlers := handlerCount;
      done := false;
      joinable := true;
      exited := !comInitialized;
      flags := NoFlags(handlerCount);
      handlers := seq(handlerCount, _ => NoHandler);
      exceptions := NoFlags(handlerCount);
      workQueue := [];
      accepted := [];
      discarded := [];
      executed := [];
    }

    /** `request_stop()`: sets `done_`, after which the thread no longer counts as running. */
    method RequestStop()
      requires Valid()
      modifies this
      ensures Valid() && done && !IsRunning()
      ensures joinable == old(joinable) && exited == old(exited)
      ensures flags == old(flags) && handlers == old(handlers) && exceptions == old(exceptions)
      ensures workQueue == old(workQueue) && accepted == old(accepted)
      ensures discarded == old(discarded) && executed == old(executed)
    {
      done := true;
    }

    /** `enqueue_work`: throws (`ok` false) once stopped, changing nothing; otherwise appends the
        task at the back of the queue. */
    method EnqueueWork(task: nat) returns (ok: bool)
      requires Valid()
      modifies this
      ensures Valid()
      ensures ok == !old(done)
      ensures ok ==> workQueue == old(workQueue) + [task] && accepted == old(accepted) + [task]
      ensures !ok ==> workQueue == old(workQueue) && accepted == old(accepted)
      ensures done == old(done) && joinable == old(joinable) && exited == old(exited)
      ensures flags == old(flags) && handlers == old(handlers) && exceptions == old(exceptions)
      ensures discarded == old(discarded) && executed == old(executed)
    {
      if done {
        return false;
      }
      workQueue := workQueue + [task];
      accepted := accepted + [task];
      ok := true;
    }

    /** `request_signal(signal)`: refused once stopped, out of range outside the bitset, a no-op
        when the bit is already set (requests coalesce), and otherwise sets the bit. */
    method RequestSignal(signal: int) returns (r: SignalReply)
      requires Valid()
      modifies this
      ensures Valid()
      ensures old(done) ==> r == Refused
      ensures !old(done) && !(0 <= signal < maxHandlers) ==> r == OutOfRange
      ensures !old(done) && 0 <= signal < maxHandlers ==>
                r == (if old(flags[signal]) then AlreadyPending else Accepted) && flags[signal]
      ensures r == Accepted ==> 0 <= signal < maxHandlers && flags == old(flags)[signal := true]
      ensures r != Accepted ==> flags == old(flags)
      ensures done == old(done) && joinable == old(joinable) && exited == old(exited)
      ensures handlers == old(handlers) && exceptions == old(exceptions)
      ensures workQueue == old(workQueue) && accepted == old(accepted)
      ensures discarded == old(discarded) && executed == old(executed)
    {
      if done {
        return Refused;
      }
      if !(0 <= signal < maxHandlers) {
        return OutOfRange;
      }
      if flags[signal] {
        return AlreadyPending;
      }
      flags := flags[signal := true];
      r := Accepted;
    }

    /** `add_signal(handler)`: -1 once stopped or when no slot is empty; otherwise stores the
        handler in the lowest empty slot, clears that slot's bit and returns the slot. */
    method AddSignal(handler: Slot) returns (index: int)
      requires Valid()
      modifies this
      ensures Valid()
      ensures old(done) ==> index == -1
      ensures !old(done) ==> (index == -1 <==> NoHandler !in old(handlers))
      ensures index == -1 ==> handlers == old(handlers) && flags == old(flags)
      ensures index != -1 ==>
                && 0 <= index < maxHandlers
                && old(handlers)[index] == NoHandler
                && (forall k :: 0 <= k < index ==> old(handlers)[k] != NoHandler)
                && handlers == old(handlers)[index := handler]
                && flags == old(flags)[index := false]
      ensures done == old(done) && joinable == old(joinable) && exited == old(exited)
      ensures exceptions == old(exceptions) && workQueue == old(workQueue) && accepted == old(accepted)
      ensures discarded == old(discarded) && executed == old(executed)
    {
      if done {
        return -1;
      }
      var p := FirstIndex(handlers, NoHandler);
      FirstIndexAbsent(handlers, NoHandler);
      if p == |handlers| {
        return -1;
      }
      handlers := handlers[p := handler];
      flags := flags[p := false];
      index := p;
    }

    /** `remove_signal(handler)`: false when no slot holds the handler; otherwise empties the
        first slot holding it and clears that slot's bit, leaving every other slot alone. It does
        not look at `done_`. */
    method RemoveSignal(handler: Slot) returns (ok: bool)
      requires Valid()
      modifies this
      ensures Valid()
      ensures ok <==> handler in old(handlers)
      ensures !ok ==> handlers == old(handlers) && flags == old(flags)
      ensures ok ==>
                var p := FirstIndex(old(handlers), handler);
                && handlers == old(handlers)[p := NoHandler]
                && flags == old(flags)[p := false]
      ensures done == old(done) && joinable == old(joinable) && exited == old(exited)
      ensures exceptions == old(exceptions) && workQueue == old(workQueue) && accepted == old(accepted)
      ensures discarded == old(discarded) && executed == old(executed)
    {
      var p := FirstIndex(handlers, handler);
      FirstIndexAbsent(handlers, handler);
      if p == |handlers| {
        return false;
      }
      handlers := handlers[p := NoHandler];
      flags := flags[p := false];
      ok := true;
    }

    /** The loop over the snapshot of the signal bits: every set bit whose slot holds a handler
        has that handler run, in slot order; `throwing` names the slots whose handler throws,
        which is caught into that slot of `handler_exceptions_` without stopping the others. */
    method Dispatch(pending: seq<bool>, throwing: set<nat>)
      requires Valid() && |pending| == maxHandlers
      modifies this
      ensures Valid()
      ensures executed == old(executed) + Dispatched(pending, handlers, |pending|)
      ensures Caught(old(exceptions), exceptions, pending, handlers, throwing, |pending|)
      ensures done == old(done) && joinable == old(joinable) && exited == old(exited)
      ensures flags == old(flags) && handlers == old(handlers)
      ensures workQueue == old(workQueue) && accepted == old(accepted) && discarded == old(discarded)
    {
      ghost var log := executed;
      var caught := exceptions;
      var i := 0;
      while i < |pending|
        modifies {}
        invariant 0 <= i <= |pending|
        invariant log == executed + Dispatched(pending, handlers, i)
        invariant Caught(exceptions, caught, pending, handlers, throwing, i)
      {
        ghost var before := caught;
        if pending[i] {
          var handler := handlers[i];
          if handler.Handler? {
            LogOne(executed, Dispatched(pending, handlers, i), RanHandler(i, handler.id));
            log := log + [RanHandler(i, handler.id)];
            if i in throwing {
              caught := caught[i := true];
            }
          }
        }
        CaughtNext(exceptions, before, caught, pending, handlers, throwing, i);
        i := i + 1;
      }
      assert Tasks(log) == Tasks(executed) by {
        DispatchedRunsNoTask(pending, handlers, |pending|);
        TasksAppend(executed, Dispatched(pending, handlers, |pending|));
      }
      executed := log;
      exceptions := caught;
    }

    /** The stop branch of `run()`: the queue is swapped out, and its tasks are destroyed unrun
        when the swapped copy goes out of scope; then the loop returns. */
    method Exit()
      requires Valid() && !exited
      modifies this
      ensures Valid() && exited
      ensures workQueue == [] && discarded == old(discarded) + old(workQueue)
      ensures done == old(done) && joinable == old(joinable) && flags == old(flags) && handlers == old(handlers)
      ensures exceptions == old(exceptions) && accepted == old(accepted) && executed == old(executed)
    {
      discarded := discarded + workQueue;
      workQueue := [];
      exited := true;
    }

    /** The task branch of `run()`: pops the front task and runs it. */
    method RunFront() returns (task: nat)
      requires Valid() && !exited && workQueue != []
      modifies this
      ensures Valid()
      ensures task == old(workQueue[0]) && workQueue == old(workQueue[1..])
      ensures executed == old(executed) + [RanTask(task)]
      ensures done == old(done) && joinable == old(joinable) && exited == old(exited) && flags == old(flags)
      ensures handlers == old(handlers) && exceptions == old(exceptions)
      ensures accepted == old(accepted) && discarded == old(discarded)
    {
      task := workQueue[0];
      workQueue := workQueue[1..];
      TasksAppend(executed, [RanTask(task)]);
      assert Tasks([RanTask(task)]) == [task] by {
        assert [RanTask(task)][..0] == [];
      }
      executed := executed + [RanTask(task)];
    }

    /** One pass of the `run()` loop. Once stopped it swaps the queue out, discarding every queued
        task unrun, and returns. Otherwise it pops and runs the front task, without looking at the
        signals. With the queue empty and a bit set, it snapshots and clears every bit and runs the
        handlers of the snapshot. Otherwise it waits, changing nothing. */
    method Step(throwing: set<nat>) returns (r: StepResult)
      requires Valid() && !exited
      modifies this
      ensures Valid()
      ensures old(done) ==>
                && r == Exited && exited && workQueue == []
                && discarded == old(discarded) + old(workQueue) && executed == old(executed)
                && flags == old(flags)
      ensures !old(done) && old(workQueue) != [] ==>
                && r == TaskRun
                && workQueue == old(workQueue[1..])
                && executed == old(executed) + [RanTask(old(workQueue[0]))]
                && flags == old(flags)
      ensures !old(done) && old(workQueue) == [] && true in old(flags) ==>
                && r == SignalsRun
                && flags == NoFlags(maxHandlers)
                && executed == old(executed) + Dispatched(old(flags), handlers, maxHandlers)
                && Caught(old(exceptions), exceptions, old(flags), handlers, throwing, maxHandlers)
      ensures !old(done) && old(workQueue) == [] && true !in old(flags) ==>
                r == Waited && flags == old(flags) && executed == old(executed)
      ensures r != SignalsRun ==> exceptions == old(exceptions)
      ensures r != Exited && r != TaskRun ==> workQueue == old(workQueue)
      ensures r != Exited ==> exited == old(exited) && discarded == old(discarded)
      ensures done == old(done) && joinable == old(joinable)
      ensures handlers == old(handlers) && accepted == old(accepted)
    {
      if done {
        Exit();
        return Exited;
      }
      if workQueue != [] {
        var task := RunFront();
        return TaskRun;
      }
      if true in flags {
        var pending := flags;
        flags := NoFlags(maxHandlers);
        Dispatch(pending, throwing);
        return SignalsRun;
      }
      r := Waited;
    }

    /** `~HandlerThread()`: requests a stop and joins the thread, whose next pass sees the stop,
        discards the queue and returns. */
    method Destroy()
      requires Valid()
      modifies this
      ensures Valid()
      ensures done && !joinable && !IsRunning()
      ensures old(joinable) ==> exited
      ensures old(joinable) && !old(exited) ==> workQueue == [] && discarded == old(discarded) + old(workQueue)
      ensures executed == old(executed) && accepted == old(accepted)
    {
      RequestStop();
      if joinable {
        if !exited {
          var r := Step({});
        }
        joinable := false;
      }
    }
  }

  /** Signal requests coalesce: a second request for the same bit finds it pending and changes
      nothing, whatever the first one did. */
  method RequestSignalTwice(t: HandlerThread, signal: int) returns (first: SignalReply, second: SignalReply)
    requires t.Valid()
    modifies t
    ensures t.Valid()
    ensures second != Accepted
    ensures first == Accepted ==> second == AlreadyPending
    ensures first == Accepted ==> 0 <= signal < |old(t.flags)| && t.flags == old(t.flags)[signal := true]
    ensures first != Accepted ==> t.flags == old(t.flags)
  {
    first := t.RequestSignal(signal);
    second := t.RequestSignal(signal);
  }
}
