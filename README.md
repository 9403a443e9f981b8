# BackgroundUpdates core, modelled in Dafny

This project models the real-time core of the BackgroundUpdates audio capture application, in four parts.

- **`BufferPool`** (`buffer_pool.dfy`, module `BufferPools`): a fixed-capacity free stack of preallocated audio buffers. It never grows. The empty handle is the answer to exhaustion. A released buffer goes back on top.
- **`AudioBuffer` and `AudioDemux::add`** (`audio_buffer.dfy`, `audio_demux.dfy`, modules `AudioBuffers` and `AudioDemux`): splits one call's frame-major sample stream into one pool buffer per channel.
  - The null data pointer means silence; that path emits zero-filled buffers.
  - The data path allocates one buffer per channel, copies frame by frame in lock-step, flushes when the buffers are full, and flushes the tail.
  - The source only has the comment "Enqueue" where a filled buffer would be handed downstream. The model records each such point in a ghost `log` of `Flush(channel, samples)` entries.
- **`HandlerThread`** (`handler_thread.dfy`, module `HandlerThreads`): a single-consumer actor with a FIFO task queue, a bitset of pending signals and a fixed table of signal handlers.
  - Each public operation that runs under the mutex is one atomic method.
  - One pass of the `run()` loop is `Step`.
- **`YetAnotherThreadPool`** (`thread_pool.dfy`, module `ThreadPools`): one FIFO and one stop flag per worker. Work goes to a random worker. An idle worker steals from up to half the pool.
  - One pass of a worker's `run()` loop is `YetAnotherThreadPool.Step`.
  - The random draws and the set of contended peer locks are explicit arguments.

Tasks and handlers are opaque ids. Running one appends it to a ghost log (`executed`, `ran`), or removes it from a ghost accounting of where every accepted task is.

## Quirks modelled as written

Each of these quirks is proved about the model.

- The silence loop counts items, not frames, so each channel gets the item count in zeros (`SilenceNineFrames`). Its last chunk may be partial.
- The data path never resets `index` after a mid-call flush (`DataLogReemits`, `DataTenFrames`). The next pass copies nothing and leaves the loop. Two things follow:
  - At most `Size` frames are deinterleaved per call.
  - The tail flush hands down the refilled buffers with `length = Size`. Because the pool is LIFO, channel c >= 1 receives again the buffer channel c - 1 had just flushed, and channel 0 receives the stale contents of the buffer below.
- Consequences of the code as written:
  - ten frames at capacity 4 give one flush per channel, then stale buffers, and frames 4 to 9 are never handed down;
  - silence for 9 frames of 2 channels yields chunks 4, 4, 4, 4, 2 per channel;
  - the silence path emits a partial last buffer.
- `request_signal` ends with a value-less `return;` when the bit is already set. The model makes that an explicit `AlreadyPending` reply, and a bit outside the bitset gives `OutOfRange`, which corresponds to the `std::out_of_range` of `bitset::test`.
- `remove_signal` takes the handler, not a slot index, and does not check `done_`.
- In the pool, a worker whose task threw keeps whatever is still queued at it. Its stop flag stays clear, so it still accepts work that no loop of its own will run. Peers can still steal that work. A stopped worker's queue may also be stolen from until its own loop discards it.

## Model

| member | source | states |
|---|---|---|
| AudioBuffers.AudioBuffer.constructor | BackgroundUpdates/MainWorker.cpp:19-28 | a new buffer has its own sample array of capacity `Size` and length 0 |
| AudioBuffers.AudioBuffer.Reset | BackgroundUpdates/MainWorker.cpp:27 | `reset()` sets the logical length to 0 |
| BufferPools.BufferPool.constructor | BackgroundUpdates/BufferPool.h:58-64 | `buffer_count` fresh buffers (none for a negative count) end up on the free stack, none outstanding, each with its own storage |
| BufferPools.BufferPool.Conservation | BackgroundUpdates/BufferPool.h:96-115 | free count plus outstanding buffers is always the initial count, so the free count never exceeds it |
| BufferPools.BufferPool.AllFreeWhenFull | BackgroundUpdates/BufferPool.h:58-64 | with the free count at capacity, every buffer of the pool is free |
| BufferPools.BufferPool.DistinctData | BackgroundUpdates/BufferPool.h:62 | distinct buffers of the pool never share sample storage |
| BufferPools.BufferPool.Allocate | BackgroundUpdates/BufferPool.h:89-107 | on an empty stack: the empty handle, nothing changed; otherwise: exactly the top buffer, popped, with length reset to 0 |
| BufferPools.BufferPool.ReleaseBuffer | BackgroundUpdates/BufferPool.h:110-115 | the buffer is pushed on top and nothing else changes |
| BufferPools.BufferPool.Release | BackgroundUpdates/BufferPool.h:32 | releasing the empty handle is a no-op; an owning handle's buffer goes back on top and stops being outstanding |
| BufferPools.BufferPool.Destroy | BackgroundUpdates/BufferPool.h:67-86 | frees exactly the buffers on the free stack at that moment, top first; they are every buffer only when none is outstanding |
| BufferPools.ReleaseThenAllocate | BackgroundUpdates/BufferPool.h:99-114 | LIFO round trip: release then allocate hands back the same buffer, with length 0, and the stack as before |
| AudioDemux.FramesIsDiv | BackgroundUpdates/MainWorker.cpp:57-58 | the frames counted by repeated subtraction are `len / channels` |
| AudioDemux.ItemsOfOneFrame | BackgroundUpdates/MainWorker.cpp:54-58 | a byte count of at least one frame holds at least `channels` items |
| AudioDemux.ChunkFits | BackgroundUpdates/MainWorker.cpp:124-137 | a chunk of at most the whole frames left stays inside the stream and advances it by one frame per copied frame |
| AudioDemux.EndOfStream | BackgroundUpdates/MainWorker.cpp:124-129 | where the copy loop breaks without a flush, every whole frame was copied and no partial frame |
| AudioDemux.FramesVsCapacity | BackgroundUpdates/MainWorker.cpp:107-129 | whether a flush is reached is decided by whether the stream is longer than `Size` frames |
| AudioDemux.SilenceChunksShape | BackgroundUpdates/MainWorker.cpp:64-85 | chunk lengths are non-zero, at most `Size`, all full but the last, and add up to exactly the item count |
| AudioDemux.SilenceNineFrames | BackgroundUpdates/MainWorker.cpp:57-71 | 18 items of silence at capacity 4 give chunks 4, 4, 4, 4, 2 |
| AudioDemux.SilenceLogLength | BackgroundUpdates/MainWorker.cpp:73-82 | each silence chunk yields exactly one buffer per channel |
| AudioDemux.SilenceLogEntry | BackgroundUpdates/MainWorker.cpp:73-82 | every silent buffer is zero-filled over its chunk length, and the channels cycle in order |
| AudioDemux.SilenceAsWritten | BackgroundUpdates/MainWorker.cpp:73-79 | the silence path as written: with no free buffer, the first write goes through the empty handle |
| AudioDemux.SilenceExhaustedWritesThroughNull | BackgroundUpdates/MainWorker.cpp:73-79 | one silent frame of two channels with an exhausted pool writes through null |
| AudioDemux.Flushes | BackgroundUpdates/MainWorker.cpp:109-149 | one flush per channel, in channel order, each with that channel's contents |
| AudioDemux.ChannelSample | BackgroundUpdates/MainWorker.cpp:131-137 | sample k of channel c is stream item `k * channels + c` |
| AudioDemux.DataLogOfLoop | BackgroundUpdates/MainWorker.cpp:103-150 | the data path's output is the flush round of the copy loop, if one completed, followed by the tail flush when `index > 0` |
| AudioDemux.DataLogAbandoned | BackgroundUpdates/MainWorker.cpp:115-118 | a flush that finds the pool exhausted makes the call hand nothing downstream |
| AudioDemux.DataLogUniformLength | BackgroundUpdates/MainWorker.cpp:103-150 | lock-step and the frame cap: every buffer handed down has length `min(frames, Size)` |
| AudioDemux.DataLogFirstRound | BackgroundUpdates/MainWorker.cpp:131-150 | the first round hands channel c its own samples of the first `min(frames, Size)` frames |
| AudioDemux.DataLogDeinterleaves | BackgroundUpdates/MainWorker.cpp:131-137 | sample k of channel c's first buffer is item `k * channels + c` of the stream |
| AudioDemux.DataLogReemits | BackgroundUpdates/MainWorker.cpp:107-149 | after a mid-call flush, the tail flush hands channel c >= 1 the samples channel c - 1 already flushed |
| AudioDemux.DataTenFrames | BackgroundUpdates/MainWorker.cpp:103-150 | 10 frames of 2 channels at capacity 4 give frames 0-3 per channel, then two stale buffers; frames 4-9 are dropped |
| AudioDemux.ZeroFill | BackgroundUpdates/MainWorker.cpp:77-79 | the first `length` samples become 0, the rest stay, and the length is set |
| AudioDemux.CopyFrames | BackgroundUpdates/MainWorker.cpp:131-137 | after `length` frames, each buffer c holds channel c's samples of all frames so far, and nothing beyond them changed |
| AudioDemux.CopyFrame | BackgroundUpdates/MainWorker.cpp:133-134 | one frame: buffer c gets item `p + c` at the shared index, and the stream pointer advances by `channels` |
| AudioDemux.AudioDemux.constructor | BackgroundUpdates/MainWorker.cpp:36-44 | the pool and channel count are fixed at construction; `channels` is what `channels()` reports |
| AudioDemux.AudioDemux.Add | BackgroundUpdates/MainWorker.cpp:52-151 | less than one frame is a no-op. Silence emits the silence chunks, or nothing on an exhausted pool. Data emits `DataLog`. Every buffer the call obtained is free again, so the free stack holds the same buffers (silence: the same stack) and the outstanding set is unchanged; a buffer held by the caller is not touched |
| AudioDemux.AudioDemux.AddSilence | BackgroundUpdates/MainWorker.cpp:62-86 | corrected silence path: every chunk, one zero-filled buffer per channel, or nothing when no buffer is free; the stack is unchanged |
| AudioDemux.AudioDemux.EmitSilence | BackgroundUpdates/MainWorker.cpp:70-82 | one chunk: a zero-filled buffer per channel in order, each given back before the next allocation |
| AudioDemux.AudioDemux.SilenceSlot | BackgroundUpdates/MainWorker.cpp:73-81 | one channel: nothing on an empty stack, otherwise the top buffer zero-filled and given back |
| AudioDemux.AudioDemux.AllocateChannels | BackgroundUpdates/MainWorker.cpp:88-98 | the top buffers of the stack, one per channel, stopping at the first empty handle; success exactly when at least `channels` are free |
| AudioDemux.AudioDemux.ReleaseAll | BackgroundUpdates/MainWorker.cpp:88-98 | destroying the handle vector pushes every owned buffer back, in order |
| AudioDemux.AudioDemux.FlushSlot | BackgroundUpdates/MainWorker.cpp:111-121 | one slot of the flush: the full buffer is handed down with `length = index` and goes back, and the next allocation replaces it |
| AudioDemux.AudioDemux.FlushAndRefill | BackgroundUpdates/MainWorker.cpp:109-122 | the flush succeeds exactly when a buffer is free; then all channels are handed down and refilled, otherwise nothing is handed down |
| AudioDemux.AudioDemux.RefillRest | BackgroundUpdates/MainWorker.cpp:109-122 | the remaining slots of the flush, each receiving the buffer the previous slot gave back |
| AudioDemux.AudioDemux.FlushTail | BackgroundUpdates/MainWorker.cpp:140-150 | every buffer is handed down with its contents and goes back, in order |
| AudioDemux.AudioDemux.FlushVector | BackgroundUpdates/MainWorker.cpp:140-150 | the tail flush happens only when `index > 0`; every buffer goes back either way |
| AudioDemux.AudioDemux.AddData | BackgroundUpdates/MainWorker.cpp:88-150 | the data path hands down exactly `DataLog`, and the free stack ends with the same buffers it started with, so the outstanding set is unchanged |
| AudioDemux.AudioDemux.FillAndFlush | BackgroundUpdates/MainWorker.cpp:100-150 | once every channel has a buffer: copy loop then tail, handing down `DataLog`; afterwards the free stack holds its old buffers plus the channel buffers |
| AudioDemux.AudioDemux.TailOfCall | BackgroundUpdates/MainWorker.cpp:117-150 | the end of the call hands down `TailLog` and gives back every buffer still held |
| AudioDemux.AudioDemux.Deinterleave | BackgroundUpdates/MainWorker.cpp:103-138 | the copy loop copies `min(frames, Size)` frames in lock-step and ends as `LoopOutcome` says |
| AudioDemux.AudioDemux.CopyLoop | BackgroundUpdates/MainWorker.cpp:103-138 | copies chunk after chunk until the input runs out or `Size` frames are reached |
| AudioDemux.AudioDemux.CopyChunk | BackgroundUpdates/MainWorker.cpp:124-137 | `min(Size - index, whole frames left)` frames, or a break when that is 0 |
| AudioDemux.AudioDemux.FlushFull | BackgroundUpdates/MainWorker.cpp:107-122 | the flush at `index == Size` either completes or is abandoned on an empty stack |
| HandlerThreads.FirstIndex | BackgroundUpdates/HandlerThread.h:123-125 | `std::find`: the first position holding the value, or the end |
| HandlerThreads.FirstIndexAbsent | BackgroundUpdates/HandlerThread.h:141-143 | `find` reaches the end exactly when the value is absent |
| HandlerThreads.DispatchedSound | BackgroundUpdates/HandlerThread.h:216-228 | every handler a signal pass runs had its bit set in the snapshot and came from its own slot |
| HandlerThreads.DispatchedRunsNoTask | BackgroundUpdates/HandlerThread.h:209-237 | a signal pass runs no queued task |
| HandlerThreads.DispatchedInSlotOrder | BackgroundUpdates/HandlerThread.h:216-228 | handlers run in strictly increasing slot order, so each slot runs at most once per pass |
| HandlerThreads.DispatchedComplete | BackgroundUpdates/HandlerThread.h:216-228 | every set bit whose slot holds a handler has that handler run |
| HandlerThreads.CaughtNext | BackgroundUpdates/HandlerThread.h:226-233 | a throwing handler is recorded in its own slot, and the other slots keep what they held |
| HandlerThreads.NoFlags | BackgroundUpdates/HandlerThread.h:212 | `flags_.reset()`: every bit cleared |
| HandlerThreads.HandlerThread.constructor | BackgroundUpdates/HandlerThread.h:13-16 | starts running with empty queue, no signals, no handlers; `run()` returns at once when COM initialisation failed |
| HandlerThreads.HandlerThread.RequestStop | BackgroundUpdates/HandlerThread.h:18-25 | sets `done_`, after which `is_running()` is false; nothing else changes |
| HandlerThreads.HandlerThread.EnqueueWork | BackgroundUpdates/HandlerThread.h:35-64 | refused once stopped, with nothing changed; otherwise exactly one task appended at the back |
| HandlerThreads.HandlerThread.RequestSignal | BackgroundUpdates/HandlerThread.h:99-114 | refused once stopped, out of range outside the bitset, a no-op when the bit is already set, otherwise that bit alone is set |
| HandlerThreads.HandlerThread.AddSignal | BackgroundUpdates/HandlerThread.h:116-135 | -1 when stopped or when no slot is empty; otherwise the lowest empty slot receives the handler, its bit is cleared, and its index is returned |
| HandlerThreads.HandlerThread.RemoveSignal | BackgroundUpdates/HandlerThread.h:137-153 | false exactly when the handler is absent; otherwise its first slot is emptied and that slot's bit cleared, every other slot unchanged |
| HandlerThreads.HandlerThread.Dispatch | BackgroundUpdates/HandlerThread.h:216-234 | runs `Dispatched` of the snapshot, and records `Caught` exceptions |
| HandlerThreads.HandlerThread.Exit | BackgroundUpdates/HandlerThread.h:186-195 | the queue is discarded unrun and the loop exits |
| HandlerThreads.HandlerThread.RunFront | BackgroundUpdates/HandlerThread.h:197-207 | exactly the front task is popped and run |
| HandlerThreads.HandlerThread.Step | BackgroundUpdates/HandlerThread.h:184-240 | priority order: stop and discard, else one task with the signals untouched, else snapshot, clear all bits and run the handlers, else wait with nothing changed; tasks stay FIFO |
| HandlerThreads.HandlerThread.Destroy | BackgroundUpdates/HandlerThread.h:27-33 | requests a stop and joins: not running afterwards, and a live loop has discarded its queue |
| HandlerThreads.RequestSignalTwice | BackgroundUpdates/HandlerThread.h:106-109 | requests coalesce: a second request for the same bit is never accepted and changes nothing |
| ThreadPools.WorkerCount | BackgroundUpdates/YetAnotherThreadPool.cpp:7-11 | a non-positive request means the hardware count, and the result is at least 1 |
| ThreadPools.RandomId | BackgroundUpdates/YetAnotherThreadPool.cpp:150-158 | 0 for at most one worker, otherwise an index in range |
| ThreadPools.RandomIdReachesEvery | BackgroundUpdates/YetAnotherThreadPool.cpp:157 | every worker index can be drawn |
| ThreadPools.BagGrow | BackgroundUpdates/YetAnotherThreadPool.h:54 | changing one worker's queue changes the pool's tasks by exactly that difference |
| ThreadPools.ConservedPush | BackgroundUpdates/YetAnotherThreadPool.cpp:53 | accepting a task at the back of one queue keeps every task accounted for |
| ThreadPools.ConservedTake | BackgroundUpdates/YetAnotherThreadPool.cpp:90-92 | running the front task of a queue keeps every task accounted for |
| ThreadPools.ConservedDrop | BackgroundUpdates/YetAnotherThreadPool.cpp:79-81 | discarding a queue keeps every task accounted for |
| ThreadPools.WorkerThread.constructor | BackgroundUpdates/YetAnotherThreadPool.h:35-42 | a worker starts not done, with an empty queue of its own |
| ThreadPools.WorkerThread.EnqueueWork | BackgroundUpdates/YetAnotherThreadPool.cpp:40-58 | refused once done, with nothing changed; otherwise exactly one task pushed at the back |
| ThreadPools.WorkerThread.Stop | BackgroundUpdates/YetAnotherThreadPool.cpp:60-67 | sets `done_`, and nothing else changes |
| ThreadPools.WorkerThread.PopFront | BackgroundUpdates/YetAnotherThreadPool.cpp:90-92 | removes exactly the oldest task; the queue stays FIFO |
| ThreadPools.WorkerThread.ExitLoop | BackgroundUpdates/YetAnotherThreadPool.cpp:77-86 | the stop branch discards the whole queue and the loop ends |
| ThreadPools.WorkerThread.Fail | BackgroundUpdates/YetAnotherThreadPool.cpp:144-147 | a thrown task is stored and the loop ends, leaving the queue as it is |
| ThreadPools.YetAnotherThreadPool.constructor | BackgroundUpdates/YetAnotherThreadPool.cpp:5-17 | exactly `WorkerCount` distinct idle workers, with no task anywhere |
| ThreadPools.YetAnotherThreadPool.EnqueueWork | BackgroundUpdates/YetAnotherThreadPool.h:13-16 | the task goes to exactly the worker `random_id()` picks, and is refused when that one is done |
| ThreadPools.YetAnotherThreadPool.Stop | BackgroundUpdates/YetAnotherThreadPool.h:18-22 | every worker is done, and every queue, exited flag and failed flag is as it was |
| ThreadPools.YetAnotherThreadPool.Take | BackgroundUpdates/YetAnotherThreadPool.cpp:123-129 | exactly the front task of the chosen queue is removed and run; that worker's flags are unchanged |
| ThreadPools.YetAnotherThreadPool.Abort | BackgroundUpdates/YetAnotherThreadPool.cpp:144-147 | a thrown task ends that worker's loop with the exception stored, and no queue changes |
| ThreadPools.YetAnotherThreadPool.Discard | BackgroundUpdates/YetAnotherThreadPool.cpp:77-86 | the stopped worker's queue is discarded unrun and accounted as discarded; its loop has exited, and its done and failed flags are unchanged |
| ThreadPools.YetAnotherThreadPool.Probe | BackgroundUpdates/YetAnotherThreadPool.cpp:109-132 | the probe bound: at most `size / 2` probes, contended or empty peers are skipped, and the first takeable probe is the one found |
| ThreadPools.YetAnotherThreadPool.Step | BackgroundUpdates/YetAnotherThreadPool.cpp:69-148 | stop and discard, else the own front task with no peer touched, else one steal from the first takeable probe, else wait with nothing changed; at most one task leaves the queues and none is lost; no peer's exited or failed flag changes, and a pass that neither exits nor throws leaves the worker running, so the next pass can follow |
| ThreadPools.YetAnotherThreadPool.Steal | BackgroundUpdates/YetAnotherThreadPool.cpp:103-140 | the front task of the first takeable peer is run, or the worker waits when there is none; no other worker's exited or failed flag changes, and the worker's own flags change only when the stolen task throws |
| ThreadPools.YetAnotherThreadPool.Join | BackgroundUpdates/YetAnotherThreadPool.cpp:30-36 | `~WorkerThread` stops the worker, then joins it: it ends done and exited; a live loop sees the stop and discards its queue, and an ended loop keeps its queue with nothing discarded |
| ThreadPools.YetAnotherThreadPool.Destroy | BackgroundUpdates/YetAnotherThreadPool.cpp:19-23 | every worker ends done and exited, with each live loop's queue discarded and each ended loop's queue kept, failed flags unchanged, and no task is lost |
| ThreadPools.Run | BackgroundUpdates/YetAnotherThreadPool.cpp:69-141 | the `while (true)` loop: without a stop the worker keeps running through every pass, with a stop the first pass leaves the loop; the record of tasks run only grows, and no task is lost |
| ThreadPools.StopThenEnqueue | BackgroundUpdates/YetAnotherThreadPool.cpp:48-49 | once the pool is stopped, any later `enqueue_work` is refused and changes nothing |

## Left out

- Threads, mutexes, condition variables, `notify_one`/`notify_all`/`wait` and `try_to_lock` are not modelled as such.
  - Each locked operation is one atomic method, and a loop pass is a `Step`.
  - A lock that cannot be taken is the `contended` argument.
  - Waiting is the `Waited` result.
- Floating-point samples: samples are `int`, and `memset` to zero is 0.
- `allocate_raw`, `free_raw` and placement `new` (aligned allocation) are not modelled, because they are foreign CRT calls. A buffer is a fresh object with its own array.
- The "Enqueue" points of `add` hand nothing downstream. The ghost `log` records what would be handed over, and every handle goes back to the pool when it leaves scope, as in the code.
- The vector of handles in `add` is destroyed in index order (`ReleaseAll`, `FlushVector`).
- AudioDemux.AudioDemux.constructor: requires at least one channel and a positive sample size, because line 58 divides by the channel count.
- `std::packaged_task`, `std::future` and `std::function` are not modelled. Tasks and handlers are ids, and `remove_signal` compares them by id.
- The return value of `enqueue_work` (the future) is left out; acceptance is the boolean `ok`, and a throw is `false`.
- `verify_on_thread` is a thread-identity check with nothing to model in a sequential state machine.
- The random number generator and its `thread_local` seeding are not modelled: a draw is a natural number, and `RandomId` maps it with `% count`.
- ThreadPools.RandomId: does not model the exact distribution of `std::uniform_int_distribution`, only its range.
- `hardware_concurrency()` is the parameter `hardware`. Its conversion from `unsigned` to `int` is not modelled.
- Whether COM initialisation succeeds is the constructor parameter `comInitialized`.
- The worker's `pool_` reference is not modelled: a worker's loop pass is a method of the pool, `Step(me, …)`.
- `add_signal` is `noexcept`, but its copy of the `std::function` could throw; that is not modelled.
- The probing loop is modelled as a read-only `Probe` followed by `Take` of the peer found. This is the same sequence of effects as the source, where the pop happens inside the loop before `break`.
- ThreadPools.Run: covers only passes whose tasks do not throw. A throwing pass is `Step` with `throws`, after which the loop is over. Each pass's draws and contended peers are given up front.
- A task that throws is the `throws` argument of `Step`. A handler that throws is a slot in `throwing`.

## Findings

| source | as written | input that shows it | evidently intended | confidence | as-written member | corrected member |
|---|---|---|---|---|---|---|
| BackgroundUpdates/MainWorker.cpp:73-79 | the silence path writes `memset(&buffer->data[0], …)` and `buffer->length` through the handle `allocate()` returned, without checking it for null | a silence call with 2 items, 2 channels and an exhausted pool (`SilenceAsWritten(2, 4096, 2, 0) == NullWrite`) | return on an empty handle, as the data path does at lines 96-97 and 117-118, handing nothing downstream | not executed | AudioDemux.SilenceExhaustedWritesThroughNull | AudioDemux.AudioDemux.AddSilence |
