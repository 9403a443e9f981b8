/** The channel demultiplexer `AudioDemux::add` (MainWorker.cpp): it splits an interleaved,
    frame-major sample stream into one pool buffer per channel.

    The points where the source only has the comment "Enqueue buffer" are where a filled buffer
    would be handed downstream. The model records what would be handed over at each of them in
    the ghost `log`, as a `Flush` of the channel and the samples `data[..length]` of that moment.
    Since nothing is actually enqueued, every handle `add` obtains goes back to the pool before
    `add` returns. */
module AudioDemux {
  import opened AudioBuffers
  import opened BufferPools

  /** A buffer as it would be handed downstream: its channel and its first `length` samples. */
  datatype Flush = Flush(channel: nat, samples: seq<int>)

  /** The `data` argument: the null pointer (silence) or the interleaved samples the bytes hold. */
  datatype Input = Silence | Interleaved(items: seq<int>)

  function Min(a: nat, b: nat): nat
  {
    if a <= b then a else b
  }

  function Zeros(n: nat): seq<int>
  {
    seq(n, _ => 0)
  }

  function Sum(s: seq<nat>): nat
  {
    if s == [] then 0 else s[0] + Sum(s[1..])
  }

  // ---------------------------------------------------------------------------------------
  // Arithmetic of frames

  /** The item offset of frame `k` in a stream of `channels`-item frames, `k * channels`
      (FrameStartIsProduct), written as repeated addition. */
  function FrameStart(k: nat, channels: nat): nat
  {
    if k == 0 then 0 else FrameStart(k - 1, channels) + channels
  }

  lemma {:induction false} FrameStartIsProduct(k: nat, channels: nat)
    ensures FrameStart(k, channels) == k * channels
  {
    if k > 0 {
      FrameStartIsProduct(k - 1, channels);
      assert (k - 1) * channels + channels == k * channels;
    }
  }

  /** A later frame starts at least one whole frame further on. */
  lemma {:induction false} FrameStartMono(k: nat, n: nat, channels: nat)
    requires k < n
    ensures FrameStart(k, channels) + channels <= FrameStart(n, channels)
    decreases n - k
  {
    if k + 1 < n {
      FrameStartMono(k + 1, n, channels);
    }
  }

  lemma {:induction false} FrameStartAdd(a: nat, b: nat, channels: nat)
    ensures FrameStart(a + b, channels) == FrameStart(a, channels) + FrameStart(b, channels)
  {
    if b > 0 {
      FrameStartAdd(a, b - 1, channels);
    }
  }

  lemma MulMonoStrict(a: nat, b: nat, d: nat)
    requires a < b
    ensures a * d + d <= b * d
  {
    var e := b - a - 1;
    assert b * d == a * d + d + e * d;
  }

  lemma DivOfSum(q: nat, d: nat, r: nat)
    requires r < d
    ensures (q * d + r) / d == q
  {
    var x := q * d + r;
    var t := x / d;
    assert x == t * d + x % d;
    if t > q {
      MulMonoStrict(q, t, d);
    } else if t < q {
      MulMonoStrict(t, q, d);
    }
  }

  /** Integer division counts whole frames: `len / channels` is the one `q` whose frame `q`
      contains item `len`. */
  lemma DivUnique(len: nat, channels: nat, q: nat)
    requires channels >= 1 && FrameStart(q, channels) <= len < FrameStart(q, channels) + channels
    ensures len / channels == q
  {
    FrameStartIsProduct(q, channels);
    DivOfSum(q, channels, len - q * channels);
  }

  /** The number of whole frames in `len` items, `len / channels` (FramesIsDiv), counted by
      repeated subtraction. */
  function Frames(len: nat, channels: nat): nat
    requires channels >= 1
    decreases len
  {
    if len < channels then 0 else Frames(len - channels, channels) + 1
  }

  /** Whole frames are a floor: they fit into the items, and one more frame would not. */
  lemma {:induction false} FramesOf(len: nat, channels: nat)
    requires channels >= 1
    ensures FrameStart(Frames(len, channels), channels) <= len < FrameStart(Frames(len, channels), channels) + channels
    decreases len
  {
    if len >= channels {
      FramesOf(len - channels, channels);
    }
  }

  /** The floor is the only such count. */
  lemma {:induction false} FramesUnique(len: nat, channels: nat, q: nat)
    requires channels >= 1 && FrameStart(q, channels) <= len < FrameStart(q, channels) + channels
    ensures Frames(len, channels) == q
  {
    if q > 0 {
      FramesUnique(len - channels, channels, q - 1);
    }
  }

  lemma FramesIsDiv(len: nat, channels: nat)
    requires channels >= 1
    ensures Frames(len, channels) == len / channels
  {
    FramesOf(len, channels);
    DivUnique(len, channels, Frames(len, channels));
  }

  /** The frames left after the first `index` whole frames. */
  lemma FramesLeft(len: nat, channels: nat, index: nat)
    requires channels >= 1 && index <= Frames(len, channels)
    ensures FrameStart(index, channels) <= len
    ensures Frames(len - FrameStart(index, channels), channels) == Frames(len, channels) - index
  {
    var q := Frames(len, channels);
    FramesOf(len, channels);
    FrameStartAdd(index, q - index, channels);
    FramesUnique(len - FrameStart(index, channels), channels, q - index);
  }

  /** A chunk of at most the frames left after frame `index` still lies within the stream. */
  lemma ChunkFits(len: nat, channels: nat, index: nat, length: nat)
    requires channels >= 1 && index + length <= Frames(len, channels)
    ensures FrameStart(index, channels) <= FrameStart(index + length, channels) <= len
    ensures length > 0 ==> FrameStart(index, channels) + channels <= FrameStart(index + length, channels)
  {
    FramesOf(len, channels);
    if index + length < Frames(len, channels) {
      FrameStartMono(index + length, Frames(len, channels), channels);
    }
    if length > 0 {
      FrameStartMono(index, index + length, channels);
    }
  }

  /** Where the copy loop stops without a flush: at the end of the input, or with less than a frame
      left before `Size` frames are reached. Either way every whole frame was copied, and the
      stream fits into `size` frames. */
  lemma EndOfStream(len: nat, channels: nat, size: nat, index: nat, p: nat)
    requires channels >= 1 && p == FrameStart(index, channels) <= len && index <= size
    requires p >= len || (index < size && index == Frames(len, channels))
    ensures index == Min(Frames(len, channels), size) && len <= FrameStart(size, channels)
  {
    FramesOf(len, channels);
    if p >= len {
      FramesUnique(len, channels, index);
      if index < size {
        FrameStartMono(index, size, channels);
      }
    } else {
      FrameStartMono(index, size, channels);
    }
  }

  /** Whether the stream fits into `size` frames decides which side of `size` its frame count is. */
  lemma FramesVsCapacity(len: nat, channels: nat, size: nat)
    requires channels >= 1
    ensures len <= FrameStart(size, channels) ==> Frames(len, channels) <= size
    ensures len > FrameStart(size, channels) ==> Frames(len, channels) >= size
  {
    FramesOf(len, channels);
    if Frames(len, channels) > size {
      FrameStartMono(size, Frames(len, channels), channels);
    } else if Frames(len, channels) < size {
      FrameStartMono(Frames(len, channels), size, channels);
    }
  }

  /** A byte count of at least one frame holds at least `channels` items. */
  lemma ItemsOfOneFrame(dataSize: nat, sampleBytes: nat, channels: nat)
    requires sampleBytes >= 1 && dataSize >= sampleBytes * channels
    ensures dataSize / sampleBytes >= channels
  {
    FramesIsDiv(dataSize, sampleBytes);
    if Frames(dataSize, sampleBytes) < channels {
      FramesOf(dataSize, sampleBytes);
      FrameStartMono(Frames(dataSize, sampleBytes), channels, sampleBytes);
      FrameStartIsProduct(channels, sampleBytes);
    }
  }

  // ---------------------------------------------------------------------------------------
  // Specification of the silence path (lines 62-86)

  /** Chunk lengths of the silence loop from `written` on: `length = min(Size, item_count - written)`
      until it is 0. The count is in ITEMS (`item_count`), not in frames. */
  function SilenceChunksFrom(itemCount: nat, size: nat, written: nat): seq<nat>
    requires written <= itemCount
    decreases itemCount - written
  {
    var length := Min(size, itemCount - written);
    if length == 0 then [] else [length] + SilenceChunksFrom(itemCount, size, written + length)
  }

  function SilenceChunks(itemCount: nat, size: nat): seq<nat>
  {
    SilenceChunksFrom(itemCount, size, 0)
  }

  /** The chunks cover exactly the items left to write: each is non-empty and at most `size`, all
      but the last are full, and they add up to the remainder (no chunk at all when `size` is 0). */
  lemma {:induction false} SilenceChunksShape(itemCount: nat, size: nat, written: nat)
    requires written <= itemCount
    ensures var chunks := SilenceChunksFrom(itemCount, size, written);
      && Sum(chunks) == (if size == 0 then 0 else itemCount - written)
      && (forall k :: 0 <= k < |chunks| ==> 0 < chunks[k] <= size)
      && (forall k :: 0 <= k < |chunks| - 1 ==> chunks[k] == size)
    decreases itemCount - written
  {
    var length := Min(size, itemCount - written);
    if length != 0 {
      SilenceChunksShape(itemCount, size, written + length);
      var rest := SilenceChunksFrom(itemCount, size, written + length);
      assert SilenceChunksFrom(itemCount, size, written) == [length] + rest;
      assert ([length] + rest)[1..] == rest;
      if rest != [] {
        assert length == size;
      }
    }
  }

  /** The silence scenario of two channels, capacity 4 and 9 frames (18 items): because the loop
      counts items, five chunks per channel, of lengths 4, 4, 4, 4, 2. */
  lemma SilenceNineFrames()
    ensures SilenceChunks(18, 4) == [4, 4, 4, 4, 2]
  {
    assert SilenceChunksFrom(18, 4, 16) == [2] + SilenceChunksFrom(18, 4, 18);
    assert SilenceChunksFrom(18, 4, 12) == [4] + SilenceChunksFrom(18, 4, 16);
    assert SilenceChunksFrom(18, 4, 8) == [4] + SilenceChunksFrom(18, 4, 12);
    assert SilenceChunksFrom(18, 4, 4) == [4] + SilenceChunksFrom(18, 4, 8);
    assert SilenceChunksFrom(18, 4, 0) == [4] + SilenceChunksFrom(18, 4, 4);
  }

  /** One buffer per channel handed downstream, in channel order, buffer c holding `contents[c]`. */
  function Flushes(contents: seq<seq<int>>): (r: seq<Flush>)
    ensures |r| == |contents|
    ensures forall c :: 0 <= c < |r| ==> r[c] == Flush(c, contents[c])
  {
    if contents == [] then []
    else Flushes(contents[..|contents| - 1]) + [Flush(|contents| - 1, contents[|contents| - 1])]
  }

  /** One pass of the inner silence loop: every channel, in order, gets `length` zeros. */
  function SilenceRound(length: nat, channels: nat): seq<Flush>
  {
    Flushes(seq(channels, _ => Zeros(length)))
  }

  /** A silence round grows by one zero-filled buffer per channel. */
  lemma SilenceRoundSnoc(a: seq<Flush>, length: nat, i: nat)
    ensures (a + SilenceRound(length, i)) + [Flush(i, Zeros(length))] == a + SilenceRound(length, i + 1)
  {
    var z := seq(i + 1, _ => Zeros(length));
    LogOne(a, z, i);
    assert z[..i] == seq(i, _ => Zeros(length));
    assert z[..i + 1] == z;
  }

  /** What the silence path hands downstream for the given chunks. */
  function SilenceLog(chunks: seq<nat>, channels: nat): seq<Flush>
  {
    if chunks == [] then [] else SilenceRound(chunks[0], channels) + SilenceLog(chunks[1..], channels)
  }

  /** A pass of the silence loop writes the first of the remaining chunks. */
  lemma SilenceStep(a: seq<Flush>, itemCount: nat, size: nat, written: nat, channels: nat)
    requires written <= itemCount && Min(size, itemCount - written) > 0
    ensures var length := Min(size, itemCount - written);
      (a + SilenceRound(length, channels)) + SilenceLog(SilenceChunksFrom(itemCount, size, written + length), channels)
        == a + SilenceLog(SilenceChunksFrom(itemCount, size, written), channels)
  {
    var length := Min(size, itemCount - written);
    var chunks := SilenceChunksFrom(itemCount, size, written);
    var rest := SilenceChunksFrom(itemCount, size, written + length);
    assert chunks == [length] + rest;
    assert chunks[1..] == rest;
    assert SilenceLog(chunks, channels) == SilenceRound(length, channels) + SilenceLog(rest, channels);
  }

  /** Each chunk yields one buffer per channel. */
  lemma {:induction false} SilenceLogLength(chunks: seq<nat>, channels: nat)
    ensures |SilenceLog(chunks, channels)| == FrameStart(|chunks|, channels)
  {
    if chunks != [] {
      SilenceLogLength(chunks[1..], channels);
      assert |chunks[1..]| == |chunks| - 1;
    }
  }

  /** Every silent buffer is zero-filled, and channels cycle in order: entry
      `FrameStart(r, channels) + c` is channel c's buffer of chunk r, `chunks[r]` zeros. */
  lemma {:induction false} SilenceLogEntry(chunks: seq<nat>, channels: nat, r: nat, c: nat)
    requires r < |chunks| && c < channels
    ensures FrameStart(r, channels) + c < |SilenceLog(chunks, channels)|
    ensures SilenceLog(chunks, channels)[FrameStart(r, channels) + c] == Flush(c, Zeros(chunks[r]))
  {
    var head := SilenceRound(chunks[0], channels);
    var tail := SilenceLog(chunks[1..], channels);
    assert SilenceLog(chunks, channels) == head + tail;
    if r > 0 {
      SilenceLogEntry(chunks[1..], channels, r - 1, c);
      assert chunks[1..][r - 1] == chunks[r];
      assert (head + tail)[FrameStart(r, channels) + c] == tail[FrameStart(r - 1, channels) + c];
    }
  }

  /** The silence path AS WRITTEN: it writes through the handle `allocate()` returned without
      checking it (lines 75-79). Each handle goes back to the pool at the end of its inner iteration,
      so every allocation of the call sees the free count of entry: when that count is 0 the very
      first write goes through the empty handle. */
  datatype SilenceOutcome = Written(log: seq<Flush>) | NullWrite

  function SilenceAsWritten(itemCount: nat, size: nat, channels: nat, free: nat): (r: SilenceOutcome)
    ensures r == NullWrite <==> itemCount > 0 && size > 0 && channels > 0 && free == 0
    ensures free > 0 ==> r == Written(if channels == 0 then [] else SilenceLog(SilenceChunks(itemCount, size), channels))
  {
    var chunks := SilenceChunks(itemCount, size);
    if chunks == [] || channels == 0 then Written([])
    else if free == 0 then NullWrite
    else Written(SilenceLog(chunks, channels))
  }

  /** The discrepancy: one silent frame of two channels with an exhausted pool writes through null. */
  lemma SilenceExhaustedWritesThroughNull()
    ensures SilenceAsWritten(2, 4096, 2, 0) == NullWrite
  {
    assert SilenceChunksFrom(2, 4096, 0) == [2] + SilenceChunksFrom(2, 4096, 2);
  }

  // ---------------------------------------------------------------------------------------
  // Specification of the data path (lines 88-150)

  /** The samples of channel `c` in the first `n` frames: the frame-major stream read with stride
      `channels` from offset `c`. */
  function ChannelSamples(items: seq<int>, channels: nat, c: nat, n: nat): seq<int>
    requires c < channels && FrameStart(n, channels) <= |items|
  {
    seq(n, k requires 0 <= k < n => FrameStartMono(k, n, channels); items[FrameStart(k, channels) + c])
  }

  /** Sample k of channel c is item `FrameStart(k, channels) + c`. */
  lemma ChannelSample(items: seq<int>, channels: nat, c: nat, n: nat, k: nat)
    requires c < channels && FrameStart(n, channels) <= |items| && k < n
    ensures FrameStart(k, channels) + c < |items|
    ensures |ChannelSamples(items, channels, c, n)| == n
    ensures ChannelSamples(items, channels, c, n)[k] == items[FrameStart(k, channels) + c]
  {
    FrameStartMono(k, n, channels);
  }

  /** Every channel's samples in the first `n` frames. */
  function Deinterleaved(items: seq<int>, channels: nat, n: nat): seq<seq<int>>
    requires FrameStart(n, channels) <= |items|
  {
    seq(channels, c requires 0 <= c < channels => ChannelSamples(items, channels, c, n))
  }

  /** One flush of every channel buffer holding the first `n` frames, deinterleaved. */
  function DataRound(items: seq<int>, channels: nat, n: nat): seq<Flush>
    requires FrameStart(n, channels) <= |items|
  {
    Flushes(Deinterleaved(items, channels, n))
  }

  /** The tail flush after a mid-call flush: the refilled buffers are flushed with `length = Size`
      though nothing was copied into them. By the pool's LIFO order channel 0 gets the buffer that
      was below the popped ones (its old contents are `stale`) and channel c >= 1 gets the buffer
      that channel c - 1 had just flushed. */
  function StaleRound(items: seq<int>, channels: nat, size: nat, stale: seq<int>): seq<Flush>
    requires channels >= 1 && FrameStart(size, channels) <= |items|
  {
    Flushes([stale] + Deinterleaved(items, channels, size)[..channels - 1])
  }

  /** How the copy loop of lines 103-138 ends: `Drained` when the input ran out (every whole frame
      copied), `Flushed` after the flush of lines 109-122, `Abandoned` when that flush found the
      pool exhausted and `add` returned at line 118. */
  datatype LoopEnd = Drained | Flushed | Abandoned

  /** The way the copy loop ends for a stream of `len` items, given `free` buffers left on the stack
      once every channel has its buffer: the flush is reached exactly when the stream holds more than
      `size` frames' worth of items (a partial frame counts). */
  function LoopOutcome(len: nat, channels: nat, size: nat, free: nat): LoopEnd
  {
    if len <= FrameStart(size, channels) then Drained
    else if free == 0 then Abandoned
    else Flushed
  }

  /** What the tail flush of lines 140-150 hands downstream, by how the copy loop ended: after a flush
      the vector holds the refilled buffers, the buffer that was under the popped ones (old contents
      `stale`) for channel 0 and for channel c >= 1 the buffer channel c - 1 just flushed. */
  function TailContents(items: seq<int>, channels: nat, end: LoopEnd, index: nat, stale: seq<int>): seq<seq<int>>
    requires channels >= 1 && FrameStart(index, channels) <= |items|
  {
    if end == Drained then Deinterleaved(items, channels, index)
    else [stale] + Deinterleaved(items, channels, index)[..channels - 1]
  }

  /** What the copy loop hands downstream: the flush's round, if it was completed. */
  function LoopLog(items: seq<int>, channels: nat, end: LoopEnd, index: nat): seq<Flush>
    requires FrameStart(index, channels) <= |items|
  {
    if end == Flushed then DataRound(items, channels, index) else []
  }

  /** What the end of the call hands downstream: nothing after an abandoned flush or when no frame
      was copied, otherwise the buffers the vector holds. */
  function TailLog(items: seq<int>, channels: nat, end: LoopEnd, index: nat, stale: seq<int>): seq<Flush>
    requires channels >= 1 && FrameStart(index, channels) <= |items|
  {
    if end == Abandoned || index == 0 then [] else Flushes(TailContents(items, channels, end, index, stale))
  }

  /** What the data path hands downstream, as written, given the free count `free` on entry and the
      old contents `stale` of the buffer below the top `channels` free ones. */
  function DataLog(items: seq<int>, channels: nat, size: nat, free: nat, stale: seq<int>): seq<Flush>
    requires channels >= 1
  {
    var frames := Frames(|items|, channels);
    FramesOf(|items|, channels);
    if free < channels then []
    else if |items| <= FrameStart(size, channels) then (if frames == 0 then [] else DataRound(items, channels, frames))
    else if free == channels then []
    else DataRound(items, channels, size) + (if size > 0 then StaleRound(items, channels, size, stale) else [])
  }

  /** The data log is what the copy loop and the tail flush hand downstream in turn: the flush's
      round when the loop `Flushed`, then the buffers the vector holds when `index > 0`. */
  lemma DataLogOfLoop(items: seq<int>, channels: nat, size: nat, free: nat, stale: seq<int>)
    requires channels >= 1 && free >= channels
    requires LoopOutcome(|items|, channels, size, free - channels) != Abandoned
    ensures FrameStart(Min(Frames(|items|, channels), size), channels) <= |items|
    ensures var end := LoopOutcome(|items|, channels, size, free - channels);
      var index := Min(Frames(|items|, channels), size);
      DataLog(items, channels, size, free, stale)
        == (if end == Flushed then DataRound(items, channels, index) else [])
           + (if index > 0 then Flushes(TailContents(items, channels, end, index, stale)) else [])
  {
    var frames := Frames(|items|, channels);
    var index := Min(frames, size);
    FramesVsCapacity(|items|, channels, size);
    FramesOf(|items|, channels);
    var log := DataLog(items, channels, size, free, stale);
    if |items| <= FrameStart(size, channels) {
      assert index == frames;
      var tail := if index > 0 then Flushes(TailContents(items, channels, Drained, index, stale)) else [];
      assert log == tail;
      assert log == [] + tail;
    } else {
      assert index == size;
      if size < frames {
        FrameStartMono(size, frames, channels);
      }
      assert log == DataRound(items, channels, size) + (if size > 0 then StaleRound(items, channels, size, stale) else []);
    }
  }

  /** Lock-step and the frame cap: every buffer handed downstream has the same length, the number of
      frames the call deinterleaves, which is at most `Size` because `index` is never reset. */
  lemma DataLogUniformLength(items: seq<int>, channels: nat, size: nat, free: nat, stale: seq<int>)
    requires channels >= 1 && |stale| == size
    ensures forall k :: 0 <= k < |DataLog(items, channels, size, free, stale)| ==>
              |DataLog(items, channels, size, free, stale)[k].samples| == Min(Frames(|items|, channels), size)
  {
    FramesVsCapacity(|items|, channels, size);
  }

  /** The first round a non-empty data log starts with hands channel c its samples of the first
      `Min(Frames, Size)` frames. */
  lemma DataLogFirstRound(items: seq<int>, channels: nat, size: nat, free: nat, stale: seq<int>, c: nat)
    requires channels >= 1 && c < channels
    requires |DataLog(items, channels, size, free, stale)| > 0
    ensures FrameStart(Min(Frames(|items|, channels), size), channels) <= |items|
    ensures c < |DataLog(items, channels, size, free, stale)|
    ensures DataLog(items, channels, size, free, stale)[c]
         == Flush(c, ChannelSamples(items, channels, c, Min(Frames(|items|, channels), size)))
  {
    var frames := Frames(|items|, channels);
    FramesVsCapacity(|items|, channels, size);
    FramesOf(|items|, channels);
    var log := DataLog(items, channels, size, free, stale);
    if |items| <= FrameStart(size, channels) {
      assert log == DataRound(items, channels, frames);
    } else {
      if size < frames {
        FrameStartMono(size, frames, channels);
      }
      var round := DataRound(items, channels, size);
      assert log == round + (if size > 0 then StaleRound(items, channels, size, stale) else []);
      assert log[c] == round[c];
    }
  }

  /** Deinterleaving: the first flush of channel c holds exactly channel c's samples, sample k of
      it being item `FrameStart(k, channels) + c` (that is, `k * channels + c`) of the stream. */
  lemma DataLogDeinterleaves(items: seq<int>, channels: nat, size: nat, free: nat, stale: seq<int>, c: nat, k: nat)
    requires channels >= 1 && c < channels
    requires |DataLog(items, channels, size, free, stale)| > 0
    requires k < Min(Frames(|items|, channels), size)
    ensures FrameStart(k, channels) + c < |items|
    ensures var e := DataLog(items, channels, size, free, stale)[c];
      e.channel == c && |e.samples| > k && e.samples[k] == items[FrameStart(k, channels) + c]
  {
    var n := Min(Frames(|items|, channels), size);
    DataLogFirstRound(items, channels, size, free, stale, c);
    ChannelSample(items, channels, c, n, k);
  }

  /** The re-emission quirk: after a mid-call flush, the tail flush hands channel c >= 1 a second
      buffer holding the samples channel c - 1 flushed. */
  lemma DataLogReemits(items: seq<int>, channels: nat, size: nat, free: nat, stale: seq<int>, c: nat)
    requires channels >= 1 && 1 <= c < channels
    requires size > 0 && free > channels && |items| > FrameStart(size, channels)
    ensures |DataLog(items, channels, size, free, stale)| == 2 * channels
    ensures DataLog(items, channels, size, free, stale)[channels + c]
         == Flush(c, DataLog(items, channels, size, free, stale)[c - 1].samples)
  {
    var log := DataLog(items, channels, size, free, stale);
    var d := Deinterleaved(items, channels, size);
    var round := DataRound(items, channels, size);
    var tail := StaleRound(items, channels, size, stale);
    assert log == round + tail;
    assert log[channels + c] == tail[c] == Flush(c, ([stale] + d[..channels - 1])[c]);
    assert log[c - 1] == round[c - 1] == Flush(c - 1, d[c - 1]);
  }

  /** Two channels, capacity 4, 10 frames: as written the call flushes the first 4 frames of each
      channel and then two 4-sample buffers that were not refilled; frames 4 to 9 are dropped. */
  lemma DataTenFrames(items: seq<int>, stale: seq<int>)
    requires |items| == 20 && |stale| == 4
    ensures var log := DataLog(items, 2, 4, 32, stale);
      && |log| == 4
      && log[0] == Flush(0, [items[0], items[2], items[4], items[6]])
      && log[1] == Flush(1, [items[1], items[3], items[5], items[7]])
      && log[2] == Flush(0, stale)
      && log[3] == Flush(1, log[0].samples)
  {
    var r0 := ChannelSamples(items, 2, 0, 4);
    var r1 := ChannelSamples(items, 2, 1, 4);
    assert r0 == [items[0], items[2], items[4], items[6]];
    assert r1 == [items[1], items[3], items[5], items[7]];
  }

  // ---------------------------------------------------------------------------------------
  // Helpers over the heap

  /** The sample arrays of a sequence of buffers. */
  ghost function ArraysOf(bufs: seq<AudioBuffer>): set<array<int>>
  {
    set c | 0 <= c < |bufs| :: bufs[c].data
  }

  /** Lines 75-77: zero the first `length` samples (`memset`) and set the length. */
  method ZeroFill(b: AudioBuffer, length: nat)
    requires length <= b.data.Length
    modifies b, b.data
    ensures b.length == length
    ensures b.data[..length] == Zeros(length) && b.data[length..] == old(b.data[length..])
  {
    forall k | 0 <= k < length {
      b.data[k] := 0;
    }
    b.length := length;
  }

  /** The inner copy loops (lines 131-137): `length` frames from `p0`, the start of frame `index0`,
      on; sample c of each frame goes into buffer c at the shared index, which advances once per
      frame. Given buffers holding the first `index0` frames deinterleaved, they then hold the first
      `index0 + length`. Returns the advanced read position. */
  method CopyFrames(bufs: seq<AudioBuffer>, items: seq<int>, channels: nat, p0: nat, index0: nat, length: nat)
    returns (p: nat)
    requires |bufs| == channels >= 1
    requires forall c :: 0 <= c < channels ==> index0 + length <= bufs[c].data.Length
    requires forall c, d :: 0 <= c < d < channels ==> bufs[c].data != bufs[d].data
    requires p0 == FrameStart(index0, channels) <= FrameStart(index0 + length, channels) <= |items|
    requires forall c :: 0 <= c < channels ==> bufs[c].data[..index0] == ChannelSamples(items, channels, c, index0)
    modifies ArraysOf(bufs)
    ensures p == FrameStart(index0 + length, channels)
    ensures forall c :: 0 <= c < channels ==>
              bufs[c].data[..index0 + length] == ChannelSamples(items, channels, c, index0 + length)
    ensures forall c :: 0 <= c < channels ==> bufs[c].data[index0 + length..] == old(bufs[c].data[index0 + length..])
  {
    ghost var n := index0 + length;
    forall c, k | 0 <= c < channels && 0 <= k < index0
      ensures bufs[c].data[k] == ChannelSamples(items, channels, c, n)[k]
    {
      assert bufs[c].data[k] == bufs[c].data[..index0][k];
    }
    var index := index0;
    p := p0;
    var i := 0;
    while i < length
      invariant 0 <= i <= length && index == index0 + i && p == FrameStart(index, channels)
      invariant forall c, k :: 0 <= c < channels && 0 <= k < bufs[c].data.Length ==>
                  bufs[c].data[k] == if k < index then ChannelSamples(items, channels, c, n)[k]
                                     else old(bufs[c].data[k])
    {
      FrameStartMono(index, n, channels);
      forall c | 0 <= c < channels
        ensures ChannelSamples(items, channels, c, n)[index] == items[p + c]
      {
        ChannelSample(items, channels, c, n, index);
      }
      p := CopyFrame(bufs, items, channels, p, index);
      index := index + 1;
      i := i + 1;
    }
    forall c | 0 <= c < channels
      ensures bufs[c].data[..n] == ChannelSamples(items, channels, c, n)
    {
      assert forall k :: 0 <= k < n ==> bufs[c].data[..n][k] == bufs[c].data[k];
    }
  }

  /** The inner loop of lines 133-134: sample `c` of the frame at `p0` goes to slot `index` of
      buffer `c`; nothing else changes. */
  method CopyFrame(bufs: seq<AudioBuffer>, items: seq<int>, channels: nat, p0: nat, index: nat)
    returns (p: nat)
    requires |bufs| == channels && p0 + channels <= |items|
    requires forall c :: 0 <= c < channels ==> index < bufs[c].data.Length
    requires forall c, d :: 0 <= c < d < channels ==> bufs[c].data != bufs[d].data
    modifies ArraysOf(bufs)
    ensures p == p0 + channels
    ensures forall c, k :: 0 <= c < channels && 0 <= k < bufs[c].data.Length ==>
              bufs[c].data[k] == if k == index then items[p0 + c] else old(bufs[c].data[k])
  {
    p := p0;
    var j := 0;
    while j < channels
      invariant 0 <= j <= channels && p == p0 + j
      invariant forall c, k :: 0 <= c < channels && 0 <= k < bufs[c].data.Length ==>
                  bufs[c].data[k] == if k == index && c < j then items[p0 + c] else old(bufs[c].data[k])
    {
      bufs[j].data[index] := items[p];
      p := p + 1;
      j := j + 1;
    }
  }

  /** Buffers of one pool that are distinct have distinct sample arrays, all within the pool's. */
  lemma SeparateStorage(pool: BufferPool, bufs: seq<AudioBuffer>, other: AudioBuffer, hasOther: bool)
    requires pool.Wellformed() && NoDup(bufs) && (forall c :: 0 <= c < |bufs| ==> bufs[c] in pool.Repr)
    requires hasOther ==> other in pool.Repr && other !in bufs
    ensures forall c, d :: 0 <= c < d < |bufs| ==> bufs[c].data != bufs[d].data
    ensures hasOther ==> forall c :: 0 <= c < |bufs| ==> bufs[c].data != other.data
    ensures ArraysOf(bufs) <= pool.owner.Keys
  {
    forall c, d | 0 <= c < d < |bufs| ensures bufs[c].data != bufs[d].data {
      pool.DistinctData(bufs[c], bufs[d]);
    }
    if hasOther {
      forall c | 0 <= c < |bufs| ensures bufs[c].data != other.data {
        pool.DistinctData(bufs[c], other);
      }
    }
  }

  /** After the copy loop the vector still owns distinct buffers of the pool, none of them free:
      a flush trades the top of the free stack for the last channel's buffer, an abandoned flush
      gave back slot 0's buffer only. */
  lemma OwnedAfterLoop(bufs: seq<AudioBuffer>, out: seq<AudioBuffer>, free0: seq<AudioBuffer>,
                       free: seq<AudioBuffer>, repr: set<AudioBuffer>, end: LoopEnd)
    requires |bufs| >= 1 && NoDup(bufs) && NoDup(free0)
    requires forall c :: 0 <= c < |bufs| ==> bufs[c] in repr && bufs[c] !in free0
    requires forall i :: 0 <= i < |free0| ==> free0[i] in repr
    requires end == Drained ==> out == bufs && free == free0
    requires end == Abandoned ==> out == bufs[1..] && free == free0 + [bufs[0]]
    requires end == Flushed ==>
               && free0 != []
               && out == [free0[|free0| - 1]] + bufs[..|bufs| - 1]
               && free == free0[..|free0| - 1] + [bufs[|bufs| - 1]]
    ensures NoDup(out) && |free| + |out| == |free0| + |bufs|
    ensures forall c :: 0 <= c < |out| ==> out[c] in repr && out[c] !in free
    ensures Elems(out) <= Elems(bufs) + Top(free0)
    ensures Elems(free) + Elems(out) == Elems(free0) + Elems(bufs)
  {
    if end == Flushed {
      var top := free0[|free0| - 1];
      assert top in free0 && top !in free0[..|free0| - 1];
      forall c | 1 <= c < |out| ensures out[c] == bufs[c - 1] && out[c] != top && out[c] !in free { }
      ElemsConcat([top], bufs[..|bufs| - 1]);
      ElemsConcat(free0[..|free0| - 1], [bufs[|bufs| - 1]]);
      ElemsLast(free0);
      ElemsLast(bufs);
    } else if end == Abandoned {
      ElemsConcat(free0, [bufs[0]]);
      ElemsConcat([bufs[0]], bufs[1..]);
      assert bufs == [bufs[0]] + bufs[1..];
    }
  }

  /** The buffers left after the copy loop hold `TailContents`: after a flush slot 0 holds
      the buffer `below` that was under the popped ones, with its old contents `stale`, and slot
      c >= 1 the buffer that channel c - 1 filled. */
  lemma TailHolds(bufs: seq<AudioBuffer>, out: seq<AudioBuffer>, items: seq<int>, channels: nat, index: nat,
                  end: LoopEnd, below: AudioBuffer, stale: seq<int>)
    requires channels >= 1 && |bufs| == channels && FrameStart(index, channels) <= |items|
    requires forall c :: 0 <= c < channels ==> index <= bufs[c].data.Length
    requires forall c :: 0 <= c < channels ==> bufs[c].data[..index] == ChannelSamples(items, channels, c, index)
    requires end == Drained ==> out == bufs
    requires end == Flushed ==>
               out == [below] + bufs[..channels - 1] && index <= below.data.Length && below.data[..index] == stale
    requires end != Abandoned
    ensures |out| == channels
    ensures forall c :: 0 <= c < channels ==> index <= out[c].data.Length
    ensures forall c :: 0 <= c < channels ==>
              out[c].data[..index] == TailContents(items, channels, end, index, stale)[c]
  {
  }

  /** Extending `a` followed by a prefix of `b` by the next element of `b`. */
  lemma PushOne<T>(a: seq<T>, b: seq<T>, i: nat)
    requires i < |b|
    ensures (a + b[..i]) + [b[i]] == a + b[..i + 1]
  {
    assert b[..i + 1] == b[..i] + [b[i]];
  }

  /** Handing down the buffer of one more channel extends the round by that buffer. */
  lemma LogOne(a: seq<Flush>, contents: seq<seq<int>>, i: nat)
    requires i < |contents|
    ensures (a + Flushes(contents[..i])) + [Flush(i, contents[i])] == a + Flushes(contents[..i + 1])
  {
    assert contents[..i + 1][..i] == contents[..i];
  }

  /** Lines 93-94 once more: the handle of channel `i` is the next buffer down the free stack
      `free0` of entry, and it is none of the handles obtained before. */
  lemma TakeTop(free0: seq<AudioBuffer>, i: nat, free: seq<AudioBuffer>, bufs: seq<AudioBuffer>, x: AudioBuffer)
    requires i < |free0| && free == free0[..|free0| - i] && |bufs| == i
    requires forall c :: 0 <= c < i ==> bufs[c] == free0[|free0| - 1 - c]
    requires x == free[|free| - 1]
    ensures free[..|free| - 1] == free0[..|free0| - (i + 1)]
    ensures forall c :: 0 <= c < i + 1 ==> (bufs + [x])[c] == free0[|free0| - 1 - c]
  {
  }

  /** The handles taken off the top of a stack without duplicates are distinct buffers of the
      pool, none left on the stack. */
  lemma TakenOwned(free0: seq<AudioBuffer>, bufs: seq<AudioBuffer>, repr: set<AudioBuffer>)
    requires NoDup(free0) && |bufs| <= |free0|
    requires forall k :: 0 <= k < |free0| ==> free0[k] in repr
    requires forall c :: 0 <= c < |bufs| ==> bufs[c] == free0[|free0| - 1 - c]
    ensures NoDup(bufs)
    ensures forall c :: 0 <= c < |bufs| ==> bufs[c] in repr && bufs[c] !in free0[..|free0| - |bufs|]
    ensures Elems(free0) == Elems(free0[..|free0| - |bufs|]) + Elems(bufs)
    ensures ArraysOf(bufs) <= ArraysOf(free0)
  {
    var below := free0[..|free0| - |bufs|];
    forall c | 0 <= c < |bufs| ensures bufs[c] !in below {
      forall k | 0 <= k < |below| ensures below[k] != bufs[c] {
        assert below[k] == free0[k];
      }
    }
    forall x | x in Elems(free0) ensures x in Elems(below) + Elems(bufs) {
      var k :| 0 <= k < |free0| && free0[k] == x;
      if k < |below| {
        assert below[k] == x;
      } else {
        assert bufs[|free0| - 1 - k] == x;
      }
    }
    forall a | a in ArraysOf(bufs) ensures a in ArraysOf(free0) {
      var c :| 0 <= c < |bufs| && bufs[c].data == a;
      assert free0[|free0| - 1 - c].data == a;
    }
  }

  /** Pushing back the top of a stack restores the stack. */
  lemma PushedBack<T>(s: seq<T>)
    requires s != []
    ensures s[..|s| - 1] + [s[|s| - 1]] == s
  {
  }

  /** The elements below the top of a stack with `x` pushed are the stack itself. */
  lemma PushedBelow<T>(s: seq<T>, x: T)
    ensures (s + [x])[..|s|] == s
  {
  }

  /** The log of the data path, assembled from what the copy loop and then the tail flush add. */
  lemma DataPathLog(log0: seq<Flush>, looped: seq<Flush>, log1: seq<Flush>, items: seq<int>, channels: nat,
                    size: nat, free: nat, stale: seq<int>, end: LoopEnd, index: nat)
    requires channels >= 1 && end == LoopOutcome(|items|, channels, size, free)
    requires index == Min(Frames(|items|, channels), size) && FrameStart(index, channels) <= |items|
    requires looped == log0 + LoopLog(items, channels, end, index)
    requires log1 == looped + TailLog(items, channels, end, index, stale)
    ensures log1 == log0 + DataLog(items, channels, size, free + channels, stale)
  {
    if end == Abandoned {
      DataLogAbandoned(items, channels, size, free, stale);
      return;
    }
    var round := if end == Flushed then DataRound(items, channels, index) else [];
    var tail := if index > 0 then Flushes(TailContents(items, channels, end, index, stale)) else [];
    DataLogOfLoop(items, channels, size, free + channels, stale);
    assert DataLog(items, channels, size, free + channels, stale) == round + tail;
    LogGrowsBy(log0, round, tail);
  }

  /** A data path whose flush found the pool exhausted hands nothing downstream. */
  lemma DataLogAbandoned(items: seq<int>, channels: nat, size: nat, free: nat, stale: seq<int>)
    requires channels >= 1 && LoopOutcome(|items|, channels, size, free) == Abandoned
    ensures DataLog(items, channels, size, free + channels, stale) == []
  {
  }

  /** A log extended twice is extended once by both rounds. */
  lemma LogGrowsBy(log0: seq<Flush>, a: seq<Flush>, b: seq<Flush>)
    ensures (log0 + a) + b == log0 + (a + b)
  {
  }

  class AudioDemux {
    /** The shared pool (`pool_`); its buffers have capacity `pool.size`, the `Size` argument. */
    const pool: BufferPool
    /** `channels_`, also what `channels()` returns. */
    const channels: nat
    /** `sizeof(T)`. */
    const sampleBytes: nat
    /** Everything handed downstream at the "Enqueue" points so far. */
    ghost var log: seq<Flush>

    /** `AudioDemux(pool, channels)`. The item count is divided by `channels` (line 58), so a
        demultiplexer with no channel would divide by zero. */
    constructor (pool: BufferPool, channels: int, sampleBytes: nat)
      requires channels >= 1 && sampleBytes >= 1
      ensures this.pool == pool && this.channels == channels && this.sampleBytes == sampleBytes
      ensures log == []
    {
      this.pool := pool;
      this.channels := channels;
      this.sampleBytes := sampleBytes;
      log := [];
    }

    /** The old contents of the buffer right below the top `channels` free buffers, which is the first
        buffer a mid-call flush obtains. */
    ghost function StaleSamples(): seq<int>
      requires pool.Valid()
      reads this, pool, if |pool.free| > channels then {pool.free[|pool.free| - 1 - channels].data} else {}
    {
      if |pool.free| > channels then pool.free[|pool.free| - 1 - channels].data[..pool.size] else Zeros(pool.size)
    }

    /** `add(data, data_size)`: nothing for less than one frame; otherwise the silence path for the null
        pointer and the data path for samples. Every handle obtained goes back to the pool. */
    method Add(input: Input, dataSize: nat)
      requires pool.Valid() && channels >= 1 && sampleBytes >= 1
      requires input.Interleaved? ==> |input.items| == dataSize / sampleBytes
      modifies this, pool, Elems(pool.free), ArraysOf(pool.free)
      ensures pool.Valid()
      ensures |pool.free| == old(|pool.free|) && pool.Outstanding() == old(pool.Outstanding())
      ensures forall b :: b in old(pool.Outstanding()) ==> b.length == old(b.length) && b.data[..] == old(b.data[..])
      ensures dataSize < sampleBytes * channels ==> log == old(log) && pool.free == old(pool.free)
      ensures dataSize >= sampleBytes * channels && input.Silence? ==>
                && pool.free == old(pool.free)
                && log == old(log) + (if old(|pool.free|) == 0 then []
                                      else SilenceLog(SilenceChunks(dataSize / sampleBytes, pool.size), channels))
      ensures dataSize >= sampleBytes * channels && input.Interleaved? ==>
                log == old(log) + DataLog(input.items, channels, pool.size, old(|pool.free|), old(StaleSamples()))
    {
      forall b | b in pool.Outstanding() ensures b !in Elems(pool.free) && b.data !in ArraysOf(pool.free) {
        pool.OutstandingApart(b);
      }
      if dataSize < sampleBytes * channels {
        return;
      }
      var itemCount := dataSize / sampleBytes;
      ItemsOfOneFrame(dataSize, sampleBytes, channels);
      if input.Silence? {
        AddSilence(itemCount);
        return;
      }
      AddData(input.items);
    }

    /** The silence path (lines 62-86), with the null check the data path has. */
    method AddSilence(itemCount: nat)
      requires pool.Valid() && channels >= 1
      modifies this, pool, Elems(pool.free), ArraysOf(pool.free)
      ensures pool.Valid()
      ensures pool.free == old(pool.free)
      ensures log == old(log) + (if old(|pool.free|) == 0 then []
                                 else SilenceLog(SilenceChunks(itemCount, pool.size), channels))
    {
      var size := pool.size;
      var written := 0;
      ghost var total := SilenceLog(SilenceChunksFrom(itemCount, size, 0), channels);
      ghost var log0, free0 := log, pool.free;
      while true
        invariant written <= itemCount
        invariant pool.Valid() && pool.free == free0
        invariant free0 == [] ==> log == log0
        invariant free0 != [] ==> log + SilenceLog(SilenceChunksFrom(itemCount, size, written), channels) == log0 + total
        decreases itemCount - written
      {
        var length := Min(size, itemCount - written);
        if length == 0 {
          return;
        }
        ghost var logged := log;
        var ok := EmitSilence(length);
        if !ok {
          return;
        }
        assert log == logged + SilenceRound(length, channels);
        SilenceStep(logged, itemCount, size, written, channels);
        written := written + length;
      }
    }

    /** One pass of the inner silence loop (lines 70-82): per channel, a buffer is obtained, zero-filled
        over `length` samples, handed downstream and given back; the next allocation gets it again. */
    method EmitSilence(length: nat) returns (ok: bool)
      requires pool.Valid() && channels >= 1 && length <= pool.size
      modifies this, pool, Elems(pool.free), ArraysOf(pool.free)
      ensures pool.Valid()
      ensures pool.free == old(pool.free)
      ensures ok <==> old(pool.free) != []
      ensures log == old(log) + (if ok then SilenceRound(length, channels) else [])
    {
      var i := 0;
      while i < channels
        invariant 0 <= i <= channels
        invariant pool.Valid() && pool.free == old(pool.free)
        invariant pool.free == [] ==> i == 0
        invariant log == old(log) + SilenceRound(length, i)
      {
        ok := SilenceSlot(i, length);
        if !ok {
          return;
        }
        SilenceRoundSnoc(old(log), length, i);
        i := i + 1;
      }
      ok := true;
    }

    /** Lines 72-81 for channel `channel`: on an empty stack nothing happens (the source writes
        through the empty handle here); otherwise the top buffer is zero-filled over `length`
        samples, handed downstream and pushed back, which leaves the free stack as it was. */
    method SilenceSlot(channel: nat, length: nat) returns (ok: bool)
      requires pool.Valid() && length <= pool.size
      modifies this, pool, Top(pool.free), TopData(pool.free)
      ensures pool.Valid() && pool.free == old(pool.free)
      ensures ok <==> old(pool.free) != []
      ensures log == old(log) + (if ok then [Flush(channel, Zeros(length))] else [])
    {
      assert pool.free != [] ==> pool.free[|pool.free| - 1] in pool.Repr;
      var buffer := pool.Allocate();
      if buffer.Null? {
        return false;
      }
      var b := buffer.buffer;
      ZeroFill(b, length);
      log := log + [Flush(channel, b.data[..length])];
      pool.Release(buffer);
      PushedBack(old(pool.free));
      return true;
    }

    /** Lines 92-100: one buffer per channel, top of the free stack first. On an empty handle the
        loop stops with the handles obtained so far (`ok` false); the caller then gives them back. */
    method AllocateChannels() returns (bufs: seq<AudioBuffer>, ok: bool)
      requires pool.Valid() && channels >= 1
      modifies pool, Elems(pool.free)
      ensures pool.Valid()
      ensures ok <==> old(|pool.free|) >= channels
      ensures |bufs| == Min(old(|pool.free|), channels)
      ensures forall c :: 0 <= c < |bufs| ==> bufs[c] == old(pool.free)[old(|pool.free|) - 1 - c]
      ensures pool.free == old(pool.free)[..old(|pool.free|) - |bufs|]
    {
      ghost var free0 := pool.free;
      ghost var n0 := |pool.free|;
      bufs := [];
      var i := 0;
      while i < channels
        invariant 0 <= i <= channels && i <= n0 && |bufs| == i
        invariant pool.Valid()
        invariant forall c :: 0 <= c < i ==> bufs[c] == free0[n0 - 1 - c]
        invariant pool.free == free0[..n0 - i]
      {
        ghost var before := pool.free;
        var h := pool.Allocate();
        if h.Null? {
          return bufs, false;
        }
        TakeTop(free0, i, before, bufs, h.buffer);
        bufs := bufs + [h.buffer];
        i := i + 1;
      }
      return bufs, true;
    }

    /** Destruction of the handle vector: every owned buffer goes back, in order. */
    method ReleaseAll(bufs: seq<AudioBuffer>)
      requires pool.Valid() && NoDup(bufs)
      requires forall c :: 0 <= c < |bufs| ==> bufs[c] in pool.Repr && bufs[c] !in pool.free
      modifies pool
      ensures pool.Valid()
      ensures pool.free == old(pool.free) + bufs
    {
      var i := 0;
      while i < |bufs|
        invariant 0 <= i <= |bufs| && pool.Valid()
        invariant pool.free == old(pool.free) + bufs[..i]
      {
        assert bufs[..i + 1] == bufs[..i] + [bufs[i]];
        pool.ReleaseBuffer(bufs[i]);
        i := i + 1;
      }
      assert bufs[..i] == bufs;
    }

    /** One iteration of lines 111-121: `length = index`, the buffer is handed downstream as `full`,
        a new buffer is allocated for the slot, and `full` goes back to the pool at the end of the
        iteration (also when the allocation failed and the call returns). The free stack thus keeps
        its height: its top is traded for `full`. */
    method FlushSlot(full: AudioBuffer, index: nat, channel: nat, ghost samples: seq<int>) returns (h: Handle)
      requires pool.Valid() && full in pool.Repr && full !in pool.free && index <= pool.size
      requires samples == full.data[..index]
      modifies this, pool, Top(pool.free), {full}
      ensures pool.Valid()
      ensures old(pool.free) == [] ==> h == Null && log == old(log) && pool.free == [full]
      ensures old(pool.free) != [] ==>
                && h == Owned(old(pool.free)[|old(pool.free)| - 1])
                && log == old(log) + [Flush(channel, samples)]
                && pool.free == old(pool.free)[..|old(pool.free)| - 1] + [full]
    {
      full.length := index;
      assert pool.free != [] ==> pool.free[|pool.free| - 1] in pool.Repr;
      h := pool.Allocate();
      if h.Owned? {
        log := log + [Flush(channel, full.data[..index])];
      }
      pool.ReleaseBuffer(full);
    }

    /** Lines 109-122, the flush when `index` reached `Size`, slot by slot in order; `front` holds the
        slots already refilled. The LIFO stack makes each new buffer the one given back just before:
        slot 0 gets the top of the free stack, slot c >= 1 the buffer slot c - 1 just flushed. Only the
        first allocation can fail (the stack never gets lower during the flush); it does when the free
        stack is empty, and the call returns, leaving the remaining slots to the caller. */
    method FlushAndRefill(bufs: seq<AudioBuffer>, index: nat, ghost contents: seq<seq<int>>)
      returns (refilled: seq<AudioBuffer>, ok: bool)
      requires pool.Valid() && channels >= 1 && |bufs| == channels && NoDup(bufs)
      requires forall c :: 0 <= c < channels ==> bufs[c] in pool.Repr && bufs[c] !in pool.free
      requires index <= pool.size && |contents| == channels
      requires forall c :: 0 <= c < channels ==> bufs[c].data[..index] == contents[c]
      modifies this, pool, Top(pool.free), Elems(bufs)
      ensures pool.Valid()
      ensures ok <==> old(pool.free) != []
      ensures ok ==>
                && log == old(log) + Flushes(contents)
                && refilled == [old(pool.free)[|old(pool.free)| - 1]] + bufs[..channels - 1]
                && pool.free == old(pool.free)[..|old(pool.free)| - 1] + [bufs[channels - 1]]
      ensures !ok ==> log == old(log) && refilled == bufs[1..] && pool.free == old(pool.free) + [bufs[0]]
    {
      ghost var free0 := pool.free;
      ghost var logged := log;
      var h := FlushSlot(bufs[0], index, 0, contents[0]);
      if h.Null? {
        return bufs[1..], false;
      }
      assert contents[..1] == [contents[0]];
      refilled := RefillRest(bufs, index, contents, free0[..|free0| - 1], logged, h.buffer);
      return refilled, true;
    }

    /** The iterations of lines 109-122 after the first succeeded: the free stack is `below` plus
        the buffer slot 0 gave back, so every allocation succeeds and hands slot c the buffer slot
        c - 1 gave back. */
    method RefillRest(bufs: seq<AudioBuffer>, index: nat, ghost contents: seq<seq<int>>,
                      ghost below: seq<AudioBuffer>, ghost logged: seq<Flush>, first: AudioBuffer)
      returns (refilled: seq<AudioBuffer>)
      requires pool.Valid() && channels >= 1 && |bufs| == channels && NoDup(bufs)
      requires forall c :: 0 <= c < channels ==> bufs[c] in pool.Repr && bufs[c] !in below
      requires index <= pool.size && |contents| == channels
      requires forall c :: 0 <= c < channels ==> bufs[c].data[..index] == contents[c]
      requires pool.free == below + [bufs[0]] && log == logged + Flushes(contents[..1])
      modifies this, pool, Elems(bufs)
      ensures pool.Valid() && pool.free == below + [bufs[channels - 1]]
      ensures refilled == [first] + bufs[..channels - 1] && log == logged + Flushes(contents)
    {
      refilled := [first];
      var i := 1;
      while i < channels
        invariant 1 <= i <= channels && pool.Valid()
        invariant pool.free == below + [bufs[i - 1]]
        invariant refilled == [first] + bufs[..i - 1]
        invariant log == logged + Flushes(contents[..i])
      {
        var h := FlushSlot(bufs[i], index, i, contents[i]);
        if h.Null? {
          assert false;
        }
        PushedBelow(below, bufs[i - 1]);
        PushOne([first], bufs, i - 1);
        LogOne(logged, contents, i);
        refilled := refilled + [h.buffer];
        i := i + 1;
      }
      assert contents[..channels] == contents;
    }

    /** Lines 140-150: every buffer gets `length = index`, is handed downstream and goes back to the
        pool, in order. `contents` are the first `index` samples of each buffer. */
    method FlushTail(bufs: seq<AudioBuffer>, index: nat, ghost contents: seq<seq<int>>)
      requires pool.Valid() && NoDup(bufs)
      requires forall c :: 0 <= c < |bufs| ==> bufs[c] in pool.Repr && bufs[c] !in pool.free
      requires index <= pool.size && |contents| == |bufs|
      requires forall c :: 0 <= c < |bufs| ==> bufs[c].data[..index] == contents[c]
      modifies this, pool, Elems(bufs)
      ensures pool.Valid()
      ensures log == old(log) + Flushes(contents)
      ensures pool.free == old(pool.free) + bufs
    {
      var i := 0;
      while i < |bufs|
        invariant 0 <= i <= |bufs| && pool.Valid()
        invariant pool.free == old(pool.free) + bufs[..i]
        invariant log == old(log) + Flushes(contents[..i])
      {
        var b := bufs[i];
        b.length := index;
        log := log + [Flush(i, b.data[..index])];
        PushOne(old(pool.free), bufs, i);
        LogOne(old(log), contents, i);
        pool.ReleaseBuffer(b);
        i := i + 1;
      }
      assert bufs[..i] == bufs && contents[..i] == contents;
    }

    /** Lines 140-150 and the destruction of the vector: with `index > 0` every buffer is handed
        downstream, and every buffer goes back to the pool, in order. */
    method FlushVector(bufs: seq<AudioBuffer>, index: nat, ghost contents: seq<seq<int>>)
      requires pool.Valid() && NoDup(bufs)
      requires forall c :: 0 <= c < |bufs| ==> bufs[c] in pool.Repr && bufs[c] !in pool.free
      requires index <= pool.size && |contents| == |bufs|
      requires forall c :: 0 <= c < |bufs| ==> bufs[c].data[..index] == contents[c]
      modifies this, pool, Elems(bufs)
      ensures pool.Valid()
      ensures log == old(log) + (if index > 0 then Flushes(contents) else [])
      ensures pool.free == old(pool.free) + bufs
    {
      if index > 0 {
        FlushTail(bufs, index, contents);
      } else {
        ReleaseAll(bufs);
      }
    }

    /** The data path (lines 88-150), as written. */
    method AddData(items: seq<int>)
      requires pool.Valid() && channels >= 1
      modifies this, pool, Elems(pool.free), ArraysOf(pool.free)
      ensures pool.Valid()
      ensures |pool.free| == old(|pool.free|) && Elems(pool.free) == old(Elems(pool.free))
      ensures pool.Outstanding() == old(pool.Outstanding())
      ensures log == old(log) + DataLog(items, channels, pool.size, old(|pool.free|), old(StaleSamples()))
    {
      ghost var n0 := |pool.free|;
      ghost var stale := StaleSamples();
      pool.FreeNoDup();
      var buffers, ok := AllocateChannels();
      TakenOwned(old(pool.free), buffers, pool.Repr);
      if !ok {
        ghost var below := pool.free;
        ReleaseAll(buffers);
        ElemsConcat(below, buffers);
        return;
      }
      assert pool.free != [] ==> pool.free[|pool.free| - 1] == old(pool.free)[n0 - 1 - channels];
      FillAndFlush(buffers, items, stale);
    }

    /** Lines 101-150, once every channel has its buffer `bufs[c]`: the copy loop, then the tail
        flush of whatever the vector holds. `stale` is the old contents of the top free buffer. */
    method FillAndFlush(bufs: seq<AudioBuffer>, items: seq<int>, ghost stale: seq<int>)
      requires pool.Valid() && channels >= 1 && |bufs| == channels && NoDup(bufs)
      requires forall c :: 0 <= c < channels ==> bufs[c] in pool.Repr && bufs[c] !in pool.free
      requires pool.free != [] ==> pool.free[|pool.free| - 1].data[..pool.size] == stale
      modifies this, pool, Top(pool.free), Elems(bufs), ArraysOf(bufs)
      ensures pool.Valid()
      ensures |pool.free| == old(|pool.free|) + channels
      ensures Elems(pool.free) == Elems(old(pool.free)) + Elems(bufs)
      ensures log == old(log) + DataLog(items, channels, pool.size, old(|pool.free|) + channels, stale)
    {
      ghost var free0 := pool.free;
      ghost var below := if free0 != [] then free0[|free0| - 1] else bufs[0];
      assert free0 != [] ==> below.data !in ArraysOf(bufs) by {
        SeparateStorage(pool, bufs, below, free0 != []);
      }
      assert NoDup(free0) by {
        pool.FreeNoDup();
      }
      var buffers, index, end := Deinterleave(bufs, items);
      OwnedAfterLoop(bufs, buffers, free0, pool.free, pool.Repr, end);
      ghost var looped := log;
      assert end == Flushed ==> index == pool.size by {
        FramesVsCapacity(|items|, channels, pool.size);
      }
      ghost var mid := pool.free;
      TailOfCall(bufs, buffers, items, index, end, below, stale);
      ElemsConcat(mid, buffers);
      DataPathLog(old(log), looped, log, items, channels, pool.size, |free0|, stale, end, index);
    }

    /** The end of the call once the copy loop is over: after an abandoned flush `add` returns
        (line 118) and the vector gives its handles back; otherwise lines 140-150, with the vector
        holding `bufs` when the input ran out, and after a flush `below` (old contents `stale`)
        followed by the buffers of channels 0 to `channels - 2`. */
    method TailOfCall(bufs: seq<AudioBuffer>, out: seq<AudioBuffer>, items: seq<int>, index: nat, end: LoopEnd,
                      ghost below: AudioBuffer, ghost stale: seq<int>)
      requires pool.Valid() && channels >= 1 && |bufs| == channels && NoDup(out)
      requires forall c :: 0 <= c < channels ==> bufs[c] in pool.Repr
      requires forall c :: 0 <= c < |out| ==> out[c] in pool.Repr && out[c] !in pool.free
      requires index <= pool.size && FrameStart(index, channels) <= |items|
      requires forall c :: 0 <= c < channels ==> bufs[c].data[..index] == ChannelSamples(items, channels, c, index)
      requires end == Drained ==> out == bufs
      requires end == Flushed ==> out == [below] + bufs[..channels - 1] && index == pool.size
      requires end == Flushed ==> below in pool.Repr && below.data[..pool.size] == stale
      modifies this, pool, Elems(out)
      ensures pool.Valid() && pool.free == old(pool.free) + out
      ensures log == old(log) + TailLog(items, channels, end, index, stale)
    {
      if end == Abandoned {
        ReleaseAll(out);
        return;
      }
      ghost var contents := TailContents(items, channels, end, index, stale);
      TailHolds(bufs, out, items, channels, index, end, below, stale);
      FlushVector(out, index, contents);
    }

    /** The copy loop of lines 103-138 on the handles `bufs` of lines 92-98. It ends `Drained` when the
        input ran out, every whole frame deinterleaved; `Flushed` after the flush of lines 109-122,
        which leaves `index` at `Size` so the next chunk is empty and the loop breaks; `Abandoned`
        when that flush found the pool exhausted and `add` returns at line 118, with `out` the
        handles the vector still owns. The flush can only be reached once, in the iteration after
        `index` reached `Size` with input left, and is always followed by the end of the loop, so the
        model runs it after the copying iterations of `CopyLoop`. */
    method Deinterleave(bufs: seq<AudioBuffer>, items: seq<int>) returns (out: seq<AudioBuffer>, index: nat, end: LoopEnd)
      requires pool.Valid() && channels >= 1 && |bufs| == channels && NoDup(bufs)
      requires forall c :: 0 <= c < channels ==> bufs[c] in pool.Repr && bufs[c] !in pool.free
      modifies this, pool, Top(pool.free), Elems(bufs), ArraysOf(bufs)
      ensures pool.Valid()
      ensures index == Min(Frames(|items|, channels), pool.size)
      ensures end == LoopOutcome(|items|, channels, pool.size, |old(pool.free)|)
      ensures FrameStart(index, channels) <= |items|
      ensures forall c :: 0 <= c < channels ==> bufs[c].data[..index] == ChannelSamples(items, channels, c, index)
      ensures log == old(log) + LoopLog(items, channels, end, index)
      ensures end == Drained ==> out == bufs && pool.free == old(pool.free)
      ensures end == Abandoned ==> out == bufs[1..] && pool.free == old(pool.free) + [bufs[0]]
      ensures end == Flushed ==>
                && out == [old(pool.free)[|old(pool.free)| - 1]] + bufs[..channels - 1]
                && pool.free == old(pool.free)[..|old(pool.free)| - 1] + [bufs[channels - 1]]
    {
      assert forall c, d :: 0 <= c < d < channels ==> bufs[c].data != bufs[d].data by {
        SeparateStorage(pool, bufs, bufs[0], false);
      }
      var full;
      index, full := CopyLoop(bufs, items);
      assert pool.free == old(pool.free) && log == old(log) && pool.Valid();
      out, end := bufs, Drained;
      if full {
        out, end := FlushFull(bufs, items, index);
      }
    }

    /** The iterations of lines 103-138 that copy: chunk after chunk until the input runs out, the
        chunk is empty, or `index` reaches `Size` with input left (`full`), where the next iteration
        flushes. */
    method CopyLoop(bufs: seq<AudioBuffer>, items: seq<int>) returns (index: nat, full: bool)
      requires channels >= 1 && |bufs| == channels
      requires forall c :: 0 <= c < channels ==> pool.size <= bufs[c].data.Length
      requires forall c, d :: 0 <= c < d < channels ==> bufs[c].data != bufs[d].data
      modifies ArraysOf(bufs)
      ensures index == Min(Frames(|items|, channels), pool.size)
      ensures FrameStart(index, channels) <= |items|
      ensures full <==> |items| > FrameStart(pool.size, channels)
      ensures full ==> index == pool.size
      ensures forall c :: 0 <= c < channels ==> bufs[c].data[..index] == ChannelSamples(items, channels, c, index)
    {
      ghost var frames := Frames(|items|, channels);
      FramesOf(|items|, channels);
      var p := 0;
      index := 0;
      while p < |items|
        invariant index <= pool.size && index <= frames && p == FrameStart(index, channels) <= |items|
        invariant forall c :: 0 <= c < channels ==> bufs[c].data[..index] == ChannelSamples(items, channels, c, index)
        decreases |items| - p
      {
        if index >= pool.size {
          break;
        }
        var more;
        p, index, more := CopyChunk(bufs, items, p, index);
        if !more {
          break;
        }
      }
      full := p < |items| && index >= pool.size;
      if full {
        FramesVsCapacity(|items|, channels, pool.size);
      } else {
        EndOfStream(|items|, channels, pool.size, index, p);
      }
    }

    /** Lines 124-137: the chunk is as many frames as both the buffers and the input have room for;
        an empty chunk ends the loop (`more` false), otherwise it is copied and `index` advances. */
    method CopyChunk(bufs: seq<AudioBuffer>, items: seq<int>, p0: nat, index0: nat)
      returns (p: nat, index: nat, more: bool)
      requires channels >= 1 && |bufs| == channels && index0 < pool.size && index0 <= Frames(|items|, channels)
      requires forall c :: 0 <= c < channels ==> pool.size <= bufs[c].data.Length
      requires forall c, d :: 0 <= c < d < channels ==> bufs[c].data != bufs[d].data
      requires p0 == FrameStart(index0, channels) <= |items|
      requires forall c :: 0 <= c < channels ==> bufs[c].data[..index0] == ChannelSamples(items, channels, c, index0)
      modifies ArraysOf(bufs)
      ensures !more ==> p == p0 && index == index0 == Frames(|items|, channels)
      ensures more ==> index0 < index <= pool.size && index <= Frames(|items|, channels) && p0 < p
      ensures p == FrameStart(index, channels) <= |items|
      ensures forall c :: 0 <= c < channels ==> bufs[c].data[..index] == ChannelSamples(items, channels, c, index)
    {
      var remainingOutput := pool.size - index0;
      FramesLeft(|items|, channels, index0);
      var remainingInput := Frames(|items| - p0, channels);
      var length := Min(remainingOutput, remainingInput);
      if length < 1 {
        return p0, index0, false;
      }
      ChunkFits(|items|, channels, index0, length);
      p := CopyFrames(bufs, items, channels, p0, index0, length);
      index := index0 + length;
      more := true;
    }

    /** Lines 109-122 on buffers holding the first `Size` frames: they are handed downstream. */
    method FlushFull(bufs: seq<AudioBuffer>, items: seq<int>, index: nat) returns (out: seq<AudioBuffer>, end: LoopEnd)
      requires pool.Valid() && channels >= 1 && |bufs| == channels && NoDup(bufs)
      requires forall c :: 0 <= c < channels ==> bufs[c] in pool.Repr && bufs[c] !in pool.free
      requires index == pool.size && FrameStart(index, channels) <= |items|
      requires forall c :: 0 <= c < channels ==> bufs[c].data[..index] == ChannelSamples(items, channels, c, index)
      modifies this, pool, Top(pool.free), Elems(bufs)
      ensures pool.Valid()
      ensures end != Drained && (end == Abandoned <==> old(pool.free) == [])
      ensures log == old(log) + LoopLog(items, channels, end, index)
      ensures end == Abandoned ==> out == bufs[1..] && pool.free == old(pool.free) + [bufs[0]]
      ensures end == Flushed ==>
                && out == [old(pool.free)[|old(pool.free)| - 1]] + bufs[..channels - 1]
                && pool.free == old(pool.free)[..|old(pool.free)| - 1] + [bufs[channels - 1]]
    {
      var flushed;
      out, flushed := FlushAndRefill(bufs, index, Deinterleaved(items, channels, index));
      end := if flushed then Flushed else Abandoned;
    }
  }
}
