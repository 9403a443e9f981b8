/** A fixed-capacity free list of preallocated audio buffers (BufferPool.h).
    The free list is a stack whose top is the LAST element of `free`. A successful
    `Allocate` pops the top buffer, which some owning handle then holds; releasing a handle
    pushes its buffer back. The pool never grows: the free stack and the outstanding buffers
    (`Outstanding()`, those of `Repr` not on the stack) always partition the buffers created
    by the constructor. */
module BufferPools {
  import opened AudioBuffers

  /** `unique_ptr_type`: either the empty handle (whose deleter does nothing) or an owning
      handle whose deleter gives the buffer back to the pool that issued it. */
  datatype Handle = Null | Owned(buffer: AudioBuffer)

  /** The set of buffers on a stack. */
  function Elems(s: seq<AudioBuffer>): set<AudioBuffer>
  {
    set b | b in s
  }

  /** No buffer is on the stack twice. */
  predicate NoDup(s: seq<AudioBuffer>)
  {
    forall i, j :: 0 <= i < j < |s| ==> s[i] != s[j]
  }

  /** The buffers of a stack are those below its top plus the top. */
  lemma ElemsLast(s: seq<AudioBuffer>)
    requires s != []
    ensures Elems(s) == Elems(s[..|s| - 1]) + {s[|s| - 1]}
  {
    assert s == s[..|s| - 1] + [s[|s| - 1]];
  }

  /** Popping the top of a stack without duplicates removes exactly that buffer from its set. */
  lemma ElemsPop(s: seq<AudioBuffer>)
    requires s != [] && NoDup(s)
    ensures Elems(s) == Elems(s[..|s| - 1]) + {s[|s| - 1]}
    ensures s[|s| - 1] !in Elems(s[..|s| - 1])
    ensures NoDup(s[..|s| - 1])
  {
    ElemsLast(s);
  }

  /** The buffers of two stacks put one on the other. */
  lemma ElemsConcat(a: seq<AudioBuffer>, b: seq<AudioBuffer>)
    ensures Elems(a + b) == Elems(a) + Elems(b)
  {
    forall x | x in Elems(a + b) ensures x in Elems(a) + Elems(b) {
      var i :| 0 <= i < |a + b| && (a + b)[i] == x;
      if i < |a| {
        assert a[i] == x;
      } else {
        assert b[i - |a|] == x;
      }
    }
  }

  /** The top of a stack, the only buffer a pop touches. */
  function Top(s: seq<AudioBuffer>): set<AudioBuffer>
  {
    if s == [] then {} else {s[|s| - 1]}
  }

  /** The sample storage of the top of a stack. */
  function TopData(s: seq<AudioBuffer>): set<array<int>>
  {
    if s == [] then {} else {s[|s| - 1].data}
  }

  /** A stack without duplicates has as many buffers as entries. */
  lemma {:induction false} NoDupCard(s: seq<AudioBuffer>)
    requires NoDup(s)
    ensures |Elems(s)| == |s|
  {
    if s != [] {
      ElemsPop(s);
      NoDupCard(s[..|s| - 1]);
    }
  }

  class BufferPool {
    /** Capacity of every buffer of the pool (the `Size` argument of the buffer type). */
    const size: nat
    /** Number of buffers preallocated by the constructor. */
    const capacity: nat
    /** The free stack `free_`; its top is the last element. */
    var free: seq<AudioBuffer>
    /** The position of each free buffer on the stack, which makes the stack free of duplicates. */
    ghost var pos: map<AudioBuffer, nat>
    /** Every buffer the constructor created. */
    ghost const Repr: set<AudioBuffer>
    /** The buffer that owns each sample array, which makes the arrays of distinct buffers distinct. */
    ghost const owner: map<array<int>, AudioBuffer>

    /** What never changes: `capacity` buffers of capacity `size`, each with its own storage. */
    ghost predicate Wellformed()
    {
      && |Repr| == capacity
      && (forall b :: b in Repr ==> b.data.Length == size)
      && (forall b :: b in Repr ==> b.data in owner && owner[b.data] == b)
    }

    /** The free stack holds buffers of this pool, none twice. */
    ghost predicate Valid()
      reads this
    {
      && Wellformed()
      && (forall i :: 0 <= i < |free| ==> free[i] in Repr && free[i] in pos && pos[free[i]] == i)
    }

    /** Distinct buffers of the pool never share storage. */
    lemma DistinctData(a: AudioBuffer, b: AudioBuffer)
      requires Wellformed() && a in Repr && b in Repr && a != b
      ensures a.data != b.data
    {
    }

    lemma FreeNoDup()
      requires Valid()
      ensures NoDup(free)
    {
    }

    /** A buffer held by an owning handle shares no storage with a free one. */
    lemma OutstandingApart(b: AudioBuffer)
      requires Valid() && b in Outstanding()
      ensures forall i :: 0 <= i < |free| ==> free[i] != b && free[i].data != b.data
    {
      forall i | 0 <= i < |free| ensures free[i] != b && free[i].data != b.data {
        assert free[i] in Elems(free);
      }
    }

    /** The buffers currently held by an owning handle: those of the pool not on the free stack. */
    ghost function Outstanding(): set<AudioBuffer>
      reads this
    {
      Repr - Elems(free)
    }

    /** `BufferPool(buffer_count)`: pushes `buffer_count` fresh buffers (none when the count is not
        positive, as the loop `for (i = 0; i < buffer_count; ++i)` does). */
    constructor (bufferCount: int, bufferSize: nat)
      ensures Valid()
      ensures size == bufferSize
      ensures capacity == (if bufferCount < 0 then 0 else bufferCount)
      ensures |free| == capacity && Outstanding() == {}
      ensures fresh(Repr) && Repr == Elems(free)
      ensures forall b :: b in Repr ==> fresh(b.data)
    {
      var stack: seq<AudioBuffer> := [];
      ghost var own: map<array<int>, AudioBuffer> := map[];
      var i := 0;
      while i < bufferCount
        invariant 0 <= i && (bufferCount >= 0 ==> i <= bufferCount) && (bufferCount < 0 ==> i == 0)
        invariant |stack| == i && NoDup(stack)
        invariant forall b :: b in stack ==> fresh(b) && fresh(b.data) && b.data.Length == bufferSize
        invariant forall b :: b in stack ==> b.data in own && own[b.data] == b
      {
        var b := new AudioBuffer(bufferSize);
        stack := stack + [b];
        own := own[b.data := b];
        i := i + 1;
      }
      size := bufferSize;
      capacity := |stack|;
      free := stack;
      pos := map k | 0 <= k < |stack| :: stack[k] := k;
      Repr := Elems(stack);
      owner := own;
      NoDupCard(stack);
    }

    /** The pool never grows or shrinks: the free stack and the outstanding buffers together are the
        `capacity` buffers of the constructor, so at most `capacity` are free. */
    lemma Conservation()
      requires Valid()
      ensures Elems(free) <= Repr
      ensures |free| + |Outstanding()| == capacity
      ensures |free| <= capacity
    {
      FreeNoDup();
      NoDupCard(free);
      assert Repr == Outstanding() + Elems(free);
    }

    /** With every buffer back on the free stack, the free stack holds every buffer of the pool. */
    lemma AllFreeWhenFull()
      requires Valid() && |free| == capacity
      ensures Elems(free) == Repr && Outstanding() == {}
    {
      Conservation();
    }

    /** `allocate()`: on an empty stack the empty handle, with nothing changed; otherwise the top
        buffer, popped and reset to length 0. No other buffer is touched. */
    method Allocate() returns (h: Handle)
      requires Valid()
      modifies this, Top(free)
      ensures Valid()
      ensures old(free) == [] ==> h == Null && free == old(free)
      ensures old(free) != [] ==>
                && h == Owned(old(free[|free| - 1]))
                && free == old(free[..|free| - 1])
                && h.buffer.length == 0
      ensures h.Owned? ==> h.buffer in Repr && h.buffer !in free && h.buffer.data.Length == size
    {
      if free == [] {
        return Null;
      }
      var p := free[|free| - 1];
      free := free[..|free| - 1];
      p.Reset();
      h := Owned(p);
    }

    /** The deleter of an owning handle, `release(T*)`: push the buffer back on top. */
    method ReleaseBuffer(p: AudioBuffer)
      requires Valid() && p in Repr && p !in free
      modifies this
      ensures Valid()
      ensures free == old(free) + [p]
    {
      pos := pos[p := |free|];
      free := free + [p];
    }

    /** `release(unique_ptr_type)`: runs the handle's deleter; the empty handle's deleter does nothing.
        Move-only ownership is the precondition: an owning handle holds an outstanding buffer. */
    method Release(h: Handle)
      requires Valid() && (h.Owned? ==> h.buffer in Outstanding())
      modifies this
      ensures Valid()
      ensures h == Null ==> free == old(free)
      ensures h.Owned? ==> free == old(free) + [h.buffer] && Outstanding() == old(Outstanding()) - {h.buffer}
    {
      if h.Owned? {
        ReleaseBuffer(h.buffer);
        ElemsLast(free);
      }
    }

    /** `~BufferPool()`: swaps the free stack out and frees its buffers top first. What it frees is
        the free stack of that moment, which covers every buffer only when none is outstanding. */
    method Destroy() returns (freed: seq<AudioBuffer>)
      requires Valid()
      modifies this
      ensures free == []
      ensures |freed| == |old(free)|
      ensures forall k :: 0 <= k < |freed| ==> freed[k] == old(free)[|old(free)| - 1 - k]
      ensures Elems(freed) == Repr - old(Outstanding())
      ensures old(Outstanding()) == {} ==> Elems(freed) == Repr
    {
      var temp := free;
      free := [];
      freed := [];
      while temp != []
        invariant free == []
        invariant |freed| + |temp| == |old(free)|
        invariant temp == old(free)[..|temp|]
        invariant forall k :: 0 <= k < |freed| ==> freed[k] == old(free)[|old(free)| - 1 - k]
      {
        var p := temp[|temp| - 1];
        temp := temp[..|temp| - 1];
        freed := freed + [p];
      }
      ReversedElems(old(free), freed);
    }
  }

  /** A stack and its top-first listing hold the same buffers. */
  lemma ReversedElems(s: seq<AudioBuffer>, r: seq<AudioBuffer>)
    requires |r| == |s|
    requires forall k :: 0 <= k < |r| ==> r[k] == s[|s| - 1 - k]
    ensures Elems(r) == Elems(s)
  {
    forall b | b in Elems(s) ensures b in Elems(r) {
      var i :| 0 <= i < |s| && s[i] == b;
      assert r[|s| - 1 - i] == b;
    }
  }

  /** LIFO round trip: giving a buffer back and allocating again hands back that same buffer. */
  method ReleaseThenAllocate(pool: BufferPool, b: AudioBuffer) returns (h: Handle)
    requires pool.Valid() && b in pool.Outstanding()
    modifies pool, b
    ensures pool.Valid()
    ensures h == Owned(b) && b.length == 0
    ensures pool.free == old(pool.free)
  {
    pool.ReleaseBuffer(b);
    h := pool.Allocate();
  }
}
