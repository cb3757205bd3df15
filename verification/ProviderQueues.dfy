/**
 The bounded queue between the two threads of a buffering provider
 (src/providerclient.cpp:190-214, 283-305).  Each block under the mutex is one atomic step.
 */
module ProviderQueues {
  import opened Bytes

  /** At most `max_length - 1` bytes are read at a time. */
  const MAX_READ: nat := 1023

  type Chunk = c: ByteString | |c| <= MAX_READ

  /** Any size the configuration can ask for: a number of mebibytes, possibly negative, as a `size_t`. */
  type Capacity = n: nat | n <= 0x1_0000_0000_0000_0000 - 0x10_0000

  /** What an observer of both threads records.  Chunks are numbered as they are read. */
  datatype Trace = Trace(
    chunks: seq<ByteString>,     // non-empty chunks read, in order
    popped: seq<nat>,            // chunks the writer took
    taken: seq<ByteString>,      // what it found in them
    dropped: seq<nat>)           // chunks the reader evicted

  datatype State = State(
    buffer: seq<ByteString>,     // m_buffer
    count: nat,                  // m_buffer_count
    trace: Trace)

  datatype Event = Push(chunk: Chunk) | Pop

  const EMPTY := State([], 0, Trace([], [], [], []))

  /** A `char*` becomes a string up to its first NUL. */
  function Stored(chunk: ByteString): (r: ByteString)
    ensures r <= chunk && 0 !in r
    ensures |r| < |chunk| ==> chunk[|r|] == 0
  {
    if chunk == [] || chunk[0] == 0 then [] else [chunk[0]] + Stored(chunk[1..])
  }

  /** The number of the chunk at the front of the queue. */
  function Head(s: State): int {
    |s.trace.chunks| - |s.buffer|
  }

  function DropFront(s: State): State
    requires s.buffer != [] && Head(s) >= 0
  {
    State(s.buffer[1..], (s.count - |s.buffer[0]|) % WORD, s.trace.(dropped := s.trace.dropped + [Head(s)]))
  }

  /** Oldest first, as long as the counter is over the capacity. */
  function Evicted(size: Capacity, s: State): (t: State)
    requires Head(s) >= 0
    ensures Head(t) >= 0
    decreases |s.buffer|
  {
    if s.buffer != [] && s.count > size then Evicted(size, DropFront(s)) else s
  }

  function Pushed(size: Capacity, s: State, chunk: Chunk): State
    requires Head(s) >= 0
  {
    var t := Evicted(size, s);
    State(t.buffer + [Stored(chunk)], ((if t.buffer == [] then 0 else t.count) + |chunk|) % WORD,
          t.trace.(chunks := t.trace.chunks + [chunk]))
  }

  function Popped(s: State): State
    requires Head(s) >= 0
  {
    if s.buffer == [] then s
    else s.(buffer := s.buffer[1..],
            trace := s.trace.(popped := s.trace.popped + [Head(s)], taken := s.trace.taken + [s.buffer[0]]))
  }

  function Step(size: Capacity, s: State, e: Event): State
    requires Head(s) >= 0
  {
    match e
    case Push(chunk) => if chunk == [] then s else Pushed(size, s, chunk)
    case Pop => Popped(s)
  }

  predicate Reaches(size: Capacity, s: State, es: seq<Event>, t: State)
    decreases es
  {
    if es == [] then s == t
    else Head(s) >= 0 && Reaches(size, Step(size, s, es[0]), es[1..], t)
  }

  // ---------------------------------------------------------------- the run invariant

  function Length(chunks: seq<ByteString>): nat {
    if chunks == [] then 0 else |chunks[0]| + Length(chunks[1..])
  }

  lemma {:induction false} LengthAppend(chunks: seq<ByteString>, c: ByteString)
    ensures Length(chunks + [c]) == Length(chunks) + |c|
  {
    if chunks != [] {
      LengthAppend(chunks[1..], c);
      assert (chunks + [c])[1..] == chunks[1..] + [c];
    }
  }

  /** Every chunk so far is queued, or was popped, or was dropped, and only one of these. */
  ghost predicate Accounted(buffer: seq<ByteString>, trace: Trace) {
    var head := |trace.chunks| - |buffer|;
    && head >= 0
    && (forall i :: 0 <= i < |buffer| ==> buffer[i] == Stored(trace.chunks[head + i]))
    && Ascending(trace.popped, head) && Ascending(trace.dropped, head)
    && (forall k :: k in trace.popped ==> k !in trace.dropped)
    && |trace.popped| + |trace.dropped| == head
    && |trace.taken| == |trace.popped|
    && (forall i :: 0 <= i < |trace.popped| ==> trace.taken[i] == Stored(trace.chunks[trace.popped[i]]))
  }

  /** The counter is an upper bound, since the writer never decrements it. */
  ghost predicate Counted(size: Capacity, buffer: seq<ByteString>, count: nat, trace: Trace) {
    && Length(buffer) <= count <= size + MAX_READ
    && count <= Length(trace.chunks)
    && (trace.dropped == [] || Length(trace.chunks) > size)
  }

  ghost predicate Inv(size: Capacity, s: State) {
    Head(s) >= 0 && Accounted(s.buffer, s.trace) && Counted(size, s.buffer, s.count, s.trace)
  }

  lemma PopAccounted(s: State)
    requires Accounted(s.buffer, s.trace) && s.buffer != []
    ensures Accounted(Popped(s).buffer, Popped(s).trace)
  {
  }

  lemma PushAccounted(s: State, chunk: ByteString)
    requires Accounted(s.buffer, s.trace)
    ensures Accounted(s.buffer + [Stored(chunk)], s.trace.(chunks := s.trace.chunks + [chunk]))
  {
    hide Stored;
  }

  lemma DropAccounted(s: State)
    requires Accounted(s.buffer, s.trace) && s.buffer != []
    ensures Accounted(s.buffer[1..], s.trace.(dropped := s.trace.dropped + [Head(s)]))
  {
    hide Stored;
  }

  /** So the subtraction in the eviction loop never wraps. */
  lemma DropKeeps(size: Capacity, s: State)
    requires Inv(size, s) && s.buffer != [] && s.count > size
    ensures Inv(size, DropFront(s)) && DropFront(s).count == s.count - |s.buffer[0]|
  {
    hide Accounted;
    DropAccounted(s);
  }

  lemma {:induction false} EvictKeeps(size: Capacity, s: State)
    requires Inv(size, s)
    ensures var t := Evicted(size, s);
            && Inv(size, t)
            && (t.buffer == [] || t.count <= size)
            && t.trace.chunks == s.trace.chunks
    decreases |s.buffer|
  {
    hide Accounted, Counted;
    if s.buffer != [] && s.count > size {
      DropKeeps(size, s);
      EvictKeeps(size, DropFront(s));
    }
  }

  /** Nor does the addition. */
  lemma PushKeeps(size: Capacity, s: State, chunk: Chunk)
    requires Inv(size, s)
    ensures Inv(size, Pushed(size, s, chunk))
    ensures var t := Evicted(size, s);
            Pushed(size, s, chunk).count == (if t.buffer == [] then 0 else t.count) + |chunk|
  {
    hide Accounted, Counted, Evicted, Stored;
    var t := Evicted(size, s);
    EvictKeeps(size, s);
    PushAccounted(t, chunk);
    ResetCounted(size, t);
    PushCounted(size, t.buffer, if t.buffer == [] then 0 else t.count, t.trace, chunk);
  }

  lemma ResetCounted(size: Capacity, t: State)
    requires Counted(size, t.buffer, t.count, t.trace)
    ensures t.buffer == [] ==> Counted(size, t.buffer, 0, t.trace)
  {
    hide Length;
    LengthNone();
  }

  lemma PushCounted(size: Capacity, buffer: seq<ByteString>, count: nat, trace: Trace, chunk: Chunk)
    requires Counted(size, buffer, count, trace) && count <= size
    ensures Counted(size, buffer + [Stored(chunk)], count + |chunk|, trace.(chunks := trace.chunks + [chunk]))
  {
    hide Stored, Length;
    LengthAppend(buffer, Stored(chunk));
    LengthAppend(trace.chunks, chunk);
  }

  lemma LengthNone()
    ensures Length([]) == 0
  {
  }

  lemma StepKeeps(size: Capacity, s: State, e: Event)
    requires Inv(size, s)
    ensures Inv(size, Step(size, s, e))
  {
    hide Accounted, Pushed;
    match e
    case Push(chunk) => PushKeeps(size, s, chunk);
    case Pop => if s.buffer != [] { PopAccounted(s); }
  }

  lemma {:induction false} RunKeeps(size: Capacity, s: State, es: seq<Event>, t: State)
    requires Inv(size, s) && Reaches(size, s, es, t)
    ensures Inv(size, t)
    decreases es
  {
    hide Accounted, Counted, Step;
    if es != [] {
      StepKeeps(size, s, es[0]);
      RunKeeps(size, Step(size, s, es[0]), es[1..], t);
    }
  }

  // ---------------------------------------------------------------- main results

  /** The chunks that the events push; an empty read pushes nothing. */
  function Reads(es: seq<Event>): seq<ByteString> {
    if es == [] then [] else (if es[0].Push? && es[0].chunk != [] then [es[0].chunk] else []) + Reads(es[1..])
  }

  lemma {:induction false} EvictReads(size: Capacity, s: State)
    requires Head(s) >= 0
    ensures Evicted(size, s).trace.chunks == s.trace.chunks && Evicted(size, s).trace.taken == s.trace.taken
    decreases |s.buffer|
  {
    if s.buffer != [] && s.count > size {
      EvictReads(size, DropFront(s));
    }
  }

  /** The record of chunks is what the events of the run push, in order. */
  lemma {:induction false} ChunksAreReads(size: Capacity, s: State, es: seq<Event>, t: State)
    requires Reaches(size, s, es, t)
    ensures t.trace.chunks == s.trace.chunks + Reads(es)
    decreases es
  {
    hide Evicted;
    if es != [] {
      EvictReads(size, s);
      ChunksAreReads(size, Step(size, s, es[0]), es[1..], t);
    }
  }

  /** A pop takes the chunk at the front, and nothing from an empty queue; a push takes nothing. */
  lemma PopExact(size: Capacity, s: State, e: Event)
    requires Accounted(s.buffer, s.trace)
    ensures var t := Step(size, s, e);
            if e.Pop? && s.buffer != [] then
              && t.trace.taken == s.trace.taken + [Stored(s.trace.chunks[Head(s)])]
              && |t.buffer| == |s.buffer| - 1 && t.count == s.count && t.trace.dropped == s.trace.dropped
            else
              t.trace.taken == s.trace.taken && (e.Pop? ==> t == s)
  {
    hide Evicted;
    EvictReads(size, s);
  }

  /** In every state of every interleaving: the counter covers the queue and the queue is bounded. */
  lemma QueueBounded(size: Capacity, es: seq<Event>, t: State)
    requires Reaches(size, EMPTY, es, t)
    ensures Length(t.buffer) <= t.count <= size + 1023 < 0x1_0000_0000_0000_0000
  {
    RunKeeps(size, EMPTY, es, t);
  }

  /** What the writer takes is a subsequence, in order, of what the reader read; each chunk that is
      missing was dropped, and was older than everything queued. */
  lemma TakenInOrder(size: Capacity, es: seq<Event>, t: State)
    requires Reaches(size, EMPTY, es, t)
    ensures Accounted(t.buffer, t.trace)
    ensures forall k :: 0 <= k < Head(t) ==> (k in t.trace.popped) != (k in t.trace.dropped)
  {
    RunKeeps(size, EMPTY, es, t);
    forall k | 0 <= k < Head(t) ensures (k in t.trace.popped) != (k in t.trace.dropped) {
      Covers(t.trace.popped, t.trace.dropped, Head(t), k);
    }
  }

  /** As many distinct numbers below n as there are numbers below n: every one of them. */
  lemma {:induction false} Covers(xs: seq<nat>, ys: seq<nat>, n: nat, k: nat)
    requires Ascending(xs, n) && Ascending(ys, n) && |xs| + |ys| == n && k < n
    requires forall x :: x in xs ==> x !in ys
    ensures k in xs || k in ys
    decreases n
  {
    var i, j := |xs| - 1, |ys| - 1;
    if i >= 0 && xs[i] == n - 1 {
      assert n - 1 in xs;
      assert j >= 0 ==> ys[j] in ys && ys[j] < n - 1;
      if k < n - 1 { Covers(xs[..i], ys, n - 1, k); }
    } else if j >= 0 && ys[j] == n - 1 {
      if k < n - 1 { Covers(xs, ys[..j], n - 1, k); }
    } else {
      AtMost(xs, ys, n - 1);
    }
  }

  lemma {:induction false} AtMost(xs: seq<nat>, ys: seq<nat>, n: nat)
    requires Ascending(xs, n) && Ascending(ys, n) && forall x :: x in xs ==> x !in ys
    ensures |xs| + |ys| <= n
    decreases n
  {
    var i, j := |xs| - 1, |ys| - 1;
    if i >= 0 && xs[i] == n - 1 {
      assert n - 1 in xs;
      assert j >= 0 ==> ys[j] in ys && ys[j] < n - 1;
      AtMost(xs[..i], ys, n - 1);
    } else if j >= 0 && ys[j] == n - 1 {
      AtMost(xs, ys[..j], n - 1);
    } else if n > 0 {
      AtMost(xs, ys, n - 1);
    }
  }

  /** As long as no more was read than the capacity, nothing is dropped: the writer has taken the
      chunks in order without a gap, each as far as its first NUL. */
  lemma NothingDropped(size: Capacity, es: seq<Event>, t: State)
    requires Reaches(size, EMPTY, es, t) && Length(t.trace.chunks) <= size
    ensures |t.trace.taken| == Head(t)
    ensures forall k :: 0 <= k < Head(t) ==> t.trace.taken[k] == Stored(t.trace.chunks[k])
  {
    RunKeeps(size, EMPTY, es, t);
    Consecutive(t.trace.popped);
  }

  lemma {:induction false} Consecutive(ks: seq<nat>)
    requires Ascending(ks, |ks|)
    ensures forall i :: 0 <= i < |ks| ==> ks[i] == i
  {
    var n := |ks| - 1;
    if n > 0 {
      assert forall i :: 0 <= i < n ==> ks[i] < ks[n] < n + 1;
      Consecutive(ks[..n]);
      assert ks[n - 1] == ks[..n][n - 1];
    }
  }

  /** A chunk reaches the writer whole exactly when it holds no NUL. */
  lemma {:induction false} StoredWhole(chunk: ByteString)
    ensures Stored(chunk) == chunk <==> 0 !in chunk
  {
  }

  // ---------------------------------------------------------------- the queue itself

  class ProviderQueue {
    const size: Capacity
    var buffer: seq<ByteString>
    var count: nat
    ghost var trace: Trace

    ghost function Abs(): State
      reads this
    {
      State(buffer, count, trace)
    }

    constructor (size: Capacity)
      ensures this.size == size && Abs() == EMPTY && Inv(size, Abs())
    {
      this.size, buffer, count, trace := size, [], 0, EMPTY.trace;
    }

    /** The reader, after `read_some`. */
    method Push(chunk: Chunk)
      requires Inv(size, Abs())
      modifies this
      ensures Abs() == Step(size, old(Abs()), Event.Push(chunk)) && Inv(size, Abs())
    {
      hide Accounted, Counted, Stored;
      if |chunk| > 0 {
        PushKeeps(size, Abs(), chunk);
        while buffer != [] && count > size
          invariant Inv(size, Abs()) && Evicted(size, Abs()) == Evicted(size, old(Abs()))
          decreases |buffer|
        {
          DropKeeps(size, Abs());
          trace := trace.(dropped := trace.dropped + [Head(Abs())]);
          count := count - |buffer[0]|;
          buffer := buffer[1..];
        }
        if buffer == [] {
          count := 0;
        }
        count := count + |chunk|;
        buffer := buffer + [Stored(chunk)];
        trace := trace.(chunks := trace.chunks + [chunk]);
      }
    }

    /** The writer: empty when there is nothing to send. */
    method Pop() returns (data: ByteString)
      requires Inv(size, Abs())
      modifies this
      ensures Abs() == Step(size, old(Abs()), Event.Pop) && Inv(size, Abs())
      ensures data == if old(buffer) == [] then [] else old(buffer)[0]
      ensures trace.taken == if old(buffer) == [] then old(trace.taken) else old(trace.taken) + [data]
    {
      hide Accounted, Counted;
      StepKeeps(size, Abs(), Event.Pop);
      data := [];
      if buffer != [] {
        trace := trace.(popped := trace.popped + [Head(Abs())], taken := trace.taken + [buffer[0]]);
        data := buffer[0];
        buffer := buffer[1..];
      }
    }
  }
}
