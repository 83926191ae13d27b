/**
  `decompress` from tinit/util.c: the output-buffer management around the
  .xz decoder.

  The output starts as an 8192-byte heap buffer. After every decoder call
  whose output filled the buffer, the buffer is doubled with `realloc` and the
  decoder's cursor is re-pointed just past the bytes written so far. The loop
  continues while the decoder says LZMA_OK; only LZMA_STREAM_END is a
  success, and every other ending frees the buffer and exits with status 1.

  The first half of the module is a model on values (a `Machine` is the
  decoder stream plus the buffer), the second half is the imperative method
  over an `array`, proved to compute what the value model says.
*/
module Decompressor {
  import opened Lzma

  /** Size of the first output buffer (`out_buffer_size = 8192`). */
  const InitialCapacity: nat := 8192

  /** The capacities the buffer can have: 8192 doubled any number of times. */
  predicate IsCapacity(c: nat)
    decreases c
  {
    c == InitialCapacity || (c > InitialCapacity && c % 2 == 0 && IsCapacity(c / 2))
  }

  /** The fields of `lzma_stream` that the loop reads or writes; the
      `next_in`/`next_out` pointers are offsets into the input and the
      output buffer. */
  datatype Stream<D> = Stream(
    dec: D,
    nextIn: nat, availIn: nat, totalIn: nat,
    nextOut: nat, availOut: nat, totalOut: nat)

  /** The state of `decompress` at the head of its loop: the stream, the size
      of the output buffer, the bytes written into it so far and `ret`. */
  datatype Machine<D> = Machine(stream: Stream<D>, capacity: nat, data: seq<Byte>, ret: Ret)

  /** Why the process exits. */
  datatype Why =
    | DecoderInitFailed(initRet: Ret)   // "could not init LZMA decoder"
    | AllocFailed                       // "could not alloc out buffer"
    | ReallocFailed(size: nat)          // "could not realloc out buffer"
    | DecompressionFailed(ret: Ret)     // "decompression failed"

  /** Either the loop is still going (or has stopped) with a machine, or the
      process has exited. */
  datatype Next<D> = Continue(m: Machine<D>) | Fatal(why: Why)

  /** What `decompress` does in the end: hand back the buffer (its defined
      bytes are `data`, `*out_size` is `|data|`), or exit. */
  datatype Outcome = Done(data: seq<Byte>, capacity: nat) | Exit(status: int, why: Why)

  /** The cursor bookkeeping: input pointer and counters agree, the output
      cursor sits right after the bytes written, and written plus free space
      is the buffer size. */
  predicate Accounted<D>(input: seq<Byte>, m: Machine<D>)
  {
    var s := m.stream;
    s.nextIn == s.totalIn && s.nextIn + s.availIn == |input| &&
    s.nextOut == s.totalOut && s.totalOut == |m.data| &&
    s.totalOut + s.availOut == m.capacity
  }

  /** The invariant at the head of the loop: on top of the bookkeeping, the
      cursor has room and the buffer size is 8192 times a power of two. */
  predicate Valid<D>(input: seq<Byte>, m: Machine<D>)
  {
    Accounted(input, m) && m.stream.availOut > 0 && IsCapacity(m.capacity)
  }

  /** The state just before the loop (tinit/util.c:30-39): an 8192-byte
      buffer, nothing written, the cursor at offset 0 with the whole buffer
      free, all of the input pending, and `ret` = LZMA_OK. */
  function Start<D>(input: seq<Byte>, d0: D): (m: Machine<D>)
    ensures Valid(input, m) && m.ret == Ok
    ensures m.capacity == InitialCapacity && m.data == []
    ensures m.stream.nextOut == 0 && m.stream.availOut == m.capacity
    ensures m.stream.availIn == |input| && m.stream.dec == d0
  {
    Machine(Stream(d0, 0, |input|, 0, 0, InitialCapacity, 0), InitialCapacity, [], Ok)
  }

  /** One call of `lzma_code(&stream, LZMA_RUN)`: the decoder's bytes land at
      the cursor, and the pointers and counters move by what it consumed and
      wrote. */
  function Code<D(!new)>(input: seq<Byte>, codec: Codec<D>, m: Machine<D>): (m': Machine<D>)
    requires Bounded(codec) && Valid(input, m)
    ensures Accounted(input, m') && m'.capacity == m.capacity
    ensures m.data <= m'.data
  {
    var s := m.stream;
    var step := codec(s.dec, input[s.nextIn..], s.availOut);
    assert Fits(step, input[s.nextIn..], s.availOut);
    var n := |step.written|;
    Machine(
      Stream(step.next,
             s.nextIn + step.consumed, s.availIn - step.consumed, s.totalIn + step.consumed,
             s.nextOut + n, s.availOut - n, s.totalOut + n),
      m.capacity, m.data + step.written, step.ret)
  }

  /** The regrowth when the output space is used up (tinit/util.c:43-48):
      double the size, `realloc` (which may fail), re-point the cursor to
      offset `total_out` and give it the rest of the new buffer. */
  function Grow<D>(input: seq<Byte>, canAlloc: nat -> bool, m: Machine<D>): (r: Next<D>)
    requires Accounted(input, m) && m.stream.availOut == 0 && IsCapacity(m.capacity)
    ensures r.Fatal? <==> !canAlloc(2 * m.capacity)
    ensures r.Fatal? ==> r.why == ReallocFailed(2 * m.capacity)
    ensures r.Continue? ==> Valid(input, r.m) && r.m.capacity == 2 * m.capacity
    ensures r.Continue? ==> r.m.data == m.data && r.m.ret == m.ret && r.m.stream.dec == m.stream.dec
    ensures r.Continue? ==>
      r.m.stream.nextIn == m.stream.nextIn && r.m.stream.availIn == m.stream.availIn &&
      r.m.stream.totalIn == m.stream.totalIn && r.m.stream.totalOut == m.stream.totalOut
  {
    var size := 2 * m.capacity;
    if !canAlloc(size) then
      Fatal(ReallocFailed(size))
    else
      var s := m.stream;
      Continue(Machine(s.(nextOut := s.totalOut, availOut := size - s.totalOut), size, m.data, m.ret))
  }

  /** One pass of the loop body (tinit/util.c:41-49): a decoder call, then a
      regrowth if that call filled the buffer, whatever status it returned. */
  function Iterate<D(!new)>(input: seq<Byte>, codec: Codec<D>, ghost rank: D -> nat, canAlloc: nat -> bool,
                      m: Machine<D>): (r: Next<D>)
    requires Bounded(codec) && Progressing(codec, rank) && Valid(input, m)
    ensures r.Continue? ==> Valid(input, r.m) && m.data <= r.m.data
    ensures r.Continue? ==> r.m.capacity == m.capacity || r.m.capacity == 2 * m.capacity
    ensures r.Continue? ==> (r.m.capacity == 2 * m.capacity <==> |r.m.data| == m.capacity)
    ensures r.Continue? && r.m.ret == Ok ==> rank(r.m.stream.dec) < rank(m.stream.dec)
    ensures r.Fatal? ==> r.why == ReallocFailed(2 * m.capacity) && !canAlloc(2 * m.capacity)
    ensures r.Fatal? ==> |Code(input, codec, m).data| == m.capacity
  {
    var m1 := Code(input, codec, m);
    assert m1.ret == Ok ==> rank(m1.stream.dec) < rank(m.stream.dec) by {
      var s := m.stream;
      assert m1.stream.dec == codec(s.dec, input[s.nextIn..], s.availOut).next;
    }
    if m1.stream.availOut == 0 then Grow(input, canAlloc, m1) else Continue(m1)
  }

  /** The loop `while(ret == LZMA_OK)` (tinit/util.c:39-50): it stops on the
      first status other than LZMA_OK, or when a regrowth fails. */
  function Run<D(!new)>(input: seq<Byte>, codec: Codec<D>, ghost rank: D -> nat, canAlloc: nat -> bool,
                  m: Machine<D>): (r: Next<D>)
    requires Bounded(codec) && Progressing(codec, rank) && Valid(input, m)
    ensures r.Continue? ==> Valid(input, r.m) && r.m.ret != Ok
    ensures r.Continue? ==> m.data <= r.m.data && m.capacity <= r.m.capacity
    ensures r.Fatal? ==> r.why.ReallocFailed?
    ensures m.ret != Ok ==> r == Continue(m)
    decreases if m.ret == Ok then rank(m.stream.dec) + 1 else 0
  {
    if m.ret != Ok then
      Continue(m)
    else
      match Iterate(input, codec, rank, canAlloc, m)
      case Fatal(why) => Fatal(why)
      case Continue(m') => Run(input, codec, rank, canAlloc, m')
  }

  /** All of `decompress`: decoder set-up (util.c:27-28), the first
      allocation (util.c:30-32), the loop, then success only on
      LZMA_STREAM_END (util.c:52-58). Every failure is exit status 1, and
      on success the returned length is strictly below the buffer size. */
  function Decompression<D(!new)>(input: seq<Byte>, initRet: Ret, d0: D, codec: Codec<D>, ghost rank: D -> nat,
                            canAlloc: nat -> bool): (r: Outcome)
    requires Bounded(codec) && Progressing(codec, rank)
    ensures r.Done? ==> |r.data| < r.capacity && IsCapacity(r.capacity)
    ensures r.Exit? ==> r.status == 1
    ensures initRet != Ok ==> r == Exit(1, DecoderInitFailed(initRet))
    ensures initRet == Ok && !canAlloc(InitialCapacity) ==> r == Exit(1, AllocFailed)
  {
    if initRet != Ok then
      Exit(1, DecoderInitFailed(initRet))
    else if !canAlloc(InitialCapacity) then
      Exit(1, AllocFailed)
    else
      match Run(input, codec, rank, canAlloc, Start(input, d0))
      case Fatal(why) => Exit(1, why)
      case Continue(m) =>
        if m.ret == StreamEnd then Done(m.data, m.capacity)
        else Exit(1, DecompressionFailed(m.ret))
  }

  // ---------------------------------------------------------------------
  // The imperative code
  // ---------------------------------------------------------------------

  /** How `decompress` ended: it returned, or the process exited. */
  datatype Termination = Returned | Exited(status: int, why: Why)

  /** `lzma_code` on the real buffer: the bytes the decoder produces are
      stored at the cursor, and only there. */
  method LzmaCode<D(!new)>(input: seq<Byte>, codec: Codec<D>, out: array<Byte>, stream: Stream<D>, ghost ret0: Ret)
    returns (ret: Ret, stream': Stream<D>)
    requires Bounded(codec) && stream.totalOut <= out.Length
    requires Valid(input, Machine(stream, out.Length, out[..stream.totalOut], ret0))
    modifies out
    ensures stream'.totalOut <= out.Length
    ensures Machine(stream', out.Length, out[..stream'.totalOut], ret)
         == Code(input, codec, Machine(stream, out.Length, old(out[..stream.totalOut]), ret0))
  {
    var step := codec(stream.dec, input[stream.nextIn..], stream.availOut);
    assert Fits(step, input[stream.nextIn..], stream.availOut);
    var n := |step.written|;
    forall i | 0 <= i < n {
      out[stream.nextOut + i] := step.written[i];
    }
    ret := step.ret;
    stream' := Stream(step.next,
                      stream.nextIn + step.consumed, stream.availIn - step.consumed,
                      stream.totalIn + step.consumed,
                      stream.nextOut + n, stream.availOut - n, stream.totalOut + n);
    assert out[..stream'.totalOut] == old(out[..stream.totalOut]) + step.written;
  }

  /** `realloc(a, size)` for a larger size: a fresh buffer that starts with
      a copy of the old one, or null when the allocator refuses. */
  method Realloc(a: array<Byte>, size: nat, canAlloc: nat -> bool) returns (b: array?<Byte>)
    requires a.Length <= size
    ensures b == null <==> !canAlloc(size)
    ensures b != null ==> fresh(b) && b.Length == size && b[..a.Length] == a[..]
  {
    if !canAlloc(size) {
      return null;
    }
    b := new Byte[size];
    forall i | 0 <= i < a.Length {
      b[i] := a[i];
    }
  }

  /** One pass of the loop body on the real buffer (tinit/util.c:41-49):
      decode into `buf`, and when the output space is used up, double
      `size` and move to the reallocated buffer. `grown` is null when
      `realloc` failed. */
  method LoopBody<D(!new)>(input: seq<Byte>, codec: Codec<D>, ghost rank: D -> nat, canAlloc: nat -> bool,
                           buf: array<Byte>, size: nat, stream: Stream<D>, ghost ret0: Ret)
    returns (ret: Ret, stream': Stream<D>, grown: array?<Byte>, size': nat)
    requires Bounded(codec) && Progressing(codec, rank)
    requires size == buf.Length && stream.totalOut <= size
    requires Valid(input, Machine(stream, size, buf[..stream.totalOut], ret0))
    modifies buf
    ensures grown == null ==>
      Iterate(input, codec, rank, canAlloc, Machine(stream, size, old(buf[..stream.totalOut]), ret0))
        == Fatal(ReallocFailed(size'))
    ensures grown != null ==>
      (grown == buf || fresh(grown)) && size' == grown.Length && stream'.totalOut <= size' &&
      Iterate(input, codec, rank, canAlloc, Machine(stream, size, old(buf[..stream.totalOut]), ret0))
        == Continue(Machine(stream', size', grown[..stream'.totalOut], ret))
  {
    ret, stream' := LzmaCode(input, codec, buf, stream, ret0);
    grown, size' := buf, size;
    if stream'.availOut == 0 {
      size' := size * 2;
      grown := Realloc(buf, size', canAlloc);
      if grown == null {
        return;
      }
      stream' := stream'.(nextOut := stream'.totalOut, availOut := size' - stream'.totalOut);
    }
  }

  /** `decompress(in, in_size, &out, &out_size)`. On success `out` is the
      buffer and `outSize` is `total_out`; on every failure nothing is handed
      back (`out` is null: the buffer was freed) and the process exits. */
  method Decompress<D(!new)>(input: seq<Byte>, initRet: Ret, d0: D, codec: Codec<D>, ghost rank: D -> nat,
                       canAlloc: nat -> bool)
    returns (term: Termination, out: array?<Byte>, outSize: nat)
    requires Bounded(codec) && Progressing(codec, rank)
    ensures match Decompression(input, initRet, d0, codec, rank, canAlloc)
      case Done(data, capacity) =>
        term == Returned && out != null && out.Length == capacity &&
        outSize == |data| && out[..outSize] == data
      case Exit(status, why) =>
        term == Exited(status, why) && out == null && outSize == 0
  {
    if initRet != Ok {
      return Exited(1, DecoderInitFailed(initRet)), null, 0;
    }
    var outBufferSize: nat := InitialCapacity;
    if !canAlloc(outBufferSize) {
      return Exited(1, AllocFailed), null, 0;
    }
    var buf := new Byte[outBufferSize];
    var stream := Stream(d0, 0, |input|, 0, 0, outBufferSize, 0);
    var ret := Ok;
    ghost var start := Start(input, d0);
    assert Machine(stream, outBufferSize, buf[..stream.totalOut], ret) == start;

    while ret == Ok
      invariant fresh(buf) && buf.Length == outBufferSize && stream.totalOut <= buf.Length
      invariant Valid(input, Machine(stream, outBufferSize, buf[..stream.totalOut], ret))
      invariant Run(input, codec, rank, canAlloc, Machine(stream, outBufferSize, buf[..stream.totalOut], ret))
             == Run(input, codec, rank, canAlloc, start)
      decreases if ret == Ok then rank(stream.dec) + 1 else 0
    {
      var grown;
      ret, stream, grown, outBufferSize := LoopBody(input, codec, rank, canAlloc, buf, outBufferSize, stream, ret);
      if grown == null {
        return Exited(1, ReallocFailed(outBufferSize)), null, 0;
      }
      buf := grown;
    }

    if ret != StreamEnd {
      return Exited(1, DecompressionFailed(ret)), null, 0;
    }
    term, out, outSize := Returned, buf, stream.totalOut;
  }
}
