/**
  Properties of `decompress` that relate several loop iterations or whole
  runs: the shape of the buffer size, that only LZMA_STREAM_END yields a
  result, that the buffer logic hands back exactly what the decoder wrote,
  and that the regrowth after the final decoder call can still be fatal.
*/
module DecompressorProperties {
  import opened Lzma
  import opened Decompressor

  function Pow2(k: nat): (p: nat)
    ensures p >= 1
  {
    if k == 0 then 1 else 2 * Pow2(k - 1)
  }

  /** Every buffer size the loop reaches is 8192 times a power of two ... */
  lemma {:induction false} CapacityIsDoubling(c: nat)
    requires IsCapacity(c)
    ensures exists k: nat :: c == InitialCapacity * Pow2(k)
    decreases c
  {
    if c == InitialCapacity {
      assert c == InitialCapacity * Pow2(0);
    } else {
      CapacityIsDoubling(c / 2);
      var k: nat :| c / 2 == InitialCapacity * Pow2(k);
      assert c == InitialCapacity * Pow2(k + 1);
    }
  }

  /** ... and every such size is a valid buffer size. */
  lemma {:induction false} DoublingIsCapacity(k: nat)
    ensures IsCapacity(InitialCapacity * Pow2(k))
  {
    if k > 0 {
      DoublingIsCapacity(k - 1);
      assert InitialCapacity * Pow2(k) == 2 * (InitialCapacity * Pow2(k - 1));
    }
  }

  /** No decoder call made along the loop that starts in `m` returns
      LZMA_STREAM_END. The run is followed exactly as `Run` follows it, so
      the decoder may well report LZMA_STREAM_END from other states or on
      other input. */
  ghost predicate NeverEndsOnRun<D(!new)>(input: seq<Byte>, codec: Codec<D>, rank: D -> nat,
                                          canAlloc: nat -> bool, m: Machine<D>)
    requires Bounded(codec) && Progressing(codec, rank) && Valid(input, m)
    decreases if m.ret == Ok then rank(m.stream.dec) + 1 else 0
  {
    m.ret == Ok ==>
      Code(input, codec, m).ret != StreamEnd &&
      match Iterate(input, codec, rank, canAlloc, m)
      case Fatal(_) => true
      case Continue(m') => NeverEndsOnRun(input, codec, rank, canAlloc, m')
  }

  /** The loop never stops with LZMA_STREAM_END if no decoder call on it
      returned that status. */
  lemma {:induction false} RunWithoutStreamEnd<D(!new)>(input: seq<Byte>, codec: Codec<D>, rank: D -> nat,
                                                       canAlloc: nat -> bool, m: Machine<D>)
    requires Bounded(codec) && Progressing(codec, rank) && Valid(input, m)
    requires m.ret != StreamEnd && NeverEndsOnRun(input, codec, rank, canAlloc, m)
    ensures Run(input, codec, rank, canAlloc, m).Continue? ==> Run(input, codec, rank, canAlloc, m).m.ret != StreamEnd
    decreases if m.ret == Ok then rank(m.stream.dec) + 1 else 0
  {
    if m.ret == Ok {
      var m1 := Code(input, codec, m);
      match Iterate(input, codec, rank, canAlloc, m)
      case Fatal(_) =>
      case Continue(m') =>
        assert m'.ret == m1.ret;
        RunWithoutStreamEnd(input, codec, rank, canAlloc, m');
    }
  }

  /** A truncated or corrupt stream, on which the decoder does not reach
      LZMA_STREAM_END during this run, always ends in exit status 1 and
      never in a result. */
  lemma CorruptStreamExits<D(!new)>(input: seq<Byte>, initRet: Ret, d0: D, codec: Codec<D>, rank: D -> nat,
                                    canAlloc: nat -> bool)
    requires Bounded(codec) && Progressing(codec, rank)
    requires NeverEndsOnRun(input, codec, rank, canAlloc, Start(input, d0))
    ensures Decompression(input, initRet, d0, codec, rank, canAlloc).Exit?
    ensures Decompression(input, initRet, d0, codec, rank, canAlloc).status == 1
  {
    if initRet == Ok && canAlloc(InitialCapacity) {
      RunWithoutStreamEnd(input, codec, rank, canAlloc, Start(input, d0));
    }
  }

  // ---------------------------------------------------------------------
  // A reference decoder: it writes a fixed plaintext, in chunks of any size.
  // ---------------------------------------------------------------------

  /** One call of a decoder whose stream decompresses to `plain`; its state
      is how many bytes of `plain` it has written. It takes all the input and
      writes the next chunk of `plain`: `take(pos, room)` bytes when that is
      between 1 and what fits, otherwise as much as fits. It says
      LZMA_STREAM_END once it has written all of `plain`, LZMA_OK before. So
      a call may return LZMA_OK with room left or with the buffer full. */
  function ReplayStep(plain: seq<Byte>, take: (nat, nat) -> nat, pos: nat, pending: seq<Byte>, room: nat)
    : (step: Step<nat>)
    ensures pos < |plain| ==> pos <= step.next <= |plain| && |step.written| <= room && step.written == plain[pos..step.next]
    ensures pos < |plain| && room > 0 ==> pos < step.next
    ensures step.ret == StreamEnd <==> step.next >= |plain|
  {
    if pos >= |plain| then
      Step(StreamEnd, |pending|, [], pos)
    else
      var fits := if room < |plain| - pos then room else |plain| - pos;
      var n := if 1 <= take(pos, room) <= fits then take(pos, room) else fits;
      Step(if pos + n == |plain| then StreamEnd else Ok, |pending|, plain[pos..pos + n], pos + n)
  }

  /** The reference decoder as a codec: it keeps liblzma's contract, and
      every LZMA_OK it returns with room to write has written a byte. */
  function Replay(plain: seq<Byte>, take: (nat, nat) -> nat): (codec: Codec<nat>)
    ensures Bounded(codec) && Progressing(codec, ReplayRank(plain))
  {
    (pos: nat, pending: seq<Byte>, room: nat) => ReplayStep(plain, take, pos, pending, room)
  }

  /** How much of `plain` is still to be written. */
  function ReplayRank(plain: seq<Byte>): (rank: nat -> nat)
    ensures forall pos: nat :: pos < |plain| ==> rank(pos) > 0
  {
    (pos: nat) => if pos <= |plain| then |plain| - pos else 0
  }

  /** From any loop state whose buffer holds the first bytes of `plain`,
      and with an allocator that never fails, the loop ends with
      LZMA_STREAM_END and exactly `plain` in the buffer. */
  lemma {:induction false} ReplayRun(plain: seq<Byte>, take: (nat, nat) -> nat, input: seq<Byte>,
                                     canAlloc: nat -> bool, m: Machine<nat>)
    requires forall n: nat :: canAlloc(n)
    requires Valid(input, m) && m.stream.dec == |m.data| <= |plain| && m.data == plain[..|m.data|]
    requires m.ret == Ok || (m.ret == StreamEnd && m.data == plain)
    ensures Run(input, Replay(plain, take), ReplayRank(plain), canAlloc, m).Continue?
    ensures var r := Run(input, Replay(plain, take), ReplayRank(plain), canAlloc, m);
            r.m.ret == StreamEnd && r.m.data == plain
    decreases |plain| - |m.data|, if m.ret == Ok then 1 else 0
  {
    var codec, rank := Replay(plain, take), ReplayRank(plain);
    if m.ret == Ok {
      var s := m.stream;
      var pos := |m.data|;
      var step := ReplayStep(plain, take, pos, input[s.nextIn..], s.availOut);
      var m1 := Code(input, codec, m);
      assert m1.data == m.data + step.written && m1.ret == step.ret && m1.stream.dec == step.next;
      assert m1.data == plain[..step.next] && step.next <= |plain|;
      assert step.ret == StreamEnd ==> m1.data == plain;
      assert step.ret == Ok || step.ret == StreamEnd;
      var next := Iterate(input, codec, rank, canAlloc, m);
      assert next.Continue?;
      var m' := next.m;
      assert m'.data == m1.data && m'.ret == m1.ret && m'.stream.dec == m1.stream.dec;
      ReplayRun(plain, take, input, canAlloc, m');
    }
  }

  /** Round trip: for a decoder that writes `plain` in chunks of any sizes
      it chooses, some leaving room at the cursor and some filling the
      buffer, the buffer logic hands back exactly `plain`, with `*out_size`
      equal to its length and below the buffer size; this holds for outputs
      shorter and longer than the first 8192 bytes. */
  lemma ReplayRoundTrip(plain: seq<Byte>, take: (nat, nat) -> nat, input: seq<Byte>, canAlloc: nat -> bool)
    requires forall n: nat :: canAlloc(n)
    ensures var r := Decompression(input, Ok, 0, Replay(plain, take), ReplayRank(plain), canAlloc);
            r.Done? && r.data == plain && |plain| < r.capacity
  {
    ReplayRun(plain, take, input, canAlloc, Start(input, 0));
  }

  /** The regrowth does not look at the decoder's status: when the call that
      returns LZMA_STREAM_END fills the buffer exactly, the buffer is still
      doubled, and if that `realloc` fails the process exits with status 1
      although the whole stream was decoded. */
  lemma FinalFullStepStillRegrows(plain: seq<Byte>, take: (nat, nat) -> nat, input: seq<Byte>,
                                  canAlloc: nat -> bool)
    requires |plain| == InitialCapacity && take(0, InitialCapacity) >= InitialCapacity
    requires canAlloc(InitialCapacity) && !canAlloc(2 * InitialCapacity)
    ensures Decompression(input, Ok, 0, Replay(plain, take), ReplayRank(plain), canAlloc)
              == Exit(1, ReallocFailed(2 * InitialCapacity))
  {
  }
}
