/**
  The part of liblzma that the decompressor relies on, kept abstract.

  The decoder itself is not modelled. One call of `lzma_code(&stream, LZMA_RUN)`
  is a `Codec<D>`: given the decoder's private state, the input it has not yet
  consumed and the room left at the output cursor, it reports a status, how
  many input bytes it consumed, the bytes it wrote at the cursor and its next
  state. `Bounded` is the contract liblzma gives for that call; `Progressing`
  is the assumption that a decoder which says LZMA_OK while it has output room
  has moved closer to the end of its stream.
*/
module Lzma {

  /** An unsigned 8-bit byte. */
  newtype Byte = b: int | 0 <= b < 0x100

  /** The values of `lzma_ret` that liblzma's decoders return. */
  datatype Ret =
    | Ok                // LZMA_OK: progress was made, call again
    | StreamEnd         // LZMA_STREAM_END: the stream is complete
    | NoCheck           // LZMA_NO_CHECK
    | UnsupportedCheck  // LZMA_UNSUPPORTED_CHECK
    | GetCheck          // LZMA_GET_CHECK
    | MemError          // LZMA_MEM_ERROR
    | MemlimitError     // LZMA_MEMLIMIT_ERROR
    | FormatError       // LZMA_FORMAT_ERROR: not an .xz stream
    | OptionsError      // LZMA_OPTIONS_ERROR
    | DataError         // LZMA_DATA_ERROR: corrupt data
    | BufError          // LZMA_BUF_ERROR: no progress possible (truncated input)
    | ProgError         // LZMA_PROG_ERROR

  /** What one call of the decoder reports. */
  datatype Step<D> = Step(ret: Ret, consumed: nat, written: seq<Byte>, next: D)

  /** One call of `lzma_code`: (decoder state, pending input, avail_out) to its report. */
  type Codec<!D> = (D, seq<Byte>, nat) -> Step<D>

  /** A step stays inside the buffers it was given. */
  predicate Fits<D>(step: Step<D>, pending: seq<Byte>, room: nat)
  {
    step.consumed <= |pending| && |step.written| <= room
  }

  /** liblzma's contract for `lzma_code`: it never reads past `avail_in`
      nor writes past `avail_out`. */
  ghost predicate Bounded<D(!new)>(codec: Codec<D>)
  {
    forall d: D, pending: seq<Byte>, room: nat :: Fits(codec(d, pending, room), pending, room)
  }

  /** A decoder that reports LZMA_OK while it had room to write has made
      progress, measured by `rank`. Without this the decoding loop need not end. */
  ghost predicate Progressing<D(!new)>(codec: Codec<D>, rank: D -> nat)
  {
    forall d: D, pending: seq<Byte>, room: nat ::
      room > 0 && codec(d, pending, room).ret == Ok ==> rank(codec(d, pending, room).next) < rank(d)
  }
}
