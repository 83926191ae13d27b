# goblin `tinit`: the module decompressor and the initramfs teardown callback

`tinit` is the first process of goblin's virtual-machine initramfs. It loads
`.xz`-compressed kernel modules, tears the initramfs down, mounts the real
root and `exec`s its `init`. This project models and proves the two pieces of
`tinit/util.c` that contain logic:

- `decompress`, the growing output buffer around the liblzma decoder. The
  buffer starts at 8192 bytes. After each `lzma_code` call that fills it,
  the buffer is doubled with `realloc`, and the decoder's cursor is re-pointed
  to `out + total_out` with `capacity - total_out` bytes of room. The loop
  runs while the decoder returns `LZMA_OK`. Only `LZMA_STREAM_END` returns a
  buffer and its length `total_out`. Every other ending, and every failed
  allocation, exits with status 1.
- `del`, the `nftw` callback. It unlinks regular files (`FTW_F`), removes
  directories after their contents (`FTW_DP`), ignores every other entry
  type, and always returns 0, so the walk never stops early.

Files:

- `lzma.dfy` (module `Lzma`): liblzma's `lzma_ret` codes and the decoder
  call as an abstract step, `Codec<D>`. A step gets the decoder state, the
  pending input and `avail_out`. It returns a status, the number of bytes
  consumed, the bytes written at the cursor and the next state. `Bounded`
  is liblzma's contract for the call: it never reads past `avail_in` and
  never writes past `avail_out`. `Progressing` says that an `LZMA_OK`
  returned while there was room means progress, measured by a rank.
- `decompressor.dfy` (module `Decompressor`) has two halves.
  - A model on values: a `Machine` holds the `lzma_stream` fields, the
    buffer size, the bytes written so far and `ret`. The functions `Start`,
    `Code`, `Grow`, `Iterate`, `Run` and `Decompression` are the set-up, the
    decoder call, the regrowth, one loop pass, the loop and the whole
    function.
  - The imperative `Decompress` over an `array`, with `LzmaCode`, `Realloc`
    and `LoopBody`. It is proved to compute exactly what `Decompression`
    says.
- `decompressor_properties.dfy` (module `DecompressorProperties`) holds
  lemmas over whole runs:
  - every buffer size is `8192 * 2^k`, and every such size is a valid
    buffer size;
  - a run on which no decoder call returns `LZMA_STREAM_END` always leads
    to exit 1;
  - a round trip through a reference decoder that writes a fixed plaintext
    in chunks of any size between one byte and the room left, so that a call
    may return `LZMA_OK` with room left or with the buffer full: the buffer
    logic hands back exactly that plaintext, for any length, and so across
    any number of regrowths;
  - the regrowth after the final call can be fatal.
- `teardown.dfy` (module `Teardown`): `del` as a dispatch from entry type to
  system call, and `nftw`'s rule for calling its callback (stop at the first
  non-zero return). It proves that with `del` the walk reaches every entry.

One might expect the buffer to grow only while the stream is unfinished.
The code (tinit/util.c:42) grows after every call that fills the buffer,
including the call that returns `LZMA_STREAM_END`, because it never looks at
`ret` there. The model follows the code, and this has two consequences that
are proved:

- the returned `*out_size` is always strictly smaller than the buffer
  (`Decompression`);
- a stream that decodes to exactly 8192 bytes still asks for a 16384-byte
  buffer. If that `realloc` fails, the process exits with status 1 even
  though decoding succeeded (`FinalFullStepStillRegrows`).

Inputs the model takes as parameters:

- the decoder, as `codec`, with `d0` its initial state and `initRet` what
  `lzma_stream_decoder` returned;
- the allocator's answer for each requested size, as `canAlloc`.

## Model

| member | source | states |
|---|---|---|
| Decompressor.Start | tinit/util.c:30-39 | Before the loop the buffer has 8192 bytes. Nothing has been written, the cursor is at offset 0, `avail_out` equals the buffer size, all input is pending and `ret` is `LZMA_OK`. The loop invariant already holds here. |
| Decompressor.Code | tinit/util.c:41 | A decoder call keeps `total_out + avail_out == capacity` and `next_out == total_out`. It leaves the buffer size alone and only appends to the bytes already written. |
| Decompressor.Grow | tinit/util.c:42-48 | When the space is used up, the regrowth fails (`ReallocFailed(2 * capacity)`) exactly when the allocator refuses double the size. Otherwise the size doubles, the bytes written so far are kept, `ret` and the decoder state are unchanged, and the cursor is re-pointed at `total_out` with room left. The input cursor, `avail_in`, `total_in` and `total_out` are unchanged. |
| Decompressor.Iterate | tinit/util.c:41-49 | One loop pass keeps the invariant: bookkeeping, room at the cursor, size `8192 * 2^k`. Earlier bytes survive. The size doubles exactly when the call's output reached the old size, whatever status the call returned, and otherwise stays the same. A pass that ends in `LZMA_OK` has made progress. A failure is always a refused `realloc` after a call that filled the buffer. |
| Decompressor.Run | tinit/util.c:39-50 | The loop stops only with a status other than `LZMA_OK`, or with a failed regrowth. It does not run at all when `ret` is not `LZMA_OK`. The invariant holds where it stops, the bytes written survive and the size never shrinks. |
| Decompressor.Decompression | tinit/util.c:25-60 | Every failure is exit status 1. A failing `lzma_stream_decoder` exits before anything else, and a failing first `malloc` exits next. On success the returned length `total_out` is strictly smaller than the buffer, and the buffer size is `8192 * 2^k`. |
| Decompressor.LzmaCode | tinit/util.c:41 | On the real array, the decoder's bytes are stored at the cursor. The written prefix and the stream then match `Code`. |
| Decompressor.Realloc | tinit/util.c:44-45 | `realloc` to a larger size returns null exactly when the allocator refuses. Otherwise it returns a new buffer of the requested size that starts with a copy of the old one. |
| Decompressor.LoopBody | tinit/util.c:41-49 | One pass on the real buffer does what `Iterate` says: the same failure, or the same stream, buffer size and written bytes. |
| Decompressor.Decompress | tinit/util.c:25-60 | The imperative function returns exactly what `Decompression` says. On success, `out` is a buffer of the final size, `outSize` is `total_out` and `out[..outSize]` are the bytes written. On every failure nothing is returned (`out` is null) and the exit status and reason are reported. |
| DecompressorProperties.CapacityIsDoubling | tinit/util.c:30-43 | Every buffer size the loop can reach is 8192 times a power of two. |
| DecompressorProperties.DoublingIsCapacity | tinit/util.c:30-43 | Every size 8192 times a power of two is a valid buffer size, so the two descriptions agree. |
| DecompressorProperties.RunWithoutStreamEnd | tinit/util.c:39-50 | If no decoder call made along this run returns `LZMA_STREAM_END` (`NeverEndsOnRun`), the loop never stops with it. The decoder may return it from other states. |
| DecompressorProperties.CorruptStreamExits | tinit/util.c:52-56 | A truncated or corrupt stream, on which no decoder call of this run returns `LZMA_STREAM_END`, always ends in exit status 1 and never returns a buffer. |
| DecompressorProperties.ReplayRun | tinit/util.c:39-50 | From any loop state holding a prefix of the plaintext, the loop ends with `LZMA_STREAM_END` holding exactly the plaintext. This needs a reference decoder and an allocator that never fails. |
| DecompressorProperties.ReplayRoundTrip | tinit/util.c:25-60 | Round trip: the reference decoder writes a plaintext of any length, in chunks of any size it chooses between one byte and the room left. `decompress` returns exactly that plaintext, with `*out_size` equal to its length and smaller than the buffer. |
| DecompressorProperties.FinalFullStepStillRegrows | tinit/util.c:42-45 | When the call that returns `LZMA_STREAM_END` fills the 8192-byte buffer exactly, the buffer is still doubled. If that `realloc` fails, the outcome is exit 1 with `ReallocFailed(16384)`. |
| Teardown.Del | tinit/util.c:62-76 | `del` returns 0 for every entry. It unlinks the path exactly for `FTW_F` and removes it exactly for `FTW_DP`, and does nothing for every other type. |
| Teardown.Walk | tinit/main.c:47 | `nftw` calls the callback on the entries in order, and stops at the first non-zero return value, which it returns. It returns 0 only after every entry has been visited. |
| Teardown.TeardownVisitsEverything | tinit/util.c:75 | With `del` as the callback the walk never stops early. It makes `del`'s call for every entry, in order, and returns 0. |
| Teardown.TeardownRemoves | tinit/util.c:66-73 | The teardown unlinks exactly the regular files it is shown and removes exactly the directories reported after their contents. It touches nothing else. |

## Left out

- `load` (tinit/util.c:12-23) is not modelled. It is `stat`/`open`/`mmap` file I/O. Its check of `mmap`'s result against `NULL` rather than `MAP_FAILED` is a system-call detail.
- tinit/main.c is not modelled, apart from the rule by which `nftw` drives `del`. It is a straight sequence of checked system calls: reading the manifest with `getline`, `init_module`, `mkdir`, `mount`, `chdir`, `chroot`, `execl`.
- The liblzma decoder is not modelled: `lzma_stream_decoder` with its memory limit `UINT64_MAX` and flags 0, `lzma_code` and `lzma_end`. It appears only as the abstract step `Codec` with liblzma's buffer contract.
- Decompress, Decompression, Run, Iterate and LoopBody require `Progressing`: every `LZMA_OK` returned while there was output room lowers a rank. The C loop has no such guarantee. A decoder that returned `LZMA_OK` forever would make it spin, and the model does not represent a loop that never ends.
- The integer widths are not modelled: `size_t` for `out_buffer_size` and `uint64_t` for `total_out`. Sizes are unbounded, so the overflow of `out_buffer_size *= 2` after 51 doublings on a 64-bit machine is not represented. Allocation failure comes long before it.
- Allocation is a fixed answer per requested size (`canAlloc`). An allocator that refuses a size once and grants it later is not represented.
- Bytes of the buffer beyond `total_out` are uninitialised in C. In the model they hold zeros, and no contract mentions them.
- The messages printed by `err` and `warn` are not modelled. `free` followed by `exit(1)` is modelled as returning no buffer together with the exit status and its reason.
- `Walk` takes the entries in the order `nftw` reports them. It does not model how `nftw("/", del, 100, FTW_DEPTH)` builds that order: depth-first post-order, at most 100 open directories, and symbolic links followed because `FTW_PHYS` is not set.
- `Walk` does not model `nftw` failing on its own account (it cannot `stat` "/" or runs out of memory), where it returns -1, possibly after visiting part of the tree. tinit/main.c:47 ignores the value `nftw` returns, so nothing in the model depends on it.
