# LibEndian byte-order codec, modelled in Dafny

LibEndian serialises fixed-width integers into byte buffers and reads them
back. The static class `LittleEndian` lays every field out least significant
byte first. `BigEndian` lays it out most significant byte first. Both cover
unsigned widths of 8, 16, 32, 48 and 64 bits. Signed integers and floats go
through the unsigned codec by reinterpreting their bit pattern. The shared
base class `LibEndian` holds the width constants and the `IS_16/32/64_ALIGNED`
tests. Those tests gate optional native load/store fast paths, which are
compiled in with `LIBENDIAN_ENABLE_BSWAP`.

The model has six modules:

- `LibEndian`: the width constants, the alignment predicates and the facts relating them.
- `Bytes`: the reference meaning of a byte layout. It defines the little- and big-endian value of a byte
  sequence (`LeValue`, `BeValue`), the bytes of a value (`LeBytes`, `BeBytes`), `Splice` (a buffer with a
  run of bytes written at an offset), two's complement, and the index arithmetic of a stride loop (`RoundUp`).
- `Platform`: what the codec takes from the machine.
  - The build configuration `Config(hostBigEndian, bswapEnabled)`.
  - Native loads and stores in host byte order.
  - `bswap_16/32/64`, and `memcpy`/`memmove`, each given by its effect on bytes.
- `Conversion`: what the `MEMCPY_16/32/64` aligned loops of both classes leave in the destination.
- `LittleEndian` and `BigEndian`: the two classes.
  - Decoders are functions over `seq<uint8>` at an offset `o`.
  - Encoders are methods that write an `array<uint8>` in place and state the whole new buffer
    (`Splice(old(buf[..]), o, bytes)`), so every byte outside the field is unchanged.
  - Cursor overloads return the advanced length.
  - `MEMCPY_n` is a loop over an `array`.
  - `base` is the address of `buf[0]`. A fast path is taken when `base + o` is aligned, which is how
    `&buf[offset]` is tested in the source.

Several fast paths do not compute what the byte-by-byte paths compute. Each
one is modelled as written. Its contract states exactly what it yields, and
a concrete lemma exhibits the divergence. A corrected member with the
intended property proved sits next to it (see "## Findings"). Round-trip
lemmas are stated for the paths on which they hold.

Where a documentation comment in the source disagrees with the code, the model follows the code:

- `FLOAT32_SIZE` is 4, although its comment says 6 bytes.
- `MEMCPY_n` documents `count` as a number of elements, but the aligned loop uses it as a byte bound.

## Model

| member | source | states |
|---|---|---|
| LibEndian.Is16Aligned | src/LibEndian.hpp:103 | IS_16_ALIGNED on an integer address: the address is even (definition) |
| LibEndian.Is32Aligned | src/LibEndian.hpp:104 | IS_32_ALIGNED: the address is a multiple of 4 (definition) |
| LibEndian.Is64Aligned | src/LibEndian.hpp:105 | IS_64_ALIGNED: the address is a multiple of 8 (definition) |
| LibEndian.Is16AlignedPtr | src/LibEndian.hpp:107 | the pointer overload of IS_16_ALIGNED: the integer test on the pointer's address (definition) |
| LibEndian.Is32AlignedPtr | src/LibEndian.hpp:108 | the pointer overload of IS_32_ALIGNED (definition) |
| LibEndian.Is64AlignedPtr | src/LibEndian.hpp:109 | the pointer overload of IS_64_ALIGNED (definition) |
| LibEndian.AlignedTo | src/LibEndian.hpp:103-105 | the alignment test MEMCPY_16/32/64 apply for an element width of 2, 4 or 8: IS_16, IS_32 or IS_64_ALIGNED (definition) |
| LibEndian.SizesAgree | src/LibEndian.hpp:77-101 | each signed width equals its unsigned width; FLOAT32_SIZE == UINT32_SIZE == 4 and FLOAT64_SIZE == UINT64_SIZE == 8 |
| LibEndian.AlignedIsMultiple | src/LibEndian.hpp:103-105 | IS_16/32/64_ALIGNED hold exactly when the address is a multiple of 2, 4, 8 |
| LibEndian.AlignmentChain | src/LibEndian.hpp:103-105 | 64-aligned implies 32-aligned, which implies 16-aligned |
| LibEndian.AlignedStep | src/LibEndian.hpp:103-105 | an aligned address plus a whole number of widths stays aligned |
| LibEndian.PointerOverloads | src/LibEndian.hpp:107-109 | the pointer overloads agree with the integer overloads on the pointer's address |
| Bytes.LeRoundTrip | src/LittleEndian.hpp:328-347 | the little-endian value of the n bytes of v is v mod 256^n |
| Bytes.BeRoundTrip | src/BigEndian.hpp:329-333 | the big-endian value of the n bytes of v is v mod 256^n |
| Bytes.BeBytesIsReverse | src/BigEndian.hpp:340-346 | for every width, the big-endian bytes of v are its little-endian bytes reversed |
| Bytes.SignedPattern | src/BigEndian.hpp:394 | an n-byte signed value's two's-complement pattern (v mod 256^n), read back as signed, is v |
| Bytes.TwosComplement | src/LittleEndian.hpp:452 | storing v mod 256^n little-endian and reading it back as signed gives v |
| Bytes.RoundUp | src/LittleEndian.hpp:709-710 | where a loop `i < n; i += width` stops: the least multiple of width at or above n, below n + width and at most n * width |
| Bytes.RoundUpMultiple | src/LittleEndian.hpp:709-710 | a bound that is a multiple of the stride is reached exactly |
| Platform.HostBytes | src/LittleEndian.hpp:341 | the bytes a native n-byte store of v writes, lowest address first: little-endian on a little-endian host, big-endian on a big-endian one; always n bytes |
| Platform.NativeLoad | src/LittleEndian.hpp:57 | a native load is the value whose native store gives back the bytes read, and it is below 256^n |
| Platform.NativeRoundTrip | src/LittleEndian.hpp:340 | a native store followed by a native load of the same width keeps the low n bytes |
| Platform.Bswap | src/LittleEndian.hpp:334 | bswap is the n-byte value whose little-endian bytes are the big-endian bytes of v |
| Platform.BswapInvolution | src/LittleEndian.hpp:334 | swapping twice gives back the low n bytes |
| Platform.SwapThenStore | src/LittleEndian.hpp:334 | swap then native store writes the order opposite to the host's |
| Platform.LoadThenSwap | src/BigEndian.hpp:58 | native load then swap reads the order opposite to the host's |
| Platform.BswapOfByte | src/LittleEndian.hpp:54 | swapping one byte widened to n bytes moves it to the top byte |
| Platform.SwappedByteMasked | src/LittleEndian.hpp:97 | a swapped single byte masked to 48 bits is 0 |
| Platform.SignedReadAsWritten | src/LittleEndian.hpp:153-191 | GET_INT16..64 as written: one byte plus the bytes next to the local, loaded natively as signed; on a little-endian host the low byte is buf[o] |
| Platform.Store | src/LittleEndian.hpp:340 | a native store changes exactly the stored run of bytes |
| Platform.Overlap | src/LittleEndian.hpp:714 | OVERLAP on the two ranges: the same array and intersecting byte ranges (definition) |
| Platform.Memmove | src/LittleEndian.hpp:715 | memmove: dest receives the source bytes as they were before the call, even when the ranges overlap |
| Platform.CopyOne | src/LittleEndian.hpp:717 | one byte of a forward copy extends the copied prefix by one |
| Platform.Memcpy | src/BigEndian.hpp:656 | memcpy over disjoint ranges: dest receives the source bytes |
| Platform.CopyBytes | src/LittleEndian.hpp:714-717 | `OVERLAP ? memmove : memcpy` always leaves the original source bytes in dest |
| Conversion.ConvertedSlot | src/LittleEndian.hpp:710 | what the loop stores for one element: with bswap off its bytes reversed; on the swap fast path the first byte alone, at the element's least significant position, zeros elsewhere; the same length as the element |
| Conversion.Converted | src/LittleEndian.hpp:709-710 | a run of elements converted one by one with ConvertedSlot, a trailing part shorter than one element unchanged; the same length as the run |
| Conversion.ConvertedAppend | src/LittleEndian.hpp:709-710 | converting a run of whole elements followed by more is converting each part |
| Conversion.ConvertedElement | src/LittleEndian.hpp:709-710 | the element at byte i of the converted run is the conversion of the source element at byte i |
| Conversion.ConvertedTwice | src/BigEndian.hpp:651-652 | without the swap fast path, converting twice gives back the source bytes |
| Conversion.SwappedByteBigStore | src/LittleEndian.hpp:54 | a swapped single byte stored big-endian is the byte followed by zeros |
| Conversion.SwappedByteLittleStore | src/BigEndian.hpp:58 | a swapped single byte stored little-endian is zeros followed by the byte |
| Conversion.ReversedBigStore | src/LittleEndian.hpp:710 | a little-endian reading stored big-endian reverses the bytes |
| Conversion.ReversedLittleStore | src/BigEndian.hpp:652 | a big-endian reading stored little-endian reverses the bytes |
| Conversion.LoopExit | src/LittleEndian.hpp:709 | the loop `i < bound; i += width` exits at RoundUp(bound, width) |
| Conversion.LoopBoundShortfall | src/LittleEndian.hpp:709 | with two or more elements the loop stops before count * width bytes |
| Conversion.ConvertStep | src/LittleEndian.hpp:709-710 | storing the next converted element extends the converted prefix in dest |
| Conversion.LoopWindow | src/LittleEndian.hpp:709-710 | the source bytes still to be read are unchanged, also when dest and src are the same array |
| LittleEndian.SwapsFirstByte | src/LittleEndian.hpp:52-54 | the decoders' swap fast path is taken: bswap enabled, big-endian host and an aligned field (definition) |
| LittleEndian.Assembly2 | src/LittleEndian.hpp:60-61 | the shift-or of two bytes is their little-endian value |
| LittleEndian.Assembly4 | src/LittleEndian.hpp:80-83 | the shift-or of four bytes is their little-endian value |
| LittleEndian.Assembly6 | src/LittleEndian.hpp:103-108 | the shift-or of six bytes is their little-endian value |
| LittleEndian.Assembly8 | src/LittleEndian.hpp:127-134 | the shift-or of eight bytes is their little-endian value |
| LittleEndian.Disassembly2 | src/LittleEndian.hpp:345-346 | the `(val >> 8k) & 0xFF` bytes are the little-endian bytes of val |
| LittleEndian.Disassembly4 | src/LittleEndian.hpp:371-374 | as Disassembly2 for four bytes |
| LittleEndian.Disassembly6 | src/LittleEndian.hpp:400-405 | as Disassembly2 for six bytes |
| LittleEndian.Disassembly8 | src/LittleEndian.hpp:430-437 | as Disassembly2 for eight bytes |
| LittleEndian.GetUInt8 | src/LittleEndian.hpp:39-42 | GET_UINT8 is the value of the one byte |
| LittleEndian.GetUInt16 | src/LittleEndian.hpp:49-62 | GET_UINT16 is the little-endian value of buf[o..o+2], also on the aligned native load of a little-endian host; on the big-endian swap fast path it is buf[o] * 0x100 |
| LittleEndian.GetUInt32 | src/LittleEndian.hpp:69-84 | as GET_UINT16 over four bytes; swap fast path buf[o] * 2^24 |
| LittleEndian.NativeLoad48Agrees | src/LittleEndian.hpp:100 | a little-endian 64-bit load masked to 48 bits is the value of the first six bytes |
| LittleEndian.ReadBytes48 | src/LittleEndian.hpp:103-108 | the byte path of GET_UINT48 reads only buf[o..o+6] and yields their little-endian value, below 2^48 |
| LittleEndian.GetUInt48 | src/LittleEndian.hpp:92-109 | GET_UINT48 is below 2^48 and is the little-endian value of buf[o..o+6]; on the big-endian swap fast path it is 0 |
| LittleEndian.GetUInt64 | src/LittleEndian.hpp:116-135 | as GET_UINT16 over eight bytes; swap fast path buf[o] * 2^56 |
| LittleEndian.GetInt8 | src/LittleEndian.hpp:142-146 | GET_INT8 is congruent to the byte mod 256, and negative exactly when the byte is at least 0x80 |
| LittleEndian.SetUInt8 | src/LittleEndian.hpp:318-321 | SET_UINT8 writes val at buf[o]; nothing else changes |
| LittleEndian.SetUInt16 | src/LittleEndian.hpp:328-347 | SET_UINT16 writes the two little-endian bytes of val at buf[o..o+2] on every path; nothing else changes |
| LittleEndian.SetUInt32 | src/LittleEndian.hpp:354-375 | as SET_UINT16 over four bytes |
| LittleEndian.NativeStore48 | src/LittleEndian.hpp:383-399 | the 48-bit fast store writes eight bytes: on a little-endian host the six bytes then 00 00; on a big-endian host 00 00 then bytes 2..8 of the little-endian word |
| LittleEndian.LowWordBytes | src/LittleEndian.hpp:395 | a word below 2^48 stored over eight bytes has two zero top bytes |
| LittleEndian.NativeStore48Bytes | src/LittleEndian.hpp:383-399 | what the masked native store writes, in terms of the little-endian bytes of val |
| LittleEndian.SetUInt48 | src/LittleEndian.hpp:383-406 | SET_UINT48 writes NativeStore48 over eight bytes on the fast path, else the six little-endian bytes of val; nothing else changes |
| LittleEndian.WriteBytes48 | src/LittleEndian.hpp:400-405 | the byte path of SET_UINT48 writes exactly the six little-endian bytes |
| LittleEndian.SetUInt64 | src/LittleEndian.hpp:413-438 | as SET_UINT16 over eight bytes |
| LittleEndian.SetInt8 | src/LittleEndian.hpp:445 | SET_INT8 writes the two's-complement byte of val |
| LittleEndian.SetInt16 | src/LittleEndian.hpp:452 | SET_INT16 writes the little-endian bytes of val mod 2^16 |
| LittleEndian.SetInt32 | src/LittleEndian.hpp:459 | SET_INT32 writes the little-endian bytes of val mod 2^32 |
| LittleEndian.SetInt48 | src/LittleEndian.hpp:467 | SET_INT48 writes val mod 2^64 through SET_UINT48, on either of its paths |
| LittleEndian.SetInt64 | src/LittleEndian.hpp:474 | SET_INT64 writes the little-endian bytes of val mod 2^64 |
| LittleEndian.SetUInt8Cursor | src/LittleEndian.hpp:595 | same buffer effect as SET_UINT8; length grows by 1 |
| LittleEndian.SetUInt16Cursor | src/LittleEndian.hpp:604 | same buffer effect as SET_UINT16; length grows by 2 |
| LittleEndian.SetUInt32Cursor | src/LittleEndian.hpp:613 | same buffer effect as SET_UINT32; length grows by 4 |
| LittleEndian.SetUInt48Cursor | src/LittleEndian.hpp:623 | same buffer effect as SET_UINT48; length grows by 6, even when the fast path wrote 8 bytes |
| LittleEndian.SetUInt64Cursor | src/LittleEndian.hpp:632 | same buffer effect as SET_UINT64; length grows by 8 |
| LittleEndian.SetInt8Cursor | src/LittleEndian.hpp:641 | same buffer effect as SET_INT8; length grows by 1 |
| LittleEndian.SetInt16Cursor | src/LittleEndian.hpp:650 | same buffer effect as SET_INT16; length grows by 2 |
| LittleEndian.SetInt32Cursor | src/LittleEndian.hpp:659 | same buffer effect as SET_INT32; length grows by 4 |
| LittleEndian.SetInt48Cursor | src/LittleEndian.hpp:669 | same buffer effect as SET_INT48; length grows by 6 |
| LittleEndian.SetInt64Cursor | src/LittleEndian.hpp:678 | same buffer effect as SET_INT64; length grows by 8 |
| LittleEndian.SetFloat32Cursor | src/LittleEndian.hpp:687 | the float's 32-bit pattern written as SET_UINT32 writes it; length grows by 4 |
| LittleEndian.SetFloat64Cursor | src/LittleEndian.hpp:696 | the double's 64-bit pattern written as SET_UINT64 writes it; length grows by 8 |
| LittleEndian.WriteRecord | src/LittleEndian.hpp:595-632 | a uint8, a uint32 and a uint64 written at the cursor lie back to back, and the cursor moves by 13 |
| LittleEndian.EncodeDeadBeef | src/LittleEndian.hpp:354-375 | SET_UINT32 of 0xDEADBEEF at offset 2 of eight zero bytes gives 00 00 EF BE AD DE 00 00 on every build |
| LittleEndian.RoundTrip8 | src/LittleEndian.hpp:318-321 | GET_UINT8 reads back what SET_UINT8 wrote, at any offset |
| LittleEndian.RoundTrip16 | src/LittleEndian.hpp:328-347 | off the swap fast path, GET_UINT16 reads back what SET_UINT16 wrote |
| LittleEndian.RoundTrip32 | src/LittleEndian.hpp:354-375 | off the swap fast path, GET_UINT32 reads back what SET_UINT32 wrote |
| LittleEndian.RoundTrip48 | src/LittleEndian.hpp:383-406 | off the swap fast path, GET_UINT48 reads back v mod 2^48 after either path of SET_UINT48 |
| LittleEndian.RoundTrip64 | src/LittleEndian.hpp:413-438 | off the swap fast path, GET_UINT64 reads back what SET_UINT64 wrote |
| LittleEndian.RoundTripInt8 | src/LittleEndian.hpp:142-146 | GET_INT8 reads back the value SET_INT8 wrote |
| LittleEndian.CorrectedSwapLoad | src/LittleEndian.hpp:54 | load-then-swap on a big-endian host is the little-endian value |
| LittleEndian.SwapFastPathDiverges | src/LittleEndian.hpp:54 | on a big-endian host with bswap, GET_UINT16 of 01 02 is 0x0100 where the intended decode is 0x0201 |
| LittleEndian.SwapFastPathBreaksRoundTrip | src/LittleEndian.hpp:54 | on that build GET_UINT16 does not read back 0x0201 after SET_UINT16 wrote it |
| LittleEndian.SwapFastPath48Zero | src/LittleEndian.hpp:97 | on that build GET_UINT48 of 01 00 00 00 00 00 is 0, where the intended decode is 1 |
| LittleEndian.SignedReadDropsHighBytes | src/LittleEndian.hpp:153-157 | GET_INT16 as written reads 02 01 as 2 when the byte beside the local is 0, where the intended value is 0x0102 |
| LittleEndian.GetInt16 | src/LittleEndian.hpp:153-157 | GET_INT16 as intended: congruent to GET_UINT16 mod 2^16 and negative exactly when bit 15 is set |
| LittleEndian.GetInt32 | src/LittleEndian.hpp:164-168 | as GetInt16 for 32 bits |
| LittleEndian.GetInt48 | src/LittleEndian.hpp:176-180 | the 48-bit pattern sign-extended |
| LittleEndian.GetInt64 | src/LittleEndian.hpp:187-191 | as GetInt16 for 64 bits |
| LittleEndian.RoundTripInt16 | src/LittleEndian.hpp:452 | off the swap fast path, the intended GET_INT16 reads back what SET_INT16 wrote |
| LittleEndian.RoundTripInt32 | src/LittleEndian.hpp:459 | the same for 32 bits |
| LittleEndian.RoundTripInt48 | src/LittleEndian.hpp:467 | off the swap fast path, GET_INT48 reads back a value in the 48-bit range that SET_INT48 wrote, on either path of SET_UINT48 |
| LittleEndian.RoundTripInt64 | src/LittleEndian.hpp:474 | the same for 64 bits |
| LittleEndian.Store48ClearsNext | src/LittleEndian.hpp:395 | on a little-endian host the fast SET_UINT48 zeroes the two bytes after the field |
| LittleEndian.Store48WrongBytes | src/LittleEndian.hpp:389 | on a big-endian host the fast SET_UINT48 of any value whose low byte is not 0 writes a field that is not its six little-endian bytes |
| LittleEndian.FastPath48Overruns | src/LittleEndian.hpp:98-100 | for a field at an 8-aligned address ending at the end of the buffer, on a little-endian host with bswap: the fast-path condition holds but the eight-byte requirement GetUInt48 and SetUInt48 place on that path fails, the fast store writes two bytes past the buffer, and the byte path reads exactly the six bytes |
| LittleEndian.SetUInt48Corrected | src/LittleEndian.hpp:400-405 | SET_UINT48 as intended: exactly the six little-endian bytes, nothing beyond them |
| LittleEndian.GetUIntN | src/LittleEndian.hpp:710 | the decoder the aligned loop calls for an element of a width |
| LittleEndian.SlotConversion | src/LittleEndian.hpp:710 | on a big-endian host, storing the decoded element natively writes the converted element |
| LittleEndian.SlotRead | src/LittleEndian.hpp:710 | the element read at src[s+i] is the next source element, converted |
| LittleEndian.LoopStep | src/LittleEndian.hpp:709-710 | one iteration extends the converted prefix in dest by one element |
| LittleEndian.ConvertOne | src/LittleEndian.hpp:709-710 | one iteration's store maps the loop state after i bytes to the state after i + width |
| LittleEndian.ConvertSlots | src/LittleEndian.hpp:709-711 | the aligned loop leaves the conversion of the first RoundUp(bound, width) source bytes in dest, nothing else changes |
| LittleEndian.MemcpyRun | src/LittleEndian.hpp:706-717 | the run MEMCPY_n writes at dest: on a big-endian host with src aligned the conversion (Converted) of the first RoundUp(count, width) source bytes, otherwise the count * width source bytes unchanged; never longer than count * width |
| LittleEndian.MemcpyImage | src/LittleEndian.hpp:704-718 | dest after MEMCPY_n: MemcpyRun spliced in at d, every other byte of dest unchanged; the same length as dest |
| LittleEndian.MemcpyN | src/LittleEndian.hpp:704-718 | MEMCPY_n: converted elements up to the loop's stop on a big-endian host with src aligned, else the count * width source bytes unchanged |
| LittleEndian.ConvertPath | src/LittleEndian.hpp:706-712 | the aligned branch yields MemcpyImage |
| LittleEndian.CopyPath | src/LittleEndian.hpp:714-717 | the copy branch yields MemcpyImage |
| LittleEndian.Memcpy16 | src/LittleEndian.hpp:704-718 | MEMCPY_16 leaves MemcpyImage at width 2: on a big-endian host with src 16-bit aligned the converted elements up to the loop's stop, otherwise the count * 2 source bytes, and nothing else of dest changes |
| LittleEndian.Memcpy32 | src/LittleEndian.hpp:726-740 | MEMCPY_32 leaves MemcpyImage at width 4: on a big-endian host with src 32-bit aligned the converted elements up to the loop's stop, otherwise the count * 4 source bytes, and nothing else of dest changes |
| LittleEndian.Memcpy64 | src/LittleEndian.hpp:748-762 | MEMCPY_64 leaves MemcpyImage at width 8: on a big-endian host with src 64-bit aligned the converted elements up to the loop's stop, otherwise the count * 8 source bytes, and nothing else of dest changes |
| LittleEndian.ForwardOverlapFeedsBack | src/LittleEndian.hpp:709-710 | with dest two bytes after src in the same buffer (big-endian host, bswap off, width 2), the second pass stores the first source element unchanged where the reversed second element belongs: 01 02 03 04 gives 01 02 instead of 04 03 |
| LittleEndian.ConvertPathCorrected | src/LittleEndian.hpp:706-712 | the aligned branch as intended, reading from a snapshot of src: dest receives the conversion of the original elements, for any overlap of dest and src |
| LittleEndian.ConvertElements | src/LittleEndian.hpp:709 | the aligned loop as intended, bounded by count * width: every element of src is converted into dest |
| LittleEndian.Deserialized | src/LittleEndian.hpp:699-703 | what MEMCPY_n promise for src (its little-endian elements deserialized in dest): every element reversed on a big-endian host, the bytes as they are on a little-endian host; DeserializedReads states what that means |
| LittleEndian.DeserializedReads | src/LittleEndian.hpp:699-703 | every whole element of the deserialized run loads natively, on either host, as the little-endian value of that source element |
| LittleEndian.UnalignedNotDeserialized | src/LittleEndian.hpp:706-717 | on a big-endian host with src not aligned, MEMCPY_n copy the bytes unchanged, so the first element of dest loads as the big-endian value of the source element, where the deserialized run loads its little-endian value |
| LittleEndian.UnalignedCopyExample | src/LittleEndian.hpp:714-717 | bytes 01 02 at an odd address on a big-endian host: dest holds 01 02 and reads 0x0102, where the deserialized run reads 0x0201 |
| LittleEndian.MemcpyNCorrected | src/LittleEndian.hpp:699-718 | MEMCPY_n as intended: for any alignment of src and any overlap, dest receives the deserialized count * width bytes of the original src and nothing else changes |
| LittleEndian.ConvertFromCopy | src/LittleEndian.hpp:708-710 | the converting half of MemcpyNCorrected: every element, read from a fresh copy of src, lands reversed in dest |
| BigEndian.SwapsFirstByte | src/BigEndian.hpp:56-58 | the decoders' swap fast path is taken: bswap enabled, little-endian host and an aligned field (definition) |
| BigEndian.Assembly2 | src/BigEndian.hpp:61-62 | the shift-or of two bytes is their big-endian value |
| BigEndian.Assembly4 | src/BigEndian.hpp:81-84 | the shift-or of four bytes is their big-endian value |
| BigEndian.Assembly6 | src/BigEndian.hpp:104-109 | the shift-or of six bytes is their big-endian value |
| BigEndian.Assembly8 | src/BigEndian.hpp:128-135 | the shift-or of eight bytes is their big-endian value |
| BigEndian.Disassembly2 | src/BigEndian.hpp:331-332 | the `(val >> 8k) & 0xFF` bytes are the big-endian bytes of val |
| BigEndian.Disassembly4 | src/BigEndian.hpp:342-345 | as Disassembly2 for four bytes |
| BigEndian.Disassembly6 | src/BigEndian.hpp:356-361 | as Disassembly2 for six bytes |
| BigEndian.Disassembly8 | src/BigEndian.hpp:371-378 | as Disassembly2 for eight bytes |
| BigEndian.GetUInt8 | src/BigEndian.hpp:40-43 | GET_UINT8 is the value of the one byte |
| BigEndian.GetUInt16 | src/BigEndian.hpp:50-63 | GET_UINT16 is the big-endian value of buf[o..o+2], also on the aligned native load of a big-endian host; on the little-endian swap fast path it is buf[o] * 0x100 |
| BigEndian.GetUInt32 | src/BigEndian.hpp:70-85 | as GET_UINT16 over four bytes; swap fast path buf[o] * 2^24 |
| BigEndian.NativeLoad48Tail | src/BigEndian.hpp:98 | a big-endian 64-bit load masked to 48 bits is the value of the LAST six bytes |
| BigEndian.ReadBytes48 | src/BigEndian.hpp:103-108 | the byte path of GET_UINT48 reads only buf[o..o+6] and yields their big-endian value, below 2^48 |
| BigEndian.FastPath48Overruns | src/BigEndian.hpp:96-98 | for a field at an 8-aligned address ending at the end of the buffer, on a big-endian host with bswap: the fast-path condition holds but the eight-byte requirement GetUInt48 places on that path fails, while the byte path reads exactly the six bytes |
| BigEndian.GetUInt48 | src/BigEndian.hpp:93-110 | GET_UINT48 is below 2^48; it is the big-endian value of buf[o..o+6] off the fast path, of buf[o+2..o+8] on a big-endian host's fast path, and 0 on the little-endian swap fast path |
| BigEndian.GetUInt64 | src/BigEndian.hpp:117-136 | as GET_UINT16 over eight bytes; swap fast path buf[o] * 2^56 |
| BigEndian.GetInt8 | src/BigEndian.hpp:143-147 | GET_INT8 is congruent to the byte mod 256, and negative exactly when the byte is at least 0x80 |
| BigEndian.SetUInt8 | src/BigEndian.hpp:319-322 | SET_UINT8 writes val at buf[o]; nothing else changes |
| BigEndian.SetUInt16 | src/BigEndian.hpp:329-333 | SET_UINT16 writes the two big-endian bytes of val at buf[o..o+2] on every build; nothing else changes |
| BigEndian.SetUInt32 | src/BigEndian.hpp:340-346 | as SET_UINT16 over four bytes |
| BigEndian.SetUInt48 | src/BigEndian.hpp:354-362 | SET_UINT48 writes the big-endian bytes of val mod 2^48 at exactly buf[o..o+6] |
| BigEndian.SetUInt64 | src/BigEndian.hpp:369-379 | as SET_UINT16 over eight bytes |
| BigEndian.SetInt8 | src/BigEndian.hpp:387 | SET_INT8 writes the two's-complement byte of val |
| BigEndian.SetInt16 | src/BigEndian.hpp:394 | SET_INT16 writes the big-endian bytes of val mod 2^16 |
| BigEndian.SetInt32 | src/BigEndian.hpp:401 | SET_INT32 writes the big-endian bytes of val mod 2^32 |
| BigEndian.SetInt48 | src/BigEndian.hpp:409 | SET_INT48 writes the low six big-endian bytes of val mod 2^64 |
| BigEndian.SetInt64 | src/BigEndian.hpp:416 | SET_INT64 writes the big-endian bytes of val mod 2^64 |
| BigEndian.SetUInt8Cursor | src/BigEndian.hpp:537 | same buffer effect as SET_UINT8; length grows by 1 |
| BigEndian.SetUInt16Cursor | src/BigEndian.hpp:546 | same buffer effect as SET_UINT16; length grows by 2 |
| BigEndian.SetUInt32Cursor | src/BigEndian.hpp:555 | same buffer effect as SET_UINT32; length grows by 4 |
| BigEndian.SetUInt48Cursor | src/BigEndian.hpp:565 | same buffer effect as SET_UINT48; length grows by 6 |
| BigEndian.SetUInt64Cursor | src/BigEndian.hpp:574 | same buffer effect as SET_UINT64; length grows by 8 |
| BigEndian.SetInt8Cursor | src/BigEndian.hpp:583 | same buffer effect as SET_INT8; length grows by 1 |
| BigEndian.SetInt16Cursor | src/BigEndian.hpp:592 | same buffer effect as SET_INT16; length grows by 2 |
| BigEndian.SetInt32Cursor | src/BigEndian.hpp:601 | same buffer effect as SET_INT32; length grows by 4 |
| BigEndian.SetInt48Cursor | src/BigEndian.hpp:611 | same buffer effect as SET_INT48; length grows by 6 |
| BigEndian.SetInt64Cursor | src/BigEndian.hpp:620 | same buffer effect as SET_INT64; length grows by 8 |
| BigEndian.SetFloat32Cursor | src/BigEndian.hpp:629 | the float's 32-bit pattern written as SET_UINT32 writes it; length grows by 4 |
| BigEndian.SetFloat64Cursor | src/BigEndian.hpp:638 | the double's 64-bit pattern written as SET_UINT64 writes it; length grows by 8 |
| BigEndian.EncodeDeadBeef | src/BigEndian.hpp:454 | SET_UINT32 of 0xDEADBEEF at offset 2 of eight zero bytes gives 00 00 DE AD BE EF 00 00 |
| BigEndian.RoundTrip8 | src/BigEndian.hpp:319-322 | GET_UINT8 reads back what SET_UINT8 wrote, at any offset |
| BigEndian.RoundTrip16 | src/BigEndian.hpp:329-333 | off the swap fast path, GET_UINT16 reads back what SET_UINT16 wrote |
| BigEndian.RoundTrip32 | src/BigEndian.hpp:340-346 | off the swap fast path, GET_UINT32 reads back what SET_UINT32 wrote |
| BigEndian.RoundTrip48 | src/BigEndian.hpp:354-362 | off the 48-bit fast path, GET_UINT48 reads back v mod 2^48 |
| BigEndian.RoundTrip64 | src/BigEndian.hpp:369-379 | off the swap fast path, GET_UINT64 reads back what SET_UINT64 wrote |
| BigEndian.RoundTripInt8 | src/BigEndian.hpp:143-147 | GET_INT8 reads back the value SET_INT8 wrote |
| BigEndian.CorrectedSwapLoad | src/BigEndian.hpp:58 | load-then-swap on a little-endian host is the big-endian value |
| BigEndian.SwapFastPathDiverges | src/BigEndian.hpp:58 | on a little-endian host with bswap, GET_UINT16 of 01 02 is 0x0100 where the intended decode is 0x0102 |
| BigEndian.SwapFastPathBreaksRoundTrip | src/BigEndian.hpp:58 | on that build GET_UINT16 does not read back 0x0102 after SET_UINT16 wrote it |
| BigEndian.SwapFastPath48Zero | src/BigEndian.hpp:101 | on that build GET_UINT48 of 00 00 00 00 00 01 is 0, where the intended decode is 1 |
| BigEndian.CorrectedLoad48 | src/BigEndian.hpp:98 | the 64-bit big-endian load shifted right by 16 is the value of the first six bytes |
| BigEndian.Load48ReadsWrongBytes | src/BigEndian.hpp:98 | on a big-endian host with bswap, GET_UINT48 of 00 00 00 00 00 01 00 00 is 0x10000 where the intended decode is 1 |
| BigEndian.Load48BreaksRoundTrip | src/BigEndian.hpp:98 | on that build GET_UINT48 does not read back 1 after SET_UINT48 wrote it |
| BigEndian.SignedReadDropsHighBytes | src/BigEndian.hpp:154-158 | GET_INT16 as written reads 01 02 as 1 when the byte beside the local is 0, where the intended value is 0x0102 |
| BigEndian.GetInt16 | src/BigEndian.hpp:154-158 | GET_INT16 as intended: congruent to GET_UINT16 mod 2^16 and negative exactly when bit 15 is set |
| BigEndian.GetInt32 | src/BigEndian.hpp:165-169 | as GetInt16 for 32 bits |
| BigEndian.GetInt48 | src/BigEndian.hpp:177-181 | the 48-bit pattern sign-extended |
| BigEndian.GetInt64 | src/BigEndian.hpp:188-192 | as GetInt16 for 64 bits |
| BigEndian.RoundTripInt16 | src/BigEndian.hpp:394 | off the swap fast path, the intended GET_INT16 reads back what SET_INT16 wrote |
| BigEndian.RoundTripInt32 | src/BigEndian.hpp:401 | the same for 32 bits |
| BigEndian.RoundTripInt48 | src/BigEndian.hpp:409 | off the 48-bit fast path, the same for values in the 48-bit range |
| BigEndian.RoundTripInt64 | src/BigEndian.hpp:416 | the same for 64 bits |
| BigEndian.GetUIntN | src/BigEndian.hpp:652 | the decoder the aligned loop calls for an element of a width |
| BigEndian.SlotConversion | src/BigEndian.hpp:652 | on a little-endian host, storing the decoded element natively writes the converted element |
| BigEndian.SlotRead | src/BigEndian.hpp:652 | the element read at src[s+i] is the next source element, converted |
| BigEndian.LoopStep | src/BigEndian.hpp:651-652 | one iteration extends the converted prefix in dest by one element |
| BigEndian.ConvertOne | src/BigEndian.hpp:651-652 | one iteration's store maps the loop state after i bytes to the state after i + width |
| BigEndian.ConvertSlots | src/BigEndian.hpp:651-653 | the aligned loop leaves the conversion of the first RoundUp(bound, width) source bytes in dest, nothing else changes |
| BigEndian.MemcpyRun | src/BigEndian.hpp:648-656 | the run MEMCPY_n writes at dest: on a little-endian host with src aligned the conversion (Converted) of the first RoundUp(count, width) source bytes, otherwise the count * width source bytes unchanged; never longer than count * width |
| BigEndian.MemcpyImage | src/BigEndian.hpp:646-657 | dest after MEMCPY_n: MemcpyRun spliced in at d, every other byte of dest unchanged; the same length as dest |
| BigEndian.MemcpyN | src/BigEndian.hpp:646-657 | MEMCPY_n: converted elements up to the loop's stop on a little-endian host with src aligned, else the count * width source bytes (ranges must not overlap) |
| BigEndian.ConvertPath | src/BigEndian.hpp:649-654 | the aligned branch yields MemcpyImage |
| BigEndian.CopyPath | src/BigEndian.hpp:656 | the memcpy branch yields MemcpyImage |
| BigEndian.Memcpy16 | src/BigEndian.hpp:646-657 | MEMCPY_16 leaves MemcpyImage at width 2: on a little-endian host with src 16-bit aligned the converted elements up to the loop's stop, otherwise the count * 2 source bytes, and nothing else of dest changes |
| BigEndian.Memcpy32 | src/BigEndian.hpp:665-676 | MEMCPY_32 leaves MemcpyImage at width 4: on a little-endian host with src 32-bit aligned the converted elements up to the loop's stop, otherwise the count * 4 source bytes, and nothing else of dest changes |
| BigEndian.Memcpy64 | src/BigEndian.hpp:684-695 | MEMCPY_64 leaves MemcpyImage at width 8: on a little-endian host with src 64-bit aligned the converted elements up to the loop's stop, otherwise the count * 8 source bytes, and nothing else of dest changes |
| BigEndian.ForwardOverlapFeedsBack | src/BigEndian.hpp:651-652 | with dest two bytes after src in the same buffer (little-endian host, bswap off, width 2), the second pass stores the first source element unchanged where the reversed second element belongs: 01 02 03 04 gives 01 02 instead of 04 03 |
| BigEndian.ConvertPathCorrected | src/BigEndian.hpp:649-654 | the aligned branch as intended, reading from a snapshot of src: dest receives the conversion of the original elements, for any overlap of dest and src |
| BigEndian.ConvertElements | src/BigEndian.hpp:651 | the aligned loop as intended, bounded by count * width: every element of src is converted into dest |
| BigEndian.Deserialized | src/BigEndian.hpp:641-645 | what MEMCPY_n promise for src (its big-endian elements deserialized in dest): every element reversed on a little-endian host, the bytes as they are on a big-endian host; DeserializedReads states what that means |
| BigEndian.DeserializedReads | src/BigEndian.hpp:641-645 | every whole element of the deserialized run loads natively, on either host, as the big-endian value of that source element |
| BigEndian.UnalignedNotDeserialized | src/BigEndian.hpp:648-656 | on a little-endian host with src not aligned, MEMCPY_n copy the bytes unchanged, so the first element of dest loads as the little-endian value of the source element, where the deserialized run loads its big-endian value |
| BigEndian.UnalignedCopyExample | src/BigEndian.hpp:656 | bytes 01 02 at an odd address on a little-endian host: dest holds 01 02 and reads 0x0201, where the deserialized run reads 0x0102 |
| BigEndian.MemcpyNCorrected | src/BigEndian.hpp:641-657 | MEMCPY_n as intended: for any alignment of src and any overlap, dest receives the deserialized count * width bytes of the original src and nothing else changes |
| BigEndian.ConvertFromCopy | src/BigEndian.hpp:650-652 | the converting half of MemcpyNCorrected: every element, read from a fresh copy of src, lands reversed in dest |

## Left out

- Floating point: GET/SET_FLOAT32/64 are modelled only as their bit patterns going through the 32/64-bit unsigned
  codec. The plain and offset float getters and setters have no member of their own; the cursor float setters do.
- The `char*` overloads only cast and forward, so they are not modelled separately.
- The offset overloads (`GET_x(buf, offset)`, `SET_x(buf, offset, val)`) forward to `&buf[offset]`. Every member
  takes the offset `o` and decides alignment on `base + o`, so the two overloads are one member each.
- The `Version` accessors and the export and namespace macros are left out, because they carry no logic.
- `bswap_16/32/64` and `OVERLAP` are defined in `EndianHelpers.hpp`, which is not part of this model.
  Bswap is modelled by its effect on bytes. `OVERLAP` is modelled as "same array and intersecting ranges".
- `memcpy` and `memmove` are modelled by their effect on the destination. The model does not capture pointers into
  different allocations that share memory, beyond `dest == src`.
- Real pointers and `uintptr_t` casts are replaced by the `base` address parameter.
- The `int& length` cursor is an unbounded `int`, so overflow of `int` is not modelled.
- `count * width` as `size_t` is unbounded, so its overflow is not modelled.
- The aligned `MEMCPY_n` loop stores each element through `*reinterpret_cast<uintN_t*>(&dest[i])`, but only `src`
  is tested for alignment (src/LittleEndian.hpp:707, 729, 751; src/BigEndian.hpp:649, 668, 687). The store to `dest`
  may therefore be unaligned, which is undefined behaviour on strict-alignment targets. The model gives that store
  its byte effect, the element's bytes in host order, whatever the alignment of `dest`. The case `dest == src` is
  modelled, with the restriction on overlap stated below.
- LittleEndian.GetUInt48: requires eight bytes from `o` when the 48-bit fast path is taken, because that path loads or
  stores a 64-bit word. For a field that ends less than eight bytes before the end of the buffer, the source accesses
  memory past the buffer; that access is not modelled (LittleEndian.FastPath48Overruns, "## Findings").
- LittleEndian.GetInt48: carries the same eight-byte requirement on the 48-bit fast path as LittleEndian.GetUInt48.
- LittleEndian.SetUInt48: carries the same eight-byte requirement on the 48-bit fast path as LittleEndian.GetUInt48.
- LittleEndian.SetInt48: carries the same eight-byte requirement on the 48-bit fast path as LittleEndian.GetUInt48.
- LittleEndian.SetUInt48Cursor: carries the same eight-byte requirement on the 48-bit fast path as LittleEndian.GetUInt48.
- LittleEndian.SetInt48Cursor: carries the same eight-byte requirement on the 48-bit fast path as LittleEndian.GetUInt48.
- LittleEndian.RoundTrip48: carries the same eight-byte requirement on the 48-bit fast path as LittleEndian.GetUInt48.
- LittleEndian.RoundTripInt48: carries the same eight-byte requirement on the 48-bit fast path as LittleEndian.GetUInt48.
- BigEndian.GetUInt48: requires eight bytes from `o` on a big-endian host's 48-bit fast path, which loads a 64-bit
  word. The source reads past a buffer that ends sooner; that read is not modelled (BigEndian.FastPath48Overruns,
  "## Findings").
- BigEndian.GetInt48: carries the same eight-byte requirement as BigEndian.GetUInt48.
- GET_INT16..64 as written read one byte plus whatever lies next to a stack local. This is undefined behaviour.
  `Platform.SignedReadAsWritten` takes those neighbouring bytes as a parameter, and no round trip is claimed for it.
- LittleEndian.MemcpyN: requires that, on the aligned loop path (big-endian host, src aligned) with `dest == src`, the destination
  does not start inside the source after it (`d <= s` or disjoint). The loop reads each element after the stores
  before it, so a forward-overlapping destination reads back bytes it has already converted. That case is not
  modelled by the loop; LittleEndian.ForwardOverlapFeedsBack exhibits it and LittleEndian.ConvertPathCorrected is the intended
  behaviour (see "## Findings").
- LittleEndian.ConvertPath: carries the same overlap restriction as LittleEndian.MemcpyN, for the same reason.
- LittleEndian.ConvertSlots: carries the same overlap restriction as LittleEndian.MemcpyN, for the same reason.
- LittleEndian.ConvertOne: carries the same overlap restriction as LittleEndian.MemcpyN, for the same reason.
- LittleEndian.ConvertElements: carries the same overlap restriction as LittleEndian.MemcpyN, for the same reason.
- LittleEndian.Memcpy16: carries the same overlap restriction as LittleEndian.MemcpyN, for the same reason.
- LittleEndian.Memcpy32: carries the same overlap restriction as LittleEndian.MemcpyN, for the same reason.
- LittleEndian.Memcpy64: carries the same overlap restriction as LittleEndian.MemcpyN, for the same reason.
- BigEndian.MemcpyN: requires that, on the aligned loop path (little-endian host, src aligned) with `dest == src`, the destination
  does not start inside the source after it (`d <= s` or disjoint). The loop reads each element after the stores
  before it, so a forward-overlapping destination reads back bytes it has already converted. That case is not
  modelled by the loop; BigEndian.ForwardOverlapFeedsBack exhibits it and BigEndian.ConvertPathCorrected is the intended
  behaviour (see "## Findings").
- BigEndian.ConvertPath: carries the same overlap restriction as BigEndian.MemcpyN, for the same reason.
- BigEndian.ConvertSlots: carries the same overlap restriction as BigEndian.MemcpyN, for the same reason.
- BigEndian.ConvertOne: carries the same overlap restriction as BigEndian.MemcpyN, for the same reason.
- BigEndian.ConvertElements: carries the same overlap restriction as BigEndian.MemcpyN, for the same reason.
- BigEndian.Memcpy16: carries the same overlap restriction as BigEndian.MemcpyN, for the same reason.
- BigEndian.Memcpy32: carries the same overlap restriction as BigEndian.MemcpyN, for the same reason.
- BigEndian.Memcpy64: carries the same overlap restriction as BigEndian.MemcpyN, for the same reason.
- BigEndian.MemcpyN: requires disjoint ranges off the aligned path, because that path is a plain `memcpy`, whose
  behaviour on overlapping ranges is undefined.
- BigEndian.Memcpy16: requires disjoint ranges off the aligned path, for the same reason as BigEndian.MemcpyN.
- BigEndian.Memcpy32: requires disjoint ranges off the aligned path, for the same reason as BigEndian.MemcpyN.
- BigEndian.Memcpy64: requires disjoint ranges off the aligned path, for the same reason as BigEndian.MemcpyN.
- Conversion.Converted: a trailing part shorter than one element is left as it is. The aligned loop never stops
  inside an element, so this case does not arise from MEMCPY_n.
- Thread safety: the classes have no state, so there is nothing to model.

## Findings

| source | as written | input that shows it | evidently intended | confidence | as-written member | corrected member |
|---|---|---|---|---|---|---|
| src/LittleEndian.hpp:54 | the big-endian-host swap fast path of GET_UINT16/32/64 swaps the first byte widened to the word, `bswap_16(uint16_t(*buf))` | bytes 01 02 at an aligned address, big-endian host, bswap enabled: 0x0100 | swap the loaded word: 0x0201 | high, not executed | LittleEndian.SwapFastPathDiverges | LittleEndian.CorrectedSwapLoad |
| src/LittleEndian.hpp:97 | the same fast path of GET_UINT48 masks a swapped single byte to 48 bits, so it is always 0 | bytes 01 00 00 00 00 00, aligned, big-endian host, bswap: 0 | the little-endian value 1 | high, not executed | LittleEndian.SwapFastPath48Zero | LittleEndian.CorrectedSwapLoad |
| src/BigEndian.hpp:58 | the little-endian-host swap fast path of GET_UINT16/32/64 swaps the first byte widened to the word | bytes 01 02, aligned, little-endian host, bswap: 0x0100 | swap the loaded word: 0x0102 | high, not executed | BigEndian.SwapFastPathDiverges | BigEndian.CorrectedSwapLoad |
| src/BigEndian.hpp:101 | the same fast path of GET_UINT48 is always 0 | bytes 00 00 00 00 00 01, aligned, little-endian host, bswap: 0 | the big-endian value 1 | high, not executed | BigEndian.SwapFastPath48Zero | BigEndian.CorrectedSwapLoad |
| src/BigEndian.hpp:98 | on a big-endian host GET_UINT48 masks the 64-bit load to its low 48 bits, which are bytes 2..8 | bytes 00 00 00 00 00 01 00 00, aligned, big-endian host, bswap: 0x10000 | shift the load right by 16 bits: 1 | high, not executed | BigEndian.Load48ReadsWrongBytes | BigEndian.CorrectedLoad48 |
| src/LittleEndian.hpp:395 | on a little-endian host the fast SET_UINT48 stores eight bytes, clearing the two bytes after the field | any value at an aligned address with two more bytes after the field | write six bytes only | high, not executed | LittleEndian.Store48ClearsNext | LittleEndian.SetUInt48Corrected |
| src/LittleEndian.hpp:389 | on a big-endian host the fast SET_UINT48 stores the swapped word masked to 48 bits, that is 00 00 then bytes 2..8 of the little-endian word | value 1 at an aligned address: first byte 00 | first byte 01 | high, not executed | LittleEndian.Store48WrongBytes | LittleEndian.SetUInt48Corrected |
| src/LittleEndian.hpp:100 | on a little-endian host the aligned GET_UINT48 loads a 64-bit word for a six-byte field | a six-byte buffer at an 8-aligned address, little-endian host, bswap enabled: two bytes read past the buffer | read the six bytes of the field, as the byte path does | high, not executed | LittleEndian.FastPath48Overruns | LittleEndian.ReadBytes48 |
| src/LittleEndian.hpp:389-395 | the aligned SET_UINT48 stores a 64-bit word for a six-byte field | a six-byte buffer at an 8-aligned address, little-endian host, bswap enabled: two bytes written past the buffer | write the six bytes of the field | high, not executed | LittleEndian.FastPath48Overruns | LittleEndian.SetUInt48Corrected |
| src/BigEndian.hpp:98 | on a big-endian host the aligned GET_UINT48 loads a 64-bit word for a six-byte field | a six-byte buffer at an 8-aligned address, big-endian host, bswap enabled: two bytes read past the buffer | read the six bytes of the field | high, not executed | BigEndian.FastPath48Overruns | BigEndian.ReadBytes48 |
| src/LittleEndian.hpp:155 | GET_INT16..64 copy one byte into a `uint8_t` local and read the local's address as the wider type | bytes 02 01 with the neighbouring stack byte 0: 2 | the two's-complement reading of GET_UINT16: 0x0102 | high, not executed | LittleEndian.SignedReadDropsHighBytes | LittleEndian.GetInt16 |
| src/BigEndian.hpp:156 | the same in the big-endian class | bytes 01 02 with the neighbouring stack byte 0 on a little-endian host: 1 | 0x0102 | high, not executed | BigEndian.SignedReadDropsHighBytes | BigEndian.GetInt16 |
| src/LittleEndian.hpp:709 | the aligned MEMCPY loop steps i by the width but stops at `i < count`, an element count | count 2, width 2: only the first element is converted | bound count * width, converting every element | high, not executed | Conversion.LoopBoundShortfall | LittleEndian.ConvertElements |
| src/BigEndian.hpp:651 | the same loop bound in the big-endian class | count 2, width 2: only the first element is converted | bound count * width | high, not executed | Conversion.LoopBoundShortfall | BigEndian.ConvertElements |
| src/LittleEndian.hpp:709-710 | the aligned loop reads each element of src after storing the previous ones into dest, so a destination that starts inside the source after it reads back converted bytes | one buffer, dest two bytes after src, width 2, count 4, big-endian host, bswap off, bytes 01 02 03 04: offsets 4..6 become 01 02 | the conversion of the original second element, 04 03 | high, not executed | LittleEndian.ForwardOverlapFeedsBack | LittleEndian.ConvertPathCorrected |
| src/BigEndian.hpp:651-652 | the same loop in the big-endian class | the same buffer on a little-endian host, bswap off: offsets 4..6 become 01 02 | 04 03 | high, not executed | BigEndian.ForwardOverlapFeedsBack | BigEndian.ConvertPathCorrected |
| src/LittleEndian.hpp:714-717 | on a big-endian host with src not aligned, MEMCPY_16/32/64 copy the count * width bytes unchanged, although src's elements are little-endian and are to be deserialized in dest | bytes 01 02 at an odd address, width 2, count 1, big-endian host: dest holds 01 02, which reads natively as 0x0102 | deserialize every element whatever the alignment: dest holds 02 01, read as 0x0201 | high, not executed | LittleEndian.UnalignedNotDeserialized | LittleEndian.MemcpyNCorrected |
| src/BigEndian.hpp:656 | the same in the big-endian class on a little-endian host: the bytes are copied unchanged | bytes 01 02 at an odd address, width 2, count 1, little-endian host: dest reads natively as 0x0201 | dest holds 02 01, read as 0x0102 | high, not executed | BigEndian.UnalignedNotDeserialized | BigEndian.MemcpyNCorrected |
