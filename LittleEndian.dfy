/**
 * The LittleEndian class: fields are laid out least significant byte
 * first. Decoders read from a byte sequence at an offset; encoders write
 * into a byte array in place. Every operation takes the build
 * configuration and, where alignment matters, `base`, the address of
 * buf[0], so that the fast path taken for &buf[o] is decided on base + o.
 */
module LittleEndian {
  import opened Bytes
  import opened LibEndian
  import opened Platform
  import opened Conversion

  /**
   * Whether a decoder takes the swap fast path built for a big-endian
   * host. That path widens the FIRST BYTE to the word and swaps it
   * (`bswap_n(uintN_t(*buf))`) instead of swapping the loaded word.
   */
  predicate SwapsFirstByte(cfg: Config, aligned: bool)
  {
    cfg.bswapEnabled && cfg.hostBigEndian && aligned
  }

  // ---------------------------------------------------------------------------
  // The shift-and-or formulas of the byte-assembly paths.

  lemma Assembly2(x: seq<uint8>)
    requires |x| == 2
    ensures (x[1] as int) * 0x100 + x[0] == LeValue(x)
  {
    LeValueFrom(x, 0);
    LeValueFrom(x, 1);
    assert x[0..] == x && x[2..] == [];
  }

  lemma Assembly4(x: seq<uint8>)
    requires |x| == 4
    ensures (x[3] as int) * 0x100_0000 + (x[2] as int) * 0x1_0000 + (x[1] as int) * 0x100 + x[0] == LeValue(x)
  {
    LeValueFrom(x, 0);
    LeValueFrom(x, 1);
    LeValueFrom(x, 2);
    LeValueFrom(x, 3);
    assert x[0..] == x && x[4..] == [];
  }

  lemma Assembly6(x: seq<uint8>)
    requires |x| == 6
    ensures (x[5] as int) * 0x100_0000_0000 + (x[4] as int) * 0x1_0000_0000 + (x[3] as int) * 0x100_0000
          + (x[2] as int) * 0x1_0000 + (x[1] as int) * 0x100 + x[0] == LeValue(x)
  {
    LeValueFrom(x, 0);
    LeValueFrom(x, 1);
    LeValueFrom(x, 2);
    LeValueFrom(x, 3);
    LeValueFrom(x, 4);
    LeValueFrom(x, 5);
    assert x[0..] == x && x[6..] == [];
  }

  lemma Assembly8(x: seq<uint8>)
    requires |x| == 8
    ensures (x[7] as int) * 0x100_0000_0000_0000 + (x[6] as int) * 0x1_0000_0000_0000 + (x[5] as int) * 0x100_0000_0000
          + (x[4] as int) * 0x1_0000_0000 + (x[3] as int) * 0x100_0000 + (x[2] as int) * 0x1_0000 + (x[1] as int) * 0x100 + x[0] == LeValue(x)
  {
    LeValueFrom(x, 0);
    LeValueFrom(x, 1);
    LeValueFrom(x, 2);
    LeValueFrom(x, 3);
    LeValueFrom(x, 4);
    LeValueFrom(x, 5);
    LeValueFrom(x, 6);
    LeValueFrom(x, 7);
    assert x[0..] == x && x[8..] == [];
  }

  // The `(val >> 8k) & 0xFF` bytes of the byte-by-byte encoders.

  lemma Disassembly2(v: nat)
    ensures LeBytes(v, 2) == [v % 0x100, (v / 0x100) % 0x100]
  {
    Pow256Values();
    LeBytesAt(v, 2, 0);
    LeBytesAt(v, 2, 1);
  }

  lemma Disassembly4(v: nat)
    ensures LeBytes(v, 4) == [v % 0x100, (v / 0x100) % 0x100, (v / 0x1_0000) % 0x100, (v / 0x100_0000) % 0x100]
  {
    Pow256Values();
    LeBytesAt(v, 4, 0);
    LeBytesAt(v, 4, 1);
    LeBytesAt(v, 4, 2);
    LeBytesAt(v, 4, 3);
  }

  lemma Disassembly6(v: nat)
    ensures LeBytes(v, 6) == [v % 0x100, (v / 0x100) % 0x100, (v / 0x1_0000) % 0x100, (v / 0x100_0000) % 0x100,
                              (v / 0x1_0000_0000) % 0x100, (v / 0x100_0000_0000) % 0x100]
  {
    Pow256Values();
    LeBytesAt(v, 6, 0);
    LeBytesAt(v, 6, 1);
    LeBytesAt(v, 6, 2);
    LeBytesAt(v, 6, 3);
    LeBytesAt(v, 6, 4);
    LeBytesAt(v, 6, 5);
  }

  lemma Disassembly8(v: nat)
    ensures LeBytes(v, 8) == [v % 0x100, (v / 0x100) % 0x100, (v / 0x1_0000) % 0x100, (v / 0x100_0000) % 0x100,
                              (v / 0x1_0000_0000) % 0x100, (v / 0x100_0000_0000) % 0x100,
                              (v / 0x1_0000_0000_0000) % 0x100, (v / 0x100_0000_0000_0000) % 0x100]
  {
    Pow256Values();
    LeBytesAt(v, 8, 0);
    LeBytesAt(v, 8, 1);
    LeBytesAt(v, 8, 2);
    LeBytesAt(v, 8, 3);
    LeBytesAt(v, 8, 4);
    LeBytesAt(v, 8, 5);
    LeBytesAt(v, 8, 6);
    LeBytesAt(v, 8, 7);
  }

  // ---------------------------------------------------------------------------
  // Decoders: GET_UINT8 … GET_UINT64 and GET_INT8 at &buf[o].

  /** GET_UINT8: the byte itself. */
  function GetUInt8(buf: seq<uint8>, o: nat): (r: uint8)
    requires o + UINT8_SIZE <= |buf|
    ensures r == LeValue(buf[o..o + UINT8_SIZE])
  {
    assert buf[o..o + 1][1..] == [];
    buf[o]
  }

  /**
   * GET_UINT16: the little-endian reading of buf[o..o+2], except on the
   * big-endian swap fast path, which yields the first byte moved to the top.
   */
  function GetUInt16(cfg: Config, base: nat, buf: seq<uint8>, o: nat): (r: uint16)
    requires o + UINT16_SIZE <= |buf|
    ensures r == if SwapsFirstByte(cfg, Is16Aligned(base + o)) then buf[o] * 0x100
                 else LeValue(buf[o..o + UINT16_SIZE])
  {
    Pow256Values();
    if cfg.bswapEnabled && Is16Aligned(base + o) then
      if cfg.hostBigEndian then
        BswapOfByte(2, buf[o]);
        Bswap(2, buf[o])
      else
        NativeLoad(cfg, buf[o..o + 2])
    else
      Assembly2(buf[o..o + 2]);
      (buf[o + 1] as int) * 0x100 + buf[o]
  }

  /** GET_UINT32, as GET_UINT16 over four bytes. */
  function GetUInt32(cfg: Config, base: nat, buf: seq<uint8>, o: nat): (r: uint32)
    requires o + UINT32_SIZE <= |buf|
    ensures r == if SwapsFirstByte(cfg, Is32Aligned(base + o)) then buf[o] * 0x100_0000
                 else LeValue(buf[o..o + UINT32_SIZE])
  {
    Pow256Values();
    if cfg.bswapEnabled && Is32Aligned(base + o) then
      if cfg.hostBigEndian then
        BswapOfByte(4, buf[o]);
        Bswap(4, buf[o])
      else
        NativeLoad(cfg, buf[o..o + 4])
    else
      Assembly4(buf[o..o + 4]);
      (buf[o + 3] as int) * 0x100_0000 + (buf[o + 2] as int) * 0x1_0000 + (buf[o + 1] as int) * 0x100 + buf[o]
  }

  /** A native little-endian load of eight bytes masked to 48 bits reads the first six. */
  lemma NativeLoad48Agrees(x: seq<uint8>)
    requires |x| == 8
    ensures LeValue(x) % TWO_48 == LeValue(x[..6])
  {
    assert x == x[..6] + x[6..];
    LeValueAppend(x[..6], x[6..]);
    LeValueBound(x[..6]);
    Pow256Values();
    DivModUnique(LeValue(x), TWO_48, LeValue(x[6..]), LeValue(x[..6]));
  }

  /**
   * GET_UINT48: the little-endian reading of buf[o..o+6]. Its fast path
   * loads a whole 64-bit word, so it reads eight bytes; on a big-endian
   * host it masks a swapped single byte and always yields 0.
   */
  function GetUInt48(cfg: Config, base: nat, buf: seq<uint8>, o: nat): (r: uint64)
    requires o + UINT48_SIZE <= |buf|
    requires cfg.bswapEnabled && !cfg.hostBigEndian && Is64Aligned(base + o) ==> o + UINT64_SIZE <= |buf|
    ensures r < TWO_48
    ensures r == if SwapsFirstByte(cfg, Is64Aligned(base + o)) then 0
                 else LeValue(buf[o..o + UINT48_SIZE])
  {
    Pow256Values();
    if cfg.bswapEnabled && Is64Aligned(base + o) then
      if cfg.hostBigEndian then
        SwappedByteMasked(buf[o]);
        Bswap(8, buf[o]) % TWO_48
      else
        assert buf[o..o + 8][..6] == buf[o..o + 6];
        NativeLoad48Agrees(buf[o..o + 8]);
        NativeLoad(cfg, buf[o..o + 8]) % TWO_48
    else
      ReadBytes48(buf, o)
  }

  /**
   * The byte-by-byte path of GET_UINT48: the shift-or of the six bytes of
   * the field. It reads nothing outside buf[o..o+6].
   */
  function ReadBytes48(buf: seq<uint8>, o: nat): (r: uint64)
    requires o + UINT48_SIZE <= |buf|
    ensures r < TWO_48 && r == LeValue(buf[o..o + UINT48_SIZE])
  {
    Pow256Values();
    Assembly6(buf[o..o + 6]);
    LeValueBound(buf[o..o + 6]);
    (buf[o + 5] as int) * 0x100_0000_0000 + (buf[o + 4] as int) * 0x1_0000_0000 + (buf[o + 3] as int) * 0x100_0000
    + (buf[o + 2] as int) * 0x1_0000 + (buf[o + 1] as int) * 0x100 + buf[o]
  }

  /** GET_UINT64, as GET_UINT16 over eight bytes. */
  function GetUInt64(cfg: Config, base: nat, buf: seq<uint8>, o: nat): (r: uint64)
    requires o + UINT64_SIZE <= |buf|
    ensures r == if SwapsFirstByte(cfg, Is64Aligned(base + o)) then buf[o] * 0x100_0000_0000_0000
                 else LeValue(buf[o..o + UINT64_SIZE])
  {
    Pow256Values();
    if cfg.bswapEnabled && Is64Aligned(base + o) then
      if cfg.hostBigEndian then
        BswapOfByte(8, buf[o]);
        Bswap(8, buf[o])
      else
        NativeLoad(cfg, buf[o..o + 8])
    else
      Assembly8(buf[o..o + 8]);
      (buf[o + 7] as int) * 0x100_0000_0000_0000 + (buf[o + 6] as int) * 0x1_0000_0000_0000 + (buf[o + 5] as int) * 0x100_0000_0000
      + (buf[o + 4] as int) * 0x1_0000_0000 + (buf[o + 3] as int) * 0x100_0000 + (buf[o + 2] as int) * 0x1_0000 + (buf[o + 1] as int) * 0x100 + buf[o]
  }

  /** GET_INT8: the byte reinterpreted as a two's-complement int8_t. */
  function GetInt8(buf: seq<uint8>, o: nat): (r: int8)
    requires o + INT8_SIZE <= |buf|
    ensures r % 0x100 == buf[o]
    ensures r < 0 <==> buf[o] >= 0x80
  {
    Pow256Values();
    ToSigned(GetUInt8(buf, o), INT8_SIZE)
  }

  // ---------------------------------------------------------------------------
  // Encoders: SET_UINT8 … SET_UINT64 and SET_INT8 … SET_INT64 at &buf[o].

  /** SET_UINT8: writes val at buf[o] and nothing else. */
  method SetUInt8(buf: array<uint8>, o: nat, val: uint8)
    requires o + UINT8_SIZE <= buf.Length
    modifies buf
    ensures buf[..] == Splice(old(buf[..]), o, LeBytes(val, UINT8_SIZE))
  {
    buf[o] := val % 0x100;
    SpliceFrom(old(buf[..]), buf[..], o, LeBytes(val, 1));
  }

  /** SET_UINT16: writes the two little-endian bytes of val at buf[o..o+2], whichever path it takes. */
  method SetUInt16(cfg: Config, base: nat, buf: array<uint8>, o: nat, val: uint16)
    requires o + UINT16_SIZE <= buf.Length
    modifies buf
    ensures buf[..] == Splice(old(buf[..]), o, LeBytes(val, UINT16_SIZE))
  {
    if cfg.bswapEnabled && Is16Aligned(base + o) {
      if cfg.hostBigEndian {
        SwapThenStore(cfg, val, 2);
        Store(buf, o, HostBytes(cfg, Bswap(2, val), 2));
      } else {
        Store(buf, o, HostBytes(cfg, val, 2));
      }
      return;
    }
    buf[o + 1] := (val / 0x100) % 0x100;
    buf[o] := val % 0x100;
    Disassembly2(val);
    SpliceFrom(old(buf[..]), buf[..], o, LeBytes(val, 2));
  }

  /** SET_UINT32: writes the four little-endian bytes of val at buf[o..o+4]. */
  method SetUInt32(cfg: Config, base: nat, buf: array<uint8>, o: nat, val: uint32)
    requires o + UINT32_SIZE <= buf.Length
    modifies buf
    ensures buf[..] == Splice(old(buf[..]), o, LeBytes(val, UINT32_SIZE))
  {
    if cfg.bswapEnabled && Is32Aligned(base + o) {
      if cfg.hostBigEndian {
        SwapThenStore(cfg, val, 4);
        Store(buf, o, HostBytes(cfg, Bswap(4, val), 4));
      } else {
        Store(buf, o, HostBytes(cfg, val, 4));
      }
      return;
    }
    buf[o + 3] := (val / 0x100_0000) % 0x100;
    buf[o + 2] := (val / 0x1_0000) % 0x100;
    buf[o + 1] := (val / 0x100) % 0x100;
    buf[o] := val % 0x100;
    Disassembly4(val);
    SpliceFrom(old(buf[..]), buf[..], o, LeBytes(val, 4));
  }

  /**
   * The eight bytes the 48-bit fast path stores: the word (swapped first
   * on a big-endian host) masked to 48 bits, stored natively as 64 bits.
   */
  function NativeStore48(cfg: Config, val: uint64): (r: seq<uint8>)
    ensures |r| == UINT64_SIZE
    ensures !cfg.hostBigEndian ==> r == LeBytes(val, UINT48_SIZE) + [0, 0]
    ensures cfg.hostBigEndian ==> r == [0, 0] + LeBytes(val, UINT64_SIZE)[2..]
  {
    NativeStore48Bytes(cfg, val);
    HostBytes(cfg, (if cfg.hostBigEndian then Bswap(8, val) else val) % TWO_48, 8)
  }

  /** A word below 2^48 stored over eight bytes has two zero bytes at its top. */
  lemma LowWordBytes(word: nat)
    requires word < TWO_48
    ensures LeBytes(word, 8) == LeBytes(word, 6) + [0, 0]
    ensures BeBytes(word, 8) == [0, 0] + BeBytes(word, 6)
  {
    Pow256Values();
    DivModUnique(word, TWO_48, 0, word);
    assert Shift(word, 6) == 0;
    LeBytesSplit(word, 6, 2);
    BeBytesSplit(word, 2, 6);
    assert LeBytes(0, 2) == [0, 0];
    assert BeBytes(0, 2) == [0, 0];
  }

  lemma NativeStore48Bytes(cfg: Config, val: uint64)
    ensures var word := (if cfg.hostBigEndian then Bswap(8, val) else val) % TWO_48;
            !cfg.hostBigEndian ==> HostBytes(cfg, word, 8) == LeBytes(val, 6) + [0, 0]
    ensures var word := (if cfg.hostBigEndian then Bswap(8, val) else val) % TWO_48;
            cfg.hostBigEndian ==> HostBytes(cfg, word, 8) == [0, 0] + LeBytes(val, 8)[2..]
  {
    Pow256Values();
    if cfg.hostBigEndian {
      var w := Bswap(8, val);
      LowWordBytes(w % TWO_48);
      BytesOfLowPart(w, 6);
      BeBytesSplit(w, 2, 6);
      SwapThenStore(cfg, val, 8);
    } else {
      LowWordBytes(val % TWO_48);
      BytesOfLowPart(val, 6);
    }
  }

  /**
   * SET_UINT48. Off the fast path it writes the six little-endian bytes of
   * val. On the fast path it stores NativeStore48 over eight bytes.
   */
  method SetUInt48(cfg: Config, base: nat, buf: array<uint8>, o: nat, val: uint64)
    requires o + UINT48_SIZE <= buf.Length
    requires cfg.bswapEnabled && Is64Aligned(base + o) ==> o + UINT64_SIZE <= buf.Length
    modifies buf
    ensures cfg.bswapEnabled && Is64Aligned(base + o) ==>
      buf[..] == Splice(old(buf[..]), o, NativeStore48(cfg, val))
    ensures !(cfg.bswapEnabled && Is64Aligned(base + o)) ==>
      buf[..] == Splice(old(buf[..]), o, LeBytes(val, UINT48_SIZE))
  {
    if cfg.bswapEnabled && Is64Aligned(base + o) {
      var word := (if cfg.hostBigEndian then Bswap(8, val) else val) % TWO_48;
      Store(buf, o, HostBytes(cfg, word, 8));
      return;
    }
    WriteBytes48(buf, o, val);
  }

  /** The byte-by-byte path of SET_UINT48: six writes of `(val >> 8k) & 0xFF`. */
  method WriteBytes48(buf: array<uint8>, o: nat, val: uint64)
    requires o + UINT48_SIZE <= buf.Length
    modifies buf
    ensures buf[..] == Splice(old(buf[..]), o, LeBytes(val, UINT48_SIZE))
  {
    buf[o + 5] := (val / 0x100_0000_0000) % 0x100;
    buf[o + 4] := (val / 0x1_0000_0000) % 0x100;
    buf[o + 3] := (val / 0x100_0000) % 0x100;
    buf[o + 2] := (val / 0x1_0000) % 0x100;
    buf[o + 1] := (val / 0x100) % 0x100;
    buf[o] := val % 0x100;
    Disassembly6(val);
    SpliceFrom(old(buf[..]), buf[..], o, LeBytes(val, 6));
  }

  /** SET_UINT64: writes the eight little-endian bytes of val at buf[o..o+8]. */
  method SetUInt64(cfg: Config, base: nat, buf: array<uint8>, o: nat, val: uint64)
    requires o + UINT64_SIZE <= buf.Length
    modifies buf
    ensures buf[..] == Splice(old(buf[..]), o, LeBytes(val, UINT64_SIZE))
  {
    if cfg.bswapEnabled && Is64Aligned(base + o) {
      if cfg.hostBigEndian {
        SwapThenStore(cfg, val, 8);
        Store(buf, o, HostBytes(cfg, Bswap(8, val), 8));
      } else {
        Store(buf, o, HostBytes(cfg, val, 8));
      }
      return;
    }
    buf[o + 7] := (val / 0x100_0000_0000_0000) % 0x100;
    buf[o + 6] := (val / 0x1_0000_0000_0000) % 0x100;
    buf[o + 5] := (val / 0x100_0000_0000) % 0x100;
    buf[o + 4] := (val / 0x1_0000_0000) % 0x100;
    buf[o + 3] := (val / 0x100_0000) % 0x100;
    buf[o + 2] := (val / 0x1_0000) % 0x100;
    buf[o + 1] := (val / 0x100) % 0x100;
    buf[o] := val % 0x100;
    Disassembly8(val);
    SpliceFrom(old(buf[..]), buf[..], o, LeBytes(val, 8));
  }

  /** SET_INT8: the two's-complement byte of val. */
  method SetInt8(buf: array<uint8>, o: nat, val: int8)
    requires o + INT8_SIZE <= buf.Length
    modifies buf
    ensures buf[..] == Splice(old(buf[..]), o, LeBytes(val % 0x100, INT8_SIZE))
  {
    SetUInt8(buf, o, val % 0x100);
  }

  /** SET_INT16: the two's-complement pattern of val, written by SET_UINT16. */
  method SetInt16(cfg: Config, base: nat, buf: array<uint8>, o: nat, val: int16)
    requires o + INT16_SIZE <= buf.Length
    modifies buf
    ensures buf[..] == Splice(old(buf[..]), o, LeBytes(val % 0x1_0000, INT16_SIZE))
  {
    SetUInt16(cfg, base, buf, o, val % 0x1_0000);
  }

  /** SET_INT32: the two's-complement pattern of val, written by SET_UINT32. */
  method SetInt32(cfg: Config, base: nat, buf: array<uint8>, o: nat, val: int32)
    requires o + INT32_SIZE <= buf.Length
    modifies buf
    ensures buf[..] == Splice(old(buf[..]), o, LeBytes(val % 0x1_0000_0000, INT32_SIZE))
  {
    SetUInt32(cfg, base, buf, o, val % 0x1_0000_0000);
  }

  /** SET_INT48: the 64-bit two's-complement pattern of val, written by SET_UINT48. */
  method SetInt48(cfg: Config, base: nat, buf: array<uint8>, o: nat, val: int64)
    requires o + INT48_SIZE <= buf.Length
    requires cfg.bswapEnabled && Is64Aligned(base + o) ==> o + UINT64_SIZE <= buf.Length
    modifies buf
    ensures cfg.bswapEnabled && Is64Aligned(base + o) ==>
      buf[..] == Splice(old(buf[..]), o, NativeStore48(cfg, val % TWO_64))
    ensures !(cfg.bswapEnabled && Is64Aligned(base + o)) ==>
      buf[..] == Splice(old(buf[..]), o, LeBytes(val % TWO_64, INT48_SIZE))
  {
    SetUInt48(cfg, base, buf, o, val % TWO_64);
  }

  /** SET_INT64: the two's-complement pattern of val, written by SET_UINT64. */
  method SetInt64(cfg: Config, base: nat, buf: array<uint8>, o: nat, val: int64)
    requires o + INT64_SIZE <= buf.Length
    modifies buf
    ensures buf[..] == Splice(old(buf[..]), o, LeBytes(val % TWO_64, INT64_SIZE))
  {
    SetUInt64(cfg, base, buf, o, val % TWO_64);
  }

  // ---------------------------------------------------------------------------
  // Cursor overloads: write at buf[o] and advance the caller's length by the width.

  /** SET_UINT8 with a length cursor. */
  method SetUInt8Cursor(buf: array<uint8>, o: nat, val: uint8, length: int) returns (newLength: int)
    requires o + UINT8_SIZE <= buf.Length
    modifies buf
    ensures buf[..] == Splice(old(buf[..]), o, LeBytes(val, UINT8_SIZE))
    ensures newLength == length + UINT8_SIZE
  {
    SetUInt8(buf, o, val);
    newLength := length + UINT8_SIZE;
  }

  /** SET_UINT16 with a length cursor. */
  method SetUInt16Cursor(cfg: Config, base: nat, buf: array<uint8>, o: nat, val: uint16, length: int) returns (newLength: int)
    requires o + UINT16_SIZE <= buf.Length
    modifies buf
    ensures buf[..] == Splice(old(buf[..]), o, LeBytes(val, UINT16_SIZE))
    ensures newLength == length + UINT16_SIZE
  {
    SetUInt16(cfg, base, buf, o, val);
    newLength := length + UINT16_SIZE;
  }

  /** SET_UINT32 with a length cursor. */
  method SetUInt32Cursor(cfg: Config, base: nat, buf: array<uint8>, o: nat, val: uint32, length: int) returns (newLength: int)
    requires o + UINT32_SIZE <= buf.Length
    modifies buf
    ensures buf[..] == Splice(old(buf[..]), o, LeBytes(val, UINT32_SIZE))
    ensures newLength == length + UINT32_SIZE
  {
    SetUInt32(cfg, base, buf, o, val);
    newLength := length + UINT32_SIZE;
  }

  /** SET_UINT48 with a length cursor: the cursor moves six bytes even when the fast path wrote eight. */
  method SetUInt48Cursor(cfg: Config, base: nat, buf: array<uint8>, o: nat, val: uint64, length: int) returns (newLength: int)
    requires o + UINT48_SIZE <= buf.Length
    requires cfg.bswapEnabled && Is64Aligned(base + o) ==> o + UINT64_SIZE <= buf.Length
    modifies buf
    ensures cfg.bswapEnabled && Is64Aligned(base + o) ==>
      buf[..] == Splice(old(buf[..]), o, NativeStore48(cfg, val))
    ensures !(cfg.bswapEnabled && Is64Aligned(base + o)) ==>
      buf[..] == Splice(old(buf[..]), o, LeBytes(val, UINT48_SIZE))
    ensures newLength == length + UINT48_SIZE
  {
    SetUInt48(cfg, base, buf, o, val);
    newLength := length + UINT48_SIZE;
  }

  /** SET_UINT64 with a length cursor. */
  method SetUInt64Cursor(cfg: Config, base: nat, buf: array<uint8>, o: nat, val: uint64, length: int) returns (newLength: int)
    requires o + UINT64_SIZE <= buf.Length
    modifies buf
    ensures buf[..] == Splice(old(buf[..]), o, LeBytes(val, UINT64_SIZE))
    ensures newLength == length + UINT64_SIZE
  {
    SetUInt64(cfg, base, buf, o, val);
    newLength := length + UINT64_SIZE;
  }

  /** SET_INT8 with a length cursor. */
  method SetInt8Cursor(buf: array<uint8>, o: nat, val: int8, length: int) returns (newLength: int)
    requires o + INT8_SIZE <= buf.Length
    modifies buf
    ensures buf[..] == Splice(old(buf[..]), o, LeBytes(val % 0x100, INT8_SIZE))
    ensures newLength == length + INT8_SIZE
  {
    SetInt8(buf, o, val);
    newLength := length + INT8_SIZE;
  }

  /** SET_INT16 with a length cursor. */
  method SetInt16Cursor(cfg: Config, base: nat, buf: array<uint8>, o: nat, val: int16, length: int) returns (newLength: int)
    requires o + INT16_SIZE <= buf.Length
    modifies buf
    ensures buf[..] == Splice(old(buf[..]), o, LeBytes(val % 0x1_0000, INT16_SIZE))
    ensures newLength == length + INT16_SIZE
  {
    SetInt16(cfg, base, buf, o, val);
    newLength := length + INT16_SIZE;
  }

  /** SET_INT32 with a length cursor. */
  method SetInt32Cursor(cfg: Config, base: nat, buf: array<uint8>, o: nat, val: int32, length: int) returns (newLength: int)
    requires o + INT32_SIZE <= buf.Length
    modifies buf
    ensures buf[..] == Splice(old(buf[..]), o, LeBytes(val % 0x1_0000_0000, INT32_SIZE))
    ensures newLength == length + INT32_SIZE
  {
    SetInt32(cfg, base, buf, o, val);
    newLength := length + INT32_SIZE;
  }

  /** SET_INT48 with a length cursor. */
  method SetInt48Cursor(cfg: Config, base: nat, buf: array<uint8>, o: nat, val: int64, length: int) returns (newLength: int)
    requires o + INT48_SIZE <= buf.Length
    requires cfg.bswapEnabled && Is64Aligned(base + o) ==> o + UINT64_SIZE <= buf.Length
    modifies buf
    ensures cfg.bswapEnabled && Is64Aligned(base + o) ==>
      buf[..] == Splice(old(buf[..]), o, NativeStore48(cfg, val % TWO_64))
    ensures !(cfg.bswapEnabled && Is64Aligned(base + o)) ==>
      buf[..] == Splice(old(buf[..]), o, LeBytes(val % TWO_64, INT48_SIZE))
    ensures newLength == length + INT48_SIZE
  {
    SetInt48(cfg, base, buf, o, val);
    newLength := length + INT48_SIZE;
  }

  /** SET_INT64 with a length cursor. */
  method SetInt64Cursor(cfg: Config, base: nat, buf: array<uint8>, o: nat, val: int64, length: int) returns (newLength: int)
    requires o + INT64_SIZE <= buf.Length
    modifies buf
    ensures buf[..] == Splice(old(buf[..]), o, LeBytes(val % TWO_64, INT64_SIZE))
    ensures newLength == length + INT64_SIZE
  {
    SetInt64(cfg, base, buf, o, val);
    newLength := length + INT64_SIZE;
  }

  /** SET_FLOAT32 with a length cursor, given the float's bit pattern: advances by UINT32_SIZE. */
  method SetFloat32Cursor(cfg: Config, base: nat, buf: array<uint8>, o: nat, bits: uint32, length: int) returns (newLength: int)
    requires o + FLOAT32_SIZE <= buf.Length
    modifies buf
    ensures buf[..] == Splice(old(buf[..]), o, LeBytes(bits, FLOAT32_SIZE))
    ensures newLength == length + UINT32_SIZE
  {
    SetUInt32(cfg, base, buf, o, bits);
    newLength := length + UINT32_SIZE;
  }

  /** SET_FLOAT64 with a length cursor, given the double's bit pattern: advances by UINT64_SIZE. */
  method SetFloat64Cursor(cfg: Config, base: nat, buf: array<uint8>, o: nat, bits: uint64, length: int) returns (newLength: int)
    requires o + FLOAT64_SIZE <= buf.Length
    modifies buf
    ensures buf[..] == Splice(old(buf[..]), o, LeBytes(bits, FLOAT64_SIZE))
    ensures newLength == length + UINT64_SIZE
  {
    SetUInt64(cfg, base, buf, o, bits);
    newLength := length + UINT64_SIZE;
  }

  /**
   * The cursor idiom: a uint8, a uint32 and a uint64 written back to back
   * at the cursor leave the cursor 13 bytes further on, with the three
   * fields laid out contiguously and the rest of the buffer untouched.
   */
  method WriteRecord(cfg: Config, base: nat, buf: array<uint8>, length: nat, a: uint8, b: uint32, c: uint64)
    returns (newLength: int)
    requires length + 13 <= buf.Length
    modifies buf
    ensures newLength == length + 13
    ensures buf[..] == Splice(old(buf[..]), length, LeBytes(a, 1) + LeBytes(b, 4) + LeBytes(c, 8))
  {
    var cursor := SetUInt8Cursor(buf, length, a, length);
    cursor := SetUInt32Cursor(cfg, base, buf, cursor, b, cursor);
    newLength := SetUInt64Cursor(cfg, base, buf, cursor, c, cursor);
    SpliceAppend(old(buf[..]), length, LeBytes(a, 1), LeBytes(b, 4));
    SpliceAppend(old(buf[..]), length, LeBytes(a, 1) + LeBytes(b, 4), LeBytes(c, 8));
  }

  /** 0xDEADBEEF written at offset 2 of eight zero bytes, on any build and at any address. */
  method EncodeDeadBeef(cfg: Config, base: nat) returns (bytes: seq<uint8>)
    ensures bytes == [0x00, 0x00, 0xEF, 0xBE, 0xAD, 0xDE, 0x00, 0x00]
  {
    var buf := new uint8[8](_ => 0);
    ghost var zeros := buf[..];
    assert zeros == [0, 0, 0, 0, 0, 0, 0, 0];
    SetUInt32(cfg, base, buf, 2, 0xDEADBEEF);
    assert LeBytes(0xDEADBEEF, 4) == [0xEF, 0xBE, 0xAD, 0xDE];
    bytes := buf[..];
    assert zeros[..2] == [0, 0] && zeros[6..] == [0, 0];
    assert bytes == [0, 0] + [0xEF, 0xBE, 0xAD, 0xDE] + [0, 0];
    FourInEight(0xEF, 0xBE, 0xAD, 0xDE);
  }

  // ---------------------------------------------------------------------------
  // Round trips: what a SET writes, the matching GET reads back.

  lemma RoundTrip8(s: seq<uint8>, o: nat, v: uint8)
    requires o + UINT8_SIZE <= |s|
    ensures GetUInt8(Splice(s, o, LeBytes(v, UINT8_SIZE)), o) == v
  {
    var t := Splice(s, o, LeBytes(v, 1));
    assert t[o..o + 1] == LeBytes(v, 1);
  }

  /** Off the swap fast path, GET_UINT16 reads back what SET_UINT16 wrote. */
  lemma RoundTrip16(cfg: Config, base: nat, s: seq<uint8>, o: nat, v: uint16)
    requires o + UINT16_SIZE <= |s|
    requires !SwapsFirstByte(cfg, Is16Aligned(base + o))
    ensures GetUInt16(cfg, base, Splice(s, o, LeBytes(v, UINT16_SIZE)), o) == v
  {
    var t := Splice(s, o, LeBytes(v, 2));
    assert t[o..o + 2] == LeBytes(v, 2);
    LeRoundTrip(v, 2);
    Pow256Values();
    DivModUnique(v, Pow256(2), 0, v);
  }

  /** Off the swap fast path, GET_UINT32 reads back what SET_UINT32 wrote. */
  lemma RoundTrip32(cfg: Config, base: nat, s: seq<uint8>, o: nat, v: uint32)
    requires o + UINT32_SIZE <= |s|
    requires !SwapsFirstByte(cfg, Is32Aligned(base + o))
    ensures GetUInt32(cfg, base, Splice(s, o, LeBytes(v, UINT32_SIZE)), o) == v
  {
    var t := Splice(s, o, LeBytes(v, 4));
    assert t[o..o + 4] == LeBytes(v, 4);
    LeRoundTrip(v, 4);
    Pow256Values();
    DivModUnique(v, Pow256(4), 0, v);
  }

  /**
   * Off the swap fast path, GET_UINT48 reads back the low 48 bits of what
   * SET_UINT48 wrote, whichever of its two paths wrote it.
   */
  lemma RoundTrip48(cfg: Config, base: nat, s: seq<uint8>, o: nat, v: uint64)
    requires o + UINT48_SIZE <= |s|
    requires cfg.bswapEnabled && Is64Aligned(base + o) ==> o + UINT64_SIZE <= |s|
    requires !SwapsFirstByte(cfg, Is64Aligned(base + o))
    ensures var written := if cfg.bswapEnabled && Is64Aligned(base + o) then NativeStore48(cfg, v)
                           else LeBytes(v, UINT48_SIZE);
            GetUInt48(cfg, base, Splice(s, o, written), o) == v % TWO_48
  {
    Pow256Values();
    LeRoundTrip(v, 6);
    if cfg.bswapEnabled && Is64Aligned(base + o) {
      var t := Splice(s, o, NativeStore48(cfg, v));
      assert t[o..o + 6] == t[o..o + 8][..6] == LeBytes(v, 6);
    } else {
      var t := Splice(s, o, LeBytes(v, 6));
      assert t[o..o + 6] == LeBytes(v, 6);
    }
  }

  /** Off the swap fast path, GET_UINT64 reads back what SET_UINT64 wrote. */
  lemma RoundTrip64(cfg: Config, base: nat, s: seq<uint8>, o: nat, v: uint64)
    requires o + UINT64_SIZE <= |s|
    requires !SwapsFirstByte(cfg, Is64Aligned(base + o))
    ensures GetUInt64(cfg, base, Splice(s, o, LeBytes(v, UINT64_SIZE)), o) == v
  {
    var t := Splice(s, o, LeBytes(v, 8));
    assert t[o..o + 8] == LeBytes(v, 8);
    LeRoundTrip(v, 8);
    Pow256Values();
    DivModUnique(v, Pow256(8), 0, v);
  }

  /** GET_INT8 reads back the value SET_INT8 wrote. */
  lemma RoundTripInt8(s: seq<uint8>, o: nat, v: int8)
    requires o + INT8_SIZE <= |s|
    ensures GetInt8(Splice(s, o, LeBytes(v % 0x100, INT8_SIZE)), o) == v
  {
    Pow256Values();
    TwosComplement(v, 1);
  }

  // ---------------------------------------------------------------------------
  // The big-endian swap fast path of GET_UINT16/32/64.

  /** The fast decode as evidently intended on a big-endian host: load the word, then swap it. */
  function CorrectedSwapLoad(cfg: Config, x: seq<uint8>): (r: nat)
    requires cfg.hostBigEndian
    ensures r == LeValue(x)
  {
    LoadThenSwap(cfg, x);
    Bswap(|x|, NativeLoad(cfg, x))
  }

  /** With the swap fast path built in on a big-endian host, the bytes 01 02 decode to 0x0100, not 0x0201. */
  lemma SwapFastPathDiverges()
    ensures GetUInt16(Config(true, true), 0, [0x01, 0x02], 0) == 0x0100
    ensures CorrectedSwapLoad(Config(true, true), [0x01, 0x02]) == 0x0201
  {
    assert LeValue([0x01, 0x02]) == 0x0201 by {
      assert [0x01, 0x02][1..] == [0x02];
      assert [0x02][1..] == [];
    }
  }

  /** So SET then GET of a 16-bit value does not round-trip on that build. */
  lemma SwapFastPathBreaksRoundTrip()
    ensures GetUInt16(Config(true, true), 0, Splice([0, 0], 0, LeBytes(0x0201, UINT16_SIZE)), 0) == 0x0100
  {
    assert LeBytes(0x0201, 2) == [0x01, 0x02];
    assert Splice([0, 0], 0, [0x01, 0x02]) == [0x01, 0x02];
  }

  /** On that build GET_UINT48 of the bytes 01 00 00 00 00 00 is 0, where their reading is 1. */
  lemma SwapFastPath48Zero()
    ensures GetUInt48(Config(true, true), 0, [1, 0, 0, 0, 0, 0], 0) == 0
    ensures CorrectedSwapLoad(Config(true, true), [1, 0, 0, 0, 0, 0]) == 1
  {
    var x: seq<uint8> := [1, 0, 0, 0, 0, 0];
    Assembly6(x);
  }

  // ---------------------------------------------------------------------------
  // GET_INT16 … GET_INT64.

  /** GET_INT16 over the bytes 02 01 yields 2 when the byte next to the local is 0, not 0x0102. */
  lemma SignedReadDropsHighBytes()
    ensures SignedReadAsWritten(Config(false, false), [0x02, 0x01], 0, [0x00]) == 0x02
    ensures GetInt16(Config(false, false), 0, [0x02, 0x01], 0) == 0x0102
  {
    Pow256Values();
    assert LeValue([0x02, 0x00]) == 0x02 by {
      assert [0x02, 0x00][1..] == [0x00];
      assert [0x00][1..] == [];
    }
    assert [GetUInt8([0x02, 0x01], 0)] + [0x00] == [0x02, 0x00];
    assert LeValue([0x02, 0x01]) == 0x0102 by {
      assert [0x02, 0x01][1..] == [0x01];
      assert [0x01][1..] == [];
    }
  }

  /** GET_INT16 as evidently intended: GET_UINT16's pattern reinterpreted as two's complement. */
  function GetInt16(cfg: Config, base: nat, buf: seq<uint8>, o: nat): (r: int16)
    requires o + INT16_SIZE <= |buf|
    ensures r % 0x1_0000 == GetUInt16(cfg, base, buf, o)
    ensures r < 0 <==> GetUInt16(cfg, base, buf, o) >= 0x8000
  {
    Pow256Values();
    ToSigned(GetUInt16(cfg, base, buf, o), INT16_SIZE)
  }

  /** GET_INT32 as evidently intended. */
  function GetInt32(cfg: Config, base: nat, buf: seq<uint8>, o: nat): (r: int32)
    requires o + INT32_SIZE <= |buf|
    ensures r % 0x1_0000_0000 == GetUInt32(cfg, base, buf, o)
    ensures r < 0 <==> GetUInt32(cfg, base, buf, o) >= 0x8000_0000
  {
    Pow256Values();
    ToSigned(GetUInt32(cfg, base, buf, o), INT32_SIZE)
  }

  /** GET_INT48 as evidently intended: the 48-bit pattern sign-extended into an int64_t. */
  function GetInt48(cfg: Config, base: nat, buf: seq<uint8>, o: nat): (r: int64)
    requires o + INT48_SIZE <= |buf|
    requires cfg.bswapEnabled && !cfg.hostBigEndian && Is64Aligned(base + o) ==> o + UINT64_SIZE <= |buf|
    ensures r % TWO_48 == GetUInt48(cfg, base, buf, o)
    ensures r < 0 <==> GetUInt48(cfg, base, buf, o) >= 0x8000_0000_0000
  {
    Pow256Values();
    ToSigned(GetUInt48(cfg, base, buf, o), INT48_SIZE)
  }

  /** GET_INT64 as evidently intended. */
  function GetInt64(cfg: Config, base: nat, buf: seq<uint8>, o: nat): (r: int64)
    requires o + INT64_SIZE <= |buf|
    ensures r % TWO_64 == GetUInt64(cfg, base, buf, o)
    ensures r < 0 <==> GetUInt64(cfg, base, buf, o) >= 0x8000_0000_0000_0000
  {
    Pow256Values();
    ToSigned(GetUInt64(cfg, base, buf, o), INT64_SIZE)
  }

  /** Off the swap fast path, GET_INT16 reads back the value SET_INT16 wrote. */
  lemma RoundTripInt16(cfg: Config, base: nat, s: seq<uint8>, o: nat, v: int16)
    requires o + INT16_SIZE <= |s|
    requires !SwapsFirstByte(cfg, Is16Aligned(base + o))
    ensures GetInt16(cfg, base, Splice(s, o, LeBytes(v % 0x1_0000, INT16_SIZE)), o) == v
  {
    Pow256Values();
    TwosComplement(v, 2);
  }

  /** Off the swap fast path, GET_INT32 reads back the value SET_INT32 wrote. */
  lemma RoundTripInt32(cfg: Config, base: nat, s: seq<uint8>, o: nat, v: int32)
    requires o + INT32_SIZE <= |s|
    requires !SwapsFirstByte(cfg, Is32Aligned(base + o))
    ensures GetInt32(cfg, base, Splice(s, o, LeBytes(v % 0x1_0000_0000, INT32_SIZE)), o) == v
  {
    Pow256Values();
    TwosComplement(v, 4);
  }

  /**
   * Off the swap fast path, GET_INT48 reads back a value in the 48-bit range
   * that SET_INT48 wrote, whichever of SET_UINT48's two paths wrote it.
   */
  lemma RoundTripInt48(cfg: Config, base: nat, s: seq<uint8>, o: nat, v: int64)
    requires o + INT48_SIZE <= |s|
    requires cfg.bswapEnabled && Is64Aligned(base + o) ==> o + UINT64_SIZE <= |s|
    requires !SwapsFirstByte(cfg, Is64Aligned(base + o))
    requires -0x8000_0000_0000 <= v < 0x8000_0000_0000
    ensures var written := if cfg.bswapEnabled && Is64Aligned(base + o) then NativeStore48(cfg, v % TWO_64)
                           else LeBytes(v % TWO_64, INT48_SIZE);
            GetInt48(cfg, base, Splice(s, o, written), o) == v
  {
    Pow256Values();
    RoundTrip48(cfg, base, s, o, v % TWO_64);
    ModMod48(v);
    SignedPattern(v, 6);
  }

  /** Off the swap fast path, GET_INT64 reads back the value SET_INT64 wrote. */
  lemma RoundTripInt64(cfg: Config, base: nat, s: seq<uint8>, o: nat, v: int64)
    requires o + INT64_SIZE <= |s|
    requires !SwapsFirstByte(cfg, Is64Aligned(base + o))
    ensures GetInt64(cfg, base, Splice(s, o, LeBytes(v % TWO_64, INT64_SIZE)), o) == v
  {
    Pow256Values();
    TwosComplement(v, 8);
  }

  // ---------------------------------------------------------------------------
  // The 48-bit fast store.

  /** On a little-endian host the fast path of SET_UINT48 writes eight bytes and clears the two after the field. */
  lemma Store48ClearsNext(val: uint64)
    ensures NativeStore48(Config(false, true), val)[6..] == [0, 0]
  {
    var r := NativeStore48(Config(false, true), val);
    assert r == LeBytes(val, UINT48_SIZE) + [0, 0];
  }

  /**
   * On a big-endian host byte 0 of the field always receives 00, so any value
   * whose low byte is not zero is stored wrongly: the value 1, for instance,
   * becomes eight zero bytes instead of 01 00 00 00 00 00.
   */
  lemma Store48WrongBytes(val: uint64)
    requires val % 0x100 != 0
    ensures NativeStore48(Config(true, true), val)[..6] != LeBytes(val, UINT48_SIZE)
  {
    var r := NativeStore48(Config(true, true), val);
    assert r[..6][0] == 0;
    LeBytesAt(val, UINT48_SIZE, 0);
  }

  /**
   * A 48-bit field at an 8-aligned address that ends where the buffer ends,
   * on a little-endian host with bswap enabled: the fast-path condition of
   * GET_UINT48 and SET_UINT48 holds, yet the eight bytes that path loads or
   * stores do not fit, so the requirement GetUInt48 and SetUInt48 place on
   * that path fails; the source reads and writes two bytes past the buffer.
   * The byte path reads the six bytes of the field and nothing more.
   */
  lemma FastPath48Overruns(base: nat, buf: seq<uint8>, o: nat, val: uint64)
    requires o + UINT48_SIZE == |buf| && Is64Aligned(base + o)
    ensures var cfg := Config(false, true);
            !(cfg.bswapEnabled && !cfg.hostBigEndian && Is64Aligned(base + o) ==> o + UINT64_SIZE <= |buf|)
            && !(cfg.bswapEnabled && Is64Aligned(base + o) ==> o + UINT64_SIZE <= |buf|)
            && o + |NativeStore48(cfg, val)| == |buf| + 2
            && ReadBytes48(buf, o) == LeValue(buf[o..])
  {
    assert buf[o..o + UINT48_SIZE] == buf[o..];
  }

  /** SET_UINT48 as evidently intended: the six little-endian bytes and nothing beyond them. */
  method SetUInt48Corrected(buf: array<uint8>, o: nat, val: uint64)
    requires o + UINT48_SIZE <= buf.Length
    modifies buf
    ensures buf[..] == Splice(old(buf[..]), o, LeBytes(val, UINT48_SIZE))
  {
    WriteBytes48(buf, o, val);
  }

  // ---------------------------------------------------------------------------
  // MEMCPY_16/32/64: copy `count` little-endian elements of a width into host order.

  /** The decoder the aligned loop calls for elements of a width. */
  function GetUIntN(cfg: Config, base: nat, buf: seq<uint8>, o: nat, width: nat): (r: nat)
    requires width == 2 || width == 4 || width == 8
    requires o + width <= |buf|
    ensures r == if SwapsFirstByte(cfg, AlignedTo(width, base + o)) then buf[o] * Pow256(width - 1)
                 else LeValue(buf[o..o + width])
  {
    Pow256Values();
    if width == 2 then GetUInt16(cfg, base, buf, o)
    else if width == 4 then GetUInt32(cfg, base, buf, o)
    else GetUInt64(cfg, base, buf, o)
  }

  /** On a big-endian host, what the loop stores for the element at buf[o] is that element converted. */
  lemma SlotConversion(cfg: Config, base: nat, buf: seq<uint8>, o: nat, width: nat, elem: seq<uint8>)
    requires width == 2 || width == 4 || width == 8
    requires o + width <= |buf|
    requires cfg.hostBigEndian && AlignedTo(width, base + o)
    requires buf[o..o + width] == elem
    ensures HostBytes(cfg, GetUIntN(cfg, base, buf, o, width), width) == ConvertedSlot(Little, cfg, elem)
  {
    if cfg.bswapEnabled {
      SwappedByteBigStore(width, buf[o]);
    } else {
      ReversedBigStore(buf[o..o + width]);
    }
  }

  /** The element the loop reads at src[s+i] is the next element of x, and converts to its slot. */
  lemma SlotRead(cfg: Config, srcBase: nat, srcNow: seq<uint8>, s: nat, i: nat, e: nat, x: seq<uint8>, width: nat)
    requires width == 2 || width == 4 || width == 8
    requires cfg.hostBigEndian && AlignedTo(width, srcBase + s)
    requires i % width == 0 && e % width == 0 && i < e && |x| == e
    requires s + e <= |srcNow| && srcNow[s + i..s + e] == x[i..]
    ensures i + width <= e
    ensures HostBytes(cfg, GetUIntN(cfg, srcBase, srcNow, s + i, width), width) == ConvertedSlot(Little, cfg, x[i..i + width])
  {
    MultipleGap(i, e, width);
    AlignedOffset(width, srcBase + s, i);
    WindowPrefix(srcNow, s + i, s + e, x, i, width);
    SlotConversion(cfg, srcBase, srcNow, s + i, width, x[i..i + width]);
  }

  /** One pass of the aligned loop extends the converted prefix in dest by the element at src[s+i]. */
  lemma LoopStep(cfg: Config, srcBase: nat, srcNow: seq<uint8>, s: nat, i: nat, e: nat, x: seq<uint8>,
                 before: seq<uint8>, destNow: seq<uint8>, d: nat, width: nat)
    requires width == 2 || width == 4 || width == 8
    requires cfg.hostBigEndian && AlignedTo(width, srcBase + s)
    requires i % width == 0 && e % width == 0 && i < e && |x| == e
    requires s + e <= |srcNow| && srcNow[s + i..s + e] == x[i..]
    requires d + e <= |before| && destNow == Splice(before, d, Converted(Little, cfg, x[..i], width))
    ensures i + width <= e && (i + width) % width == 0
    ensures Splice(destNow, d + i, HostBytes(cfg, GetUIntN(cfg, srcBase, srcNow, s + i, width), width))
         == Splice(before, d, Converted(Little, cfg, x[..i + width], width))
  {
    SlotRead(cfg, srcBase, srcNow, s, i, e, x, width);
    ConvertStep(Little, cfg, before, d, x, i, width);
  }

  /**
   * One pass of the aligned loop: the element at src[s+i] is read with
   * GET_UINTn and stored natively at dest[d+i]. Given the loop's state
   * after i bytes, it leaves the state after i + width bytes.
   */
  method ConvertOne(cfg: Config, width: nat, dest: array<uint8>, d: nat, src: array<uint8>, s: nat,
                    srcBase: nat, i: nat, ghost e: nat, ghost before: seq<uint8>, ghost x: seq<uint8>)
      returns (next: nat)
    requires width == 2 || width == 4 || width == 8
    requires cfg.hostBigEndian && AlignedTo(width, srcBase + s)
    requires i % width == 0 && e % width == 0 && i < e && |x| == e
    requires d + e <= dest.Length && s + e <= src.Length && |before| == dest.Length
    requires dest == src ==> d <= s || s + e <= d
    requires dest == src ==> before[s..s + e] == x
    requires dest != src ==> src[s..s + e] == x
    requires dest[..] == Splice(before, d, Converted(Little, cfg, x[..i], width))
    modifies dest
    ensures next == i + width && next % width == 0 && next <= e
    ensures dest[..] == Splice(before, d, Converted(Little, cfg, x[..next], width))
  {
    ghost var srcNow := src[..];
    ghost var destNow := dest[..];
    ghost var aliased := dest == src;
    assert !aliased ==> srcNow[s..s + e] == x;
    assert aliased ==> srcNow == destNow;
    LoopWindow(srcNow, aliased, before, d, Converted(Little, cfg, x[..i], width), s, i, e, x);
    LoopStep(cfg, srcBase, srcNow, s, i, e, x, before, destNow, d, width);
    var v := GetUIntN(cfg, srcBase, src[..], s + i, width);
    var bytes := HostBytes(cfg, v, width);
    Store(dest, d + i, bytes);
    next := i + width;
  }

  /**
   * The aligned loop of MEMCPY_n on a big-endian host,
   * `for (i = 0; i < bound; i += width) store(&dest[d+i], GET_UINTn(src, s+i))`:
   * it converts the elements of the first RoundUp(bound, width) bytes.
   */
  method ConvertSlots(cfg: Config, width: nat, dest: array<uint8>, d: nat, src: array<uint8>, s: nat,
                      srcBase: nat, bound: nat, ghost x: seq<uint8>)
    requires width == 2 || width == 4 || width == 8
    requires cfg.hostBigEndian && AlignedTo(width, srcBase + s)
    requires d + RoundUp(bound, width) <= dest.Length && s + RoundUp(bound, width) <= src.Length
    requires dest == src ==> d <= s || s + RoundUp(bound, width) <= d
    requires x == src[s..s + RoundUp(bound, width)]
    modifies dest
    ensures dest[..] == Splice(old(dest[..]), d, Converted(Little, cfg, x, width))
  {
    ghost var before := dest[..];
    ghost var e := RoundUp(bound, width);
    var i := 0;
    assert x[..0] == [];
    while i < bound
      invariant i % width == 0 && i <= e
      invariant dest[..] == Splice(before, d, Converted(Little, cfg, x[..i], width))
      invariant dest != src ==> src[s..s + e] == x
    {
      i := ConvertOne(cfg, width, dest, d, src, s, srcBase, i, e, before, x);
    }
    LoopExit(i, bound, width);
    assert x[..i] == x;
  }

  /**
   * What MEMCPY_16/32/64 leave in dest for elements of `width` bytes: on a
   * big-endian host with src aligned, the aligned loop's conversion of the
   * elements it reaches; otherwise the count * width bytes of src unchanged.
   */
  function MemcpyImage(cfg: Config, width: nat, dest: seq<uint8>, d: nat, src: seq<uint8>, s: nat, srcBase: nat, count: nat): (r: seq<uint8>)
    requires width == 2 || width == 4 || width == 8
    requires d + count * width <= |dest| && s + count * width <= |src|
    ensures |r| == |dest|
  {
    Splice(dest, d, MemcpyRun(cfg, width, src, s, srcBase, count))
  }

  /** The run MEMCPY_16/32/64 write at dest: no longer than count * width bytes. */
  function MemcpyRun(cfg: Config, width: nat, src: seq<uint8>, s: nat, srcBase: nat, count: nat): (r: seq<uint8>)
    requires width == 2 || width == 4 || width == 8
    requires s + count * width <= |src|
    ensures |r| <= count * width
  {
    if cfg.hostBigEndian && AlignedTo(width, srcBase + s) then
      Converted(Little, cfg, src[s..s + RoundUp(count, width)], width)
    else src[s..s + count * width]
  }

  /**
   * MEMCPY_16/32/64 for elements of `width` bytes. On a big-endian host
   * with src aligned it runs the aligned loop with the bound `count` (an
   * element count, stepped in bytes); otherwise it copies count * width
   * bytes unchanged, by memmove when the ranges overlap and by memcpy when
   * they do not.
   */
  method MemcpyN(cfg: Config, width: nat, dest: array<uint8>, d: nat, src: array<uint8>, s: nat, srcBase: nat, count: nat)
    requires width == 2 || width == 4 || width == 8
    requires d + count * width <= dest.Length && s + count * width <= src.Length
    requires cfg.hostBigEndian && AlignedTo(width, srcBase + s) && dest == src ==> d <= s || s + count * width <= d
    modifies dest
    ensures dest[..] == MemcpyImage(cfg, width, old(dest[..]), d, old(src[..]), s, srcBase, count)
  {
    if cfg.hostBigEndian && AlignedTo(width, srcBase + s) {
      ConvertPath(cfg, width, dest, d, src, s, srcBase, count);
    } else {
      CopyPath(cfg, width, dest, d, src, s, srcBase, count);
    }
  }

  /** MEMCPY_n on a big-endian host with src aligned: the aligned loop over the first `count` bytes. */
  method ConvertPath(cfg: Config, width: nat, dest: array<uint8>, d: nat, src: array<uint8>, s: nat, srcBase: nat, count: nat)
    requires width == 2 || width == 4 || width == 8
    requires d + count * width <= dest.Length && s + count * width <= src.Length
    requires cfg.hostBigEndian && AlignedTo(width, srcBase + s)
    requires dest == src ==> d <= s || s + count * width <= d
    modifies dest
    ensures dest[..] == MemcpyImage(cfg, width, old(dest[..]), d, old(src[..]), s, srcBase, count)
  {
    ConvertSlots(cfg, width, dest, d, src, s, srcBase, count, src[s..s + RoundUp(count, width)]);
    AlignedRun(cfg, width, old(src[..]), s, srcBase, count);
  }

  /** On the aligned path the run is the conversion of the elements the loop reaches. */
  lemma AlignedRun(cfg: Config, width: nat, src: seq<uint8>, s: nat, srcBase: nat, count: nat)
    requires width == 2 || width == 4 || width == 8
    requires s + count * width <= |src|
    requires cfg.hostBigEndian && AlignedTo(width, srcBase + s)
    ensures MemcpyRun(cfg, width, src, s, srcBase, count) == Converted(Little, cfg, src[s..s + RoundUp(count, width)], width)
  {
  }

  /** MEMCPY_n otherwise: the count * width bytes copied unchanged. */
  method CopyPath(cfg: Config, width: nat, dest: array<uint8>, d: nat, src: array<uint8>, s: nat, srcBase: nat, count: nat)
    requires width == 2 || width == 4 || width == 8
    requires d + count * width <= dest.Length && s + count * width <= src.Length
    requires !(cfg.hostBigEndian && AlignedTo(width, srcBase + s))
    modifies dest
    ensures dest[..] == MemcpyImage(cfg, width, old(dest[..]), d, old(src[..]), s, srcBase, count)
  {
    ghost var from := src[..];
    assert src[s..s + count * width] == from[s..s + count * width];
    CopyBytes(dest, d, src, s, count * width);
  }

  /** MEMCPY_16. */
  method Memcpy16(cfg: Config, dest: array<uint8>, d: nat, src: array<uint8>, s: nat, srcBase: nat, count: nat)
    requires d + count * 2 <= dest.Length && s + count * 2 <= src.Length
    requires cfg.hostBigEndian && Is16Aligned(srcBase + s) && dest == src ==> d <= s || s + count * 2 <= d
    modifies dest
    ensures dest[..] == MemcpyImage(cfg, 2, old(dest[..]), d, old(src[..]), s, srcBase, count)
  {
    MemcpyN(cfg, 2, dest, d, src, s, srcBase, count);
  }

  /** MEMCPY_32. */
  method Memcpy32(cfg: Config, dest: array<uint8>, d: nat, src: array<uint8>, s: nat, srcBase: nat, count: nat)
    requires d + count * 4 <= dest.Length && s + count * 4 <= src.Length
    requires cfg.hostBigEndian && Is32Aligned(srcBase + s) && dest == src ==> d <= s || s + count * 4 <= d
    modifies dest
    ensures dest[..] == MemcpyImage(cfg, 4, old(dest[..]), d, old(src[..]), s, srcBase, count)
  {
    MemcpyN(cfg, 4, dest, d, src, s, srcBase, count);
  }

  /** MEMCPY_64. */
  method Memcpy64(cfg: Config, dest: array<uint8>, d: nat, src: array<uint8>, s: nat, srcBase: nat, count: nat)
    requires d + count * 8 <= dest.Length && s + count * 8 <= src.Length
    requires cfg.hostBigEndian && Is64Aligned(srcBase + s) && dest == src ==> d <= s || s + count * 8 <= d
    modifies dest
    ensures dest[..] == MemcpyImage(cfg, 8, old(dest[..]), d, old(src[..]), s, srcBase, count)
  {
    MemcpyN(cfg, 8, dest, d, src, s, srcBase, count);
  }

  /** The aligned loop as evidently intended: its bound is count * width, so every element is converted. */
  method ConvertElements(cfg: Config, width: nat, dest: array<uint8>, d: nat, src: array<uint8>, s: nat,
                         srcBase: nat, count: nat)
    requires width == 2 || width == 4 || width == 8
    requires cfg.hostBigEndian && AlignedTo(width, srcBase + s)
    requires d + count * width <= dest.Length && s + count * width <= src.Length
    requires dest == src ==> d <= s || s + count * width <= d
    modifies dest
    ensures (count * width) % width == 0
    ensures dest[..] == Splice(old(dest[..]), d, Converted(Little, cfg, old(src[s..s + count * width]), width))
  {
    RoundUpMultiple(count, width);
    ConvertSlots(cfg, width, dest, d, src, s, srcBase, count * width, src[s..s + count * width]);
  }

  /** One pass of that loop on a big-endian host with bswap off and width 2: the element at buf[i..i+2] lands reversed two bytes further on. */
  lemma OverlapPass(buf: seq<uint8>, i: nat)
    requires i + 4 <= |buf|
    ensures var cfg := Config(true, false);
            Splice(buf, i + 2, HostBytes(cfg, GetUIntN(cfg, 0, buf, i, 2), 2))[i + 2..i + 4] == Reverse(buf[i..i + 2])
  {
    ReversedBigStore(buf[i..i + 2]);
  }

  /**
   * The aligned loop with dest == src and the destination two bytes after
   * the source (big-endian host, bswap off, width 2, count 4, so the loop
   * runs for i = 0 and i = 2): buf1 and buf2 are the buffer after each pass.
   * The second pass reads src[2..4], which the first pass has already
   * overwritten, so dest[4..6] receives the original src[0..2] unchanged.
   * What belongs there is the second element of the original run converted,
   * the original src[2..4] reversed. With the bytes 01 02 03 04 it holds
   * 01 02 instead of 04 03.
   */
  lemma ForwardOverlapFeedsBack(buf0: seq<uint8>, buf1: seq<uint8>, buf2: seq<uint8>, intended: seq<uint8>)
    requires |buf0| == 10
    requires buf1 == Splice(buf0, 2 + 0, HostBytes(Config(true, false), GetUIntN(Config(true, false), 0, buf0, 0 + 0, 2), 2))
    requires buf2 == Splice(buf1, 2 + 2, HostBytes(Config(true, false), GetUIntN(Config(true, false), 0, buf1, 0 + 2, 2), 2))
    requires intended == Converted(Little, Config(true, false), buf0[0..4], 2)
    ensures buf2[4..6] == buf0[0..2]
    ensures intended[2..4] == Reverse(buf0[2..4])
    ensures buf0[..4] == [1, 2, 3, 4] ==> buf2[4..6] == [1, 2] && intended[2..4] == [4, 3]
  {
    FedBack(buf0, buf1, buf2);
    SecondConverted(buf0, intended);
    if buf0[..4] == [1, 2, 3, 4] {
      OneToFour(buf0);
    }
  }

  /** The two passes: the second stores the first element, reversed twice. */
  lemma FedBack(buf0: seq<uint8>, buf1: seq<uint8>, buf2: seq<uint8>)
    requires |buf0| >= 6
    requires buf1 == Splice(buf0, 2, HostBytes(Config(true, false), GetUIntN(Config(true, false), 0, buf0, 0, 2), 2))
    requires buf2 == Splice(buf1, 4, HostBytes(Config(true, false), GetUIntN(Config(true, false), 0, buf1, 2, 2), 2))
    ensures buf2[4..6] == buf0[0..2]
  {
    OverlapPass(buf0, 0);
    OverlapPass(buf1, 2);
    ReverseReverse(buf0[0..2]);
  }

  /** With bswap off the second element of the run converts to its reversal. */
  lemma SecondConverted(buf0: seq<uint8>, intended: seq<uint8>)
    requires |buf0| >= 4
    requires intended == Converted(Little, Config(true, false), buf0[0..4], 2)
    ensures intended[2..4] == Reverse(buf0[2..4])
  {
    var x := buf0[0..4];
    ConvertedElement(Little, Config(true, false), x, 2, 2);
    assert x[2..4] == buf0[2..4];
  }

  /**
   * The aligned path of MEMCPY_n as evidently intended: the elements are
   * read from a snapshot of src taken before the first store, so dest may
   * overlap src in any way and still receives the conversion of the
   * original elements.
   */
  method ConvertPathCorrected(cfg: Config, width: nat, dest: array<uint8>, d: nat, src: array<uint8>, s: nat,
                              srcBase: nat, count: nat)
    requires width == 2 || width == 4 || width == 8
    requires d + count * width <= dest.Length && s + count * width <= src.Length
    requires cfg.hostBigEndian && AlignedTo(width, srcBase + s)
    modifies dest
    ensures dest[..] == MemcpyImage(cfg, width, old(dest[..]), d, old(src[..]), s, srcBase, count)
  {
    var snapshot := new uint8[src.Length](k requires 0 <= k < src.Length reads src => src[k]);
    assert snapshot[..] == src[..];
    ghost var x := src[s..s + RoundUp(count, width)];
    assert snapshot[s..s + RoundUp(count, width)] == x;
    ConvertSlots(cfg, width, dest, d, snapshot, s, srcBase, count, x);
    AlignedRun(cfg, width, old(src[..]), s, srcBase, count);
  }

  /**
   * What MEMCPY_16/32/64 promise for src: its elements deserialized into
   * dest, so that each reads natively as the little-endian value of that
   * element. On a big-endian host every element is reversed; on a
   * little-endian host the bytes are already in host order.
   */
  function Deserialized(cfg: Config, x: seq<uint8>, width: nat): (r: seq<uint8>)
    requires width == 2 || width == 4 || width == 8
    ensures |r| == |x|
  {
    if cfg.hostBigEndian then Converted(Little, Config(true, false), x, width) else x
  }

  /** Each whole element of the deserialized run reads natively as the little-endian value of that element of x. */
  lemma DeserializedReads(cfg: Config, x: seq<uint8>, width: nat, i: nat)
    requires width == 2 || width == 4 || width == 8
    requires i % width == 0 && i + width <= |x|
    ensures NativeLoad(cfg, Deserialized(cfg, x, width)[i..i + width]) == LeValue(x[i..i + width])
  {
    if cfg.hostBigEndian {
      ConvertedElement(Little, Config(true, false), x, width, i);
      BeValueIsReverse(Reverse(x[i..i + width]));
      ReverseReverse(x[i..i + width]);
    }
  }

  /**
   * MEMCPY_n on a big-endian host with src not aligned copies the bytes
   * unchanged, so the first element of dest reads natively as the
   * big-endian value of the source element, where its little-endian value
   * belongs.
   */
  lemma UnalignedNotDeserialized(cfg: Config, width: nat, src: seq<uint8>, s: nat, srcBase: nat, count: nat)
    requires width == 2 || width == 4 || width == 8
    requires count >= 1 && s + count * width <= |src|
    requires cfg.hostBigEndian && !AlignedTo(width, srcBase + s)
    ensures MemcpyRun(cfg, width, src, s, srcBase, count) == src[s..s + count * width]
    ensures NativeLoad(cfg, MemcpyRun(cfg, width, src, s, srcBase, count)[..width]) == BeValue(src[s..s + width])
    ensures NativeLoad(cfg, Deserialized(cfg, src[s..s + count * width], width)[..width]) == LeValue(src[s..s + width])
  {
    var x := src[s..s + count * width];
    assert count * width >= width;
    assert x[..width] == src[s..s + width];
    DeserializedReads(cfg, x, width, 0);
    assert x[0..width] == x[..width];
  }

  /** With src = 01 02 at an odd address, one 16-bit element: dest reads 0x0102 instead of 0x0201. */
  lemma UnalignedCopyExample()
    ensures MemcpyRun(Config(true, false), 2, [0x01, 0x02], 0, 1, 1) == [0x01, 0x02]
    ensures NativeLoad(Config(true, false), [0x01, 0x02]) == 0x0102
    ensures NativeLoad(Config(true, false), Deserialized(Config(true, false), [0x01, 0x02], 2)) == 0x0201
  {
    var src: seq<uint8> := [0x01, 0x02];
    UnalignedNotDeserialized(Config(true, false), 2, src, 0, 1, 1);
    assert src[0..2] == src && src[0..1 * 2] == src;
    assert LeValue(src) == 0x0201 by {
      assert src[1..] == [0x02];
      assert [0x02][1..] == [];
    }
    assert BeValue(src) == 0x0102 by {
      assert src[..1] == [0x01];
      assert [0x01][..0] == [];
    }
  }

  /**
   * MEMCPY_n as evidently intended: on a big-endian host all count elements
   * are deserialized whatever the alignment of src. They are copied first
   * into a fresh buffer, which is aligned and disjoint from dest, and read
   * from there with the byte-order load of CorrectedSwapLoad rather than the
   * single-byte swap; on a little-endian host the bytes are copied as they are.
   */
  method MemcpyNCorrected(cfg: Config, width: nat, dest: array<uint8>, d: nat, src: array<uint8>, s: nat, count: nat)
    requires width == 2 || width == 4 || width == 8
    requires d + count * width <= dest.Length && s + count * width <= src.Length
    modifies dest
    ensures dest[..] == Splice(old(dest[..]), d, Deserialized(cfg, old(src[s..s + count * width]), width))
  {
    if cfg.hostBigEndian {
      ConvertFromCopy(width, dest, d, src, s, count);
    } else {
      CopyBytes(dest, d, src, s, count * width);
    }
  }

  /** The converting half of MemcpyNCorrected: every element read from a fresh, aligned copy of src. */
  method ConvertFromCopy(width: nat, dest: array<uint8>, d: nat, src: array<uint8>, s: nat, count: nat)
    requires width == 2 || width == 4 || width == 8
    requires d + count * width <= dest.Length && s + count * width <= src.Length
    modifies dest
    ensures dest[..] == Splice(old(dest[..]), d, Converted(Little, Config(true, false), old(src[s..s + count * width]), width))
  {
    var len := count * width;
    var copy := new uint8[len](k requires 0 <= k < len reads src => src[s + k]);
    assert copy[..] == src[s..s + len];
    RoundUpMultiple(count, width);
    assert copy[0..RoundUp(len, width)] == copy[..];
    ConvertSlots(Config(true, false), width, dest, d, copy, 0, 0, len, copy[..]);
  }
}
