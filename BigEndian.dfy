/**
 * The BigEndian class: fields are laid out most significant byte first
 * (network order). Decoders read from a byte sequence at an offset and,
 * like the LittleEndian class, have native fast paths for aligned
 * addresses; encoders always write byte by byte and need no build
 * configuration. `base` is the address of buf[0].
 */
module BigEndian {
  import opened Bytes
  import opened LibEndian
  import opened Platform
  import opened Conversion

  /**
   * Whether a decoder takes the swap fast path built for a little-endian
   * host. That path widens the FIRST BYTE to the word and swaps it
   * (`bswap_n(uintN_t(*buf))`) instead of swapping the loaded word.
   */
  predicate SwapsFirstByte(cfg: Config, aligned: bool)
  {
    cfg.bswapEnabled && !cfg.hostBigEndian && aligned
  }

  // ---------------------------------------------------------------------------
  // The shift-and-or formulas of the byte-assembly paths.

  lemma Assembly2(x: seq<uint8>)
    requires |x| == 2
    ensures (x[0] as int) * 0x100 + x[1] == BeValue(x)
  {
    BeValueUpTo(x, 1);
    BeValueUpTo(x, 2);
    assert x[..0] == [] && x[..2] == x;
  }

  lemma Assembly4(x: seq<uint8>)
    requires |x| == 4
    ensures (x[0] as int) * 0x100_0000 + (x[1] as int) * 0x1_0000 + (x[2] as int) * 0x100 + x[3] == BeValue(x)
  {
    BeValueUpTo(x, 1);
    BeValueUpTo(x, 2);
    BeValueUpTo(x, 3);
    BeValueUpTo(x, 4);
    assert x[..0] == [] && x[..4] == x;
  }

  lemma Assembly6(x: seq<uint8>)
    requires |x| == 6
    ensures (x[0] as int) * 0x100_0000_0000 + (x[1] as int) * 0x1_0000_0000 + (x[2] as int) * 0x100_0000
          + (x[3] as int) * 0x1_0000 + (x[4] as int) * 0x100 + x[5] == BeValue(x)
  {
    assert x == x[..2] + x[2..];
    BeValueAppend(x[..2], x[2..]);
    Assembly2(x[..2]);
    Assembly4(x[2..]);
    Pow256Values();
  }

  lemma Assembly8(x: seq<uint8>)
    requires |x| == 8
    ensures (x[0] as int) * 0x100_0000_0000_0000 + (x[1] as int) * 0x1_0000_0000_0000 + (x[2] as int) * 0x100_0000_0000
          + (x[3] as int) * 0x1_0000_0000 + (x[4] as int) * 0x100_0000 + (x[5] as int) * 0x1_0000 + (x[6] as int) * 0x100 + x[7] == BeValue(x)
  {
    assert x == x[..4] + x[4..];
    BeValueAppend(x[..4], x[4..]);
    Assembly4(x[..4]);
    Assembly4(x[4..]);
    Pow256Values();
  }

  // The `(val >> 8k) & 0xFF` bytes of the encoders.

  lemma Disassembly2(v: nat)
    ensures BeBytes(v, 2) == [(v / 0x100) % 0x100, v % 0x100]
  {
    Pow256Values();
    BeBytesAt(v, 2, 0);
    BeBytesAt(v, 2, 1);
  }

  lemma Disassembly4(v: nat)
    ensures BeBytes(v, 4) == [(v / 0x100_0000) % 0x100, (v / 0x1_0000) % 0x100, (v / 0x100) % 0x100, v % 0x100]
  {
    Pow256Values();
    BeBytesAt(v, 4, 0);
    BeBytesAt(v, 4, 1);
    BeBytesAt(v, 4, 2);
    BeBytesAt(v, 4, 3);
  }

  lemma Disassembly6(v: nat)
    ensures BeBytes(v, 6) == [(v / 0x100_0000_0000) % 0x100, (v / 0x1_0000_0000) % 0x100, (v / 0x100_0000) % 0x100,
                              (v / 0x1_0000) % 0x100, (v / 0x100) % 0x100, v % 0x100]
  {
    Pow256Values();
    BeBytesAt(v, 6, 0);
    BeBytesAt(v, 6, 1);
    BeBytesAt(v, 6, 2);
    BeBytesAt(v, 6, 3);
    BeBytesAt(v, 6, 4);
    BeBytesAt(v, 6, 5);
  }

  lemma Disassembly8(v: nat)
    ensures BeBytes(v, 8) == [(v / 0x100_0000_0000_0000) % 0x100, (v / 0x1_0000_0000_0000) % 0x100,
                              (v / 0x100_0000_0000) % 0x100, (v / 0x1_0000_0000) % 0x100,
                              (v / 0x100_0000) % 0x100, (v / 0x1_0000) % 0x100, (v / 0x100) % 0x100, v % 0x100]
  {
    Pow256Values();
    BeBytesAt(v, 8, 0);
    BeBytesAt(v, 8, 1);
    BeBytesAt(v, 8, 2);
    BeBytesAt(v, 8, 3);
    BeBytesAt(v, 8, 4);
    BeBytesAt(v, 8, 5);
    BeBytesAt(v, 8, 6);
    BeBytesAt(v, 8, 7);
  }

  // ---------------------------------------------------------------------------
  // Decoders: GET_UINT8 … GET_UINT64 and GET_INT8 at &buf[o].

  /** GET_UINT8: the byte itself. */
  function GetUInt8(buf: seq<uint8>, o: nat): (r: uint8)
    requires o + UINT8_SIZE <= |buf|
    ensures r == BeValue(buf[o..o + UINT8_SIZE])
  {
    assert buf[o..o + 1][..0] == [];
    buf[o]
  }

  /**
   * GET_UINT16: the big-endian reading of buf[o..o+2], except on the
   * little-endian swap fast path, which yields the first byte moved to the top.
   */
  function GetUInt16(cfg: Config, base: nat, buf: seq<uint8>, o: nat): (r: uint16)
    requires o + UINT16_SIZE <= |buf|
    ensures r == if SwapsFirstByte(cfg, Is16Aligned(base + o)) then buf[o] * 0x100
                 else BeValue(buf[o..o + UINT16_SIZE])
  {
    Pow256Values();
    if cfg.bswapEnabled && Is16Aligned(base + o) then
      if cfg.hostBigEndian then
        NativeLoad(cfg, buf[o..o + 2])
      else
        BswapOfByte(2, buf[o]);
        Bswap(2, buf[o])
    else
      Assembly2(buf[o..o + 2]);
      (buf[o] as int) * 0x100 + buf[o + 1]
  }

  /** GET_UINT32, as GET_UINT16 over four bytes. */
  function GetUInt32(cfg: Config, base: nat, buf: seq<uint8>, o: nat): (r: uint32)
    requires o + UINT32_SIZE <= |buf|
    ensures r == if SwapsFirstByte(cfg, Is32Aligned(base + o)) then buf[o] * 0x100_0000
                 else BeValue(buf[o..o + UINT32_SIZE])
  {
    Pow256Values();
    if cfg.bswapEnabled && Is32Aligned(base + o) then
      if cfg.hostBigEndian then
        NativeLoad(cfg, buf[o..o + 4])
      else
        BswapOfByte(4, buf[o]);
        Bswap(4, buf[o])
    else
      Assembly4(buf[o..o + 4]);
      (buf[o] as int) * 0x100_0000 + (buf[o + 1] as int) * 0x1_0000 + (buf[o + 2] as int) * 0x100 + buf[o + 3]
  }

  /** A native big-endian load of eight bytes masked to 48 bits keeps the LAST six. */
  lemma NativeLoad48Tail(x: seq<uint8>)
    requires |x| == 8
    ensures BeValue(x) % TWO_48 == BeValue(x[2..])
  {
    assert x == x[..2] + x[2..];
    BeValueAppend(x[..2], x[2..]);
    BeValueBound(x[2..]);
    Pow256Values();
    DivModUnique(BeValue(x), TWO_48, BeValue(x[..2]), BeValue(x[2..]));
  }

  /**
   * GET_UINT48: the big-endian reading of buf[o..o+6]. Its fast path loads
   * a whole 64-bit word and masks it to 48 bits: on a big-endian host that
   * keeps bytes 2..8 of the word instead of bytes 0..6, and on a
   * little-endian host it masks a swapped single byte and always yields 0.
   */
  function GetUInt48(cfg: Config, base: nat, buf: seq<uint8>, o: nat): (r: uint64)
    requires o + UINT48_SIZE <= |buf|
    requires cfg.bswapEnabled && cfg.hostBigEndian && Is64Aligned(base + o) ==> o + UINT64_SIZE <= |buf|
    ensures r < TWO_48
    ensures r == if SwapsFirstByte(cfg, Is64Aligned(base + o)) then 0
                 else if cfg.bswapEnabled && Is64Aligned(base + o) then BeValue(buf[o + 2..o + UINT64_SIZE])
                 else BeValue(buf[o..o + UINT48_SIZE])
  {
    Pow256Values();
    if cfg.bswapEnabled && Is64Aligned(base + o) then
      if cfg.hostBigEndian then
        assert buf[o..o + 8][2..] == buf[o + 2..o + 8];
        NativeLoad48Tail(buf[o..o + 8]);
        NativeLoad(cfg, buf[o..o + 8]) % TWO_48
      else
        SwappedByteMasked(buf[o]);
        Bswap(8, buf[o]) % TWO_48
    else
      ReadBytes48(buf, o)
  }

  /**
   * The byte-by-byte path of GET_UINT48: the shift-or of the six bytes of
   * the field. It reads nothing outside buf[o..o+6].
   */
  function ReadBytes48(buf: seq<uint8>, o: nat): (r: uint64)
    requires o + UINT48_SIZE <= |buf|
    ensures r < TWO_48 && r == BeValue(buf[o..o + UINT48_SIZE])
  {
    Pow256Values();
    Assembly6(buf[o..o + 6]);
    BeValueBound(buf[o..o + 6]);
    (buf[o] as int) * 0x100_0000_0000 + (buf[o + 1] as int) * 0x1_0000_0000 + (buf[o + 2] as int) * 0x100_0000
    + (buf[o + 3] as int) * 0x1_0000 + (buf[o + 4] as int) * 0x100 + buf[o + 5]
  }

  /**
   * A 48-bit field at an 8-aligned address that ends where the buffer ends,
   * on a big-endian host with bswap enabled: the fast-path condition of
   * GET_UINT48 holds, yet the eight bytes that path loads do not fit, so the
   * requirement GetUInt48 places on that path fails; the source reads two
   * bytes past the buffer. The byte path reads the six bytes of the field
   * and nothing more.
   */
  lemma FastPath48Overruns(base: nat, buf: seq<uint8>, o: nat)
    requires o + UINT48_SIZE == |buf| && Is64Aligned(base + o)
    ensures var cfg := Config(true, true);
            !(cfg.bswapEnabled && cfg.hostBigEndian && Is64Aligned(base + o) ==> o + UINT64_SIZE <= |buf|)
            && ReadBytes48(buf, o) == BeValue(buf[o..])
  {
    assert buf[o..o + UINT48_SIZE] == buf[o..];
  }

  /** GET_UINT64, as GET_UINT16 over eight bytes. */
  function GetUInt64(cfg: Config, base: nat, buf: seq<uint8>, o: nat): (r: uint64)
    requires o + UINT64_SIZE <= |buf|
    ensures r == if SwapsFirstByte(cfg, Is64Aligned(base + o)) then buf[o] * 0x100_0000_0000_0000
                 else BeValue(buf[o..o + UINT64_SIZE])
  {
    Pow256Values();
    if cfg.bswapEnabled && Is64Aligned(base + o) then
      if cfg.hostBigEndian then
        NativeLoad(cfg, buf[o..o + 8])
      else
        BswapOfByte(8, buf[o]);
        Bswap(8, buf[o])
    else
      Assembly8(buf[o..o + 8]);
      (buf[o] as int) * 0x100_0000_0000_0000 + (buf[o + 1] as int) * 0x1_0000_0000_0000 + (buf[o + 2] as int) * 0x100_0000_0000
      + (buf[o + 3] as int) * 0x1_0000_0000 + (buf[o + 4] as int) * 0x100_0000 + (buf[o + 5] as int) * 0x1_0000 + (buf[o + 6] as int) * 0x100 + buf[o + 7]
  }

  /** GET_INT8: the byte reinterpreted as a two's-complement int8_t. */
  function GetInt8(buf: seq<uint8>, o: nat): (r: int8)
    requires o + INT8_SIZE <= |buf|
    ensures r % 0x100 == buf[o]
    ensures r < 0 <==> buf[o] >= 0x80
  {
    Pow256Values();
    ToSigned(GetUInt8(buf, o), INT8_SIZE)
  }

  // ---------------------------------------------------------------------------
  // Encoders: SET_UINT8 … SET_UINT64 and SET_INT8 … SET_INT64 at &buf[o].
  // They have no fast path: every build writes the same bytes.

  /** SET_UINT8: writes val at buf[o] and nothing else. */
  method SetUInt8(buf: array<uint8>, o: nat, val: uint8)
    requires o + UINT8_SIZE <= buf.Length
    modifies buf
    ensures buf[..] == Splice(old(buf[..]), o, BeBytes(val, UINT8_SIZE))
  {
    buf[o] := val % 0x100;
    assert BeBytes(val, 1) == [val];
    SpliceFrom(old(buf[..]), buf[..], o, BeBytes(val, 1));
  }

  /** SET_UINT16: writes the two big-endian bytes of val at buf[o..o+2]. */
  method SetUInt16(buf: array<uint8>, o: nat, val: uint16)
    requires o + UINT16_SIZE <= buf.Length
    modifies buf
    ensures buf[..] == Splice(old(buf[..]), o, BeBytes(val, UINT16_SIZE))
  {
    buf[o] := (val / 0x100) % 0x100;
    buf[o + 1] := val % 0x100;
    Disassembly2(val);
    SpliceFrom(old(buf[..]), buf[..], o, BeBytes(val, 2));
  }

  /** SET_UINT32: writes the four big-endian bytes of val at buf[o..o+4]. */
  method SetUInt32(buf: array<uint8>, o: nat, val: uint32)
    requires o + UINT32_SIZE <= buf.Length
    modifies buf
    ensures buf[..] == Splice(old(buf[..]), o, BeBytes(val, UINT32_SIZE))
  {
    buf[o] := (val / 0x100_0000) % 0x100;
    buf[o + 1] := (val / 0x1_0000) % 0x100;
    buf[o + 2] := (val / 0x100) % 0x100;
    buf[o + 3] := val % 0x100;
    Disassembly4(val);
    SpliceFrom(old(buf[..]), buf[..], o, BeBytes(val, 4));
  }

  /** SET_UINT48: writes the low six bytes of val, big-endian, at buf[o..o+6]. */
  method SetUInt48(buf: array<uint8>, o: nat, val: uint64)
    requires o + UINT48_SIZE <= buf.Length
    modifies buf
    ensures buf[..] == Splice(old(buf[..]), o, BeBytes(val, UINT48_SIZE))
  {
    buf[o] := (val / 0x100_0000_0000) % 0x100;
    buf[o + 1] := (val / 0x1_0000_0000) % 0x100;
    buf[o + 2] := (val / 0x100_0000) % 0x100;
    buf[o + 3] := (val / 0x1_0000) % 0x100;
    buf[o + 4] := (val / 0x100) % 0x100;
    buf[o + 5] := val % 0x100;
    Disassembly6(val);
    SpliceFrom(old(buf[..]), buf[..], o, BeBytes(val, 6));
  }

  /** SET_UINT64: writes the eight big-endian bytes of val at buf[o..o+8]. */
  method SetUInt64(buf: array<uint8>, o: nat, val: uint64)
    requires o + UINT64_SIZE <= buf.Length
    modifies buf
    ensures buf[..] == Splice(old(buf[..]), o, BeBytes(val, UINT64_SIZE))
  {
    buf[o] := (val / 0x100_0000_0000_0000) % 0x100;
    buf[o + 1] := (val / 0x1_0000_0000_0000) % 0x100;
    buf[o + 2] := (val / 0x100_0000_0000) % 0x100;
    buf[o + 3] := (val / 0x1_0000_0000) % 0x100;
    buf[o + 4] := (val / 0x100_0000) % 0x100;
    buf[o + 5] := (val / 0x1_0000) % 0x100;
    buf[o + 6] := (val / 0x100) % 0x100;
    buf[o + 7] := val % 0x100;
    Disassembly8(val);
    SpliceFrom(old(buf[..]), buf[..], o, BeBytes(val, 8));
  }

  /** SET_INT8: the two's-complement byte of val. */
  method SetInt8(buf: array<uint8>, o: nat, val: int8)
    requires o + INT8_SIZE <= buf.Length
    modifies buf
    ensures buf[..] == Splice(old(buf[..]), o, BeBytes(val % 0x100, INT8_SIZE))
  {
    SetUInt8(buf, o, val % 0x100);
  }

  /** SET_INT16: the two's-complement pattern of val, written by SET_UINT16. */
  method SetInt16(buf: array<uint8>, o: nat, val: int16)
    requires o + INT16_SIZE <= buf.Length
    modifies buf
    ensures buf[..] == Splice(old(buf[..]), o, BeBytes(val % 0x1_0000, INT16_SIZE))
  {
    SetUInt16(buf, o, val % 0x1_0000);
  }

  /** SET_INT32: the two's-complement pattern of val, written by SET_UINT32. */
  method SetInt32(buf: array<uint8>, o: nat, val: int32)
    requires o + INT32_SIZE <= buf.Length
    modifies buf
    ensures buf[..] == Splice(old(buf[..]), o, BeBytes(val % 0x1_0000_0000, INT32_SIZE))
  {
    SetUInt32(buf, o, val % 0x1_0000_0000);
  }

  /** SET_INT48: the 64-bit two's-complement pattern of val, written by SET_UINT48. */
  method SetInt48(buf: array<uint8>, o: nat, val: int64)
    requires o + INT48_SIZE <= buf.Length
    modifies buf
    ensures buf[..] == Splice(old(buf[..]), o, BeBytes(val % TWO_64, INT48_SIZE))
  {
    SetUInt48(buf, o, val % TWO_64);
  }

  /** SET_INT64: the two's-complement pattern of val, written by SET_UINT64. */
  method SetInt64(buf: array<uint8>, o: nat, val: int64)
    requires o + INT64_SIZE <= buf.Length
    modifies buf
    ensures buf[..] == Splice(old(buf[..]), o, BeBytes(val % TWO_64, INT64_SIZE))
  {
    SetUInt64(buf, o, val % TWO_64);
  }

  // ---------------------------------------------------------------------------
  // Cursor overloads: write at buf[o] and advance the caller's length by the width.

  /** SET_UINT8 with a length cursor. */
  method SetUInt8Cursor(buf: array<uint8>, o: nat, val: uint8, length: int) returns (newLength: int)
    requires o + UINT8_SIZE <= buf.Length
    modifies buf
    ensures buf[..] == Splice(old(buf[..]), o, BeBytes(val, UINT8_SIZE))
    ensures newLength == length + UINT8_SIZE
  {
    SetUInt8(buf, o, val);
    newLength := length + UINT8_SIZE;
  }

  /** SET_UINT16 with a length cursor. */
  method SetUInt16Cursor(buf: array<uint8>, o: nat, val: uint16, length: int) returns (newLength: int)
    requires o + UINT16_SIZE <= buf.Length
    modifies buf
    ensures buf[..] == Splice(old(buf[..]), o, BeBytes(val, UINT16_SIZE))
    ensures newLength == length + UINT16_SIZE
  {
    SetUInt16(buf, o, val);
    newLength := length + UINT16_SIZE;
  }

  /** SET_UINT32 with a length cursor. */
  method SetUInt32Cursor(buf: array<uint8>, o: nat, val: uint32, length: int) returns (newLength: int)
    requires o + UINT32_SIZE <= buf.Length
    modifies buf
    ensures buf[..] == Splice(old(buf[..]), o, BeBytes(val, UINT32_SIZE))
    ensures newLength == length + UINT32_SIZE
  {
    SetUInt32(buf, o, val);
    newLength := length + UINT32_SIZE;
  }

  /** SET_UINT48 with a length cursor. */
  method SetUInt48Cursor(buf: array<uint8>, o: nat, val: uint64, length: int) returns (newLength: int)
    requires o + UINT48_SIZE <= buf.Length
    modifies buf
    ensures buf[..] == Splice(old(buf[..]), o, BeBytes(val, UINT48_SIZE))
    ensures newLength == length + UINT48_SIZE
  {
    SetUInt48(buf, o, val);
    newLength := length + UINT48_SIZE;
  }

  /** SET_UINT64 with a length cursor. */
  method SetUInt64Cursor(buf: array<uint8>, o: nat, val: uint64, length: int) returns (newLength: int)
    requires o + UINT64_SIZE <= buf.Length
    modifies buf
    ensures buf[..] == Splice(old(buf[..]), o, BeBytes(val, UINT64_SIZE))
    ensures newLength == length + UINT64_SIZE
  {
    SetUInt64(buf, o, val);
    newLength := length + UINT64_SIZE;
  }

  /** SET_INT8 with a length cursor. */
  method SetInt8Cursor(buf: array<uint8>, o: nat, val: int8, length: int) returns (newLength: int)
    requires o + INT8_SIZE <= buf.Length
    modifies buf
    ensures buf[..] == Splice(old(buf[..]), o, BeBytes(val % 0x100, INT8_SIZE))
    ensures newLength == length + INT8_SIZE
  {
    SetInt8(buf, o, val);
    newLength := length + INT8_SIZE;
  }

  /** SET_INT16 with a length cursor. */
  method SetInt16Cursor(buf: array<uint8>, o: nat, val: int16, length: int) returns (newLength: int)
    requires o + INT16_SIZE <= buf.Length
    modifies buf
    ensures buf[..] == Splice(old(buf[..]), o, BeBytes(val % 0x1_0000, INT16_SIZE))
    ensures newLength == length + INT16_SIZE
  {
    SetInt16(buf, o, val);
    newLength := length + INT16_SIZE;
  }

  /** SET_INT32 with a length cursor. */
  method SetInt32Cursor(buf: array<uint8>, o: nat, val: int32, length: int) returns (newLength: int)
    requires o + INT32_SIZE <= buf.Length
    modifies buf
    ensures buf[..] == Splice(old(buf[..]), o, BeBytes(val % 0x1_0000_0000, INT32_SIZE))
    ensures newLength == length + INT32_SIZE
  {
    SetInt32(buf, o, val);
    newLength := length + INT32_SIZE;
  }

  /** SET_INT48 with a length cursor. */
  method SetInt48Cursor(buf: array<uint8>, o: nat, val: int64, length: int) returns (newLength: int)
    requires o + INT48_SIZE <= buf.Length
    modifies buf
    ensures buf[..] == Splice(old(buf[..]), o, BeBytes(val % TWO_64, INT48_SIZE))
    ensures newLength == length + INT48_SIZE
  {
    SetInt48(buf, o, val);
    newLength := length + INT48_SIZE;
  }

  /** SET_INT64 with a length cursor. */
  method SetInt64Cursor(buf: array<uint8>, o: nat, val: int64, length: int) returns (newLength: int)
    requires o + INT64_SIZE <= buf.Length
    modifies buf
    ensures buf[..] == Splice(old(buf[..]), o, BeBytes(val % TWO_64, INT64_SIZE))
    ensures newLength == length + INT64_SIZE
  {
    SetInt64(buf, o, val);
    newLength := length + INT64_SIZE;
  }

  /** SET_FLOAT32 with a length cursor, given the float's bit pattern: advances by UINT32_SIZE. */
  method SetFloat32Cursor(buf: array<uint8>, o: nat, bits: uint32, length: int) returns (newLength: int)
    requires o + FLOAT32_SIZE <= buf.Length
    modifies buf
    ensures buf[..] == Splice(old(buf[..]), o, BeBytes(bits, FLOAT32_SIZE))
    ensures newLength == length + UINT32_SIZE
  {
    SetUInt32(buf, o, bits);
    newLength := length + UINT32_SIZE;
  }

  /** SET_FLOAT64 with a length cursor, given the double's bit pattern: advances by UINT64_SIZE. */
  method SetFloat64Cursor(buf: array<uint8>, o: nat, bits: uint64, length: int) returns (newLength: int)
    requires o + FLOAT64_SIZE <= buf.Length
    modifies buf
    ensures buf[..] == Splice(old(buf[..]), o, BeBytes(bits, FLOAT64_SIZE))
    ensures newLength == length + UINT64_SIZE
  {
    SetUInt64(buf, o, bits);
    newLength := length + UINT64_SIZE;
  }

  /** 0xDEADBEEF written at offset 2 of eight zero bytes, in network order. */
  method EncodeDeadBeef() returns (bytes: seq<uint8>)
    ensures bytes == [0x00, 0x00, 0xDE, 0xAD, 0xBE, 0xEF, 0x00, 0x00]
  {
    var buf := new uint8[8](_ => 0);
    ghost var zeros := buf[..];
    assert zeros == [0, 0, 0, 0, 0, 0, 0, 0];
    SetUInt32(buf, 2, 0xDEADBEEF);
    assert BeBytes(0xDEADBEEF, 4) == [0xDE, 0xAD, 0xBE, 0xEF];
    bytes := buf[..];
    assert zeros[..2] == [0, 0] && zeros[6..] == [0, 0];
    assert bytes == [0, 0] + [0xDE, 0xAD, 0xBE, 0xEF] + [0, 0];
    FourInEight(0xDE, 0xAD, 0xBE, 0xEF);
  }

  // ---------------------------------------------------------------------------
  // Round trips: what a SET writes, the matching GET reads back.

  lemma RoundTrip8(s: seq<uint8>, o: nat, v: uint8)
    requires o + UINT8_SIZE <= |s|
    ensures GetUInt8(Splice(s, o, BeBytes(v, UINT8_SIZE)), o) == v
  {
    var t := Splice(s, o, BeBytes(v, 1));
    assert t[o..o + 1] == BeBytes(v, 1);
    assert BeBytes(v, 1) == [v];
  }

  /** Off the swap fast path, GET_UINT16 reads back what SET_UINT16 wrote. */
  lemma RoundTrip16(cfg: Config, base: nat, s: seq<uint8>, o: nat, v: uint16)
    requires o + UINT16_SIZE <= |s|
    requires !SwapsFirstByte(cfg, Is16Aligned(base + o))
    ensures GetUInt16(cfg, base, Splice(s, o, BeBytes(v, UINT16_SIZE)), o) == v
  {
    var t := Splice(s, o, BeBytes(v, 2));
    assert t[o..o + 2] == BeBytes(v, 2);
    BeRoundTrip(v, 2);
    Pow256Values();
    DivModUnique(v, Pow256(2), 0, v);
  }

  /** Off the swap fast path, GET_UINT32 reads back what SET_UINT32 wrote. */
  lemma RoundTrip32(cfg: Config, base: nat, s: seq<uint8>, o: nat, v: uint32)
    requires o + UINT32_SIZE <= |s|
    requires !SwapsFirstByte(cfg, Is32Aligned(base + o))
    ensures GetUInt32(cfg, base, Splice(s, o, BeBytes(v, UINT32_SIZE)), o) == v
  {
    var t := Splice(s, o, BeBytes(v, 4));
    assert t[o..o + 4] == BeBytes(v, 4);
    BeRoundTrip(v, 4);
    Pow256Values();
    DivModUnique(v, Pow256(4), 0, v);
  }

  /** Off the 48-bit fast path, GET_UINT48 reads back the low 48 bits of what SET_UINT48 wrote. */
  lemma RoundTrip48(cfg: Config, base: nat, s: seq<uint8>, o: nat, v: uint64)
    requires o + UINT48_SIZE <= |s|
    requires !(cfg.bswapEnabled && Is64Aligned(base + o))
    ensures GetUInt48(cfg, base, Splice(s, o, BeBytes(v, UINT48_SIZE)), o) == v % TWO_48
  {
    var t := Splice(s, o, BeBytes(v, 6));
    assert t[o..o + 6] == BeBytes(v, 6);
    BeRoundTrip(v, 6);
    Pow256Values();
  }

  /** Off the swap fast path, GET_UINT64 reads back what SET_UINT64 wrote. */
  lemma RoundTrip64(cfg: Config, base: nat, s: seq<uint8>, o: nat, v: uint64)
    requires o + UINT64_SIZE <= |s|
    requires !SwapsFirstByte(cfg, Is64Aligned(base + o))
    ensures GetUInt64(cfg, base, Splice(s, o, BeBytes(v, UINT64_SIZE)), o) == v
  {
    var t := Splice(s, o, BeBytes(v, 8));
    assert t[o..o + 8] == BeBytes(v, 8);
    BeRoundTrip(v, 8);
    Pow256Values();
    DivModUnique(v, Pow256(8), 0, v);
  }

  /** GET_INT8 reads back the value SET_INT8 wrote. */
  lemma RoundTripInt8(s: seq<uint8>, o: nat, v: int8)
    requires o + INT8_SIZE <= |s|
    ensures GetInt8(Splice(s, o, BeBytes(v % 0x100, INT8_SIZE)), o) == v
  {
    Pow256Values();
    RoundTrip8(s, o, v % 0x100);
    SignedPattern(v, 1);
  }

  // ---------------------------------------------------------------------------
  // The little-endian swap fast path of GET_UINT16/32/48/64.

  /** The fast decode as evidently intended on a little-endian host: load the word, then swap it. */
  function CorrectedSwapLoad(cfg: Config, x: seq<uint8>): (r: nat)
    requires !cfg.hostBigEndian
    ensures r == BeValue(x)
  {
    LoadThenSwap(cfg, x);
    Bswap(|x|, NativeLoad(cfg, x))
  }

  /** With the swap fast path built in on a little-endian host, the bytes 01 02 decode to 0x0100, not 0x0102. */
  lemma SwapFastPathDiverges()
    ensures GetUInt16(Config(false, true), 0, [0x01, 0x02], 0) == 0x0100
    ensures CorrectedSwapLoad(Config(false, true), [0x01, 0x02]) == 0x0102
  {
    assert BeValue([0x01, 0x02]) == 0x0102 by {
      assert [0x01, 0x02][..1] == [0x01];
      assert [0x01][..0] == [];
    }
  }

  /** So SET then GET of a 16-bit value does not round-trip on that build. */
  lemma SwapFastPathBreaksRoundTrip()
    ensures GetUInt16(Config(false, true), 0, Splice([0, 0], 0, BeBytes(0x0102, UINT16_SIZE)), 0) == 0x0100
  {
    Disassembly2(0x0102);
    assert Splice([0, 0], 0, [0x01, 0x02]) == [0x01, 0x02];
  }

  /** On that build GET_UINT48 of the bytes 00 00 00 00 00 01 is 0, where their reading is 1. */
  lemma SwapFastPath48Zero()
    ensures GetUInt48(Config(false, true), 0, [0, 0, 0, 0, 0, 1], 0) == 0
    ensures CorrectedSwapLoad(Config(false, true), [0, 0, 0, 0, 0, 1]) == 1
  {
    var x: seq<uint8> := [0, 0, 0, 0, 0, 1];
    Assembly6(x);
  }

  // ---------------------------------------------------------------------------
  // The big-endian 48-bit fast load.

  /** The 48-bit fast load as evidently intended on a big-endian host: shift the word right by 16 bits. */
  function CorrectedLoad48(cfg: Config, x: seq<uint8>): (r: nat)
    requires cfg.hostBigEndian && |x| == UINT64_SIZE
    ensures r == BeValue(x[..UINT48_SIZE])
  {
    assert x == x[..6] + x[6..];
    BeValueAppend(x[..6], x[6..]);
    BeValueBound(x[6..]);
    Pow256Values();
    DivModUnique(BeValue(x), 0x1_0000, BeValue(x[..6]), BeValue(x[6..]));
    NativeLoad(cfg, x) / 0x1_0000
  }

  /**
   * On a big-endian host with the fast path built in, GET_UINT48 at an
   * aligned address reads 00 00 00 00 00 01 (followed by 00 00) as 0x10000, not 1.
   */
  lemma Load48ReadsWrongBytes()
    ensures GetUInt48(Config(true, true), 0, [0, 0, 0, 0, 0, 1, 0, 0], 0) == 0x1_0000
    ensures CorrectedLoad48(Config(true, true), [0, 0, 0, 0, 0, 1, 0, 0]) == 1
  {
    var x: seq<uint8> := [0, 0, 0, 0, 0, 1, 0, 0];
    assert x[0 + 2..0 + 8] == [0, 0, 0, 1, 0, 0];
    Assembly6([0, 0, 0, 1, 0, 0]);
    assert x[..6] == [0, 0, 0, 0, 0, 1];
    Assembly6([0, 0, 0, 0, 0, 1]);
  }

  /** So on that build GET_UINT48 does not read back 1 after SET_UINT48 wrote it. */
  lemma Load48BreaksRoundTrip()
    ensures GetUInt48(Config(true, true), 0, Splice([0, 0, 0, 0, 0, 0, 0, 0], 0, BeBytes(1, UINT48_SIZE)), 0) == 0x1_0000
  {
    Disassembly6(1);
    assert Splice([0, 0, 0, 0, 0, 0, 0, 0], 0, [0, 0, 0, 0, 0, 1]) == [0, 0, 0, 0, 0, 1, 0, 0];
    Load48ReadsWrongBytes();
  }

  // ---------------------------------------------------------------------------
  // GET_INT16 … GET_INT64.

  /** GET_INT16 over the bytes 01 02 yields 1 when the byte next to the local is 0, not 0x0102. */
  lemma SignedReadDropsHighBytes()
    ensures SignedReadAsWritten(Config(false, false), [0x01, 0x02], 0, [0x00]) == 0x01
    ensures GetInt16(Config(false, false), 0, [0x01, 0x02], 0) == 0x0102
  {
    Pow256Values();
    assert LeValue([0x01, 0x00]) == 0x01 by {
      assert [0x01, 0x00][1..] == [0x00];
      assert [0x00][1..] == [];
    }
    assert [[0x01, 0x02][0]] + [0x00] == [0x01, 0x00];
    Assembly2([0x01, 0x02]);
  }

  /** GET_INT16 as evidently intended: GET_UINT16's pattern reinterpreted as two's complement. */
  function GetInt16(cfg: Config, base: nat, buf: seq<uint8>, o: nat): (r: int16)
    requires o + INT16_SIZE <= |buf|
    ensures r % 0x1_0000 == GetUInt16(cfg, base, buf, o)
    ensures r < 0 <==> GetUInt16(cfg, base, buf, o) >= 0x8000
  {
    Pow256Values();
    ToSigned(GetUInt16(cfg, base, buf, o), INT16_SIZE)
  }

  /** GET_INT32 as evidently intended. */
  function GetInt32(cfg: Config, base: nat, buf: seq<uint8>, o: nat): (r: int32)
    requires o + INT32_SIZE <= |buf|
    ensures r % 0x1_0000_0000 == GetUInt32(cfg, base, buf, o)
    ensures r < 0 <==> GetUInt32(cfg, base, buf, o) >= 0x8000_0000
  {
    Pow256Values();
    ToSigned(GetUInt32(cfg, base, buf, o), INT32_SIZE)
  }

  /** GET_INT48 as evidently intended: the 48-bit pattern sign-extended into an int64_t. */
  function GetInt48(cfg: Config, base: nat, buf: seq<uint8>, o: nat): (r: int64)
    requires o + INT48_SIZE <= |buf|
    requires cfg.bswapEnabled && cfg.hostBigEndian && Is64Aligned(base + o) ==> o + UINT64_SIZE <= |buf|
    ensures r % TWO_48 == GetUInt48(cfg, base, buf, o)
    ensures r < 0 <==> GetUInt48(cfg, base, buf, o) >= 0x8000_0000_0000
  {
    Pow256Values();
    ToSigned(GetUInt48(cfg, base, buf, o), INT48_SIZE)
  }

  /** GET_INT64 as evidently intended. */
  function GetInt64(cfg: Config, base: nat, buf: seq<uint8>, o: nat): (r: int64)
    requires o + INT64_SIZE <= |buf|
    ensures r % TWO_64 == GetUInt64(cfg, base, buf, o)
    ensures r < 0 <==> GetUInt64(cfg, base, buf, o) >= 0x8000_0000_0000_0000
  {
    Pow256Values();
    ToSigned(GetUInt64(cfg, base, buf, o), INT64_SIZE)
  }

  /** Off the swap fast path, GET_INT16 reads back the value SET_INT16 wrote. */
  lemma RoundTripInt16(cfg: Config, base: nat, s: seq<uint8>, o: nat, v: int16)
    requires o + INT16_SIZE <= |s|
    requires !SwapsFirstByte(cfg, Is16Aligned(base + o))
    ensures GetInt16(cfg, base, Splice(s, o, BeBytes(v % 0x1_0000, INT16_SIZE)), o) == v
  {
    Pow256Values();
    RoundTrip16(cfg, base, s, o, v % 0x1_0000);
    SignedPattern(v, 2);
  }

  /** Off the swap fast path, GET_INT32 reads back the value SET_INT32 wrote. */
  lemma RoundTripInt32(cfg: Config, base: nat, s: seq<uint8>, o: nat, v: int32)
    requires o + INT32_SIZE <= |s|
    requires !SwapsFirstByte(cfg, Is32Aligned(base + o))
    ensures GetInt32(cfg, base, Splice(s, o, BeBytes(v % 0x1_0000_0000, INT32_SIZE)), o) == v
  {
    Pow256Values();
    RoundTrip32(cfg, base, s, o, v % 0x1_0000_0000);
    SignedPattern(v, 4);
  }

  /** Off the 48-bit fast path, GET_INT48 reads back a value in the 48-bit range that SET_INT48 wrote. */
  lemma RoundTripInt48(cfg: Config, base: nat, s: seq<uint8>, o: nat, v: int64)
    requires o + INT48_SIZE <= |s|
    requires !(cfg.bswapEnabled && Is64Aligned(base + o))
    requires -0x8000_0000_0000 <= v < 0x8000_0000_0000
    ensures GetInt48(cfg, base, Splice(s, o, BeBytes(v % TWO_64, INT48_SIZE)), o) == v
  {
    Pow256Values();
    RoundTrip48(cfg, base, s, o, v % TWO_64);
    ModMod48(v);
    SignedPattern(v, 6);
  }

  /** Off the swap fast path, GET_INT64 reads back the value SET_INT64 wrote. */
  lemma RoundTripInt64(cfg: Config, base: nat, s: seq<uint8>, o: nat, v: int64)
    requires o + INT64_SIZE <= |s|
    requires !SwapsFirstByte(cfg, Is64Aligned(base + o))
    ensures GetInt64(cfg, base, Splice(s, o, BeBytes(v % TWO_64, INT64_SIZE)), o) == v
  {
    Pow256Values();
    RoundTrip64(cfg, base, s, o, v % TWO_64);
    SignedPattern(v, 8);
  }

  // ---------------------------------------------------------------------------
  // MEMCPY_16/32/64: copy `count` big-endian elements of a width into host order.

  /** The decoder the aligned loop calls for elements of a width. */
  function GetUIntN(cfg: Config, base: nat, buf: seq<uint8>, o: nat, width: nat): (r: nat)
    requires width == 2 || width == 4 || width == 8
    requires o + width <= |buf|
    ensures r == if SwapsFirstByte(cfg, AlignedTo(width, base + o)) then buf[o] * Pow256(width - 1)
                 else BeValue(buf[o..o + width])
  {
    Pow256Values();
    if width == 2 then GetUInt16(cfg, base, buf, o)
    else if width == 4 then GetUInt32(cfg, base, buf, o)
    else GetUInt64(cfg, base, buf, o)
  }

  /** On a little-endian host, what the loop stores for the element at buf[o] is that element converted. */
  lemma SlotConversion(cfg: Config, base: nat, buf: seq<uint8>, o: nat, width: nat, elem: seq<uint8>)
    requires width == 2 || width == 4 || width == 8
    requires o + width <= |buf|
    requires !cfg.hostBigEndian && AlignedTo(width, base + o)
    requires buf[o..o + width] == elem
    ensures HostBytes(cfg, GetUIntN(cfg, base, buf, o, width), width) == ConvertedSlot(Big, cfg, elem)
  {
    if cfg.bswapEnabled {
      SwappedByteLittleStore(width, buf[o]);
    } else {
      ReversedLittleStore(buf[o..o + width]);
    }
  }

  /** The element the loop reads at src[s+i] is the next element of x, and converts to its slot. */
  lemma SlotRead(cfg: Config, srcBase: nat, srcNow: seq<uint8>, s: nat, i: nat, e: nat, x: seq<uint8>, width: nat)
    requires width == 2 || width == 4 || width == 8
    requires !cfg.hostBigEndian && AlignedTo(width, srcBase + s)
    requires i % width == 0 && e % width == 0 && i < e && |x| == e
    requires s + e <= |srcNow| && srcNow[s + i..s + e] == x[i..]
    ensures i + width <= e
    ensures HostBytes(cfg, GetUIntN(cfg, srcBase, srcNow, s + i, width), width) == ConvertedSlot(Big, cfg, x[i..i + width])
  {
    MultipleGap(i, e, width);
    AlignedOffset(width, srcBase + s, i);
    WindowPrefix(srcNow, s + i, s + e, x, i, width);
    SlotConversion(cfg, srcBase, srcNow, s + i, width, x[i..i + width]);
  }

  /** One pass of the aligned loop extends the converted prefix in dest by the element at src[s+i]. */
  lemma LoopStep(cfg: Config, srcBase: nat, srcNow: seq<uint8>, s: nat, i: nat, e: nat, x: seq<uint8>,
                 before: seq<uint8>, destNow: seq<uint8>, d: nat, width: nat)
    requires width == 2 || width == 4 || width == 8
    requires !cfg.hostBigEndian && AlignedTo(width, srcBase + s)
    requires i % width == 0 && e % width == 0 && i < e && |x| == e
    requires s + e <= |srcNow| && srcNow[s + i..s + e] == x[i..]
    requires d + e <= |before| && destNow == Splice(before, d, Converted(Big, cfg, x[..i], width))
    ensures i + width <= e && (i + width) % width == 0
    ensures Splice(destNow, d + i, HostBytes(cfg, GetUIntN(cfg, srcBase, srcNow, s + i, width), width))
         == Splice(before, d, Converted(Big, cfg, x[..i + width], width))
  {
    SlotRead(cfg, srcBase, srcNow, s, i, e, x, width);
    ConvertStep(Big, cfg, before, d, x, i, width);
  }

  /**
   * One pass of the aligned loop: the element at src[s+i] is read with
   * GET_UINTn and stored natively at dest[d+i]. Given the loop's state
   * after i bytes, it leaves the state after i + width bytes.
   */
  method ConvertOne(cfg: Config, width: nat, dest: array<uint8>, d: nat, src: array<uint8>, s: nat,
                    srcBase: nat, i: nat, ghost e: nat, ghost before: seq<uint8>, ghost x: seq<uint8>)
      returns (next: nat)
    requires width == 2 || width == 4 || width == 8
    requires !cfg.hostBigEndian && AlignedTo(width, srcBase + s)
    requires i % width == 0 && e % width == 0 && i < e && |x| == e
    requires d + e <= dest.Length && s + e <= src.Length && |before| == dest.Length
    requires dest == src ==> d <= s || s + e <= d
    requires dest == src ==> before[s..s + e] == x
    requires dest != src ==> src[s..s + e] == x
    requires dest[..] == Splice(before, d, Converted(Big, cfg, x[..i], width))
    modifies dest
    ensures next == i + width && next % width == 0 && next <= e
    ensures dest[..] == Splice(before, d, Converted(Big, cfg, x[..next], width))
  {
    ghost var srcNow := src[..];
    ghost var destNow := dest[..];
    ghost var aliased := dest == src;
    assert !aliased ==> srcNow[s..s + e] == x;
    assert aliased ==> srcNow == destNow;
    LoopWindow(srcNow, aliased, before, d, Converted(Big, cfg, x[..i], width), s, i, e, x);
    LoopStep(cfg, srcBase, srcNow, s, i, e, x, before, destNow, d, width);
    var v := GetUIntN(cfg, srcBase, src[..], s + i, width);
    var bytes := HostBytes(cfg, v, width);
    Store(dest, d + i, bytes);
    next := i + width;
  }

  /**
   * The aligned loop of MEMCPY_n on a little-endian host,
   * `for (i = 0; i < bound; i += width) store(&dest[d+i], GET_UINTn(src, s+i))`:
   * it converts the elements of the first RoundUp(bound, width) bytes.
   */
  method ConvertSlots(cfg: Config, width: nat, dest: array<uint8>, d: nat, src: array<uint8>, s: nat,
                      srcBase: nat, bound: nat, ghost x: seq<uint8>)
    requires width == 2 || width == 4 || width == 8
    requires !cfg.hostBigEndian && AlignedTo(width, srcBase + s)
    requires d + RoundUp(bound, width) <= dest.Length && s + RoundUp(bound, width) <= src.Length
    requires dest == src ==> d <= s || s + RoundUp(bound, width) <= d
    requires x == src[s..s + RoundUp(bound, width)]
    modifies dest
    ensures dest[..] == Splice(old(dest[..]), d, Converted(Big, cfg, x, width))
  {
    ghost var before := dest[..];
    ghost var e := RoundUp(bound, width);
    var i := 0;
    assert x[..0] == [];
    while i < bound
      invariant i % width == 0 && i <= e
      invariant dest[..] == Splice(before, d, Converted(Big, cfg, x[..i], width))
      invariant dest != src ==> src[s..s + e] == x
    {
      i := ConvertOne(cfg, width, dest, d, src, s, srcBase, i, e, before, x);
    }
    LoopExit(i, bound, width);
    assert x[..i] == x;
  }

  /**
   * What MEMCPY_16/32/64 leave in dest for elements of `width` bytes: on a
   * little-endian host with src aligned, the aligned loop's conversion of the
   * elements it reaches; otherwise the count * width bytes of src unchanged.
   */
  function MemcpyImage(cfg: Config, width: nat, dest: seq<uint8>, d: nat, src: seq<uint8>, s: nat, srcBase: nat, count: nat): (r: seq<uint8>)
    requires width == 2 || width == 4 || width == 8
    requires d + count * width <= |dest| && s + count * width <= |src|
    ensures |r| == |dest|
  {
    Splice(dest, d, MemcpyRun(cfg, width, src, s, srcBase, count))
  }

  /** The run MEMCPY_16/32/64 write at dest: no longer than count * width bytes. */
  function MemcpyRun(cfg: Config, width: nat, src: seq<uint8>, s: nat, srcBase: nat, count: nat): (r: seq<uint8>)
    requires width == 2 || width == 4 || width == 8
    requires s + count * width <= |src|
    ensures |r| <= count * width
  {
    if !cfg.hostBigEndian && AlignedTo(width, srcBase + s) then
      Converted(Big, cfg, src[s..s + RoundUp(count, width)], width)
    else src[s..s + count * width]
  }

  /**
   * MEMCPY_16/32/64 for elements of `width` bytes. On a little-endian host
   * with src aligned it runs the aligned loop with the bound `count` (an
   * element count, stepped in bytes); otherwise it copies count * width
   * bytes unchanged with memcpy, so the two ranges must not overlap.
   */
  method MemcpyN(cfg: Config, width: nat, dest: array<uint8>, d: nat, src: array<uint8>, s: nat, srcBase: nat, count: nat)
    requires width == 2 || width == 4 || width == 8
    requires d + count * width <= dest.Length && s + count * width <= src.Length
    requires !cfg.hostBigEndian && AlignedTo(width, srcBase + s) && dest == src ==> d <= s || s + count * width <= d
    requires !(!cfg.hostBigEndian && AlignedTo(width, srcBase + s)) ==> !Overlap(dest, d, src, s, count * width)
    modifies dest
    ensures dest[..] == MemcpyImage(cfg, width, old(dest[..]), d, old(src[..]), s, srcBase, count)
  {
    if !cfg.hostBigEndian && AlignedTo(width, srcBase + s) {
      ConvertPath(cfg, width, dest, d, src, s, srcBase, count);
    } else {
      CopyPath(cfg, width, dest, d, src, s, srcBase, count);
    }
  }

  /** MEMCPY_n on a little-endian host with src aligned: the aligned loop over the first `count` bytes. */
  method ConvertPath(cfg: Config, width: nat, dest: array<uint8>, d: nat, src: array<uint8>, s: nat, srcBase: nat, count: nat)
    requires width == 2 || width == 4 || width == 8
    requires d + count * width <= dest.Length && s + count * width <= src.Length
    requires !cfg.hostBigEndian && AlignedTo(width, srcBase + s)
    requires dest == src ==> d <= s || s + count * width <= d
    modifies dest
    ensures dest[..] == MemcpyImage(cfg, width, old(dest[..]), d, old(src[..]), s, srcBase, count)
  {
    ConvertSlots(cfg, width, dest, d, src, s, srcBase, count, src[s..s + RoundUp(count, width)]);
    AlignedRun(cfg, width, old(src[..]), s, srcBase, count);
  }

  /** On the aligned path the run is the conversion of the elements the loop reaches. */
  lemma AlignedRun(cfg: Config, width: nat, src: seq<uint8>, s: nat, srcBase: nat, count: nat)
    requires width == 2 || width == 4 || width == 8
    requires s + count * width <= |src|
    requires !cfg.hostBigEndian && AlignedTo(width, srcBase + s)
    ensures MemcpyRun(cfg, width, src, s, srcBase, count) == Converted(Big, cfg, src[s..s + RoundUp(count, width)], width)
  {
  }

  /** MEMCPY_n otherwise: the count * width bytes copied unchanged by memcpy. */
  method CopyPath(cfg: Config, width: nat, dest: array<uint8>, d: nat, src: array<uint8>, s: nat, srcBase: nat, count: nat)
    requires width == 2 || width == 4 || width == 8
    requires d + count * width <= dest.Length && s + count * width <= src.Length
    requires !(!cfg.hostBigEndian && AlignedTo(width, srcBase + s))
    requires !Overlap(dest, d, src, s, count * width)
    modifies dest
    ensures dest[..] == MemcpyImage(cfg, width, old(dest[..]), d, old(src[..]), s, srcBase, count)
  {
    ghost var from := src[..];
    assert src[s..s + count * width] == from[s..s + count * width];
    Memcpy(dest, d, src, s, count * width);
  }

  /** MEMCPY_16. */
  method Memcpy16(cfg: Config, dest: array<uint8>, d: nat, src: array<uint8>, s: nat, srcBase: nat, count: nat)
    requires d + count * 2 <= dest.Length && s + count * 2 <= src.Length
    requires !cfg.hostBigEndian && Is16Aligned(srcBase + s) && dest == src ==> d <= s || s + count * 2 <= d
    requires !(!cfg.hostBigEndian && Is16Aligned(srcBase + s)) ==> !Overlap(dest, d, src, s, count * 2)
    modifies dest
    ensures dest[..] == MemcpyImage(cfg, 2, old(dest[..]), d, old(src[..]), s, srcBase, count)
  {
    MemcpyN(cfg, 2, dest, d, src, s, srcBase, count);
  }

  /** MEMCPY_32. */
  method Memcpy32(cfg: Config, dest: array<uint8>, d: nat, src: array<uint8>, s: nat, srcBase: nat, count: nat)
    requires d + count * 4 <= dest.Length && s + count * 4 <= src.Length
    requires !cfg.hostBigEndian && Is32Aligned(srcBase + s) && dest == src ==> d <= s || s + count * 4 <= d
    requires !(!cfg.hostBigEndian && Is32Aligned(srcBase + s)) ==> !Overlap(dest, d, src, s, count * 4)
    modifies dest
    ensures dest[..] == MemcpyImage(cfg, 4, old(dest[..]), d, old(src[..]), s, srcBase, count)
  {
    MemcpyN(cfg, 4, dest, d, src, s, srcBase, count);
  }

  /** MEMCPY_64. */
  method Memcpy64(cfg: Config, dest: array<uint8>, d: nat, src: array<uint8>, s: nat, srcBase: nat, count: nat)
    requires d + count * 8 <= dest.Length && s + count * 8 <= src.Length
    requires !cfg.hostBigEndian && Is64Aligned(srcBase + s) && dest == src ==> d <= s || s + count * 8 <= d
    requires !(!cfg.hostBigEndian && Is64Aligned(srcBase + s)) ==> !Overlap(dest, d, src, s, count * 8)
    modifies dest
    ensures dest[..] == MemcpyImage(cfg, 8, old(dest[..]), d, old(src[..]), s, srcBase, count)
  {
    MemcpyN(cfg, 8, dest, d, src, s, srcBase, count);
  }

  /** The aligned loop as evidently intended: its bound is count * width, so every element is converted. */
  method ConvertElements(cfg: Config, width: nat, dest: array<uint8>, d: nat, src: array<uint8>, s: nat,
                         srcBase: nat, count: nat)
    requires width == 2 || width == 4 || width == 8
    requires !cfg.hostBigEndian && AlignedTo(width, srcBase + s)
    requires d + count * width <= dest.Length && s + count * width <= src.Length
    requires dest == src ==> d <= s || s + count * width <= d
    modifies dest
    ensures (count * width) % width == 0
    ensures dest[..] == Splice(old(dest[..]), d, Converted(Big, cfg, old(src[s..s + count * width]), width))
  {
    RoundUpMultiple(count, width);
    ConvertSlots(cfg, width, dest, d, src, s, srcBase, count * width, src[s..s + count * width]);
  }

  /** One pass of that loop on a little-endian host with bswap off and width 2: the element at buf[i..i+2] lands reversed two bytes further on. */
  lemma OverlapPass(buf: seq<uint8>, i: nat)
    requires i + 4 <= |buf|
    ensures var cfg := Config(false, false);
            Splice(buf, i + 2, HostBytes(cfg, GetUIntN(cfg, 0, buf, i, 2), 2))[i + 2..i + 4] == Reverse(buf[i..i + 2])
  {
    ReversedLittleStore(buf[i..i + 2]);
  }

  /**
   * The aligned loop with dest == src and the destination two bytes after
   * the source (little-endian host, bswap off, width 2, count 4, so the loop
   * runs for i = 0 and i = 2): buf1 and buf2 are the buffer after each pass.
   * The second pass reads src[2..4], which the first pass has already
   * overwritten, so dest[4..6] receives the original src[0..2] unchanged.
   * What belongs there is the second element of the original run converted,
   * the original src[2..4] reversed. With the bytes 01 02 03 04 it holds
   * 01 02 instead of 04 03.
   */
  lemma ForwardOverlapFeedsBack(buf0: seq<uint8>, buf1: seq<uint8>, buf2: seq<uint8>, intended: seq<uint8>)
    requires |buf0| == 10
    requires buf1 == Splice(buf0, 2 + 0, HostBytes(Config(false, false), GetUIntN(Config(false, false), 0, buf0, 0 + 0, 2), 2))
    requires buf2 == Splice(buf1, 2 + 2, HostBytes(Config(false, false), GetUIntN(Config(false, false), 0, buf1, 0 + 2, 2), 2))
    requires intended == Converted(Big, Config(false, false), buf0[0..4], 2)
    ensures buf2[4..6] == buf0[0..2]
    ensures intended[2..4] == Reverse(buf0[2..4])
    ensures buf0[..4] == [1, 2, 3, 4] ==> buf2[4..6] == [1, 2] && intended[2..4] == [4, 3]
  {
    FedBack(buf0, buf1, buf2);
    SecondConverted(buf0, intended);
    if buf0[..4] == [1, 2, 3, 4] {
      OneToFour(buf0);
    }
  }

  /** The two passes: the second stores the first element, reversed twice. */
  lemma FedBack(buf0: seq<uint8>, buf1: seq<uint8>, buf2: seq<uint8>)
    requires |buf0| >= 6
    requires buf1 == Splice(buf0, 2, HostBytes(Config(false, false), GetUIntN(Config(false, false), 0, buf0, 0, 2), 2))
    requires buf2 == Splice(buf1, 4, HostBytes(Config(false, false), GetUIntN(Config(false, false), 0, buf1, 2, 2), 2))
    ensures buf2[4..6] == buf0[0..2]
  {
    OverlapPass(buf0, 0);
    OverlapPass(buf1, 2);
    ReverseReverse(buf0[0..2]);
  }

  /** With bswap off the second element of the run converts to its reversal. */
  lemma SecondConverted(buf0: seq<uint8>, intended: seq<uint8>)
    requires |buf0| >= 4
    requires intended == Converted(Big, Config(false, false), buf0[0..4], 2)
    ensures intended[2..4] == Reverse(buf0[2..4])
  {
    var x := buf0[0..4];
    ConvertedElement(Big, Config(false, false), x, 2, 2);
    assert x[2..4] == buf0[2..4];
  }

  /**
   * The aligned path of MEMCPY_n as evidently intended: the elements are
   * read from a snapshot of src taken before the first store, so dest may
   * overlap src in any way and still receives the conversion of the
   * original elements.
   */
  method ConvertPathCorrected(cfg: Config, width: nat, dest: array<uint8>, d: nat, src: array<uint8>, s: nat,
                              srcBase: nat, count: nat)
    requires width == 2 || width == 4 || width == 8
    requires d + count * width <= dest.Length && s + count * width <= src.Length
    requires !cfg.hostBigEndian && AlignedTo(width, srcBase + s)
    modifies dest
    ensures dest[..] == MemcpyImage(cfg, width, old(dest[..]), d, old(src[..]), s, srcBase, count)
  {
    var snapshot := new uint8[src.Length](k requires 0 <= k < src.Length reads src => src[k]);
    assert snapshot[..] == src[..];
    ghost var x := src[s..s + RoundUp(count, width)];
    assert snapshot[s..s + RoundUp(count, width)] == x;
    ConvertSlots(cfg, width, dest, d, snapshot, s, srcBase, count, x);
    AlignedRun(cfg, width, old(src[..]), s, srcBase, count);
  }

  /**
   * What MEMCPY_16/32/64 promise for src: its elements deserialized into
   * dest, so that each reads natively as the big-endian value of that
   * element. On a little-endian host every element is reversed; on a
   * big-endian host the bytes are already in host order.
   */
  function Deserialized(cfg: Config, x: seq<uint8>, width: nat): (r: seq<uint8>)
    requires width == 2 || width == 4 || width == 8
    ensures |r| == |x|
  {
    if !cfg.hostBigEndian then Converted(Big, Config(false, false), x, width) else x
  }

  /** Each whole element of the deserialized run reads natively as the big-endian value of that element of x. */
  lemma DeserializedReads(cfg: Config, x: seq<uint8>, width: nat, i: nat)
    requires width == 2 || width == 4 || width == 8
    requires i % width == 0 && i + width <= |x|
    ensures NativeLoad(cfg, Deserialized(cfg, x, width)[i..i + width]) == BeValue(x[i..i + width])
  {
    if !cfg.hostBigEndian {
      ConvertedElement(Big, Config(false, false), x, width, i);
      BeValueIsReverse(x[i..i + width]);
    }
  }

  /**
   * MEMCPY_n on a little-endian host with src not aligned copies the bytes
   * unchanged, so the first element of dest reads natively as the
   * little-endian value of the source element, where its big-endian value
   * belongs.
   */
  lemma UnalignedNotDeserialized(cfg: Config, width: nat, src: seq<uint8>, s: nat, srcBase: nat, count: nat)
    requires width == 2 || width == 4 || width == 8
    requires count >= 1 && s + count * width <= |src|
    requires !cfg.hostBigEndian && !AlignedTo(width, srcBase + s)
    ensures MemcpyRun(cfg, width, src, s, srcBase, count) == src[s..s + count * width]
    ensures NativeLoad(cfg, MemcpyRun(cfg, width, src, s, srcBase, count)[..width]) == LeValue(src[s..s + width])
    ensures NativeLoad(cfg, Deserialized(cfg, src[s..s + count * width], width)[..width]) == BeValue(src[s..s + width])
  {
    var x := src[s..s + count * width];
    assert count * width >= width;
    assert x[..width] == src[s..s + width];
    DeserializedReads(cfg, x, width, 0);
    assert x[0..width] == x[..width];
  }

  /** With src = 01 02 at an odd address, one 16-bit element: dest reads 0x0201 instead of 0x0102. */
  lemma UnalignedCopyExample()
    ensures MemcpyRun(Config(false, false), 2, [0x01, 0x02], 0, 1, 1) == [0x01, 0x02]
    ensures NativeLoad(Config(false, false), [0x01, 0x02]) == 0x0201
    ensures NativeLoad(Config(false, false), Deserialized(Config(false, false), [0x01, 0x02], 2)) == 0x0102
  {
    var src: seq<uint8> := [0x01, 0x02];
    UnalignedNotDeserialized(Config(false, false), 2, src, 0, 1, 1);
    assert src[0..2] == src && src[0..1 * 2] == src;
    assert LeValue(src) == 0x0201 by {
      assert src[1..] == [0x02];
      assert [0x02][1..] == [];
    }
    assert BeValue(src) == 0x0102 by {
      assert src[..1] == [0x01];
      assert [0x01][..0] == [];
    }
  }

  /**
   * MEMCPY_n as evidently intended: on a little-endian host all count
   * elements are deserialized whatever the alignment of src. They are
   * copied first into a fresh buffer, which is aligned and disjoint from
   * dest, and read from there with the byte-order load of CorrectedSwapLoad
   * rather than the single-byte swap; on a big-endian host the bytes are
   * copied as they are, by memmove when the ranges overlap.
   */
  method MemcpyNCorrected(cfg: Config, width: nat, dest: array<uint8>, d: nat, src: array<uint8>, s: nat, count: nat)
    requires width == 2 || width == 4 || width == 8
    requires d + count * width <= dest.Length && s + count * width <= src.Length
    modifies dest
    ensures dest[..] == Splice(old(dest[..]), d, Deserialized(cfg, old(src[s..s + count * width]), width))
  {
    if !cfg.hostBigEndian {
      ConvertFromCopy(width, dest, d, src, s, count);
    } else {
      CopyBytes(dest, d, src, s, count * width);
    }
  }

  /** The converting half of MemcpyNCorrected: every element read from a fresh, aligned copy of src. */
  method ConvertFromCopy(width: nat, dest: array<uint8>, d: nat, src: array<uint8>, s: nat, count: nat)
    requires width == 2 || width == 4 || width == 8
    requires d + count * width <= dest.Length && s + count * width <= src.Length
    modifies dest
    ensures dest[..] == Splice(old(dest[..]), d, Converted(Big, Config(false, false), old(src[s..s + count * width]), width))
  {
    var len := count * width;
    var copy := new uint8[len](k requires 0 <= k < len reads src => src[s + k]);
    assert copy[..] == src[s..s + len];
    RoundUpMultiple(count, width);
    assert copy[0..RoundUp(len, width)] == copy[..];
    ConvertSlots(Config(false, false), width, dest, d, copy, 0, 0, len, copy[..]);
  }
}
