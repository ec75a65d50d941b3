/**
 * What the codec takes from the machine and the C library: the build
 * configuration (host byte order, whether the byte-swap fast paths are
 * compiled in), a native load or store of an n-byte word, the byte swap
 * `bswap_16/32/64`, and the effect of `memcpy`/`memmove` on the destination.
 * Each is given by its effect on bytes only.
 */
module Platform {
  import opened Bytes

  /** LIBENDIAN_IS_BIG_ENDIAN and LIBENDIAN_ENABLE_BSWAP, fixed when the library is built. */
  datatype Config = Config(hostBigEndian: bool, bswapEnabled: bool)

  /** The bytes a native n-byte store of v writes, lowest address first. */
  function HostBytes(cfg: Config, v: nat, n: nat): (r: seq<uint8>)
    ensures |r| == n
  {
    if cfg.hostBigEndian then BeBytes(v, n) else LeBytes(v, n)
  }

  /** The word a native load of the bytes s reads: s in host byte order. */
  function NativeLoad(cfg: Config, s: seq<uint8>): (r: nat)
    ensures r < Pow256(|s|)
    ensures HostBytes(cfg, r, |s|) == s
  {
    if cfg.hostBigEndian then
      BeValueBound(s); BeBytesOfValue(s); BeValue(s)
    else
      LeValueBound(s); LeBytesOfValue(s); LeValue(s)
  }

  /** A native store followed by a native load of the same width keeps the low n bytes of v. */
  lemma NativeRoundTrip(cfg: Config, v: nat, n: nat)
    ensures NativeLoad(cfg, HostBytes(cfg, v, n)) == v % Pow256(n)
  {
    if cfg.hostBigEndian { BeRoundTrip(v, n); } else { LeRoundTrip(v, n); }
  }

  /** bswap over n bytes: the n-byte value whose bytes are those of v in reverse order. */
  function Bswap(n: nat, v: nat): (r: nat)
    ensures r < Pow256(n)
    ensures LeBytes(r, n) == BeBytes(v, n)
  {
    var le := LeBytes(v, n);
    BeValueBound(le);
    BeBytesOfValue(le);
    BeBytesIsReverse(BeValue(le), n);
    ReverseReverse(LeBytes(BeValue(le), n));
    BeBytesIsReverse(v, n);
    BeValue(le)
  }

  /** Swapping twice gives back the low n bytes. */
  lemma BswapInvolution(n: nat, v: nat)
    ensures Bswap(n, Bswap(n, v)) == v % Pow256(n)
  {
    var w := Bswap(n, v);
    assert Bswap(n, w) == BeValue(LeBytes(w, n));
    BeRoundTrip(v, n);
  }

  /** Swapping and then storing natively writes the order opposite to the host's. */
  lemma SwapThenStore(cfg: Config, v: nat, n: nat)
    ensures HostBytes(cfg, Bswap(n, v), n) == if cfg.hostBigEndian then LeBytes(v, n) else BeBytes(v, n)
  {
    if cfg.hostBigEndian {
      BeBytesOfValue(LeBytes(v, n));
    }
  }

  /** Loading natively and then swapping reads the order opposite to the host's. */
  lemma LoadThenSwap(cfg: Config, s: seq<uint8>)
    ensures Bswap(|s|, NativeLoad(cfg, s)) == if cfg.hostBigEndian then LeValue(s) else BeValue(s)
  {
    var n := |s|;
    if cfg.hostBigEndian {
      BeValueIsReverse(s);
      LeBytesOfValue(Reverse(s));
      BeValueIsReverse(Reverse(s));
      ReverseReverse(s);
    } else {
      LeBytesOfValue(s);
    }
  }

  lemma {:induction false} ZeroBytesValue(m: nat)
    ensures BeValue(LeBytes(0, m)) == 0
  {
    if m > 0 {
      BeValueAppend([0], LeBytes(0, m - 1));
      ZeroBytesValue(m - 1);
    }
  }

  /** Swapping a single byte widened to n bytes moves it to the top byte. */
  lemma BswapOfByte(n: nat, b: uint8)
    requires n >= 1
    ensures Bswap(n, b) == b * Pow256(n - 1)
  {
    assert LeBytes(b, n) == [b] + LeBytes(0, n - 1);
    BeValueAppend([b], LeBytes(0, n - 1));
    ZeroBytesValue(n - 1);
    assert BeValue([b]) == b by { assert [b][..0] == []; }
  }

  /** A single byte swapped over 64 bits lies above bit 56, so the 48-bit mask clears it. */
  lemma SwappedByteMasked(b: uint8)
    ensures Bswap(8, b) % TWO_48 == 0
  {
    BswapOfByte(8, b);
    Pow256Values();
    DivModUnique(Bswap(8, b), TWO_48, b * 0x100, 0);
  }

  /**
   * GET_INT16 … GET_INT64 of both classes as written: one byte is copied into a local
   * uint8_t and the local's address is read as the n-byte signed type, so
   * the other n - 1 bytes are whatever lies next to that local in memory
   * (`adjacent`), never the rest of the field.
   */
  function SignedReadAsWritten(cfg: Config, buf: seq<uint8>, o: nat, adjacent: seq<uint8>): (r: int)
    requires o < |buf|
    ensures !cfg.hostBigEndian ==> r % 0x100 == buf[o]
  {
    LowByteOfSigned(buf[o], adjacent);
    ToSigned(NativeLoad(cfg, [buf[o]] + adjacent), 1 + |adjacent|)
  }

  /** A little-endian word whose first byte is b keeps b as its low byte when read as signed. */
  lemma LowByteOfSigned(b: uint8, adjacent: seq<uint8>)
    ensures ToSigned(LeValue([b] + adjacent), 1 + |adjacent|) % 0x100 == b
  {
    var n := 1 + |adjacent|;
    var word := LeValue([b] + adjacent);
    var m, p := LeValue(adjacent), Pow256(n - 1);
    assert ([b] + adjacent)[1..] == adjacent;
    assert word == b + 0x100 * m;
    assert Pow256(n) == 0x100 * p;
    var t := ToSigned(word, n);
    if word < 0x80 * p {
      DivModUnique(t, 0x100, m, b);
    } else {
      assert t == (m - p) * 0x100 + b;
      DivModUnique(t, 0x100, m - p, b);
    }
  }

  /** Whether [d, d+len) of dest and [s, s+len) of src are shared memory. */
  predicate Overlap(dest: array<uint8>, d: nat, src: array<uint8>, s: nat, len: nat)
  {
    dest == src && d < s + len && s < d + len
  }

  /** Writing one more byte just past a spliced run extends the run. */
  lemma SpliceExtend(s: seq<uint8>, o: nat, run: seq<uint8>, b: uint8)
    requires o + |run| < |s|
    ensures Splice(s, o, run)[o + |run| := b] == Splice(s, o, run + [b])
  {
    var t := Splice(s, o, run)[o + |run| := b];
    assert t[o..o + |run| + 1] == run + [b];
    SpliceFrom(s, t, o, run + [b]);
  }

  /** A native store of the bytes `bytes` at buf[o]. */
  method Store(buf: array<uint8>, o: nat, bytes: seq<uint8>)
    requires o + |bytes| <= buf.Length
    modifies buf
    ensures buf[..] == Splice(old(buf[..]), o, bytes)
  {
    ghost var before := buf[..];
    forall k | 0 <= k < |bytes| {
      buf[o + k] := bytes[k];
    }
    ghost var after := Splice(before, o, bytes);
    forall i | 0 <= i < buf.Length
      ensures buf[i] == after[i]
    {
      if o <= i < o + |bytes| {
        assert after[i] == after[o..o + |bytes|][i - o];
      }
    }
  }

  /** memmove: the destination receives the source bytes as they were before the call. */
  method Memmove(dest: array<uint8>, d: nat, src: array<uint8>, s: nat, len: nat)
    requires d + len <= dest.Length && s + len <= src.Length
    modifies dest
    ensures dest[..] == Splice(old(dest[..]), d, old(src[s..s + len]))
  {
    var bytes := src[s..s + len];
    Store(dest, d, bytes);
  }

  /**
   * The byte memcpy reads at step i is from[i]: either src is a separate
   * array holding from, or it is dest itself, whose bytes at s.. are still
   * those of before because the run written so far lies apart from them.
   */
  lemma SourceByte(before: seq<uint8>, d: nat, from: seq<uint8>, i: nat,
                   srcNow: seq<uint8>, s: nat, aliased: bool)
    requires i < |from| && d + |from| <= |before| && s + |from| <= |srcNow|
    requires aliased ==> srcNow == Splice(before, d, from[..i]) && before[s..s + |from|] == from
    requires aliased ==> s + |from| <= d || d + |from| <= s
    requires !aliased ==> srcNow[s..s + |from|] == from
    ensures srcNow[s + i] == from[i]
  {
    if aliased {
      SpliceKeeps(before, d, from[..i], s, s + |from|);
    }
    assert srcNow[s + i] == srcNow[s..s + |from|][i];
  }

  /** Storing from[i] just past the run from[..i] spliced at d splices from[..i+1]. */
  lemma SpliceStep(before: seq<uint8>, d: nat, from: seq<uint8>, i: nat)
    requires i < |from| && d + i < |before|
    ensures Splice(before, d, from[..i])[d + i := from[i]] == Splice(before, d, from[..i + 1])
  {
    SpliceExtend(before, d, from[..i], from[i]);
    assert from[..i] + [from[i]] == from[..i + 1];
  }

  /**
   * One byte of memcpy: src[s+i] goes to dest[d+i]. Given the copy's state
   * after i bytes, it leaves the state after i + 1 bytes.
   */
  method CopyOne(dest: array<uint8>, d: nat, src: array<uint8>, s: nat, len: nat, i: nat,
                 ghost before: seq<uint8>, ghost from: seq<uint8>)
      returns (next: nat)
    requires i < len && d + len <= dest.Length && s + len <= src.Length
    requires |from| == len && |before| == dest.Length
    requires !Overlap(dest, d, src, s, len)
    requires dest != src ==> src[s..s + len] == from
    requires dest == src ==> before[s..s + len] == from
    requires dest[..] == Splice(before, d, from[..i])
    modifies dest
    ensures next == i + 1
    ensures dest[..] == Splice(before, d, from[..next])
  {
    ghost var prev := dest[..];
    SourceByte(before, d, from, i, src[..], s, dest == src);
    dest[d + i] := src[s + i];
    assert dest[..] == prev[d + i := from[i]];
    SpliceStep(before, d, from, i);
    next := i + 1;
  }

  /** memcpy, a forward byte copy; the caller must keep the two ranges apart. */
  method Memcpy(dest: array<uint8>, d: nat, src: array<uint8>, s: nat, len: nat)
    requires d + len <= dest.Length && s + len <= src.Length
    requires !Overlap(dest, d, src, s, len)
    modifies dest
    ensures dest[..] == Splice(old(dest[..]), d, old(src[s..s + len]))
  {
    ghost var before := dest[..];
    ghost var from := src[s..s + len];
    assert dest == src ==> before[s..s + len] == from;
    var i := 0;
    while i < len
      invariant i <= len
      invariant dest != src ==> src[s..s + len] == from
      invariant dest[..] == Splice(before, d, from[..i])
    {
      i := CopyOne(dest, d, src, s, len, i, before, from);
    }
    assert from[..len] == from;
  }

  /** `OVERLAP(dest, src, len) ? memmove(dest, src, len) : memcpy(dest, src, len)`: always the plain copy. */
  method CopyBytes(dest: array<uint8>, d: nat, src: array<uint8>, s: nat, len: nat)
    requires d + len <= dest.Length && s + len <= src.Length
    modifies dest
    ensures dest[..] == Splice(old(dest[..]), d, old(src[s..s + len]))
  {
    if Overlap(dest, d, src, s, len) {
      Memmove(dest, d, src, s, len);
    } else {
      Memcpy(dest, d, src, s, len);
    }
  }
}
