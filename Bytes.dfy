/**
 * Fixed-width integers, and the two reference readings of a byte string:
 * least-significant byte first (little-endian) and most-significant byte
 * first (big-endian). Both codec classes are specified against these.
 */
module Bytes {

  type uint8 = x: int | 0 <= x < 0x100
  type uint16 = x: int | 0 <= x < 0x1_0000
  type uint32 = x: int | 0 <= x < 0x1_0000_0000
  type uint64 = x: int | 0 <= x < 0x1_0000_0000_0000_0000

  type int8 = x: int | -0x80 <= x < 0x80
  type int16 = x: int | -0x8000 <= x < 0x8000
  type int32 = x: int | -0x8000_0000 <= x < 0x8000_0000
  type int64 = x: int | -0x8000_0000_0000_0000 <= x < 0x8000_0000_0000_0000

  /** 2^48: one more than the largest 48-bit value (the mask 0xFFFFFFFFFFFF is TWO_48 - 1). */
  const TWO_48: nat := 0x1_0000_0000_0000
  const TWO_64: nat := 0x1_0000_0000_0000_0000

  /** 256^n, the number of values n bytes can hold. */
  function Pow256(n: nat): (r: nat)
    ensures r > 0
  {
    if n == 0 then 1 else 0x100 * Pow256(n - 1)
  }

  lemma Pow256Values()
    ensures Pow256(1) == 0x100 && Pow256(2) == 0x1_0000 && Pow256(3) == 0x100_0000
    ensures Pow256(4) == 0x1_0000_0000 && Pow256(5) == 0x100_0000_0000
    ensures Pow256(6) == TWO_48 && Pow256(7) == 0x100_0000_0000_0000 && Pow256(8) == TWO_64
  {
    assert Pow256(0) == 1;
    assert Pow256(1) == 0x100;
    assert Pow256(2) == 0x1_0000;
    assert Pow256(3) == 0x100_0000;
    assert Pow256(4) == 0x1_0000_0000;
    assert Pow256(5) == 0x100_0000_0000;
    assert Pow256(6) == TWO_48;
    assert Pow256(7) == 0x100_0000_0000_0000;
  }

  /** The value of s read with s[0] as the least significant byte: sum of s[k] * 256^k. */
  function LeValue(s: seq<uint8>): nat
  {
    if s == [] then 0 else s[0] + 0x100 * LeValue(s[1..])
  }

  /** The value of s read with s[0] as the most significant byte: sum of s[k] * 256^(|s|-1-k). */
  function BeValue(s: seq<uint8>): nat
  {
    if s == [] then 0 else 0x100 * BeValue(s[..|s| - 1]) + s[|s| - 1]
  }

  /** The low n bytes of v, least significant first. */
  function LeBytes(v: nat, n: nat): (r: seq<uint8>)
    ensures |r| == n
  {
    if n == 0 then [] else [v % 0x100] + LeBytes(v / 0x100, n - 1)
  }

  /** The low n bytes of v, most significant first. */
  function BeBytes(v: nat, n: nat): (r: seq<uint8>)
    ensures |r| == n
  {
    if n == 0 then [] else BeBytes(v / 0x100, n - 1) + [v % 0x100]
  }

  function Reverse(s: seq<uint8>): (r: seq<uint8>)
    ensures |r| == |s|
  {
    if s == [] then [] else Reverse(s[1..]) + [s[0]]
  }

  /** s with bytes[k] written at o + k, and nothing else changed. */
  function Splice(s: seq<uint8>, o: nat, bytes: seq<uint8>): (r: seq<uint8>)
    requires o + |bytes| <= |s|
    ensures |r| == |s|
    ensures r[o..o + |bytes|] == bytes
    ensures forall i :: 0 <= i < |s| && !(o <= i < o + |bytes|) ==> r[i] == s[i]
  {
    s[..o] + bytes + s[o + |bytes|..]
  }

  // ---------------------------------------------------------------------------
  // Division and remainder facts used by the round trips.

  lemma DivModUnique(v: int, m: int, q: int, r: int)
    requires m > 0 && 0 <= r < m && v == q * m + r
    ensures v / m == q && v % m == r
  {
    var q0, r0 := v / m, v % m;
    assert v == q0 * m + r0;
    if q0 > q {
      assert q0 * m - q * m == (q0 - q) * m;
      MulAtLeast(q0 - q, m);
      assert false;
    } else if q0 < q {
      assert q * m - q0 * m == (q - q0) * m;
      MulAtLeast(q - q0, m);
      assert false;
    }
  }

  lemma MulAtLeast(a: int, m: int)
    requires a >= 1 && m > 0
    ensures a * m >= m
  {
    assert a * m == (a - 1) * m + m;
    assert (a - 1) * m >= 0;
  }

  /** Splitting off the low byte: v mod 256p is its low byte plus 256 times (v / 256) mod p. */
  lemma ModSplit(v: nat, p: nat)
    requires p > 0
    ensures v % (0x100 * p) == v % 0x100 + 0x100 * ((v / 0x100) % p)
    ensures v / (0x100 * p) == (v / 0x100) / p
  {
    var hi := v / 0x100;
    var q, r := hi / p, hi % p;
    assert hi == q * p + r;
    assert v == 0x100 * hi + v % 0x100;
    assert v == q * (0x100 * p) + (v % 0x100 + 0x100 * r);
    DivModUnique(v, 0x100 * p, q, v % 0x100 + 0x100 * r);
  }

  // ---------------------------------------------------------------------------
  // Properties of the reference readings.

  lemma {:induction false} LeValueBound(s: seq<uint8>)
    ensures LeValue(s) < Pow256(|s|)
  {
    if s != [] {
      LeValueBound(s[1..]);
    }
  }

  lemma {:induction false} BeValueBound(s: seq<uint8>)
    ensures BeValue(s) < Pow256(|s|)
  {
    if s != [] {
      BeValueBound(s[..|s| - 1]);
    }
  }

  /** Little-endian encoding then decoding keeps exactly the low n bytes of v. */
  lemma {:induction false} LeRoundTrip(v: nat, n: nat)
    ensures LeValue(LeBytes(v, n)) == v % Pow256(n)
  {
    if n > 0 {
      var s := LeBytes(v, n);
      assert s[1..] == LeBytes(v / 0x100, n - 1);
      LeRoundTrip(v / 0x100, n - 1);
      ModSplit(v, Pow256(n - 1));
    }
  }

  /** Big-endian encoding then decoding keeps exactly the low n bytes of v. */
  lemma {:induction false} BeRoundTrip(v: nat, n: nat)
    ensures BeValue(BeBytes(v, n)) == v % Pow256(n)
  {
    if n > 0 {
      var s := BeBytes(v, n);
      assert s[..|s| - 1] == BeBytes(v / 0x100, n - 1);
      BeRoundTrip(v / 0x100, n - 1);
      ModSplit(v, Pow256(n - 1));
    }
  }

  /** Decoding then re-encoding little-endian gives back the bytes. */
  lemma {:induction false} LeBytesOfValue(s: seq<uint8>)
    ensures LeBytes(LeValue(s), |s|) == s
  {
    if s != [] {
      var v := LeValue(s);
      DivModUnique(v, 0x100, LeValue(s[1..]), s[0]);
      LeBytesOfValue(s[1..]);
      assert s == [s[0]] + s[1..];
    }
  }

  /** Decoding then re-encoding big-endian gives back the bytes. */
  lemma {:induction false} BeBytesOfValue(s: seq<uint8>)
    ensures BeBytes(BeValue(s), |s|) == s
  {
    if s != [] {
      var v := BeValue(s);
      var init := s[..|s| - 1];
      DivModUnique(v, 0x100, BeValue(init), s[|s| - 1]);
      BeBytesOfValue(init);
      assert s == init + [s[|s| - 1]];
    }
  }

  /** The big-endian bytes of v are its little-endian bytes in reverse order. */
  lemma {:induction false} BeBytesIsReverse(v: nat, n: nat)
    ensures BeBytes(v, n) == Reverse(LeBytes(v, n))
  {
    if n > 0 {
      var le := LeBytes(v, n);
      assert le[1..] == LeBytes(v / 0x100, n - 1);
      BeBytesIsReverse(v / 0x100, n - 1);
    }
  }

  lemma {:induction false} ReverseAt(s: seq<uint8>, k: nat)
    requires k < |s|
    ensures Reverse(s)[k] == s[|s| - 1 - k]
  {
    if k < |s| - 1 {
      ReverseAt(s[1..], k);
    }
  }

  lemma ReverseReverse(s: seq<uint8>)
    ensures Reverse(Reverse(s)) == s
  {
    forall k | 0 <= k < |s|
      ensures Reverse(Reverse(s))[k] == s[k]
    {
      ReverseAt(Reverse(s), k);
      ReverseAt(s, |s| - 1 - k);
    }
  }

  /** Reading s big-endian is reading its reversal little-endian. */
  lemma BeValueIsReverse(s: seq<uint8>)
    ensures BeValue(s) == LeValue(Reverse(s))
  {
    var v := BeValue(s);
    var le := LeBytes(v, |s|);
    assert Reverse(s) == le by {
      BeBytesOfValue(s);
      BeBytesIsReverse(v, |s|);
      ReverseReverse(le);
    }
    assert LeValue(le) == v by {
      LeRoundTrip(v, |s|);
      BeValueBound(s);
      DivModUnique(v, Pow256(|s|), 0, v);
    }
  }

  /** Byte k of the little-endian encoding is (v >> 8k) & 0xFF. */
  lemma {:induction false} LeBytesAt(v: nat, n: nat, k: nat)
    requires k < n
    ensures LeBytes(v, n)[k] == (v / Pow256(k)) % 0x100
  {
    if k > 0 {
      LeBytesAt(v / 0x100, n - 1, k - 1);
      ModSplit(v, Pow256(k - 1));
    }
  }

  /** Byte k of the big-endian encoding is (v >> 8(n-1-k)) & 0xFF. */
  lemma BeBytesAt(v: nat, n: nat, k: nat)
    requires k < n
    ensures BeBytes(v, n)[k] == (v / Pow256(n - 1 - k)) % 0x100
  {
    BeBytesIsReverse(v, n);
    ReverseAt(LeBytes(v, n), k);
    LeBytesAt(v, n, n - 1 - k);
  }

  /** Only the low n bytes of v matter to its n-byte encodings. */
  lemma BytesOfLowPart(v: nat, n: nat)
    ensures LeBytes(v % Pow256(n), n) == LeBytes(v, n)
    ensures BeBytes(v % Pow256(n), n) == BeBytes(v, n)
  {
    LeBytesOfValue(LeBytes(v, n));
    LeRoundTrip(v, n);
    BeBytesOfValue(BeBytes(v, n));
    BeRoundTrip(v, n);
  }

  /** Shifting a + p * v left by one byte, above a low byte. */
  lemma AddHighByte(low: int, a: int, p: int, v: int)
    ensures low + 0x100 * (a + p * v) == (low + 0x100 * a) + (0x100 * p) * v
  {
  }

  lemma {:induction false} LeValueAppend(s: seq<uint8>, t: seq<uint8>)
    ensures LeValue(s + t) == LeValue(s) + Pow256(|s|) * LeValue(t)
  {
    if s != [] {
      assert (s + t)[1..] == s[1..] + t;
      LeValueAppend(s[1..], t);
      AddHighByte(s[0], LeValue(s[1..]), Pow256(|s| - 1), LeValue(t));
    } else {
      assert s + t == t;
    }
  }

  /** Shifting a + b left by one byte, with p the weight of a, and adding a low byte. */
  lemma ShiftByte(a: int, p: int, b: int, low: int)
    ensures 0x100 * (a * p + b) + low == a * (0x100 * p) + (0x100 * b + low)
  {
  }

  lemma {:induction false} BeValueAppend(s: seq<uint8>, t: seq<uint8>)
    ensures BeValue(s + t) == BeValue(s) * Pow256(|t|) + BeValue(t)
  {
    if t != [] {
      var u, init := s + t, t[..|t| - 1];
      assert u[..|u| - 1] == s + init;
      assert u[|u| - 1] == t[|t| - 1];
      BeValueAppend(s, init);
      ShiftByte(BeValue(s), Pow256(|t| - 1), BeValue(init), t[|t| - 1]);
    } else {
      assert s + t == s;
    }
  }

  /** (v mod 2^64) mod 2^48 is v mod 2^48, for any integer v. */
  lemma ModMod48(v: int)
    ensures (v % TWO_64) % TWO_48 == v % TWO_48
  {
    var a := v % TWO_64;
    var q := v / TWO_64;
    assert v == q * TWO_64 + a;
    var b, c := a / TWO_48, a % TWO_48;
    assert a == b * TWO_48 + c;
    assert v == (q * 0x1_0000 + b) * TWO_48 + c;
    DivModUnique(v, TWO_48, q * 0x1_0000 + b, c);
  }

  // ---------------------------------------------------------------------------
  // Unfolding the readings one byte at a time.

  lemma LeValueFrom(x: seq<uint8>, k: nat)
    requires k < |x|
    ensures LeValue(x[k..]) == x[k] + 0x100 * LeValue(x[k + 1..])
  {
    assert x[k..][1..] == x[k + 1..];
  }

  lemma BeValueUpTo(x: seq<uint8>, k: nat)
    requires 0 < k <= |x|
    ensures BeValue(x[..k]) == 0x100 * BeValue(x[..k - 1]) + x[k - 1]
  {
    assert x[..k][..k - 1] == x[..k - 1];
  }

  lemma DivNonNeg(v: nat, p: nat)
    requires p > 0
    ensures v / p >= 0
  {
  }

  /** v >> 8k: v with its k low bytes shifted out. */
  function Shift(v: nat, k: nat): nat
  {
    DivNonNeg(v, Pow256(k));
    v / Pow256(k)
  }

  /** Splitting an encoding: the first m bytes, then the bytes of what is above them. */
  lemma {:induction false} LeBytesSplit(v: nat, m: nat, n: nat)
    ensures LeBytes(v, m + n) == LeBytes(v, m) + LeBytes(Shift(v, m), n)
  {
    if m > 0 {
      var hi := v / 0x100;
      LeBytesSplit(hi, m - 1, n);
      ModSplit(v, Pow256(m - 1));
      assert Shift(hi, m - 1) == Shift(v, m);
      assert LeBytes(v, m + n) == [v % 0x100] + LeBytes(hi, (m - 1) + n);
      assert LeBytes(v, m) == [v % 0x100] + LeBytes(hi, m - 1);
    } else {
      assert Shift(v, 0) == v;
    }
  }

  lemma {:induction false} BeBytesSplit(v: nat, m: nat, n: nat)
    ensures BeBytes(v, m + n) == BeBytes(Shift(v, n), m) + BeBytes(v, n)
  {
    if n > 0 {
      var hi := v / 0x100;
      BeBytesSplit(hi, m, n - 1);
      ModSplit(v, Pow256(n - 1));
      assert Shift(hi, n - 1) == Shift(v, n);
      assert BeBytes(v, m + n) == BeBytes(hi, m + (n - 1)) + [v % 0x100];
      assert BeBytes(v, n) == BeBytes(hi, n - 1) + [v % 0x100];
    } else {
      assert Shift(v, 0) == v;
    }
  }

  // ---------------------------------------------------------------------------
  // Writes into a buffer.

  /** A buffer that agrees with s outside [o, o+|bytes|) and holds bytes inside it is Splice(s, o, bytes). */
  lemma SpliceFrom(s: seq<uint8>, t: seq<uint8>, o: nat, bytes: seq<uint8>)
    requires o + |bytes| <= |s| == |t|
    requires forall i :: 0 <= i < |s| && !(o <= i < o + |bytes|) ==> t[i] == s[i]
    requires forall k :: 0 <= k < |bytes| ==> t[o + k] == bytes[k]
    ensures t == Splice(s, o, bytes)
  {
    var r := Splice(s, o, bytes);
    forall i | 0 <= i < |s|
      ensures t[i] == r[i]
    {
      if o <= i < o + |bytes| {
        assert r[i] == r[o..o + |bytes|][i - o];
        assert t[o + (i - o)] == bytes[i - o];
      }
    }
  }

  /** A write at o leaves every range that lies wholly before or after it as it was. */
  lemma SpliceKeeps(s: seq<uint8>, o: nat, bytes: seq<uint8>, lo: nat, hi: nat)
    requires o + |bytes| <= |s| && lo <= hi <= |s|
    requires hi <= o || o + |bytes| <= lo
    ensures Splice(s, o, bytes)[lo..hi] == s[lo..hi]
  {
    var r := Splice(s, o, bytes);
    assert forall i :: lo <= i < hi ==> r[i] == s[i];
  }

  /** A run starting 01 02 03 04: its first pair is 01 02 and its second pair reversed is 04 03. */
  lemma OneToFour(b: seq<uint8>)
    requires |b| >= 4 && b[..4] == [1, 2, 3, 4]
    ensures b[0..2] == [1, 2] && Reverse(b[2..4]) == [4, 3]
  {
    assert b[0..2] == b[..4][0..2];
    assert b[2..4] == b[..4][2..4];
    assert Reverse([4]) == [4];
  }

  /** Four bytes between two pairs of zero bytes, as one display. */
  lemma FourInEight(a: uint8, b: uint8, c: uint8, d: uint8)
    ensures [0, 0] + [a, b, c, d] + [0, 0] == [0, 0, a, b, c, d, 0, 0]
  {
  }

  /** Two adjacent writes are one write of their concatenation. */
  lemma SpliceAppend(s: seq<uint8>, o: nat, a: seq<uint8>, b: seq<uint8>)
    requires o + |a| + |b| <= |s|
    ensures Splice(Splice(s, o, a), o + |a|, b) == Splice(s, o, a + b)
  {
    var t := Splice(s, o, a);
    SpliceFrom(s, Splice(t, o + |a|, b), o, a + b);
  }

  // ---------------------------------------------------------------------------
  // Two's complement.

  /** Reinterpreting an n-byte unsigned pattern as a two's-complement signed value. */
  function ToSigned(u: nat, n: nat): int
    requires n >= 1
  {
    if u < 0x80 * Pow256(n - 1) then u else u - Pow256(n)
  }

  /** The n-byte two's-complement pattern v mod 256^n of an n-byte signed v, reinterpreted as signed, is v. */
  lemma SignedPattern(v: int, n: nat)
    requires n >= 1
    requires -0x80 * Pow256(n - 1) <= v < 0x80 * Pow256(n - 1)
    ensures ToSigned(v % Pow256(n), n) == v
  {
    var p := Pow256(n);
    assert p == 2 * (0x80 * Pow256(n - 1));
    if v >= 0 {
      DivModUnique(v, p, 0, v);
    } else {
      DivModUnique(v, p, -1, v + p);
    }
  }

  /** Storing v mod 256^n (its two's-complement pattern) and reading it back as signed gives v. */
  lemma TwosComplement(v: int, n: nat)
    requires n >= 1
    requires -0x80 * Pow256(n - 1) <= v < 0x80 * Pow256(n - 1)
    ensures ToSigned(LeValue(LeBytes(v % Pow256(n), n)), n) == v
  {
    var p := Pow256(n);
    LeRoundTrip(v % p, n);
    DivModUnique(v % p, p, 0, v % p);
    SignedPattern(v, n);
  }

  // ---------------------------------------------------------------------------
  // Stride loops.

  /** Where `for (i = 0; i < n; i += width)` stops: the least multiple of width that is at least n. */
  function RoundUp(n: int, width: nat): (r: nat)
    requires width > 0
    ensures n <= 0 ==> r == 0
    ensures n > 0 ==> n <= r < n + width && r <= n * width
    ensures r % width == 0
    decreases if n > 0 then n else 0
  {
    if n <= 0 then 0 else
      var rest := RoundUp(n - width, width);
      DivModUnique(width + rest, width, rest / width + 1, 0);
      StrideBound(n, width, rest);
      width + rest
  }

  /** One more stride of width stays within n * width. */
  lemma StrideBound(n: int, width: nat, rest: nat)
    requires width > 0 && n > 0
    requires n - width <= 0 ==> rest == 0
    requires n - width > 0 ==> rest <= (n - width) * width
    ensures width + rest <= n * width
  {
    MulAtLeast(n, width);
    if n - width > 0 {
      assert (n - width) * width + width == n * width - (width - 1) * width;
      assert (width - 1) * width >= 0;
    }
  }

  /** A loop bound that is already a multiple of the stride is reached exactly. */
  lemma {:induction false} RoundUpMultiple(k: nat, width: nat)
    requires width > 0
    ensures RoundUp(k * width, width) == k * width
  {
    if k > 0 {
      assert k * width - width == (k - 1) * width;
      RoundUpMultiple(k - 1, width);
    }
  }
}
