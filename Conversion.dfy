/**
 * The aligned loop shared by MEMCPY_16/32/64 of both codec classes. On a
 * host whose byte order is opposite to the class's, the loop reads each
 * element of `width` bytes with the class's decoder and stores the word
 * natively, which reverses its bytes. This module holds what is common to
 * both classes: the converted image of a run of elements, how it grows
 * one element at a time, and the arithmetic of the loop's byte index.
 */
module Conversion {
  import opened Bytes
  import opened LibEndian
  import opened Platform

  /** The byte order a codec class lays its fields out in. */
  datatype Order = Little | Big

  /**
   * One element as the aligned loop leaves it in dest: its bytes reversed
   * into host order or, on the swap fast path (which widens and swaps only
   * the first byte), that byte alone at the end of the element where the
   * class's order puts the least significant byte, and zeros elsewhere.
   */
  function ConvertedSlot(order: Order, cfg: Config, x: seq<uint8>): (r: seq<uint8>)
    requires |x| >= 1
    ensures |r| == |x|
  {
    if !cfg.bswapEnabled then Reverse(x)
    else if order == Little then LeBytes(x[0], |x|)
    else BeBytes(x[0], |x|)
  }

  /**
   * The elements of x, each of the given width, converted one by one. A
   * trailing part shorter than one element is left as it is; the loop
   * never reaches one.
   */
  function Converted(order: Order, cfg: Config, x: seq<uint8>, width: nat): (r: seq<uint8>)
    requires width > 0
    ensures |r| == |x|
    decreases |x|
  {
    if |x| < width then x
    else ConvertedSlot(order, cfg, x[..width]) + Converted(order, cfg, x[width..], width)
  }

  lemma WidthStep(a: nat, width: nat)
    requires width > 0
    requires a % width == 0 && a > 0
    ensures a >= width && (a - width) % width == 0
  {
    DivModUnique(a - width, width, a / width - 1, 0);
  }

  lemma WidthSum(a: nat, b: nat, width: nat)
    requires width > 0
    requires a % width == 0 && b % width == 0
    ensures (a + b) % width == 0
  {
    DivModUnique(a + b, width, a / width + b / width, 0);
  }

  /** Converting whole elements followed by more bytes converts each part. */
  lemma {:induction false} ConvertedAppend(order: Order, cfg: Config, x: seq<uint8>, y: seq<uint8>, width: nat)
    requires width > 0
    requires |x| % width == 0
    ensures Converted(order, cfg, x + y, width) == Converted(order, cfg, x, width) + Converted(order, cfg, y, width)
    decreases |x|
  {
    if |x| == 0 {
      assert x + y == y;
    } else {
      WidthStep(|x|, width);
      assert (x + y)[..width] == x[..width];
      assert (x + y)[width..] == x[width..] + y;
      ConvertedAppend(order, cfg, x[width..], y, width);
    }
  }

  /** The element at byte i of the run, for i a multiple of the width, converts in place. */
  lemma {:induction false} ConvertedElement(order: Order, cfg: Config, x: seq<uint8>, width: nat, i: nat)
    requires width > 0
    requires i % width == 0 && i + width <= |x|
    ensures Converted(order, cfg, x, width)[i..i + width] == ConvertedSlot(order, cfg, x[i..i + width])
  {
    var pre, post := x[..i], x[i..];
    assert x == pre + post;
    ConvertedAppend(order, cfg, pre, post, width);
    var head := Converted(order, cfg, pre, width);
    var slot := ConvertedSlot(order, cfg, post[..width]);
    var cpost := slot + Converted(order, cfg, post[width..], width);
    assert Converted(order, cfg, post, width) == cpost;
    assert post[..width] == x[i..i + width];
    assert |head| == i && |slot| == width;
    assert (head + cpost)[i..i + width] == slot;
  }

  /** Without the swap fast path each element is reversed, so converting twice gives the bytes back. */
  lemma {:induction false} ConvertedTwice(order: Order, cfg: Config, x: seq<uint8>, width: nat)
    requires width > 0 && !cfg.bswapEnabled
    ensures Converted(order, cfg, Converted(order, cfg, x, width), width) == x
    decreases |x|
  {
    if |x| >= width {
      var head := Reverse(x[..width]);
      var once := head + Converted(order, cfg, x[width..], width);
      assert once[..width] == head && once[width..] == Converted(order, cfg, x[width..], width);
      ReverseReverse(x[..width]);
      ConvertedTwice(order, cfg, x[width..], width);
      assert x == x[..width] + x[width..];
    }
  }

  // ---------------------------------------------------------------------------
  // What one stored element looks like.

  /** Swapping a byte widened to n bytes and storing the word big-endian writes the byte then zeros. */
  lemma SwappedByteBigStore(n: nat, b: uint8)
    requires n >= 1
    ensures BeBytes(b * Pow256(n - 1), n) == LeBytes(b, n)
  {
    BswapOfByte(n, b);
    BswapInvolution(n, b);
    var y := Bswap(n, b);
    assert LeBytes(Bswap(n, y), n) == BeBytes(y, n);
    assert Pow256(n) == 0x100 * Pow256(n - 1);
    DivModUnique(b, Pow256(n), 0, b);
  }

  /** Swapping a byte widened to n bytes and storing the word little-endian writes zeros then the byte. */
  lemma SwappedByteLittleStore(n: nat, b: uint8)
    requires n >= 1
    ensures LeBytes(b * Pow256(n - 1), n) == BeBytes(b, n)
  {
    SwappedByteBigStore(n, b);
    BeBytesIsReverse(b * Pow256(n - 1), n);
    BeBytesIsReverse(b, n);
    ReverseReverse(LeBytes(b * Pow256(n - 1), n));
  }

  /** Reading bytes little-endian and storing the word big-endian reverses them. */
  lemma ReversedBigStore(x: seq<uint8>)
    ensures BeBytes(LeValue(x), |x|) == Reverse(x)
  {
    BeBytesIsReverse(LeValue(x), |x|);
    LeBytesOfValue(x);
  }

  /** Reading bytes big-endian and storing the word little-endian reverses them. */
  lemma ReversedLittleStore(x: seq<uint8>)
    ensures LeBytes(BeValue(x), |x|) == Reverse(x)
  {
    BeValueIsReverse(x);
    LeBytesOfValue(Reverse(x));
  }

  // ---------------------------------------------------------------------------
  // The loop index: i runs over 0, width, 2 * width, ... while i < bound.

  /** An aligned address plus a multiple of the width is aligned. */
  lemma AlignedOffset(width: nat, ptr: nat, i: nat)
    requires width == 2 || width == 4 || width == 8
    requires AlignedTo(width, ptr) && i % width == 0
    ensures AlignedTo(width, ptr + i)
  {
    DivModUnique(i, width, i / width, 0);
    AlignedStep(width, ptr, i / width);
  }

  /** Two distinct multiples of width lie at least width apart. */
  lemma MultipleGap(i: nat, e: nat, width: nat)
    requires width > 0 && i % width == 0 && e % width == 0 && i < e
    ensures i + width <= e
  {
    DivModUnique(i, width, i / width, 0);
    DivModUnique(e, width, e / width, 0);
    assert i / width < e / width;
    assert (e / width) * width - (i / width) * width == (e / width - i / width) * width;
    MulAtLeast(e / width - i / width, width);
  }

  /** The aligned loop, stepping by width from 0, stops at the first multiple of width at or past its bound. */
  lemma LoopExit(i: nat, bound: nat, width: nat)
    requires width > 0 && i % width == 0 && bound <= i <= RoundUp(bound, width)
    ensures i == RoundUp(bound, width)
  {
    if i < RoundUp(bound, width) {
      MultipleGap(i, RoundUp(bound, width), width);
    }
  }

  /** With two or more elements the aligned loop stops short of the count * width bytes it was given. */
  lemma LoopBoundShortfall(count: nat, width: nat)
    requires width == 2 || width == 4 || width == 8
    requires count >= 2
    ensures RoundUp(count, width) < count * width
  {
    assert (count - 1) * (width - 1) >= 1 by {
      MulAtLeast(width - 1, count - 1);
    }
  }

  // ---------------------------------------------------------------------------
  // One pass of the loop.

  /** Converting one more element extends the converted prefix written at dest[d]. */
  lemma ConvertStep(order: Order, cfg: Config, before: seq<uint8>, d: nat, x: seq<uint8>, i: nat, width: nat)
    requires width > 0
    requires i % width == 0 && i + width <= |x| && d + |x| <= |before|
    ensures (i + width) % width == 0
    ensures Splice(Splice(before, d, Converted(order, cfg, x[..i], width)), d + i, ConvertedSlot(order, cfg, x[i..i + width]))
         == Splice(before, d, Converted(order, cfg, x[..i + width], width))
  {
    var slot := x[i..i + width];
    DivModUnique(width, width, 1, 0);
    WidthSum(i, width, width);
    SpliceAppend(before, d, Converted(order, cfg, x[..i], width), ConvertedSlot(order, cfg, slot));
    assert x[..i + width] == x[..i] + slot;
    ConvertedAppend(order, cfg, x[..i], slot, width);
    ConvertedOne(order, cfg, slot, width);
  }

  /** If the window a[lo..hi] is the tail b[i..], the window's first width bytes are b[i..i+width]. */
  lemma WindowPrefix(a: seq<uint8>, lo: nat, hi: nat, b: seq<uint8>, i: nat, width: nat)
    requires lo + width <= hi <= |a| && i <= |b| && a[lo..hi] == b[i..]
    ensures i + width <= |b| && a[lo..lo + width] == b[i..i + width]
  {
    assert forall k | 0 <= k < width :: a[lo..hi][k] == a[lo + k];
    assert forall k | 0 <= k < width :: b[i..][k] == b[i + k];
  }

  /** A run of exactly one element converts as that element. */
  lemma ConvertedOne(order: Order, cfg: Config, slot: seq<uint8>, width: nat)
    requires width > 0 && |slot| == width
    ensures Converted(order, cfg, slot, width) == ConvertedSlot(order, cfg, slot)
  {
    assert slot[width..] == [] && slot[..width] == slot;
  }

  /**
   * The elements still to be read are as they were: src is either another
   * array, or dest itself with the converted prefix written at d <= s.
   */
  lemma LoopWindow(srcNow: seq<uint8>, aliased: bool, before: seq<uint8>, d: nat, done: seq<uint8>,
                   s: nat, i: nat, e: nat, x: seq<uint8>)
    requires i <= e && |x| == e && s + e <= |srcNow|
    requires !aliased ==> srcNow[s..s + e] == x
    requires aliased ==> (d <= s || s + e <= d) && |done| == i && d + i <= |before| && s + e <= |before|
    requires aliased ==> before[s..s + e] == x
    requires aliased ==> srcNow == Splice(before, d, done)
    ensures srcNow[s + i..s + e] == x[i..]
  {
    if aliased {
      SpliceKeeps(before, d, done, s + i, s + e);
      assert before[s + i..s + e] == before[s..s + e][i..];
    } else {
      assert srcNow[s + i..s + e] == srcNow[s..s + e][i..];
    }
  }
}
