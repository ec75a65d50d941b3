/**
 * The shared base of both codec classes: the byte width of every scalar
 * kind and the natural-alignment tests that gate the native load/store
 * fast paths.
 */
module LibEndian {

  const UINT8_SIZE: nat := 1
  const UINT16_SIZE: nat := 2
  const UINT32_SIZE: nat := 4
  const UINT48_SIZE: nat := 6
  const UINT64_SIZE: nat := 8

  const INT8_SIZE: nat := 1
  const INT16_SIZE: nat := 2
  const INT32_SIZE: nat := 4
  const INT48_SIZE: nat := 6
  const INT64_SIZE: nat := 8

  /** Four bytes; the comment above this constant in the header says six. */
  const FLOAT32_SIZE: nat := 4
  const FLOAT64_SIZE: nat := 8

  /** A byte pointer: the address of a buffer's first byte and an index into it. */
  datatype BytePtr = BytePtr(base: nat, offset: nat)
  {
    function Address(): nat { base + offset }
  }

  /** IS_16_ALIGNED on an integer address. */
  predicate Is16Aligned(ptr: nat) { ptr % 2 == 0 }

  /** IS_32_ALIGNED on an integer address. */
  predicate Is32Aligned(ptr: nat) { ptr % 4 == 0 }

  /** IS_64_ALIGNED on an integer address. */
  predicate Is64Aligned(ptr: nat) { ptr % 8 == 0 }

  /** The pointer overloads convert the pointer to its address and ask the integer overload. */
  predicate Is16AlignedPtr(p: BytePtr) { Is16Aligned(p.Address()) }
  predicate Is32AlignedPtr(p: BytePtr) { Is32Aligned(p.Address()) }
  predicate Is64AlignedPtr(p: BytePtr) { Is64Aligned(p.Address()) }

  /** Natural alignment for a width of 2, 4 or 8 bytes, as the three predicates decide it. */
  predicate AlignedTo(width: nat, ptr: nat)
    requires width == 2 || width == 4 || width == 8
  {
    if width == 2 then Is16Aligned(ptr) else if width == 4 then Is32Aligned(ptr) else Is64Aligned(ptr)
  }

  /**
   * Every signed kind has the width of its unsigned kind, and floats those of
   * the 32/64-bit kinds. Documentation of the constants: it holds by their
   * definitions alone.
   */
  lemma SizesAgree()
    ensures INT8_SIZE == UINT8_SIZE && INT16_SIZE == UINT16_SIZE && INT32_SIZE == UINT32_SIZE
    ensures INT48_SIZE == UINT48_SIZE && INT64_SIZE == UINT64_SIZE
    ensures FLOAT32_SIZE == UINT32_SIZE == 4 && FLOAT64_SIZE == UINT64_SIZE == 8
  {
  }

  /**
   * An address is 2^k-aligned exactly when it is a multiple of 2^k.
   * Documentation of the three predicates, restated as divisibility: it
   * follows from their definitions; AlignmentChain and AlignedStep are the
   * facts about them that take proof.
   */
  lemma AlignedIsMultiple(ptr: nat)
    ensures Is16Aligned(ptr) <==> ptr == 2 * (ptr / 2)
    ensures Is32Aligned(ptr) <==> ptr == 4 * (ptr / 4)
    ensures Is64Aligned(ptr) <==> ptr == 8 * (ptr / 8)
  {
  }

  /** A whole number of 4-byte steps is a multiple of 4; a helper for AlignmentChain and AlignedStep. */
  lemma MultipleOf4(k: nat)
    ensures (4 * k) % 4 == 0
  {
  }

  /** A whole number of 2-byte steps is a multiple of 2; a helper for AlignmentChain and AlignedStep. */
  lemma MultipleOf2(k: nat)
    ensures (2 * k) % 2 == 0
  {
  }

  /** A whole number of 8-byte steps is a multiple of 8; a helper for AlignmentChain and AlignedStep. */
  lemma MultipleOf8(k: nat)
    ensures (8 * k) % 8 == 0
  {
  }

  /** 64-aligned implies 32-aligned, which implies 16-aligned. */
  lemma AlignmentChain(ptr: nat)
    ensures Is64Aligned(ptr) ==> Is32Aligned(ptr)
    ensures Is32Aligned(ptr) ==> Is16Aligned(ptr)
  {
    if Is64Aligned(ptr) {
      MultipleOf4(2 * (ptr / 8));
      assert ptr == 4 * (2 * (ptr / 8));
    }
    if Is32Aligned(ptr) {
      MultipleOf2(2 * (ptr / 4));
      assert ptr == 2 * (2 * (ptr / 4));
    }
  }

  /** Stepping an aligned pointer by a multiple of the width keeps it aligned. */
  lemma AlignedStep(width: nat, ptr: nat, k: nat)
    requires width == 2 || width == 4 || width == 8
    requires AlignedTo(width, ptr)
    ensures AlignedTo(width, ptr + width * k)
  {
    if width == 2 {
      MultipleOf2(ptr / 2 + k);
      assert ptr + 2 * k == 2 * (ptr / 2 + k);
    } else if width == 4 {
      MultipleOf4(ptr / 4 + k);
      assert ptr + 4 * k == 4 * (ptr / 4 + k);
    } else {
      MultipleOf8(ptr / 8 + k);
      assert ptr + 8 * k == 8 * (ptr / 8 + k);
    }
  }

  /**
   * The pointer overload applied to &buf[o] tests the address base + o, like
   * the integer overload. Documentation of the forwarding: it holds by the
   * definitions of the pointer predicates.
   */
  lemma PointerOverloads(base: nat, o: nat)
    ensures Is16AlignedPtr(BytePtr(base, o)) == Is16Aligned(base + o)
    ensures Is32AlignedPtr(BytePtr(base, o)) == Is32Aligned(base + o)
    ensures Is64AlignedPtr(BytePtr(base, o)) == Is64Aligned(base + o)
  {
  }
}
