/** Alignment arithmetic (platform.rs). */
module Platform {

  ghost predicate IsMultiple(n: nat, a: nat) { exists m: nat :: n == m * a }

  /** The smallest multiple of `alignment` that is not below `size`. */
  function AlignCeil(size: nat, alignment: nat): (r: nat)
    requires alignment >= 1
    ensures size <= r < size + alignment && IsMultiple(r, alignment)
  {
    AlignBounds(size + alignment - 1, alignment);
    (size + alignment - 1) / alignment * alignment
  }

  /** The largest multiple of `alignment` that is not above `size`. */
  function AlignFloor(size: nat, alignment: nat): (r: nat)
    requires alignment >= 1
    ensures r <= size < r + alignment && IsMultiple(r, alignment)
  {
    AlignBounds(size, alignment);
    size / alignment * alignment
  }

  lemma AlignBounds(n: nat, a: nat)
    requires a >= 1
    ensures n / a * a <= n < n / a * a + a && IsMultiple(n / a * a, a)
  {
    assert n == n / a * a + n % a;
  }

  /** Both branches of align_floor agree: for a power of two, clearing the low bits is the same as
      dividing and multiplying. align_ceil is the same on a sum that has been clamped to the width. */
  lemma MaskFloor(size: bv32)
    ensures size & !(1 - 1) == size / 1 * 1 && size & !(2 - 1) == size / 2 * 2 && size & !(4 - 1) == size / 4 * 4
    ensures size & !(8 - 1) == size / 8 * 8 && size & !(16 - 1) == size / 16 * 16 && size & !(32 - 1) == size / 32 * 32
  {
    Mask1(size); Mask2(size); Mask4(size); Mask8(size); Mask16(size); Mask32(size);
  }

  lemma Mask1(size: bv32)
    ensures size & !(1 - 1) == size / 1 * 1
  {}

  lemma Mask2(size: bv32)
    ensures size & !(2 - 1) == size / 2 * 2
  {}

  lemma Mask4(size: bv32)
    ensures size & !(4 - 1) == size / 4 * 4
  {}

  lemma Mask8(size: bv32)
    ensures size & !(8 - 1) == size / 8 * 8
  {}

  lemma Mask16(size: bv32)
    ensures size & !(16 - 1) == size / 16 * 16
  {}

  lemma Mask32(size: bv32)
    ensures size & !(32 - 1) == size / 32 * 32
  {}
}
