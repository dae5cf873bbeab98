/**
 Byte-mask helpers used by the PN512 driver for read-modify-write of
 register values.

 A Java `byte` is a signed 8-bit value, but these helpers only combine bits
 and then cast back with `(byte)`, which keeps the low eight bits. The model
 therefore works on `bv8`, where every result is an 8-bit value by type.
 */
module BitUtils {

  type Byte = bv8

  /** Bit `i` (0 = least significant) of `x` is 1. */
  predicate BitSet(x: Byte, i: nat)
    requires i < 8
  {
    x & (1 << i) != 0
  }

  /** `value` with every bit that is set in `bitsToClear` cleared. */
  function ClearBits(value: Byte, bitsToClear: Byte): (r: Byte)
    // no bit of the mask survives
    ensures r & bitsToClear == 0
    // every bit outside the mask is left as it was
    ensures r & !bitsToClear == value & !bitsToClear
    // an empty mask changes nothing
    ensures bitsToClear == 0 ==> r == value
  {
    value & !bitsToClear
  }

  /** `value` with every bit that is set in `bitsToSet` set. */
  function SetBits(value: Byte, bitsToSet: Byte): (r: Byte)
    // every bit of the mask is set
    ensures r & bitsToSet == bitsToSet
    // every bit outside the mask is left as it was
    ensures r & !bitsToSet == value & !bitsToSet
    // idempotent: a value that already holds every bit of the mask is unchanged
    ensures value & bitsToSet == bitsToSet ==> r == value
  {
    value | bitsToSet
  }

  /** Bit by bit: bit `i` of `ClearBits(value, mask)` is set exactly when it is
      set in `value` and clear in `mask`. */
  lemma {:induction false} ClearBitsAt(value: Byte, mask: Byte, i: nat)
    requires i < 8
    ensures BitSet(ClearBits(value, mask), i) <==> BitSet(value, i) && !BitSet(mask, i)
  {
    match i
    case 0 => case 1 => case 2 => case 3 =>
    case 4 => case 5 => case 6 => case 7 =>
  }

  /** Bit by bit: bit `i` of `SetBits(value, mask)` is set exactly when it is
      set in `value` or in `mask`. */
  lemma {:induction false} SetBitsAt(value: Byte, mask: Byte, i: nat)
    requires i < 8
    ensures BitSet(SetBits(value, mask), i) <==> BitSet(value, i) || BitSet(mask, i)
  {
    match i
    case 0 => case 1 => case 2 => case 3 =>
    case 4 => case 5 => case 6 => case 7 =>
  }
}
