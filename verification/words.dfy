/**
 Fixed-width words shared by both pattern generators.

 Every generator stores its output in 32-bit containers (Rust `u32`), but only the
 low 16 bits carry pattern information; everything above bit 15 is masked to zero.
 */
module Words {

  /** A 32-bit container word (Rust `u32`). */
  type Word = bv32

  /** A 16-bit pattern word (Rust `u16`). */
  type Half = bv16

  /** `u16::MAX as u32`, the mask applied to every stored word. */
  const Low16: Word := 0xFFFF

  /** Bit `j` (0 = least significant) of a container word. */
  predicate HasBit(w: Word, j: nat)
    requires j < 32
  {
    (w >> j) & 1 == 1
  }

  /** The word whose only set bit is bit `k`. */
  function OneHot(k: nat): (w: Word)
    requires k < 16
    ensures w <= Low16
    ensures forall j :: 0 <= j < 32 ==> (HasBit(w, j) <==> j == k)
  {
    (1 as Word) << k
  }

  /** The 16-bit word whose only clear bit among bits 0..15 is bit `k`. */
  function OneCold(k: nat): (w: Word)
    requires k < 16
    ensures w <= Low16
    ensures forall j :: 0 <= j < 32 ==> (HasBit(w, j) <==> j < 16 && j != k)
    ensures w ^ OneHot(k) == Low16
  {
    !OneHot(k) & Low16
  }
}
