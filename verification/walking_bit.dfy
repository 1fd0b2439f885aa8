/**
 The walking-bit generator (`make_walking_bit_data`).

 A single bit walks from bit 0 up to bit 15 over one lap of 16 words, then from
 bit 15 back down to bit 0 over the next lap, and so on. The generator drives this
 with loop state: the word `index`, a `shift` taken from the index truncated to
 16 bits, and a `flip` flag that toggles at the start of every lap after the
 first. Words whose index is a multiple of 32 are forced to `1`. The raw 16-bit
 value is then optionally complemented and masked to the low 16 bits.

 The module gives both the loop-level description (`ShiftOf`, `Toggle`, `Flip`,
 `ComputeValue`, `StoreWord`, and the method `MakeWalkingBitData`) and a closed
 form per index (`BitPosition`, `WalkWord`), and proves that they agree.
 */
module WalkingBit {
  import opened Words

  /** Number of words in one lap of the walk: the pattern width. */
  const LapLength: nat := 16

  /** Number of words after which the walk returns to its starting position. */
  const Period: nat := 32

  // ---------------------------------------------------------------------------
  // Loop-level description
  // ---------------------------------------------------------------------------

  /**
   `(index as u16) % 16`: the index is first truncated to 16 bits, then reduced
   modulo the lap length. Because 16 divides 65536 the truncation never changes
   the result.
   */
  function ShiftOf(index: nat): (shift: nat)
    ensures shift < LapLength
    ensures shift == index % LapLength
  {
    (index % 0x1_0000) % LapLength
  }

  /**
   The direction toggle: `flip` changes exactly at the first word of every lap
   except the first, judged by the full index and not its 16-bit truncation.
   */
  function Toggle(index: nat, flip: bool): (flip': bool)
    ensures flip' != flip <==> index > 0 && index % LapLength == 0
  {
    if index != 0 && ShiftOf(index) == 0 then !flip else flip
  }

  /**
   The value of `flip` that the element at `index` is computed with, i.e. after
   the toggle for that index has been applied. Before index 0 it is `false`.
   It is set exactly on the odd laps.
   */
  function Flip(index: nat): (flip: bool)
    ensures flip <==> (index / LapLength) % 2 == 1
  {
    if index == 0 then false
    else LapAdvance(index); Toggle(index, Flip(index - 1))
  }

  /**
   Stepping to the next index moves to the next lap exactly at a lap's first word,
   so the lap's parity changes exactly there.
   */
  lemma LapAdvance(index: nat)
    requires index > 0
    ensures index / LapLength == (index - 1) / LapLength + (if index % LapLength == 0 then 1 else 0)
    ensures ((index / LapLength) % 2 == 1) == ((((index - 1) / LapLength) % 2 == 1) != (index % LapLength == 0))
  {
    var lap, offset := (index - 1) / LapLength, (index - 1) % LapLength;
    assert index == LapLength * lap + offset + 1;
    if offset == LapLength - 1 {
      assert index == LapLength * (lap + 1) + 0;
    }
  }

  /** The shift-based value of `compute_value`, without the anchor. */
  function ShiftValue(flip: bool, shift: nat): (v: Half)
    requires shift < LapLength
    ensures v != 0 && v & (v - 1) == 0
    ensures !flip ==> v as Word == OneHot(shift)
    ensures flip ==> v as Word == OneHot(LapLength - 1 - shift)
  {
    if !flip then (1 as Half) << shift else (0x8000 as Half) >> shift
  }

  /**
   `compute_value`: the raw 16-bit word, with the anchor that forces `1` at every
   index that is a multiple of 32. The result always has exactly one bit set.
   */
  function ComputeValue(index: nat, flip: bool, shift: nat): (v: Half)
    requires shift < LapLength
    ensures v != 0 && v & (v - 1) == 0
    ensures index % Period == 0 ==> v == 1
  {
    if index % Period == 0 then 0x0001 else ShiftValue(flip, shift)
  }

  /**
   Storing a raw value: kept as is for a walking-ones pattern, complemented for a
   walking-zeros pattern, and masked to the low 16 bits either way.
   */
  function StoreWord(v: Half, walkingOnes: bool): (w: Word)
    ensures w <= Low16
    ensures w as Half == if walkingOnes then v else !v
  {
    (if walkingOnes then v as Word else !(v as Word)) & Low16
  }

  // ---------------------------------------------------------------------------
  // Closed form
  // ---------------------------------------------------------------------------

  /** Position of the walking bit at `index`: 0..15 on even laps, 15..0 on odd laps. */
  function BitPosition(index: nat): (k: nat)
    ensures k < LapLength
  {
    if (index / LapLength) % 2 == 0 then index % LapLength else LapLength - 1 - index % LapLength
  }

  /**
   Word `index` of the pattern: only bit `BitPosition(index)` set for walking
   ones; for walking zeros, only that bit clear among bits 0..15. Bits 16..31 are
   always clear.
   */
  function WalkWord(index: nat, walkingOnes: bool): (w: Word)
    ensures w <= Low16
    ensures forall j :: 0 <= j < 32 ==>
      (HasBit(w, j) <==> if walkingOnes then j == BitPosition(index) else j < 16 && j != BitPosition(index))
  {
    if walkingOnes then OneHot(BitPosition(index)) else OneCold(BitPosition(index))
  }

  // ---------------------------------------------------------------------------
  // Agreement between the loop and the closed form
  // ---------------------------------------------------------------------------

  /** At every multiple of 32, where the anchor applies, `flip` is clear and `shift` is 0. */
  lemma FlipClearAtAnchor(index: nat)
    requires index % Period == 0
    ensures !Flip(index)
    ensures ShiftOf(index) == 0
  {
    var laps := index / Period;
    assert index == LapLength * (2 * laps);
    assert index / LapLength == 2 * laps;
  }

  /**
   The anchor is redundant: at every index, `compute_value` with the loop's own
   `flip` and `shift` returns what the shift formula alone would give.
   */
  lemma AnchorIsRedundant(index: nat)
    ensures ComputeValue(index, Flip(index), ShiftOf(index)) == ShiftValue(Flip(index), ShiftOf(index))
  {
    var flip, shift := Flip(index), ShiftOf(index);
    if index % Period == 0 {
      FlipClearAtAnchor(index);
      assert !flip && shift == 0;
      assert ShiftValue(flip, shift) == (1 as Half) << 0;
    }
  }

  /** The raw value of the loop has its only set bit at `BitPosition(index)`. */
  lemma RawValueIsOneHot(index: nat)
    ensures ComputeValue(index, Flip(index), ShiftOf(index)) as Word == OneHot(BitPosition(index))
  {
    AnchorIsRedundant(index);
  }

  /** Each word the loop stores equals the closed form at its index. */
  lemma ElementMatchesClosedForm(index: nat, walkingOnes: bool)
    ensures StoreWord(ComputeValue(index, Flip(index), ShiftOf(index)), walkingOnes)
            == WalkWord(index, walkingOnes)
  {
    RawValueIsOneHot(index);
  }

  // ---------------------------------------------------------------------------
  // The generator
  // ---------------------------------------------------------------------------

  /**
   `make_walking_bit_data`: `length` words of the walking-bit pattern, walking
   ones when `walkingOnes` holds and walking zeros otherwise.
   */
  method MakeWalkingBitData(length: nat, walkingOnes: bool) returns (out: seq<Word>)
    ensures |out| == length
    ensures forall i :: 0 <= i < length ==> out[i] == WalkWord(i, walkingOnes)
    ensures forall i :: 0 <= i && i + Period < length ==> out[i] == out[i + Period]
  {
    var words := new Word[length](_ => 0);
    var flip := false;
    var index: nat := 0;
    while index < length
      invariant index <= length
      invariant flip == (index > 0 && Flip(index - 1))
      invariant forall i :: 0 <= i < index ==> words[i] == WalkWord(i, walkingOnes)
    {
      var shift := ShiftOf(index);
      if index != 0 && shift == 0 {
        flip := !flip;
      }
      assert flip == Flip(index);
      words[index] := StoreWord(ComputeValue(index, flip, shift), walkingOnes);
      ElementMatchesClosedForm(index, walkingOnes);
      index := index + 1;
    }
    out := words[..];
    forall i | 0 <= i && i + Period < length
      ensures out[i] == out[i + Period]
    {
      WalkWordPeriodic(i, walkingOnes);
    }
  }

  // ---------------------------------------------------------------------------
  // Properties of the pattern
  // ---------------------------------------------------------------------------

  /** The pattern repeats every 32 words. */
  lemma WalkWordPeriodic(index: nat, walkingOnes: bool)
    ensures WalkWord(index + Period, walkingOnes) == WalkWord(index, walkingOnes)
  {
    assert (index + Period) / LapLength == index / LapLength + 2;
    assert (index + Period) % LapLength == index % LapLength;
  }

  /** Every 32nd word holds the walking bit at bit 0. */
  lemma WalkWordAnchor(k: nat, walkingOnes: bool)
    ensures WalkWord(k * Period, walkingOnes) == if walkingOnes then 0x0001 else 0xFFFE
  {
  }

  /** Walking ones and walking zeros are bitwise complements within 16 bits. */
  lemma WalkWordComplement(index: nat)
    ensures WalkWord(index, true) ^ WalkWord(index, false) == Low16
    ensures WalkWord(index, false) == !WalkWord(index, true) & Low16
  {
  }

  /**
   Consecutive words within one lap move the walking bit one position: up on
   even laps, down on odd laps; across a lap boundary the bit stays in place.
   */
  lemma BitPositionStep(index: nat)
    ensures (index + 1) % LapLength != 0 && (index / LapLength) % 2 == 0 ==>
      BitPosition(index + 1) == BitPosition(index) + 1
    ensures (index + 1) % LapLength != 0 && (index / LapLength) % 2 == 1 ==>
      BitPosition(index + 1) + 1 == BitPosition(index)
    ensures (index + 1) % LapLength == 0 ==> BitPosition(index + 1) == BitPosition(index)
  {
    if (index + 1) % LapLength == 0 {
      assert (index + 1) / LapLength == index / LapLength + 1;
    } else {
      assert (index + 1) / LapLength == index / LapLength;
    }
  }
}
