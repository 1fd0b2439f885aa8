/**
 The unit-test vectors of the generators, each stated as a method that calls the
 generator and promises the exact expected sequence.
 */
module PatternTests {
  import opened Words
  import WalkingBit
  import XorPattern

  /** `make_walking_bit_data(10, true)`. */
  method WalkingOnesVector() returns (r: seq<Word>)
    ensures r == [0x0001, 0x0002, 0x0004, 0x0008, 0x0010, 0x0020, 0x0040, 0x0080, 0x0100, 0x0200]
  {
    r := WalkingBit.MakeWalkingBitData(10, true);
  }

  /** `make_walking_bit_data(10, false)`. */
  method WalkingZerosVector() returns (r: seq<Word>)
    ensures r == [0xFFFE, 0xFFFD, 0xFFFB, 0xFFF7, 0xFFEF, 0xFFDF, 0xFFBF, 0xFF7F, 0xFEFF, 0xFDFF]
  {
    r := WalkingBit.MakeWalkingBitData(10, false);
  }

  /** `make_xor_data(0x0FF0, 5)`. */
  method XorVector() returns (r: seq<Word>)
    ensures r == [0x0FF0, 0xF00F, 0x0FF0, 0xF00F, 0x0FF0]
  {
    r := XorPattern.MakeXorData(0x0FF0, 5);
  }

  /** `make_as5s_data(5)`. */
  method As5sVector() returns (r: seq<Word>)
    ensures r == [0xAAAA, 0x5555, 0xAAAA, 0x5555, 0xAAAA]
  {
    r := XorPattern.MakeAs5sData(5);
  }

  /** `make_0sfs_data(5)`. */
  method ZerosFsVector() returns (r: seq<Word>)
    ensures r == [0x0000, 0xFFFF, 0x0000, 0xFFFF, 0x0000]
  {
    r := XorPattern.Make0sFsData(5);
  }

  /** Both generators give the empty sequence for length zero. */
  method EmptyVectors(walkingOnes: bool, seed: Word) returns (w: seq<Word>, x: seq<Word>)
    ensures w == [] && x == []
  {
    w := WalkingBit.MakeWalkingBitData(0, walkingOnes);
    x := XorPattern.MakeXorData(seed, 0);
  }
}
