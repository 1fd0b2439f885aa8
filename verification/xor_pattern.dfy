/**
 The alternating-word generator (`make_xor_data`) and its two presets
 (`make_as5s_data`, `make_0sfs_data`).

 The generator XORs the seed alternately with `0` and with `u32::MAX`, driven by
 a `fizz` flag that starts set and toggles after every word, and masks each word
 to its low 16 bits.
 */
module XorPattern {
  import opened Words

  /** Seed of `make_as5s_data`. */
  const As5sSeed: Word := 0xAAAA_AAAA

  /** Seed of `make_0sfs_data`. */
  const ZerosSeed: Word := 0x0000_0000

  /** Word `index` of the pattern: the low 16 bits of the seed on even indices, of its complement on odd ones. */
  function XorWord(seed: Word, index: nat): (w: Word)
    ensures w <= Low16
    ensures index % 2 == 0 ==> w == seed & Low16
    ensures index % 2 == 1 ==> w ^ (seed & Low16) == Low16
  {
    if index % 2 == 0 then seed & Low16 else !seed & Low16
  }

  /**
   One word as the loop stores it: the seed XORed with `0` while `fizz` is set and
   with `u32::MAX` otherwise, then masked to 16 bits.
   */
  function FizzWord(seed: Word, fizz: bool): (w: Word)
    ensures fizz ==> w == XorWord(seed, 0)
    ensures !fizz ==> w == XorWord(seed, 1)
  {
    (seed ^ (if fizz then 0x0000 else 0xFFFF_FFFF)) & Low16
  }

  /** A word of the pattern depends only on the parity of its index. */
  lemma XorWordParity(seed: Word, index: nat)
    ensures XorWord(seed, index) == XorWord(seed, index % 2)
  {
  }

  /** `make_xor_data`: `length` words alternating the seed and its complement, masked to 16 bits. */
  method MakeXorData(seed: Word, length: nat) returns (out: seq<Word>)
    ensures |out| == length
    ensures forall i :: 0 <= i < length ==> out[i] == XorWord(seed, i)
  {
    var words := new Word[length](_ => 0);
    var fizz := true;
    var index: nat := 0;
    while index < length
      invariant index <= length
      invariant fizz <==> index % 2 == 0
      invariant forall i :: 0 <= i < index ==> words[i] == XorWord(seed, i)
    {
      words[index] := FizzWord(seed, fizz);
      XorWordParity(seed, index);
      fizz := !fizz;
      index := index + 1;
    }
    out := words[..];
  }

  /** `make_as5s_data`: `0xAAAA` on even indices and `0x5555` on odd ones. */
  method MakeAs5sData(length: nat) returns (out: seq<Word>)
    ensures |out| == length
    ensures forall i :: 0 <= i < length ==> out[i] == if i % 2 == 0 then 0xAAAA else 0x5555
  {
    out := MakeXorData(As5sSeed, length);
  }

  /** `make_0sfs_data`: `0x0000` on even indices and `0xFFFF` on odd ones. */
  method Make0sFsData(length: nat) returns (out: seq<Word>)
    ensures |out| == length
    ensures forall i :: 0 <= i < length ==> out[i] == if i % 2 == 0 then 0x0000 else 0xFFFF
  {
    out := MakeXorData(ZerosSeed, length);
  }

  /** Neighbouring words are complements within 16 bits. */
  lemma XorWordNeighboursComplement(seed: Word, index: nat)
    ensures XorWord(seed, index) ^ XorWord(seed, index + 1) == Low16
  {
  }

  /** The pattern repeats every two words. */
  lemma XorWordPeriodic(seed: Word, index: nat)
    ensures XorWord(seed, index + 2) == XorWord(seed, index)
  {
  }

  /** Only the low 16 bits of the seed matter: its high half is masked away. */
  lemma XorWordIgnoresHighSeedBits(seed: Word, seed': Word, index: nat)
    requires seed & Low16 == seed' & Low16
    ensures XorWord(seed, index) == XorWord(seed', index)
  {
  }
}
