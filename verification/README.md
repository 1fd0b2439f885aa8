# Memory-test bit-pattern generators, modelled in Dafny

This project models `src/lib.rs`, a small library of pure generators for
memory-test vectors. Every output word is held in a 32-bit container (`u32`), and
only the low 16 bits carry the pattern.

- `make_walking_bit_data(length, walking_ones)` walks a single bit from bit 0 up
  to bit 15, then from bit 15 back down to bit 0, and repeats. The walk is driven
  by loop state: `index`, `shift = (index as u16) % 16`, and a `flip` flag that
  toggles at every lap boundary after index 0. Indices that are multiples of 32
  are forced to `1`. Walking zeros is the complement masked to 16 bits.
- `make_xor_data(seed, length)` alternates `seed` and `!seed`. A `fizz` flag
  drives the alternation, and each word is masked to 16 bits.
- `make_as5s_data` and `make_0sfs_data` call `make_xor_data` with the seeds
  `0xAAAAAAAA` and `0`.

Files:

- `words.dfy` (module `Words`): the `bv32`/`bv16` word types, the 16-bit mask,
  bit access, and the one-hot and one-cold words.
- `walking_bit.dfy` (module `WalkingBit`): the walking-bit generator at two
  levels. The loop level has `ShiftOf`, `Toggle`, `Flip`, `ComputeValue`,
  `StoreWord` and the method `MakeWalkingBitData`, which fills an array with the
  same `flip`/`index`/`shift` state as the source. The closed form per index is
  `BitPosition` and `WalkWord`. Lemmas prove that the two levels agree.
- `xor_pattern.dfy` (module `XorPattern`): the alternating-word generator, its
  closed form `XorWord`, the two presets, and their properties.
- `pattern_tests.dfy` (module `PatternTests`): the five unit-test vectors of the
  source, plus the empty case. Each is a method whose contract is the exact
  expected sequence.

The `async` functions are modelled as plain methods, because none of them
suspends. `usize` lengths are modelled as `nat`.

The source forces `1` at every `index % 32 == 0` (src/lib.rs:20-22). At those
indices `flip` is clear and `shift` is 0 (`WalkingBit.FlipClearAtAnchor`). So the
forced `1` equals `1 << 0`, which the shift formula gives anyway
(`WalkingBit.AnchorIsRedundant`). The walk therefore has period 32
(`WalkingBit.WalkWordPeriodic`).

## Model

| member | source | states |
|---|---|---|
| `WalkingBit.ShiftOf` | src/lib.rs:32 | truncating the index to `u16` before `% 16` yields exactly `index % 16`, always below 16 |
| `WalkingBit.ShiftValue` | src/lib.rs:24-28 | the shift formula sets exactly one bit: bit `shift` on a rising lap, bit `15 - shift` on a falling lap |
| `WalkingBit.ComputeValue` | src/lib.rs:19-29 | `compute_value` always returns a word with exactly one bit set, and returns `1` at every multiple of 32 |
| `WalkingBit.StoreWord` | src/lib.rs:38-39 | the stored word fits in 16 bits; its low half is the raw value for walking ones and the raw value's complement for walking zeros |
| `WalkingBit.WalkWord` | src/lib.rs:14-45 | reference definition of word `i`: for walking ones, bit `BitPosition(i)` is the only set bit of all 32; for walking zeros, it is the only clear bit among bits 0..15 and bits 16..31 are clear |
| `WalkingBit.Toggle` | src/lib.rs:32-36 | `flip` changes exactly when the full index is a positive multiple of 16, even though the test reads the 16-bit truncated `shift` |
| `WalkingBit.Flip` | src/lib.rs:16-36 | `flip` starts clear, and the value used for element `i` is set exactly when `i / 16` is odd |
| `WalkingBit.FlipClearAtAnchor` | src/lib.rs:20-22 | at every index that is a multiple of 32, `flip` is clear and `shift` is 0 |
| `WalkingBit.AnchorIsRedundant` | src/lib.rs:19-36 | with the loop's own `flip` and `shift`, the forced `1` at multiples of 32 equals what the shift formula alone returns |
| `WalkingBit.RawValueIsOneHot` | src/lib.rs:19-38 | the raw value the loop computes for index `i` has its single set bit at `BitPosition(i)` |
| `WalkingBit.ElementMatchesClosedForm` | src/lib.rs:31-40 | each word the loop stores equals the closed-form word at its index |
| `WalkingBit.MakeWalkingBitData` | src/lib.rs:14-45 | returns exactly `length` words, word `i` is the closed-form word `i` whatever the length, and words 32 apart are equal |
| `WalkingBit.WalkWordPeriodic` | src/lib.rs:19-39 | word `i + 32` equals word `i` |
| `WalkingBit.WalkWordAnchor` | src/lib.rs:20-22 | every word at a multiple of 32 is `0x0001` for walking ones and `0xFFFE` for walking zeros |
| `WalkingBit.WalkWordComplement` | src/lib.rs:39 | walking ones XOR walking zeros is `0xFFFF` at every index, so walking zeros is walking ones complemented and masked |
| `WalkingBit.BitPositionStep` | src/lib.rs:24-36 | inside a lap the bit moves up one place on even laps and down one place on odd laps; across a lap boundary it stays in place |
| `XorPattern.XorWord` | src/lib.rs:58-60 | reference definition of word `i`: it fits in 16 bits, equals the seed's low half on even indices, and XORs with the seed's low half to `0xFFFF` on odd indices |
| `XorPattern.FizzWord` | src/lib.rs:58-60 | the word stored while `fizz` is set is the even-index word, and the word stored while it is clear is the odd-index word |
| `XorPattern.XorWordParity` | src/lib.rs:55-59 | a word depends only on the parity of its index |
| `XorPattern.MakeXorData` | src/lib.rs:53-64 | returns exactly `length` words, and word `i` is the seed's low half on even `i` and its 16-bit complement on odd `i` |
| `XorPattern.MakeAs5sData` | src/lib.rs:71-73 | returns `length` words alternating `0xAAAA` and `0x5555`, starting with `0xAAAA` |
| `XorPattern.Make0sFsData` | src/lib.rs:80-82 | returns `length` words alternating `0x0000` and `0xFFFF`, starting with `0x0000` |
| `XorPattern.XorWordNeighboursComplement` | src/lib.rs:55-60 | consecutive words XOR to `0xFFFF` |
| `XorPattern.XorWordPeriodic` | src/lib.rs:55-60 | word `i + 2` equals word `i` |
| `XorPattern.XorWordIgnoresHighSeedBits` | src/lib.rs:60 | two seeds with the same low 16 bits give the same pattern, so the high half of `0xAAAAAAAA` is irrelevant |
| `PatternTests.WalkingOnesVector` | src/lib.rs:95-101 | `make_walking_bit_data(10, true)` is `0x0001, 0x0002, …, 0x0200` |
| `PatternTests.WalkingZerosVector` | src/lib.rs:103-110 | `make_walking_bit_data(10, false)` is `0xFFFE, 0xFFFD, …, 0xFDFF` |
| `PatternTests.XorVector` | src/lib.rs:112-116 | `make_xor_data(0x0FF0, 5)` alternates `0x0FF0` and `0xF00F` |
| `PatternTests.As5sVector` | src/lib.rs:118-122 | `make_as5s_data(5)` is `0xAAAA, 0x5555, 0xAAAA, 0x5555, 0xAAAA` |
| `PatternTests.ZerosFsVector` | src/lib.rs:124-128 | `make_0sfs_data(5)` is `0x0000, 0xFFFF, 0x0000, 0xFFFF, 0x0000` |
| `PatternTests.EmptyVectors` | src/lib.rs:15 | both generators return the empty sequence for length zero |

## Left out

- `add` (src/lib.rs:4-6) has nothing to do with the patterns. Its only behaviour
  beyond addition is the `u64` overflow panic.
- `async`/`.await` and the `tokio::test` harness are not modelled. No function
  ever suspends, so the generators are synchronous methods.
- Allocation of the output `Vec` and out-of-memory failure are not modelled.
  `length` is a `nat`, and the output is a fresh sequence.
- The `usize` bound on `index` is not modelled. `index` never exceeds `length`,
  so it cannot wrap.
