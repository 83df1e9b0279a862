# SAND-128 in Dafny

A model of the SAND-128 block cipher as the C sources implement it. SAND-128 is
a 54-round Feistel cipher on 128-bit blocks, each held as two 64-bit words.
The model covers:

- the word operations of `SAND.c`:
  - the rotation `ROTL`;
  - the byte permutation `P`;
  - the nonlinear layers `G0` and `G1`;
  - the key-schedule mixer `A16x3`.
- `KeySchedule`, which expands the two-word master key into the round keys. It
  writes them in encryption order, or reversed for decryption.
- `Bitslice_Round`, which encrypts one block.
- `ECB_encrypt_Bitslice`, which encrypts a buffer block by block.
- From `SAND.h`:
  - the word type;
  - the constants;
  - the XOR-based `SWAP` macro.
- The decryption test of the driver (`main.c`): encrypt under the NIST example
  key, decrypt with the reversed schedule, and compare.

Modules:

- `SandH`: `u64` (`bv64`), the C `int` and `size_t` types, the constants, and
  `SWAP` both on two values and in place on an array.
- `Bits`: the word functions. Each comes with an inverse or an independent
  reference (S-box tables, byte maps) and a lemma connecting the two.
  `A16x3` is a method with its loop.
- `Keys`: the round-key recurrence as a function, and `KeySchedule` as a method
  on arrays. The method is proved to leave exactly the specified schedule in
  `RoundKey`.
- `Feistel`: the generic Feistel structure of the round loop, and its
  decryption law.
- `Cipher`: the round function, the block transform, `Bitslice_Round` as a
  method on arrays, and the block round trip.
- `Ecb`: ECB over a word sequence, its block independence, its round trip, and
  `ECB_encrypt_Bitslice` as a method on arrays.
- `Harness`: the decryption test, proved always to pass.

Buffers are modelled as `array<u64>`, since the cipher core treats every byte
buffer as a sequence of 64-bit words. A block is the pair (word 0, word 1).
`Bitslice_Round` loads x from word 1 and y from word 0. It stores x back to
word 0 and y to word 1.

## Model

| member | source | states |
|---|---|---|
| SandH.XorSwap | SAND.h:13 | the three XOR steps of SWAP on the values (a, b) leave (b, a) |
| SandH.Swap | SAND.h:13 | SWAP in place on a[i], a[j]: distinct positions are exchanged, the same position is zeroed, every other element is unchanged |
| SandH.BlockLayout | SAND.h:10-11 | a block of 16 bytes and a master key of 16 bytes are each two u64 words |
| Reversal.Reverse | SAND.c:24-27 | reversal keeps the length |
| Reversal.ReverseAt | SAND.c:25-26 | element k of the reversal is element n - 1 - k, the partner SWAP pairs with k |
| Reversal.ReverseReverse | SAND.c:24-27 | reversing twice gives back the keys |
| Bits.Rotl | SAND.c:3-5 | definition of ROTL for shifts 0 < shift < 64; its properties are in the row Bits.RotlUsedAmounts |
| Bits.RotlUsedAmounts | SAND.c:3-5 | for shifts 4, 24, 56 and 60, ROTL is the rotation of the word, and rotating by s and then 64 - s restores it |
| Bits.P | SAND.c:7-9 | definition of P; its properties are in the rows Bits.PEvenToOdd to Bits.PPreservesWeight |
| Bits.PEvenToOdd | SAND.c:7-9 | the odd byte lanes of P(x) are the even bytes of x rotated by 56 |
| Bits.POddToEven | SAND.c:7-9 | the even byte lanes of P(x) are the odd bytes of x rotated by 24 |
| Bits.PHalvesDisjoint | SAND.c:7-9 | the two rotated halves that P ORs together share no bit, so the OR is an XOR |
| Bits.PInvP | SAND.c:7-9 | the inverse permutation PInv undoes P |
| Bits.PPInv | SAND.c:7-9 | P undoes PInv, so P is a bijection on words |
| Bits.PMovesBytes | SAND.c:7-9 | output byte k of P is input byte [5, 2, 7, 4, 1, 6, 3, 0][k] |
| Bits.PPreservesWeight | SAND.c:7-9 | P keeps the number of set bits |
| Bits.G0 | SAND.c:30-34 | definition of G0 as its two XOR steps in source order; its properties are in the rows Bits.G0Touches to Bits.G0Lane |
| Bits.G0Touches | SAND.c:30-34 | G0 changes only bits 0 and 3 of each 4-bit lane |
| Bits.G0Step0Involution | SAND.c:31 | the first step of G0 is its own inverse |
| Bits.G0Step3Involution | SAND.c:32 | the second step of G0 is its own inverse |
| Bits.G0Inverse | SAND.c:30-34 | G0 is a bijection: G0Inv (the steps in reverse order) undoes it, both ways |
| Bits.G0LaneLocal | SAND.c:30-34 | each output lane of G0 depends only on the same input lane |
| Bits.G0IsSbox | SAND.c:30-34 | on one lane value, G0 equals the table [0,1,2,11,4,5,6,15,8,9,10,3,13,12,7,14] |
| Bits.G0Lane | SAND.c:30-34 | G0 applies that S-box to each of the sixteen lanes |
| Bits.G1 | SAND.c:36-40 | definition of G1 as its two XOR steps in source order; its properties are in the rows Bits.G1Touches to Bits.G1Lane |
| Bits.G1Touches | SAND.c:36-40 | G1 changes only bits 1 and 2 of each 4-bit lane |
| Bits.G1Step2Involution | SAND.c:37 | the first step of G1 is its own inverse |
| Bits.G1Step1Involution | SAND.c:38 | the second step of G1 is its own inverse |
| Bits.G1Inverse | SAND.c:36-40 | G1 is a bijection: G1Inv undoes it, both ways |
| Bits.G1LaneLocal | SAND.c:36-40 | each output lane of G1 depends only on the same input lane |
| Bits.G1IsSbox | SAND.c:36-40 | on one lane value, G1 equals the table [0,1,2,3,4,7,6,5,8,9,14,13,12,15,10,11] |
| Bits.G1Lane | SAND.c:36-40 | G1 applies that S-box to each of the sixteen lanes |
| Bits.A16Step | SAND.c:13-15 | definition of one pass of the A16x3 loop; its properties are in the rows Bits.A16StepTopByte and Bits.A16StepInverse |
| Bits.A16Iterate | SAND.c:12-16 | definition of n passes of the loop; A16x3 is three; its properties are in the rows Bits.A16x3Low48, Bits.A16IterateInverse and Bits.A16x3 |
| Bits.A16StepTopByte | SAND.c:13-15 | one iteration changes only the top byte of the word rotated by 60 |
| Bits.A16StepThriceLow48 | SAND.c:11-18 | after three iterations, bits 0..47 equal ROTL(x, 52) |
| Bits.A16x3Low48 | SAND.c:11-18 | A16x3(x) agrees with ROTL(x, 52) on bits 0..47 |
| Bits.A16StepInverse | SAND.c:13-15 | one iteration is undone by A16StepInv, which recovers the folded nibble |
| Bits.A16IterateInverse | SAND.c:11-18 | n iterations are undone by A16IterateInv, so A16x3 is injective |
| Bits.A16x3 | SAND.c:11-18 | the loop returns three iterations of rotate-by-60-and-fold |
| Keys.Counter | SAND.c:23 | definition of the counter: Counter(r) is r counted up from 0 in u64, and Counter(r + 1) is the (r + 1) XORed into key r + 2; the row Keys.ScheduleRecurrence states where it enters the schedule |
| Keys.Key | SAND.c:21-23 | definition of round key i in encryption order; its properties are in the rows Keys.ScheduleStart and Keys.ScheduleRecurrence |
| Keys.EncSchedule | SAND.c:21-23 | definition of the first n round keys in encryption order, key i being Keys.Key(k0, k1, i); the rows Keys.ScheduleStart and Keys.ScheduleRecurrence state what the keys are, and the row Keys.FillKeys states that the loop writes them |
| Keys.KeyCount | SAND.c:20-23 | definition of the number of key words KeySchedule writes, max(Round, 2); the row Keys.KeySchedule states that exactly these words are written and no later one |
| Keys.Arrange | SAND.c:24-27 | definition of the order KeySchedule leaves the keys in: reversed only when Dec == 1 and Round >= 2; its properties are in the rows Keys.ArrangeOrder and Keys.DecScheduleReversed |
| Keys.Schedule | SAND.c:20-27 | definition of the keys KeySchedule leaves for a master key and direction; its properties are in the rows Keys.ScheduleStart to Keys.KeySchedule |
| Keys.ScheduleStart | SAND.c:21 | the encryption-order schedule has max(Round, 2) keys, and keys 0 and 1 are the master words |
| Keys.ScheduleRecurrence | SAND.c:22-23 | for every r with r + 2 below the key count, key r + 2 of the schedule is A16x3 of key r + 1, xor key r, xor the counter r + 1 |
| Keys.ArrangeOrder | SAND.c:24-27 | with Dec == 1 and Round >= 2, key i is encryption key n - 1 - i; otherwise it is key i |
| Keys.DecScheduleReversed | SAND.c:24-27 | the decryption schedule is the encryption schedule reversed, and vice versa |
| Keys.ReverseKeys | SAND.c:24-27 | swapping key r with key n - 1 - r for r < n / 2 reverses the first n keys and changes nothing else |
| Keys.FillKeys | SAND.c:22-23 | the loop leaves every key i < max(Round, 2) equal to the recurrence and changes no later word |
| Keys.KeySchedule | SAND.c:20-28 | for every Round for which Round - 2 is an int, RoundKey's first max(Round, 2) words are the schedule of the master key, reversed when Dec == 1 and Round >= 2; the rest is unchanged; MasterKey and RoundKey may be the same array |
| Feistel.Mix | SAND.c:45 | definition of the round body y ^= F(x) ^ k, with x unchanged; its property is in the row Feistel.MixTwice |
| Feistel.Round | SAND.c:45-46 | definition of one pass of the round loop: mix, then exchange the halves; its property is in the row Feistel.RoundUndone |
| Feistel.Rounds | SAND.c:44-47 | definition of the round loop: one Round per key, in key order; its properties are in the rows Feistel.RoundsCons and Feistel.RoundsUndone |
| Feistel.Transform | SAND.c:42-49 | definition of the block transform: load x from word 1 and y from word 0, run one Feistel round per key, store x to word 0 and y to word 1; its properties are in the rows Feistel.TransformUndone and Feistel.TransformRedone |
| Feistel.MixTwice | SAND.c:45 | XORing F(x) ^ k into y twice cancels |
| Feistel.RoundUndone | SAND.c:45-46 | a round applied to its own swapped output gives back the swapped input |
| Feistel.RoundsCons | SAND.c:44-47 | the rounds for [k] + t are a round with k followed by the rounds for t |
| Feistel.RoundsUndone | SAND.c:44-47 | the rounds with the keys reversed, run on the swapped output, restore the swapped input |
| Feistel.TransformUndone | SAND.c:43-48 | the block transform with the keys reversed undoes the transform |
| Feistel.TransformRedone | SAND.c:43-48 | the block transform undoes the one with the keys reversed |
| Cipher.RoundF | SAND.c:45 | definition of the round function P(G0(x) ^ G1(ROTL(x, 4))) |
| Cipher.EncryptBlock | SAND.c:42-49 | definition: the block transform with RoundF; its properties are in the rows Cipher.BlockRoundTrip and Cipher.BitsliceRound |
| Cipher.BlockRoundTrip | SAND.c:42-49 | encrypting a block with the reversed keys inverts encryption, both ways |
| Cipher.RoundCount | SAND.c:44 | definition of the number of rounds the loop runs, max(Round, 0); the row Cipher.BitsliceRound states that the loop uses exactly these keys |
| Cipher.SandRoundTrip | SAND.c:20-49 | for any master key and Round >= 2, the transform under the Dec == 1 schedule undoes the one under the Dec == 0 schedule |
| Cipher.BitsliceRound | SAND.c:42-49 | the output block is the transform of the input block under the first Round keys; no other output word changes; input and output may be the same array |
| Ecb.EcbWords | SAND.c:51-56 | ECB output has the input's length |
| Ecb.EcbBlock | SAND.c:53-55 | output block i is the block function applied to input block i alone, with no chaining |
| Ecb.EcbAppend | SAND.c:51-56 | ECB of a concatenation is the concatenation of the ECB outputs |
| Ecb.EcbUndone | SAND.c:51-56 | if D undoes E on every block, ECB with D undoes ECB with E |
| Ecb.EcbRoundTrip | SAND.c:51-56 | ECB with the reversed keys undoes ECB with the keys |
| Ecb.EncryptBlockAt | SAND.c:54 | one loop iteration writes output block i as ECB specifies and no other word |
| Ecb.EcbEncryptBitslice | SAND.c:51-56 | the first 2 * (data_size / 16) words of CipherText are ECB of the same words of PlainText; the rest is unchanged; in-place use is allowed |
| Harness.EcbScheduleRoundTrip | main.c:90-95 | ECB under the decryption schedule undoes ECB under the encryption schedule of the same master key |
| Harness.ScheduleAndRun | main.c:65-74 | building the schedule for one direction and running ECB over the 2 MB buffer leaves that schedule in round_key and ECB of the buffer under that schedule in the output |
| Harness.RoundTripTest | main.c:62-98 | for any master key, the decrypted buffer equals the plaintext |
| Harness.DecryptionTest | main.c:57-101 | with the NIST example key, the decryption test always reports PASS |

## Left out

- Bits.RotlUsedAmounts: the rotation laws are stated only for the four amounts
  the cipher uses (4, 24, 56, 60), not for every shift. ROTL with shift 0 or 64
  shifts by the word width, which C leaves undefined; the model requires
  0 < shift < 64.
- Bits.PMovesBytes: states the byte map, and Bits.PPreservesWeight states that
  P keeps the bit count. Neither states outright that the multiset of bytes is
  kept.
- Reading data.bin, timing, printing, allocation failures and the hex dumps of
  `main.c` are I/O and are not modelled. The plaintext is a parameter of
  `Harness.DecryptionTest`. `gen_data.py` is not part of this model.
- The cast between byte buffers and `u64` words (host byte order) is not
  modelled. Buffers are arrays of words from the start.
- ECB_encrypt_Bitslice processes `data_size / 16` whole blocks. A trailing
  partial block is left untouched, and nothing checks or reports it.
- Ecb.EcbEncryptBitslice: the C function takes pointers, so input and output
  may overlap at different offsets, for example output = input + 2. Each block
  is then encrypted from the previous block's output, which chains the blocks.
  The model takes two arrays that are either distinct or the same array at the
  same offset, and does not capture overlap at a different offset.
- Cipher.BitsliceRound and Ecb.EcbEncryptBitslice require `RoundKey` to be a
  different array from `CipherText`. Writing the output over the round keys
  while they are still being read is not modelled.
- Keys.KeySchedule: the counter `r + 1` is a C `int` converted to `u64`. The
  model counts in `u64` from 0. The two agree for every round count an `int`
  can hold.
- Keys.KeySchedule and Keys.FillKeys require `Round - 2` to be an `int`
  (`Round >= -0x7FFF_FFFE`). For the two smallest `int` values the C
  subtraction overflows, which C leaves undefined. `Round - r - 1` only runs
  when `Round >= 2` and cannot overflow. `i * 2` in ECB_encrypt_Bitslice stays
  below `data_size / 8` and cannot overflow either.
