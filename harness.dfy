/**
 * The decryption test of the benchmark driver: a 2 MB buffer is encrypted
 * under the NIST example key, decrypted with the reversed schedule, and the
 * result compared with the original.
 */
module Harness {
  import opened SandH
  import opened Reversal
  import Keys
  import opened Cipher
  import opened Ecb

  /** Size of the test buffer in bytes (2 MB). */
  const DATA_SIZE: usize := 2 * 1024 * 1024

  /** Word 0 of the NIST example master key. */
  const MASTER_KEY_0: u64 := 0xa6d2_ae28_1615_7e2b
  /** Word 1 of the NIST example master key. */
  const MASTER_KEY_1: u64 := 0x3c4f_cf09_8815_f7ab

  /**
   * Under the schedules KeySchedule builds from one master key for
   * encryption and for decryption, ECB decryption undoes ECB encryption of
   * any whole number of blocks.
   */
  lemma EcbScheduleRoundTrip(k0: u64, k1: u64, Round: i32, w: seq<u64>)
    requires Round >= 2 && |w| % 2 == 0
    ensures EcbWords(Encryptor(Keys.Schedule(k0, k1, Round, 1)), EcbWords(Encryptor(Keys.Schedule(k0, k1, Round, 0)), w)) == w
  {
    var e := Keys.EncSchedule(k0, k1, Keys.KeyCount(Round));
    Keys.DecScheduleReversed(e, Round);
    EcbRoundTrip(Keys.Arrange(e, Round, 0), w);
  }

  /**
   * One half of the test: build the schedule for direction Dec from the
   * master key (k0, k1), then run ECB over the whole buffer, whose words
   * are w.
   */
  method ScheduleAndRun(input: array<u64>, output: array<u64>, round_key: array<u64>, master_key: array<u64>, Dec: i32,
                        ghost k0: u64, ghost k1: u64, ghost w: seq<u64>)
    requires input.Length == output.Length == 2 * (DATA_SIZE as int / SAND128_BLOCK_SIZE as int)
    requires round_key.Length == SAND128_ROUNDS as int && master_key.Length == 2
    requires round_key != output && round_key != input
    requires master_key[0] == k0 && master_key[1] == k1 && input[..] == w
    modifies round_key, output
    ensures round_key[..] == Keys.Schedule(k0, k1, SAND128_ROUNDS, Dec)
    ensures output[..] == EcbWords(Encryptor(Keys.Schedule(k0, k1, SAND128_ROUNDS, Dec)), w)
  {
    assert Keys.KeyCount(SAND128_ROUNDS) == RoundCount(SAND128_ROUNDS) == SAND128_ROUNDS as int;
    Keys.KeySchedule(master_key, round_key, SAND128_ROUNDS, Dec);
    assert round_key[..] == round_key[..Keys.KeyCount(SAND128_ROUNDS)];
    ghost var keys := round_key[..];
    assert w == input[..input.Length];
    EcbEncryptBitslice(input, output, round_key, SAND128_ROUNDS, DATA_SIZE);
    assert output[..] == output[..output.Length];
    assert round_key[..] == keys;
  }

  /**
   * The body of the decryption test for a given master key: encrypt the
   * plaintext, rebuild the schedule for decryption, decrypt into a fresh
   * buffer and compare with the plaintext.
   */
  method RoundTripTest(plaintext: array<u64>, master_key: array<u64>) returns (pass: bool)
    requires plaintext.Length == 2 * (DATA_SIZE as int / SAND128_BLOCK_SIZE as int)
    requires master_key.Length == 2
    ensures pass
  {
    var ciphertext := new u64[plaintext.Length];
    var decrypted := new u64[plaintext.Length];
    var round_key := new u64[SAND128_ROUNDS as int];
    ghost var k0, k1, words := master_key[0], master_key[1], plaintext[..];
    ghost var cipher := EcbWords(Encryptor(Keys.Schedule(k0, k1, SAND128_ROUNDS, 0)), words);
    ScheduleAndRun(plaintext, ciphertext, round_key, master_key, 0, k0, k1, words);
    ScheduleAndRun(ciphertext, decrypted, round_key, master_key, 1, k0, k1, cipher);
    EcbScheduleRoundTrip(k0, k1, SAND128_ROUNDS, words);
    pass := decrypted[..] == plaintext[..];
  }

  /**
   * main's decryption test: the 2 MB buffer read from data.bin is encrypted
   * and decrypted under the NIST example key; the comparison always succeeds.
   */
  method DecryptionTest(plaintext: array<u64>) returns (pass: bool)
    requires plaintext.Length == DATA_SIZE as int / WORD_BYTES
    ensures pass
  {
    var master_key := new u64[2];
    master_key[0], master_key[1] := MASTER_KEY_0, MASTER_KEY_1;
    pass := RoundTripTest(plaintext, master_key);
  }
}
