/**
 * One SAND-128 block: the round function built from G0, G1 and P, the
 * block transform of Bitslice_Round, and its decryption property.
 */
module Cipher {
  import opened SandH
  import opened Bits
  import opened Reversal
  import Feistel
  import Keys

  /** The round function: P(G0(x) ^ G1(ROTL(x, 4))). */
  function RoundF(x: u64): u64
  {
    P(G0(x) ^ G1(Rotl(x, 4)))
  }

  /** The block transform of Bitslice_Round with round keys ks. */
  function EncryptBlock(ks: seq<u64>, b: Block): (c: Block)
  {
    Feistel.Transform(RoundF, ks, b)
  }

  /** Decryption: the transform with the keys reversed undoes the transform. */
  lemma BlockRoundTrip(ks: seq<u64>, b: Block)
    ensures EncryptBlock(Reverse(ks), EncryptBlock(ks, b)) == b
    ensures EncryptBlock(ks, EncryptBlock(Reverse(ks), b)) == b
  {
    Feistel.TransformUndone(RoundF, ks, b);
    Feistel.TransformRedone(RoundF, ks, b);
  }

  /** The rounds run: none when Round is not positive. */
  function RoundCount(Round: i32): (n: nat)
    ensures Round >= 0 ==> n == Round as int
    ensures Round < 0 ==> n == 0
  {
    if Round < 0 then 0 else Round as nat
  }

  /**
   * With the keys KeySchedule builds for decryption, the transform undoes
   * the one with the encryption keys of the same master key.
   */
  lemma SandRoundTrip(k0: u64, k1: u64, Round: i32, b: Block)
    requires Round >= 2
    ensures EncryptBlock(Keys.Schedule(k0, k1, Round, 1), EncryptBlock(Keys.Schedule(k0, k1, Round, 0), b)) == b
  {
    BlockRoundTrip(Keys.Schedule(k0, k1, Round, 0), b);
    Keys.DecScheduleReversed(Keys.EncSchedule(k0, k1, Keys.KeyCount(Round)), Round);
  }

  /**
   * Bitslice_Round: reads the block at PlainText[pt], runs Round rounds and
   * writes the block at CipherText[ct]. Both words are read before either
   * is written, so the two arrays may be the same.
   */
  method BitsliceRound(PlainText: array<u64>, pt: nat, CipherText: array<u64>, ct: nat, RoundKey: array<u64>, Round: i32)
    requires pt + 1 < PlainText.Length && ct + 1 < CipherText.Length
    requires RoundCount(Round) <= RoundKey.Length && RoundKey != CipherText
    modifies CipherText
    ensures (CipherText[ct], CipherText[ct + 1]) ==
              EncryptBlock(RoundKey[..RoundCount(Round)], (old(PlainText[pt]), old(PlainText[pt + 1])))
    ensures forall j {:trigger CipherText[j]} :: 0 <= j < CipherText.Length && j != ct && j != ct + 1 ==> CipherText[j] == old(CipherText[j])
  {
    var x, y := PlainText[pt + 1], PlainText[pt];
    ghost var s0 := (x, y);
    var r := 0;
    while r < Round as int
      invariant 0 <= r <= RoundCount(Round)
      invariant (x, y) == Feistel.Rounds(RoundF, RoundKey[..r], s0)
    {
      assert RoundKey[..r + 1][..r] == RoundKey[..r];
      // mix y with RoundF of x and round key r, then exchange the halves
      var mixed := Feistel.Mix(RoundF, RoundKey[r], (x, y));
      x, y := mixed.0, mixed.1;
      var swapped := XorSwap(x, y);
      x, y := swapped.0, swapped.1;
      r := r + 1;
    }
    CipherText[ct + 1] := y;
    CipherText[ct] := x;
  }
}
