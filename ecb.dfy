/**
 * ECB_encrypt_Bitslice: every whole 16-byte block of the input goes
 * through the block transform on its own, with the same round keys.
 */
module Ecb {
  import opened SandH
  import opened Reversal
  import opened Cipher

  /** Block i of a word sequence: words 2i and 2i + 1. */
  function BlockAt<T>(w: seq<T>, i: nat): (T, T)
    requires 2 * i + 1 < |w|
  {
    (w[2 * i], w[2 * i + 1])
  }

  /** The whole blocks of w, in order, each through the block function E. */
  function EcbWords<T>(E: ((T, T)) -> (T, T), w: seq<T>): (c: seq<T>)
    requires |w| % 2 == 0
    ensures |c| == |w|
    decreases |w|
  {
    if |w| == 0 then []
    else EcbWords(E, w[..|w| - 2]) + [E((w[|w| - 2], w[|w| - 1])).0, E((w[|w| - 2], w[|w| - 1])).1]
  }

  /**
   * Output block i is E of input block i and of nothing else: ECB has no
   * chaining between blocks.
   */
  lemma {:induction false} EcbBlock<T>(E: ((T, T)) -> (T, T), w: seq<T>, i: nat)
    requires |w| % 2 == 0 && 2 * i + 1 < |w|
    ensures BlockAt(EcbWords(E, w), i) == E(BlockAt(w, i))
    decreases |w|
  {
    var init := w[..|w| - 2];
    if 2 * i + 1 < |init| {
      EcbBlock(E, init, i);
      assert EcbWords(E, w)[..|w| - 2] == EcbWords(E, init);
    }
  }

  /** The output for u + v is the output for u followed by the one for v. */
  lemma {:induction false} EcbAppend<T>(E: ((T, T)) -> (T, T), u: seq<T>, v: seq<T>)
    requires |u| % 2 == 0 && |v| % 2 == 0
    ensures EcbWords(E, u + v) == EcbWords(E, u) + EcbWords(E, v)
    decreases |v|
  {
    if |v| > 0 {
      var v' := v[..|v| - 2];
      assert (u + v)[..|u + v| - 2] == u + v';
      EcbAppend(E, u, v');
    } else {
      assert u + v == u;
    }
  }

  /** If D undoes E on every block, ECB with D undoes ECB with E. */
  lemma {:induction false} EcbUndone<T>(E: ((T, T)) -> (T, T), D: ((T, T)) -> (T, T), w: seq<T>)
    requires |w| % 2 == 0
    requires forall b :: D(E(b)) == b
    ensures EcbWords(D, EcbWords(E, w)) == w
    decreases |w|
  {
    if |w| > 0 {
      var init, b := w[..|w| - 2], (w[|w| - 2], w[|w| - 1]);
      var c := EcbWords(E, w);
      assert c[..|c| - 2] == EcbWords(E, init);
      assert (c[|c| - 2], c[|c| - 1]) == E(b);
      EcbUndone(E, D, init);
      assert w == init + [b.0, b.1];
    }
  }

  /** The SAND-128 block transform with round keys ks, as a block function. */
  function Encryptor(ks: seq<u64>): Block -> Block
  {
    b => EncryptBlock(ks, b)
  }

  /** Decrypting with the reversed keys gives back the input, block for block. */
  lemma EcbRoundTrip(ks: seq<u64>, w: seq<u64>)
    requires |w| % 2 == 0
    ensures EcbWords(Encryptor(Reverse(ks)), EcbWords(Encryptor(ks), w)) == w
  {
    forall b: Block
      ensures Encryptor(Reverse(ks))(Encryptor(ks)(b)) == b
    {
      BlockRoundTrip(ks, b);
    }
    EcbUndone(Encryptor(ks), Encryptor(Reverse(ks)), w);
  }

  /**
   * One iteration of the ECB loop: block i of the input is encrypted into
   * block i of the output buffer and no other output word changes.
   */
  method EncryptBlockAt(PlainText: array<u64>, CipherText: array<u64>, RoundKey: array<u64>, Round: i32,
                        i: nat, ghost ks: seq<u64>, ghost input: seq<u64>, ghost output: seq<u64>)
    requires 2 * i + 1 < |input| && |input| % 2 == 0 && 2 * i + 1 < PlainText.Length && 2 * i + 1 < CipherText.Length
    requires RoundCount(Round) <= RoundKey.Length && RoundKey != CipherText && ks == RoundKey[..RoundCount(Round)]
    requires PlainText[2 * i] == input[2 * i] && PlainText[2 * i + 1] == input[2 * i + 1]
    requires output == EcbWords(Encryptor(ks), input)
    modifies CipherText
    ensures CipherText[2 * i] == output[2 * i] && CipherText[2 * i + 1] == output[2 * i + 1]
    ensures forall j {:trigger CipherText[j]} :: 0 <= j < CipherText.Length && j != 2 * i && j != 2 * i + 1 ==> CipherText[j] == old(CipherText[j])
  {
    EcbBlock(Encryptor(ks), input, i);
    BitsliceRound(PlainText, 2 * i, CipherText, 2 * i, RoundKey, Round);
  }

  /**
   * ECB_encrypt_Bitslice: data_size / 16 blocks are encrypted from
   * PlainText into CipherText; a trailing part block is not touched. The
   * two arrays may be the same (encryption in place).
   */
  method EcbEncryptBitslice(PlainText: array<u64>, CipherText: array<u64>, RoundKey: array<u64>, Round: i32, data_size: usize)
    requires BLOCK_WORDS * (data_size as int / SAND128_BLOCK_SIZE as int) <= PlainText.Length
    requires BLOCK_WORDS * (data_size as int / SAND128_BLOCK_SIZE as int) <= CipherText.Length
    requires RoundCount(Round) <= RoundKey.Length && RoundKey != CipherText
    modifies CipherText
    ensures var n := BLOCK_WORDS * (data_size as int / SAND128_BLOCK_SIZE as int);
            CipherText[..n] == EcbWords(Encryptor(RoundKey[..RoundCount(Round)]), old(PlainText[..n])) &&
            CipherText[n..] == old(CipherText[n..])
  {
    var blocks := data_size / SAND128_BLOCK_SIZE;
    ghost var ks := RoundKey[..RoundCount(Round)];
    ghost var n := BLOCK_WORDS * blocks as int;
    ghost var input := PlainText[..n];
    ghost var output := EcbWords(Encryptor(ks), input);
    var i := 0;
    while i < blocks as int
      invariant 0 <= i <= blocks as int
      invariant ks == RoundKey[..RoundCount(Round)]
      invariant forall j {:trigger CipherText[j]} :: 0 <= j < 2 * i ==> CipherText[j] == output[j]
      invariant forall j {:trigger CipherText[j]} :: 2 * i <= j < CipherText.Length ==> CipherText[j] == old(CipherText[j])
      invariant forall j {:trigger PlainText[j]} :: 2 * i <= j < n ==> PlainText[j] == input[j]
    {
      EncryptBlockAt(PlainText, CipherText, RoundKey, Round, i, ks, input, output);
      i := i + 1;
    }
    assert CipherText[..n] == output;
    assert input == old(PlainText[..n]);
  }
}
