/** The word type, the cipher's fixed parameters and the XOR-swap macro of SAND.h. */
module SandH {

  /** An unsigned 64-bit word: every shift, XOR and constant on it is taken modulo 2^64. */
  type u64 = bv64

  /** A C `int`: the type of the round count and of the direction flag. */
  newtype i32 = x: int | -0x8000_0000 <= x < 0x8000_0000

  /** A C `size_t` on a 64-bit host: the type of a buffer length in bytes. */
  newtype usize = x: int | 0 <= x < 0x1_0000_0000_0000_0000

  /** Number of Feistel rounds of SAND-128. */
  const SAND128_ROUNDS: i32 := 54
  /** Bytes in one block. */
  const SAND128_BLOCK_SIZE: usize := 16
  /** Bytes in the master key. */
  const SAND128_KEY_SIZE: usize := 16

  /** Bytes in one u64 word. */
  const WORD_BYTES: nat := 8
  /** u64 words in one block (and in the master key): buffers are walked BLOCK_WORDS words at a time. */
  const BLOCK_WORDS: nat := 2

  /** A block and the master key are each two u64 words. */
  lemma BlockLayout()
    ensures SAND128_BLOCK_SIZE as int == BLOCK_WORDS * WORD_BYTES
    ensures SAND128_KEY_SIZE as int == BLOCK_WORDS * WORD_BYTES
  {
  }

  /** One block as it lies in memory: (word 0, word 1). */
  type Block = (u64, u64)

  /**
   * SWAP(x, y) applied to two distinct locations holding a and b. The three
   * XOR assignments x ^= y, y ^= x, x ^= y, written as one expression, leave
   * the pair (x, y) equal to (b, a).
   */
  function XorSwap(a: u64, b: u64): (r: (u64, u64))
    ensures r == (b, a)
  {
    ((a ^ b) ^ (b ^ (a ^ b)), b ^ (a ^ b))
  }

  /** One `^=` step of SWAP, as a function of the two values it reads. */
  function Xor(x: u64, y: u64): u64
  {
    x ^ y
  }

  /** The second step of SWAP recovers the first operand. */
  lemma XorCancelRight(u: u64, v: u64)
    ensures Xor(v, Xor(u, v)) == u
  {
  }

  /** The third step of SWAP recovers the second operand. */
  lemma XorCancelLeft(u: u64, v: u64)
    ensures Xor(Xor(u, v), u) == v
  {
  }

  /** A location XORed with itself becomes zero. */
  lemma XorSelf(u: u64)
    ensures Xor(u, u) == 0
  {
  }

  /**
   * SWAP(a[i], a[j]) performed in place, one `^=` at a time. Distinct positions
   * are exchanged; when i == j every step XORs the location with itself and it
   * ends up zero.
   */
  method Swap(a: array<u64>, i: int, j: int)
    requires 0 <= i < a.Length && 0 <= j < a.Length
    modifies a
    ensures i != j ==> a[i] == old(a[j]) && a[j] == old(a[i])
    ensures i == j ==> a[i] == 0
    ensures forall k :: 0 <= k < a.Length && k != i && k != j ==> a[k] == old(a[k])
  {
    XorCancelRight(a[i], a[j]);
    XorCancelLeft(a[i], a[j]);
    XorSelf(a[i]);
    XorSelf(0);
    a[i] := Xor(a[i], a[j]);
    a[j] := Xor(a[j], a[i]);
    a[i] := Xor(a[i], a[j]);
  }
}
