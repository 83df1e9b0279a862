/**
 * KeySchedule: the round keys of SAND-128 from a 128-bit master key, in
 * encryption order, or in reverse order for decryption.
 */
module Keys {
  import opened SandH
  import opened Bits
  import opened Reversal

  /**
   * The counter r as a u64: C converts the int r to u64, which for the
   * counts KeySchedule uses is r itself; counting up in u64 gives the same
   * word without leaving 64-bit arithmetic.
   */
  function Counter(r: nat): u64
  {
    if r == 0 then 0 else Counter(r - 1) + 1
  }

  /** The next counter is one more, wrapping at 2^64. */
  lemma CounterNext(r: nat)
    ensures Counter(r + 1) == Counter(r) + 1
  {
  }

  /** Key word r + 2 from a = A16x3(key word r + 1), b = key word r and c = the counter r + 1. */
  function KeyWord(a: u64, b: u64, c: u64): u64
  {
    a ^ b ^ c
  }

  /** Round key i in encryption order: the two master words, then the recurrence. */
  function Key(k0: u64, k1: u64, i: nat): u64
  {
    if i == 0 then k0
    else if i == 1 then k1
    else KeyWord(A16Iterate(Key(k0, k1, i - 1), 3), Key(k0, k1, i - 2), Counter(i - 1))
  }

  /** The step KeySchedule takes: keys r + 1 and r and counter r + 1 give key r + 2. */
  lemma KeyStep(k0: u64, k1: u64, r: nat, x: u64, y: u64, c: u64)
    requires x == Key(k0, k1, r + 1) && y == Key(k0, k1, r) && c == Counter(r + 1)
    ensures KeyWord(A16Iterate(x, 3), y, c) == Key(k0, k1, r + 2)
  {
  }

  /** The first n round keys in encryption order. */
  function EncSchedule(k0: u64, k1: u64, n: nat): (s: seq<u64>)
    ensures |s| == n
    ensures forall i {:trigger s[i]} :: 0 <= i < n ==> s[i] == Key(k0, k1, i)
  {
    seq(n, i requires 0 <= i => Key(k0, k1, i))
  }

  /** The number of key words KeySchedule writes: two even when fewer rounds are asked for. */
  function KeyCount(Round: i32): (n: nat)
    ensures n >= 2 && n >= Round as int
    ensures Round >= 2 ==> n == Round as int
  {
    if Round < 2 then 2 else Round as nat
  }

  /**
   * The key words KeySchedule leaves in RoundKey, given the encryption
   * order keys e. Only Dec == 1 reverses, and only when there are at least
   * two rounds.
   */
  function Arrange(e: seq<u64>, Round: i32, Dec: i32): (s: seq<u64>)
  {
    if Dec == 1 && Round >= 2 then Reverse(e) else e
  }

  /** The schedule KeySchedule computes for master key (k0, k1). */
  function Schedule(k0: u64, k1: u64, Round: i32, Dec: i32): (s: seq<u64>)
  {
    Arrange(EncSchedule(k0, k1, KeyCount(Round)), Round, Dec)
  }

  /** The encryption-order schedule starts with the two master words. */
  lemma ScheduleStart(k0: u64, k1: u64, Round: i32)
    ensures var s := Schedule(k0, k1, Round, 0);
            |s| == KeyCount(Round) && s[0] == k0 && s[1] == k1
  {
  }

  /**
   * Every later key of the encryption-order schedule follows the
   * recurrence: key r + 2 is A16x3 of key r + 1, xor key r, xor the counter
   * r + 1.
   */
  lemma ScheduleRecurrence(k0: u64, k1: u64, Round: i32, r: nat)
    requires r + 2 < KeyCount(Round)
    ensures var s := Schedule(k0, k1, Round, 0);
            s[r + 2] == KeyWord(A16Iterate(s[r + 1], 3), s[r], Counter(r + 1))
  {
    var s := Schedule(k0, k1, Round, 0);
    assert s == EncSchedule(k0, k1, KeyCount(Round));
    KeyStep(k0, k1, r, s[r + 1], s[r], Counter(r + 1));
  }

  /**
   * Key i of the arranged schedule: the i-th key in encryption order, or
   * with Dec == 1 the i-th from the end.
   */
  lemma ArrangeOrder(e: seq<u64>, Round: i32, Dec: i32, i: nat)
    requires i < |e|
    ensures |Arrange(e, Round, Dec)| == |e|
    ensures Dec == 1 && Round >= 2 ==> Arrange(e, Round, Dec)[i] == e[|e| - 1 - i]
    ensures Dec != 1 || Round < 2 ==> Arrange(e, Round, Dec)[i] == e[i]
  {
    if Dec == 1 && Round >= 2 {
      ReverseAt(e, i);
    }
  }

  /** The decryption keys are the encryption keys in reverse order, and reversed back they are the encryption keys. */
  lemma DecScheduleReversed(e: seq<u64>, Round: i32)
    requires Round >= 2
    ensures Arrange(e, Round, 1) == Reverse(Arrange(e, Round, 0))
    ensures Reverse(Arrange(e, Round, 1)) == Arrange(e, Round, 0)
  {
    ReverseReverse(e);
  }

  /**
   * The Dec == 1 branch of KeySchedule: SWAP exchanges key r with key
   * n - 1 - r for every r < n / 2, which reverses the first n keys. The two
   * positions always differ, so SWAP never zeroes a key.
   */
  method ReverseKeys(RoundKey: array<u64>, n: nat)
    requires n <= RoundKey.Length
    modifies RoundKey
    ensures RoundKey[..n] == Reverse(old(RoundKey[..n]))
    ensures RoundKey[n..] == old(RoundKey[n..])
  {
    ghost var e := RoundKey[..n];
    var r := 0;
    while r < n / 2
      invariant 0 <= r <= n / 2
      invariant forall k :: 0 <= k < r ==> RoundKey[k] == e[n - 1 - k] && RoundKey[n - 1 - k] == e[k]
      invariant forall k :: r <= k < n - r ==> RoundKey[k] == e[k]
      invariant forall j {:trigger RoundKey[j]} :: n <= j < RoundKey.Length ==> RoundKey[j] == old(RoundKey[j])
    {
      Swap(RoundKey, r, n - r - 1);
      r := r + 1;
    }
    forall i | 0 <= i < n
      ensures RoundKey[i] == Reverse(e)[i]
    {
      ReverseAt(e, i);
    }
  }

  /**
   * The first loop of KeySchedule: with keys 0 and 1 in place, each pass
   * writes key r + 2 from keys r + 1 and r, for r < Round - 2.
   */
  method FillKeys(RoundKey: array<u64>, Round: i32, ghost k0: u64, ghost k1: u64)
    requires Round as int - 2 >= -0x8000_0000
    requires RoundKey.Length >= KeyCount(Round) && RoundKey[0] == k0 && RoundKey[1] == k1
    modifies RoundKey
    ensures forall i {:trigger RoundKey[i]} :: 0 <= i < KeyCount(Round) ==> RoundKey[i] == Key(k0, k1, i)
    ensures RoundKey[KeyCount(Round)..] == old(RoundKey[KeyCount(Round)..])
  {
    ghost var n := KeyCount(Round);
    var r := 0;
    var c: u64 := 1;
    while r < Round as int - 2
      invariant 0 <= r <= n - 2
      invariant c == Counter(r + 1)
      invariant forall i {:trigger RoundKey[i]} :: 0 <= i < r + 2 ==> RoundKey[i] == Key(k0, k1, i)
      invariant forall j {:trigger RoundKey[j]} :: r + 2 <= j < RoundKey.Length ==> RoundKey[j] == old(RoundKey[j])
    {
      KeyStep(k0, k1, r, RoundKey[r + 1], RoundKey[r], c);
      var a := A16x3(RoundKey[r + 1]);
      RoundKey[r + 2] := KeyWord(a, RoundKey[r], c);
      CounterNext(r + 1);
      c := c + 1;
      r := r + 1;
    }
  }

  /**
   * KeySchedule: copies the master key into keys 0 and 1, fills the
   * schedule and, when Dec == 1, reverses it in place.
   */
  method KeySchedule(MasterKey: array<u64>, RoundKey: array<u64>, Round: i32, Dec: i32)
    requires Round as int - 2 >= -0x8000_0000
    requires MasterKey.Length >= SAND128_KEY_SIZE as int / WORD_BYTES && RoundKey.Length >= KeyCount(Round)
    modifies RoundKey
    ensures RoundKey[..KeyCount(Round)] == Arrange(EncSchedule(old(MasterKey[0]), old(MasterKey[1]), KeyCount(Round)), Round, Dec)
    ensures RoundKey[KeyCount(Round)..] == old(RoundKey[KeyCount(Round)..])
  {
    ghost var k0, k1 := MasterKey[0], MasterKey[1];
    RoundKey[1] := MasterKey[1];
    RoundKey[0] := MasterKey[0];
    FillKeys(RoundKey, Round, k0, k1);
    assert RoundKey[..KeyCount(Round)] == EncSchedule(k0, k1, KeyCount(Round));
    if Dec == 1 && Round >= 2 {
      ReverseKeys(RoundKey, Round as int);
    }
  }
}
