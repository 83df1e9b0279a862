/**
 * The Feistel structure of Bitslice_Round, with the round function F left
 * abstract. A round updates the state (x, y) by y ^= F(x) ^ k and then swaps
 * the halves. Running the same rounds with the keys in reverse order on the
 * swapped output undoes them, whatever F is: F need not be invertible.
 */
module Feistel {
  import opened SandH
  import opened Reversal

  /** The first half of a round on the state (x, y): y ^= F(x) ^ k. */
  function Mix(F: u64 -> u64, k: u64, s: (u64, u64)): (r: (u64, u64))
  {
    (s.0, s.1 ^ (F(s.0) ^ k))
  }

  /** One round: Mix, then the halves swap. */
  function Round(F: u64 -> u64, k: u64, s: (u64, u64)): (r: (u64, u64))
  {
    Swapped(Mix(F, k, s))
  }

  /** The rounds for keys ks, in order, starting from state s. */
  function Rounds(F: u64 -> u64, ks: seq<u64>, s: (u64, u64)): (r: (u64, u64))
    decreases |ks|
  {
    if |ks| == 0 then s else Round(F, ks[|ks| - 1], Rounds(F, ks[..|ks| - 1], s))
  }

  /** The state with its halves exchanged. */
  function Swapped(s: (u64, u64)): (r: (u64, u64))
  {
    (s.1, s.0)
  }

  /** Mixing twice with the same key cancels: x is left alone, so F(x) is the same both times. */
  lemma MixTwice(F: u64 -> u64, k: u64, s: (u64, u64))
    ensures Mix(F, k, Mix(F, k, s)) == s
  {
  }

  /** A round applied to its own swapped output gives back the swapped input. */
  lemma RoundUndone(F: u64 -> u64, k: u64, s: (u64, u64))
    ensures Round(F, k, Swapped(Round(F, k, s))) == Swapped(s)
  {
    MixTwice(F, k, s);
    assert Swapped(Swapped(Mix(F, k, s))) == Mix(F, k, s);
  }

  /** Running the key sequence [k] + t is one round with k followed by the rounds of t. */
  lemma {:induction false} RoundsCons(F: u64 -> u64, k: u64, t: seq<u64>, s: (u64, u64))
    ensures Rounds(F, [k] + t, s) == Rounds(F, t, Round(F, k, s))
    decreases |t|
  {
    if |t| == 0 {
      assert ([k] + t)[..0] == [];
    } else {
      assert ([k] + t)[..|t|] == [k] + t[..|t| - 1];
      RoundsCons(F, k, t[..|t| - 1], s);
    }
  }

  /**
   * The Feistel inverse law: the rounds with the reversed keys, run on the
   * swapped output, give back the swapped input.
   */
  lemma {:induction false} RoundsUndone(F: u64 -> u64, ks: seq<u64>, s: (u64, u64))
    ensures Rounds(F, Reverse(ks), Swapped(Rounds(F, ks, s))) == Swapped(s)
    decreases |ks|
  {
    if |ks| > 0 {
      var init, k := ks[..|ks| - 1], ks[|ks| - 1];
      assert ks == init + [k];
      ReverseSnoc(init, k);
      var m := Rounds(F, init, s);
      RoundsCons(F, k, Reverse(init), Swapped(Round(F, k, m)));
      RoundUndone(F, k, m);
      RoundsUndone(F, init, s);
    }
  }

  /** The state a block starts in: x is word 1 and y is word 0. */
  function Load(b: Block): (s: (u64, u64))
  {
    Swapped(b)
  }

  /**
   * The block transform: load, run the rounds for ks, and write the final
   * (x, y) back as word 0 = x and word 1 = y, that is, as it stands.
   */
  function Transform(F: u64 -> u64, ks: seq<u64>, b: Block): (c: Block)
  {
    Rounds(F, ks, Load(b))
  }

  /** The transform with the reversed keys decrypts: it undoes the transform with ks. */
  lemma TransformUndone(F: u64 -> u64, ks: seq<u64>, b: Block)
    ensures Transform(F, Reverse(ks), Transform(F, ks, b)) == b
  {
    RoundsUndone(F, ks, Load(b));
  }

  /** And the other way round: the transform with ks undoes the one with the reversed keys. */
  lemma TransformRedone(F: u64 -> u64, ks: seq<u64>, b: Block)
    ensures Transform(F, ks, Transform(F, Reverse(ks), b)) == b
  {
    TransformUndone(F, Reverse(ks), b);
    ReverseReverse(ks);
  }
}
