/** The rehearsal's noise (src/rehearse.rs): xorshift64* on 64-bit words. */
module Rolls {

  // the three moves of a step, and each one backwards
  function Right12(x: bv64): bv64 { x ^ (x >> 12) }
  function Left25(x: bv64): bv64 { x ^ (x << 25) }
  function Right27(x: bv64): bv64 { x ^ (x >> 27) }

  function UnRight12(y: bv64): bv64 { (y ^ (y >> 12)) ^ ((y >> 24) ^ (y >> 36)) ^ ((y >> 48) ^ (y >> 60)) }
  function UnLeft25(y: bv64): bv64 { y ^ (y << 25) ^ (y << 50) }
  function UnRight27(y: bv64): bv64 { y ^ (y >> 27) ^ (y >> 54) }

  /** One step of the state. */
  function Shuffle(x: bv64): bv64 { Right27(Left25(Right12(x))) }

  function Unshuffle(y: bv64): bv64 { UnRight12(UnLeft25(UnRight27(y))) }

  lemma Undo12(x: bv64)
    ensures UnRight12(Right12(x)) == x
  {
    assert UnRight12(x ^ (x >> 12)) == x;
  }

  lemma Undo25(x: bv64)
    ensures UnLeft25(Left25(x)) == x
  {
    assert UnLeft25(x ^ (x << 25)) == x;
  }

  lemma Undo27(x: bv64)
    ensures UnRight27(Right27(x)) == x
  {
    assert UnRight27(x ^ (x >> 27)) == x;
  }

  /** Each step can be undone, so no two states run into one another. */
  lemma ShuffleIsInvertible(x: bv64)
    ensures Unshuffle(Shuffle(x)) == x
  {
    Undo12(x);
    Undo25(Right12(x));
    Undo27(Left25(Right12(x)));
  }

  /** The all-zero state, which only leads to itself, is never reached. */
  lemma NeverZero(x: bv64)
    requires x != 0
    ensures Shuffle(x) != 0
  {
  }

  /** The state `n` draws on. */
  function Shuffled(x: bv64, n: nat): bv64 { if n == 0 then x else Shuffle(Shuffled(x, n - 1)) }

  lemma SixDraws(x: bv64)
    ensures Shuffled(x, 1) == Shuffle(x) && Shuffled(x, 2) == Shuffle(Shuffle(x))
    ensures Shuffled(x, 3) == Shuffle(Shuffled(x, 2)) && Shuffled(x, 4) == Shuffle(Shuffle(Shuffled(x, 2)))
    ensures Shuffled(x, 5) == Shuffle(Shuffled(x, 4)) && Shuffled(x, 6) == Shuffle(Shuffle(Shuffled(x, 4)))
  {
  }

  /** A multiplication that wraps around at 64 bits. */
  function Scramble(x: bv64): nat { (x as nat * 0x2545_F491_4F6C_DD1D) % 0x1_0000_0000_0000_0000 }

  /** What is drawn below `range` from this state. */
  function UptoOf(word: bv64, range: nat): (r: nat)
    ensures range > 0 ==> r < range
  {
    if range == 0 then 0 else Scramble(Shuffle(word)) % range
  }

  function DriftOf(word: bv64, span: nat): (r: int)
    ensures -(span as int) <= r <= span
  {
    UptoOf(word, span * 2 + 1) - span
  }

  class Roll {
    var word: bv64

    constructor (seed: bv64)
      ensures word == seed | 1 && word != 0
    {
      word := seed | 1;
    }

    method Next() returns (r: nat)
      modifies this
      ensures word == Shuffle(old(word)) && r == Scramble(Shuffle(old(word)))
      ensures old(word) != 0 ==> word != 0
    {
      if word != 0 {
        NeverZero(word);
      }
      var x := word;
      x := Right12(x);
      x := Left25(x);
      x := Right27(x);
      word := x;
      r := Scramble(x);
    }

    /** The scrambled next state, reduced below the range; nothing is drawn for
        an empty one. */
    method Upto(range: nat) returns (r: nat)
      modifies this
      ensures old(word) != 0 ==> word != 0
      ensures r == UptoOf(old(word), range) && word == if range == 0 then old(word) else Shuffle(old(word))
    {
      if range == 0 {
        return 0;
      }
      var next := Next();
      r := next % range;
    }

    /** At most the span away from zero, on either side. */
    method Drift(span: nat) returns (r: int)
      modifies this
      ensures old(word) != 0 ==> word != 0
      ensures r == DriftOf(old(word), span) && word == Shuffle(old(word))
    {
      var u := Upto(span * 2 + 1);
      r := u - span;
    }
  }
}
