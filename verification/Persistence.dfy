/**
 The p-persistence of src/platform/runtime.c: a generator that loses no state, and a
 draw that lets exactly persistence + 1 of 256 values go.
 */
module Persistence {
  import opened Octets
  import opened Runtime

  type Word = bv32

  // ---------------------------------------------------------------- the generator

  /** Addition over GF(2). */
  function Plus(a: Word, b: Word): Word {
    a ^ b
  }

  function By5(x: Word): Word {
    x << 5
  }

  function By10(x: Word): Word {
    x << 10
  }

  function By20(x: Word): Word {
    x << 20
  }

  function Left10(x: Word): Word {
    Plus(x, By10(x))
  }

  function Left20(x: Word): Word {
    Plus(x, By20(x))
  }

  function Unleft5(y: Word): Word {
    Left20(Left10(Left5(y)))
  }

  function By13(x: Word): Word {
    x << 13
  }

  function By26(x: Word): Word {
    x << 26
  }

  function Unleft13(a: Word): Word {
    Plus(Left13(a), By26(Left13(a)))
  }

  function By17(x: Word): Word {
    x >> 17
  }

  /** The state before, from the one after. */
  function Previous(y: Word): Word {
    Unleft13(Right17(Unleft5(y)))
  }

  lemma Adds5(a: Word, b: Word)
    ensures By5(Plus(a, b)) == Plus(By5(a), By5(b))
  {}

  lemma Adds10(a: Word, b: Word)
    ensures By10(Plus(a, b)) == Plus(By10(a), By10(b))
  {}

  lemma Adds20(a: Word, b: Word)
    ensures By20(Plus(a, b)) == Plus(By20(a), By20(b))
  {}

  lemma Adds13(a: Word, b: Word)
    ensures By13(Plus(a, b)) == Plus(By13(a), By13(b))
  {}

  lemma Adds26(a: Word, b: Word)
    ensures By26(Plus(a, b)) == Plus(By26(a), By26(b))
  {}

  lemma ShiftsCompose(x: Word)
    ensures By5(By5(x)) == By10(x) && By10(By10(x)) == By20(x) && By20(By20(x)) == 0
    ensures By13(By13(x)) == By26(x) && By26(By26(x)) == 0
  {}

  lemma Cancels(x: Word, a: Word, b: Word)
    ensures Plus(Plus(x, a), Plus(a, b)) == Plus(x, b) && Plus(x, 0) == x
  {}

  lemma Left5Is(x: Word)
    ensures Left5(x) == Plus(x, By5(x))
  {}

  lemma Left13Is(x: Word)
    ensures Left13(x) == Plus(x, By13(x))
  {}

  /** Two shifted sums in a row are one with twice the distance. */
  lemma TwiceLeft(x: Word)
    ensures Left5(Left5(x)) == Left10(x) && Left10(Left10(x)) == Left20(x) && Left20(Left20(x)) == x
    ensures Left13(Left13(x)) == Plus(x, By26(x)) && Plus(Plus(x, By26(x)), By26(Plus(x, By26(x)))) == x
  {
    Left5Is(x);
    Left5Is(Left5(x));
    Left13Is(x);
    Left13Is(Left13(x));
    Adds5(x, By5(x));
    Adds10(x, By10(x));
    Adds20(x, By20(x));
    Adds13(x, By13(x));
    Adds26(x, By26(x));
    ShiftsCompose(x);
    Cancels(x, By5(x), By10(x));
    Cancels(x, By10(x), By20(x));
    Cancels(x, By20(x), 0);
    Cancels(x, By13(x), By26(x));
    Cancels(x, By26(x), 0);
    hide Plus, By5, By10, By20, By13, By26, Left5, Left13;
  }

  lemma Undo5(x: Word)
    ensures Unleft5(Left5(x)) == x
  {
    hide Left5, Left10, Left20;
    TwiceLeft(x);
  }

  lemma Undo13(x: Word)
    ensures Unleft13(Left13(x)) == x
  {
    hide Left13, Plus, By26;
    TwiceLeft(x);
  }

  lemma Undo17(x: Word)
    ensures Right17(Right17(x)) == x
  {
    Right17Is(x);
    Right17Is(Right17(x));
    Adds17(x, By17(x));
    Cancels(x, By17(x), 0);
    hide Right17, By17, Plus;
  }

  lemma Right17Is(x: Word)
    ensures Right17(x) == Plus(x, By17(x))
  {
    var right := x >> 17;
    assert By17(x) == right;
    hide By17;
  }

  lemma Adds17(a: Word, b: Word)
    ensures By17(Plus(a, b)) == Plus(By17(a), By17(b)) && By17(By17(a)) == 0
  {}

  /** No two states have the same successor: the generator runs in cycles. */
  lemma PreviousOfNext(x: Word)
    ensures Previous(NextRandom(x)) == x
  {
    hide Left13, Right17, Left5, Unleft13, Unleft5;
    Undo5(Right17(Left13(x)));
    Undo17(Left13(x));
    Undo13(x);
  }

  /** So it never falls into the fixed point zero. */
  lemma NeverZero(x: Word)
    ensures NextRandom(x) == 0 <==> x == 0
  {
    PreviousOfNext(x);
    assert NextRandom(0) == 0 && Previous(0) == 0;
    hide NextRandom, Previous;
  }

  // ---------------------------------------------------------------- the draw

  /** A state with the given low byte. */
  function WithLow(high: Word, low: bv8): Word {
    (high & 0xffffff00) | (low as Word)
  }

  lemma LowIsDrawn(high: Word, low: nat)
    requires low < 256
    ensures Draw(WithLow(high, low as bv8)) == low
  {
    LowByte(high, low as bv8);
    OctetValue(low);
    SameValue(low as bv8);
  }

  lemma LowByte(high: Word, low: bv8)
    ensures WithLow(high, low) & 0xff == low as Word
  {}

  lemma SameValue(low: bv8)
    ensures (low as Word) as nat == low as nat
  {}

  /** The low bytes up to n that let the station go. */
  function Going(high: Word, persistence: nat, n: nat): (s: set<nat>)
    requires n <= 256
    ensures forall low | low in s :: low < n
  {
    if n == 0 then {}
    else if Draw(WithLow(high, (n - 1) as bv8)) <= persistence then Going(high, persistence, n - 1) + {n - 1}
    else Going(high, persistence, n - 1)
  }

  lemma {:induction false} GoingCount(high: Word, persistence: nat, n: nat)
    requires n <= 256 && persistence < 256
    ensures |Going(high, persistence, n)| == if n <= persistence then n else persistence + 1
  {
    hide Draw, WithLow;
    if n > 0 {
      GoingCount(high, persistence, n - 1);
      LowIsDrawn(high, n - 1);
    }
  }

  /** Whatever the rest of the state, the chance to go is (persistence + 1) / 256. */
  lemma ChanceToGo(high: Word, persistence: nat)
    requires persistence < 256
    ensures |Going(high, persistence, 256)| == persistence + 1
  {
    GoingCount(high, persistence, 256);
  }
}
