/** Addition of 32-bit words is addition of the numbers they stand for, modulo 2^32. */
module Sums {
  const LIMIT: nat := 0x1_0000_0000

  // Proofs of more than one step hide these functions and use only what the lemmas say of them.

  /** The number a word stands for. */
  function Num(x: bv32): int {
    x as int
  }

  function Half(x: bv32): bv32 {
    x >> 1
  }

  function IsOdd(x: bv32): bool {
    x & 1 == 1
  }

  function Next(x: bv32): bv32 {
    x + 1
  }

  function Prev(x: bv32): bv32 {
    x - 1
  }

  function Plus(x: bv32, y: bv32): bv32 {
    x + y
  }

  function Twice(h: bv32): bv32 {
    h << 1
  }

  function TwiceAndOne(h: bv32): bv32 {
    (h << 1) | 1
  }

  lemma NumBounds(x: bv32)
    ensures 0 <= Num(x) < LIMIT
  {
  }

  lemma NumZero()
    ensures Num(0) == 0
  {
  }

  lemma NumLast()
    ensures Num(0xffff_ffff) == LIMIT - 1
  {
  }

  // ----- a word and its half -----

  lemma TwiceNum(h: bv32)
    requires h < 0x8000_0000
    ensures Num(Twice(h)) == 2 * Num(h)
  {
  }

  lemma TwiceAndOneNum(h: bv32)
    ensures Num(TwiceAndOne(h)) == Num(Twice(h)) + 1
  {
  }

  lemma HalfIsSmall(x: bv32)
    ensures Half(x) < 0x8000_0000
  {
  }

  lemma HalfIsLess(x: bv32)
    ensures x != 0 ==> Half(x) < x
  {
  }

  lemma EvenIsTwice(x: bv32)
    requires !IsOdd(x)
    ensures x == Twice(Half(x))
  {
  }

  lemma OddIsTwiceAndOne(x: bv32)
    requires IsOdd(x)
    ensures x == TwiceAndOne(Half(x))
  {
  }

  lemma HalfNum(x: bv32)
    ensures Num(x) == 2 * Num(Half(x)) + if IsOdd(x) then 1 else 0
  {
    hide Num, Half, IsOdd, Twice, TwiceAndOne;
    HalfIsSmall(x);
    TwiceNum(Half(x));
    if IsOdd(x) {
      OddIsTwiceAndOne(x);
      TwiceAndOneNum(Half(x));
    } else {
      EvenIsTwice(x);
    }
  }

  // ----- counting -----

  lemma NextToEven(x: bv32)
    requires !IsOdd(x)
    ensures Half(Next(x)) == Half(x) && IsOdd(Next(x))
  {
  }

  lemma NextToOdd(x: bv32)
    requires IsOdd(x) && x != 0xffff_ffff
    ensures Half(Next(x)) == Next(Half(x)) && !IsOdd(Next(x)) && Half(x) != 0xffff_ffff && x != 0
  {
  }

  lemma {:induction false} NextNum(x: bv32)
    requires x != 0xffff_ffff
    ensures Num(Next(x)) == Num(x) + 1
    decreases x
  {
    hide Num, Half, IsOdd, Next;
    HalfNum(x);
    HalfNum(Next(x));
    if IsOdd(x) {
      NextToOdd(x);
      HalfIsLess(x);
      NextNum(Half(x));
    } else {
      NextToEven(x);
    }
  }

  // ----- adding -----

  lemma PlusMoves(x: bv32, y: bv32)
    ensures Plus(x, y) == Plus(x + 1, y - 1)
  {
  }

  lemma MoveOne(x: bv32, y: bv32)
    ensures Plus(x, y) == Plus(Next(x), Prev(y))
  {
    hide Plus;
    PlusMoves(x, y);
  }

  lemma PlusZero(x: bv32)
    ensures Plus(x, 0) == x
  {
  }

  lemma PrevFacts(y: bv32)
    requires y != 0
    ensures Prev(y) < y && Prev(y) != 0xffff_ffff && Next(Prev(y)) == y
  {
  }

  lemma NextToLast()
    ensures Next(0xffff_ffff) == 0
  {
  }

  lemma {:induction false} PlusNum(x: bv32, y: bv32)
    ensures Num(Plus(x, y)) == (Num(x) + Num(y)) % LIMIT
    decreases y
  {
    hide Num, Next, Prev, Plus;
    NumBounds(x);
    NumZero();
    if y == 0 {
      PlusZero(x);
    } else {
      PrevFacts(y);
      MoveOne(x, y);
      NextNum(Prev(y));
      PlusNum(Next(x), Prev(y));
      if x == 0xffff_ffff {
        NextToLast();
        NumLast();
        NumBounds(y);
        assert Num(x) + Num(y) == LIMIT + Num(Prev(y));
      } else {
        NextNum(x);
      }
    }
  }
}
