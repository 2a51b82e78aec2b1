/** The 32-bit maps that record which bins are non-empty, with the word-level tricks that search them. */
module BinMap {

  type Word = bv32

  const NBINS: nat := 32

  /** A bin index as a shift amount. */
  function Idx(i: nat): bv5
    requires i < NBINS
  {
    i as bv5
  }

  predicate On(w: Word, b: bv5) {
    (w >> b) & 1 == 1
  }

  /** True when the bit for bin i is on. */
  predicate Has(w: Word, i: nat)
    requires i < NBINS
  {
    On(w, Idx(i))
  }

  lemma HasIsOn(w: Word, i: nat, b: bv5)
    requires i < NBINS && b == Idx(i)
    ensures Has(w, i) == On(w, b)
  {
  }

  lemma IdxRoundTrip(i: nat)
    requires i < NBINS
    ensures Idx(i) as nat == i
  {
  }

  lemma WordRoundTrip(b: bv5)
    ensures (b as nat) < NBINS && Idx(b as nat) == b
  {
  }

  lemma WordOrder(a: bv5, b: bv5)
    ensures a < b <==> (a as nat) < (b as nat)
  {
  }

  lemma IdxOrder(i: nat, j: nat)
    requires i < NBINS && j < NBINS
    ensures Idx(i) == Idx(j) <==> i == j
    ensures Idx(i) < Idx(j) <==> i < j
  {
    IdxRoundTrip(i);
    IdxRoundTrip(j);
    WordOrder(Idx(i), Idx(j));
  }

  // ----- marking and clearing -----

  lemma MarkBit(w: Word, a: bv5, b: bv5)
    ensures On(w | (1 << a), b) <==> b == a || On(w, b)
  {
  }

  lemma ClearBit(w: Word, a: bv5, b: bv5)
    ensures On(w & !(1 << a), b) <==> b != a && On(w, b)
  {
  }

  lemma MarkAt(w: Word, i: nat, a: bv5, j: nat, b: bv5)
    requires i < NBINS && j < NBINS && a == Idx(i) && b == Idx(j)
    requires a == b <==> i == j
    ensures Has(w | (1 << a), j) <==> j == i || Has(w, j)
  {
    MarkBit(w, a, b);
    HasIsOn(w, j, b);
    HasIsOn(w | (1 << a), j, b);
  }

  lemma MarkAll(w: Word, i: nat, a: bv5)
    requires i < NBINS && a == Idx(i)
    ensures forall j: nat | j < NBINS :: Has(w | (1 << a), j) <==> j == i || Has(w, j)
  {
    forall j: nat | j < NBINS
      ensures Has(w | (1 << a), j) <==> j == i || Has(w, j)
    {
      IdxOrder(i, j);
      MarkAt(w, i, a, j, Idx(j));
    }
  }

  /** mark_smallmap and mark_treemap. */
  function Mark(w: Word, i: nat): (r: Word)
    requires i < NBINS
    ensures forall j: nat | j < NBINS :: Has(r, j) <==> j == i || Has(w, j)
  {
    MarkAll(w, i, Idx(i));
    w | (1 << Idx(i))
  }

  lemma ClearAt(w: Word, i: nat, a: bv5, j: nat, b: bv5)
    requires i < NBINS && j < NBINS && a == Idx(i) && b == Idx(j)
    requires a == b <==> i == j
    ensures Has(w & !(1 << a), j) <==> j != i && Has(w, j)
  {
    ClearBit(w, a, b);
    HasIsOn(w, j, b);
    HasIsOn(w & !(1 << a), j, b);
  }

  lemma ClearAll(w: Word, i: nat, a: bv5)
    requires i < NBINS && a == Idx(i)
    ensures forall j: nat | j < NBINS :: Has(w & !(1 << a), j) <==> j != i && Has(w, j)
  {
    forall j: nat | j < NBINS
      ensures Has(w & !(1 << a), j) <==> j != i && Has(w, j)
    {
      IdxOrder(i, j);
      ClearAt(w, i, a, j, Idx(j));
    }
  }

  /** clear_smallmap and clear_treemap. */
  function Clear(w: Word, i: nat): (r: Word)
    requires i < NBINS
    ensures forall j: nat | j < NBINS :: Has(r, j) <==> j != i && Has(w, j)
  {
    ClearAll(w, i, Idx(i));
    w & !(1 << Idx(i))
  }

  // ----- searching -----

  /** Isolates the least set bit. */
  function LeastBit(x: Word): Word {
    x & (0 - x)
  }

  /** All bits strictly to the left of the least set bit of x. */
  function LeftBits(x: Word): Word {
    (x << 1) | (0 - (x << 1))
  }

  /** The branch-free bit-to-index conversion, for a word with one bit set. */
  function BitToIndex(x: Word): bv5 {
    var y0 := x - 1;
    var k0 := (y0 >> 12) & 16;
    var y1 := y0 >> k0;
    var k1 := (y1 >> 5) & 8;
    var y2 := y1 >> k1;
    var k2 := (y2 >> 2) & 4;
    var y3 := y2 >> k2;
    var k3 := (y3 >> 1) & 2;
    var y4 := y3 >> k3;
    var k4 := y4 & 1;
    var y5 := y4 >> k4;
    ((k0 + k1 + k2 + k3 + k4 + y5) & 31) as bv5
  }

  lemma LeastIsOn(w: Word)
    requires w != 0
    ensures On(w, BitToIndex(LeastBit(w)))
  {
  }

  lemma LeastIsLeast(w: Word, b: bv5)
    requires w != 0 && On(w, b)
    ensures BitToIndex(LeastBit(w)) <= b
  {
  }

  function LeftMask(w: Word, a: bv5): Word {
    LeftBits(1 << a) & w
  }

  lemma LeftOfBit(w: Word, a: bv5, b: bv5)
    ensures On(LeftMask(w, a), b) <==> b > a && On(w, b)
  {
  }

  lemma LeftOfAt(w: Word, i: nat, a: bv5, j: nat, b: bv5)
    requires i < NBINS && j < NBINS && a == Idx(i) && b == Idx(j)
    requires a < b <==> i < j
    ensures Has(LeftMask(w, a), j) <==> j > i && Has(w, j)
  {
    LeftOfBit(w, a, b);
    HasIsOn(w, j, b);
    HasIsOn(LeftMask(w, a), j, b);
  }

  lemma LeftOfAll(w: Word, i: nat, a: bv5)
    requires i < NBINS && a == Idx(i)
    ensures forall j: nat | j < NBINS :: Has(LeftMask(w, a), j) <==> j > i && Has(w, j)
  {
    forall j: nat | j < NBINS
      ensures Has(LeftMask(w, a), j) <==> j > i && Has(w, j)
    {
      IdxOrder(i, j);
      LeftOfAt(w, i, a, j, Idx(j));
    }
  }

  /** Masking with left_bits(idx2bit(i)) keeps exactly the marked bins above i. */
  function LeftOf(w: Word, i: nat): (r: Word)
    requires i < NBINS
    ensures forall j: nat | j < NBINS :: Has(r, j) <==> j > i && Has(w, j)
  {
    LeftOfAll(w, i, Idx(i));
    LeftMask(w, Idx(i))
  }

  lemma LeastIndexIsSet(w: Word, b: bv5)
    requires w != 0 && b == BitToIndex(LeastBit(w))
    ensures (b as nat) < NBINS && Has(w, b as nat)
  {
    LeastIsOn(w);
    WordRoundTrip(b);
    HasIsOn(w, b as nat, b);
  }

  lemma LeastIndexIsLeast(w: Word, b: bv5, j: nat, c: bv5)
    requires w != 0 && b == BitToIndex(LeastBit(w))
    requires j < NBINS && c == Idx(j) && Has(w, j)
    ensures b as nat <= j
  {
    HasIsOn(w, j, c);
    LeastIsLeast(w, c);
    IdxRoundTrip(j);
    WordOrder(c, b);
  }

  /** The branch-free search finds the smallest marked bin. */
  function LeastIndex(w: Word): (i: nat)
    requires w != 0
    ensures i < NBINS && Has(w, i)
    ensures forall j: nat | j < NBINS && Has(w, j) :: i <= j
  {
    var b := BitToIndex(LeastBit(w));
    LeastIndexIsSet(w, b);
    assert forall j: nat | j < NBINS && Has(w, j) :: b as nat <= j by {
      forall j: nat | j < NBINS && Has(w, j)
        ensures b as nat <= j
      {
        LeastIndexIsLeast(w, b, j, Idx(j));
      }
    }
    b as nat
  }

  lemma ZeroIsOff(b: bv5)
    ensures !On(0, b)
  {
  }

  /** A word is zero exactly when no bin is marked. */
  lemma NonZero(w: Word)
    ensures w != 0 <==> exists j: nat :: j < NBINS && Has(w, j)
  {
    if w != 0 {
      var i := LeastIndex(w);
      assert Has(w, i);
    } else {
      forall j: nat | j < NBINS
        ensures !Has(w, j)
      {
        ZeroIsOff(Idx(j));
      }
    }
  }

  // ----- the two tests of a small request -----

  predicate LowTwo(w: Word, a: bv5) {
    (w >> a) & 3 != 0
  }

  predicate AllGone(w: Word, a: bv5) {
    w >> a == 0
  }

  /** The marked bins left of i, computed from the shifted map. */
  function Candidates(w: Word, a: bv5): Word {
    ((w >> a) << a) & LeftBits(1 << a)
  }

  lemma LowTwoBits(w: Word, a: bv5)
    ensures LowTwo(w, a) <==> On(w, a) || (a != 31 && On(w, a + 1))
    ensures !(w >> a) & 1 == if On(w, a) then 0 else 1
  {
  }

  /** Shifting down and up again drops only bits below those that left_bits keeps. */
  lemma ShiftedBits(w: Word, a: bv5)
    ensures ((w >> a) << a) & LeftBits(1 << a) == LeftBits(1 << a) & w
    ensures (w >> a) & 3 == 0 && w >> a != 0 ==> LeftBits(1 << a) & w != 0
  {
  }

  lemma ShiftedMask(w: Word, a: bv5)
    ensures Candidates(w, a) == LeftMask(w, a)
    ensures !LowTwo(w, a) && !AllGone(w, a) ==> LeftMask(w, a) != 0
  {
    ShiftedBits(w, a);
  }

  lemma ShiftedOut(w: Word, a: bv5, b: bv5)
    requires AllGone(w, a) && a <= b
    ensures !On(w, b)
  {
  }

  lemma SuccessorIdx(i: nat, a: bv5)
    requires i < NBINS && a == Idx(i)
    ensures a != 31 <==> i + 1 < NBINS
    ensures i + 1 < NBINS ==> Idx(i + 1) == a + 1
  {
    IdxRoundTrip(i);
    if i + 1 < NBINS {
      IdxRoundTrip(i + 1);
      SuccessorWord(a, Idx(i + 1));
    }
  }

  lemma SuccessorWord(a: bv5, b: bv5)
    requires b as nat == a as nat + 1
    ensures b == a + 1
  {
  }

  lemma LowTwoBins(w: Word, i: nat, a: bv5)
    requires i < NBINS && a == Idx(i)
    ensures LowTwo(w, a) <==> Has(w, i) || (i + 1 < NBINS && Has(w, i + 1))
    ensures !(w >> a) & 1 == if Has(w, i) then 0 else 1
  {
    LowTwoBits(w, a);
    SuccessorIdx(i, a);
    HasIsOn(w, i, a);
    if i + 1 < NBINS {
      HasIsOn(w, i + 1, a + 1);
    }
  }

  /** The remainderless fit: bin i, or the next one when i is empty; NBINS when both are. */
  function ExactBin(w: Word, i: nat): (r: nat)
    requires i < NBINS
    ensures r < NBINS ==> Has(w, r) && (r == i || (r == i + 1 && !Has(w, i)))
    ensures r >= NBINS ==> r == NBINS && !Has(w, i) && (i + 1 < NBINS ==> !Has(w, i + 1))
  {
    LowTwoBins(w, i, Idx(i));
    var smallbits := w >> Idx(i);
    if LowTwo(w, Idx(i)) then i + (if !smallbits & 1 == 0 then 0 else 1) else NBINS
  }

  lemma NextBinAt(w: Word, i: nat, a: bv5, j: nat)
    requires i <= j < NBINS && a == Idx(i) && AllGone(w, a)
    ensures !Has(w, j)
  {
    IdxOrder(i, j);
    ShiftedOut(w, a, Idx(j));
    HasIsOn(w, j, Idx(j));
  }

  lemma CandidatesAbove(w: Word, i: nat, a: bv5, c: Word)
    requires i < NBINS && a == Idx(i) && c == Candidates(w, a) && !AllGone(w, a)
    requires !Has(w, i) && (i + 1 < NBINS ==> !Has(w, i + 1))
    ensures c != 0 && forall j: nat | j < NBINS :: Has(c, j) <==> j > i && Has(w, j)
  {
    hide LowTwo, AllGone, LeftMask, Candidates, On;
    LowTwoBins(w, i, a);
    ShiftedMask(w, a);
    LeftOfAll(w, i, a);
  }

  lemma NoneAbove(w: Word, i: nat, a: bv5)
    requires i < NBINS && a == Idx(i) && AllGone(w, a)
    ensures forall j: nat | i <= j < NBINS :: !Has(w, j)
  {
    forall j: nat | i <= j < NBINS
      ensures !Has(w, j)
    {
      NextBinAt(w, i, a, j);
    }
  }

  /** The least marked bin above i, when bins i and i + 1 are empty; NBINS when there is none. */
  function NextBin(w: Word, i: nat): (r: nat)
    requires i < NBINS && !Has(w, i) && (i + 1 < NBINS ==> !Has(w, i + 1))
    ensures r < NBINS ==> r > i + 1 && Has(w, r) && forall j: nat | i <= j < NBINS && Has(w, j) :: r <= j
    ensures r >= NBINS ==> r == NBINS && forall j: nat | i <= j < NBINS :: !Has(w, j)
  {
    hide AllGone, Candidates, On, Has, LeastIndex;
    var a := Idx(i);
    if AllGone(w, a) then
      NoneAbove(w, i, a);
      NBINS
    else
      var c := Candidates(w, a);
      CandidatesAbove(w, i, a, c);
      LeastAbove(w, i, c);
      LeastIndex(c)
  }

  lemma LeastAbove(w: Word, i: nat, c: Word)
    requires i < NBINS && c != 0 && (forall j: nat | j < NBINS :: Has(c, j) <==> j > i && Has(w, j))
    requires !Has(w, i) && (i + 1 < NBINS ==> !Has(w, i + 1))
    ensures var r := LeastIndex(c); r > i + 1 && r < NBINS && Has(w, r) && forall j: nat | i <= j < NBINS
                                    && Has(w, j) :: r <= j
  {
  }
}
