/** Which tree bin holds a size: compute_tree_index, minsize_for_tree_index and their relatives. */
module TreeIndex {
  import opened Sizes
  import opened Bits

  const NTREEBINS: nat := 32

  const UINT: int := 0x1_0000_0000

  /** The position of the highest set bit, as bsr and _BitScanReverse return it. */
  function HighBit(x: nat): (h: nat)
    requires x >= 1
    ensures Pre(x, h) == 1
  {
    if x == 1 then 0
    else
      PrePre(x, 1, HighBit(x / 2));
      assert Pre(x, 1) == x / 2;
      1 + HighBit(x / 2)
  }

  /** Past its leading one, a number has no digits left. */
  lemma {:induction false} PrePast(x: nat, a: nat, b: nat)
    requires Pre(x, a) == 1 && a < b
    ensures Pre(x, b) == 0
  {
    if a + 1 < b {
      PrePast(x, a, b - 1);
    }
  }

  lemma {:induction false} HighBitUnique(x: nat, h: nat)
    requires x >= 1 && Pre(x, h) == 1
    ensures h == HighBit(x)
  {
    if h > HighBit(x) {
      PrePast(x, HighBit(x), h);
    } else if h < HighBit(x) {
      PrePast(x, h, HighBit(x));
    }
  }

  lemma {:induction false} HighBitOfShort(x: nat)
    requires 1 <= x <= 0xFFFF
    ensures HighBit(x) <= 15
  {
    Pow2Word();
    Pow2Add(8, 8);
    PreBounds(x, HighBit(x));
    if HighBit(x) > 15 {
      Pow2Mono(16, HighBit(x));
    }
  }

  /** compute_tree_index, in the form that keeps the whole of S >> 8. */
  function Index(s: nat): (i: nat)
    ensures i < NTREEBINS
  {
    var x := s / 256;
    if x == 0 then 0
    else if x > 0xFFFF then NTREEBINS - 1
    else
      HighBitOfShort(x);
      2 * HighBit(x) + Pre(s, HighBit(x) + 7) % 2
  }

  /** compute_tree_index as compiled for x86: S >> 8 is first narrowed to 32 bits. */
  function NarrowIndex(s: nat): (i: nat)
    ensures i < NTREEBINS
  {
    var x := s / 256 % UINT;
    if x == 0 then 0
    else if x > 0xFFFF then NTREEBINS - 1
    else
      HighBitOfShort(x);
      2 * HighBit(x) + Pre(s, HighBit(x) + 7) % 2
  }

  /** The size bits that a bin does not fix: sizes of one bin agree above them. */
  function RootBits(i: nat): nat {
    if i == NTREEBINS - 1 then 64 else i / 2 + 7
  }

  function MinSize(i: nat): nat {
    Pow2(i / 2 + 8) + (i % 2) * Pow2(i / 2 + 7)
  }

  /** What the index says about the leading digits of the size. */
  lemma {:induction false} IndexDigits(s: nat)
    requires MIN_LARGE_SIZE <= s < 0x100_0000
    ensures Pre(s, Index(s) / 2 + 7) == 2 + Index(s) % 2
  {
    var x := s / 256;
    PreIsDiv(s, 8);
    Pow2Word();
    HighBitOfShort(x);
    var k := HighBit(x);
    PrePre(s, 8, k);
    assert Pre(s, k + 8) == Pre(s, k + 7) / 2;
  }

  lemma {:induction false} MinSizeNext(i: nat)
    ensures MinSize(i) == (2 + i % 2) * Pow2(i / 2 + 7)
    ensures MinSize(i + 1) == (3 + i % 2) * Pow2(i / 2 + 7)
  {
    assert Pow2(i / 2 + 8) == 2 * Pow2(i / 2 + 7);
    assert Pow2(i / 2 + 9) == 4 * Pow2(i / 2 + 7);
  }

  lemma {:induction false} MinSizeMono(i: nat, j: nat)
    requires i <= j
    ensures MinSize(i) <= MinSize(j)
  {
    if i < j {
      MinSizeMono(i, j - 1);
      MinSizeNext(j - 1);
    }
  }

  lemma {:induction false} LastMinSize()
    ensures MinSize(31) == 0xC0_0000 && MinSize(32) == 0x100_0000
  {
    Pow2Word();
    assert Pow2(23) == 2 * Pow2(22);
  }

  /** The bins cut the large sizes into consecutive ranges. */
  lemma {:induction false} IndexBounds(s: nat)
    requires MIN_LARGE_SIZE <= s
    ensures MinSize(Index(s)) <= s
    ensures Index(s) < NTREEBINS - 1 ==> s < MinSize(Index(s) + 1)
  {
    LastMinSize();
    if s < 0x100_0000 {
      IndexDigits(s);
      DigitBounds(s, Index(s));
    }
  }

  lemma {:induction false} DigitBounds(s: nat, i: nat)
    requires Pre(s, i / 2 + 7) == 2 + i % 2
    ensures MinSize(i) <= s < MinSize(i + 1)
  {
    PreBounds(s, i / 2 + 7);
    MinSizeNext(i);
    assert i % 2 == 0 || i % 2 == 1;
  }

  /** The index is the only bin whose range holds the size. */
  lemma {:induction false} IndexUnique(s: nat, i: nat)
    requires MIN_LARGE_SIZE <= s && i < NTREEBINS
    ensures i == Index(s) <==> MinSize(i) <= s && (i < NTREEBINS - 1 ==> s < MinSize(i + 1))
  {
    IndexBounds(s);
    if i < Index(s) {
      MinSizeMono(i + 1, Index(s));
    } else if Index(s) < i {
      MinSizeMono(Index(s) + 1, i);
    }
  }

  lemma {:induction false} IndexMono(s: nat, t: nat)
    requires MIN_LARGE_SIZE <= s <= t
    ensures Index(s) <= Index(t)
  {
    IndexBounds(s);
    IndexBounds(t);
    if Index(t) < Index(s) {
      MinSizeMono(Index(t) + 1, Index(s));
    }
  }

  /** Sizes of one bin agree on every digit that the bin's trie does not inspect. */
  lemma {:induction false} SameBinSameRoot(s: nat, t: nat)
    requires MIN_LARGE_SIZE <= s < WORD && MIN_LARGE_SIZE <= t < WORD
    requires Index(s) == Index(t)
    ensures Pre(s, RootBits(Index(s))) == Pre(t, RootBits(Index(s)))
  {
    if Index(s) == NTREEBINS - 1 {
      Pow2Word();
      PreIsDiv(s, 64);
      PreIsDiv(t, 64);
    } else {
      IndexBounds(s);
      IndexBounds(t);
      LastMinSize();
      MinSizeMono(Index(s) + 1, 31);
      IndexDigits(s);
      IndexDigits(t);
    }
  }

  /** Narrowing loses the bin exactly for sizes of 2^40 and more whose bits 8 to 39 are below 0xC000. */
  lemma {:induction false} NarrowIndexAgrees(s: nat)
    ensures NarrowIndex(s) == Index(s) <==> s < 0x100_0000_0000 || s / 256 % UINT >= 0xC000
  {
    var x := s / 256 % UINT;
    if s < 0x100_0000_0000 {
      assert s / 256 < UINT;
    } else if 0 < x <= 0xFFFF {
      HighBitOfShort(x);
      NarrowTop(s, x, HighBit(x));
    }
  }

  lemma {:induction false} NarrowTop(s: nat, x: nat, h: nat)
    requires s / 256 % UINT == x && 0 < x <= 0xFFFF && h <= 15 && Pre(x, h) == 1
    ensures 2 * h + Pre(s, h + 7) % 2 == 31 <==> x >= 0xC000
  {
    PowFifteen();
    if h < 15 {
      PreBounds(x, h);
      Pow2Mono(h + 1, 15);
    } else {
      Pow2Word();
      PreIsDiv(s, 22);
      NarrowBit(s, x);
      PreIsDiv(x, 15);
    }
  }

  lemma {:induction false} PowFifteen()
    ensures Pow2(15) == 0x8000
  {
    Pow2Word();
    Pow2Add(4, 3);
    Pow2Add(8, 7);
  }

  lemma {:induction false} NarrowBit(s: nat, x: nat)
    requires s / 256 % UINT == x
    ensures s / 0x40_0000 % 2 == x / 0x4000 % 2
  {
    var h := s / 256 / UINT;
    assert s / 256 == UINT * h + x;
    assert s / 0x40_0000 == s / 256 / 0x4000;
  }

  /** A size for which the narrowed index names the wrong bin. */
  lemma {:induction false} NarrowIndexWrong()
    ensures NarrowIndex(0x100_0000_0000) == 0 && Index(0x100_0000_0000) == 31
  {
  }

  // ----- the branch-free computation -----

  /** Borrowing out of 16 bits turns the comparison y < t into the shift amount m. */
  method ShiftFor(y: nat, t: nat, m: nat) returns (k: nat)
    requires y <= 0xFFFF && t <= 0x4000 && (m == 2 || m == 4 || m == 8)
    ensures k == if y < t then m else 0
  {
    var borrowed := (y - t) % UINT / 0x1_0000;
    assert borrowed == if y < t then 0xFFFF else 0;
    k := if borrowed / m % 2 == 1 then m else 0;
  }

  /** compute_tree_index without a bit-scan instruction agrees with the bit-scan form. */
  method ComputeIndex(s: nat) returns (i: nat)
    ensures i == Index(s)
  {
    var x := s / 256;
    if x == 0 {
      return 0;
    }
    if x > 0xFFFF {
      return NTREEBINS - 1;
    }
    var y := x;
    var n := ShiftFor(y, 0x100, 8);
    y := ShiftLeft(y, n);
    var y0 := y;
    var k := ShiftFor(y, 0x1000, 4);
    var k0 := k;
    n := n + k;
    y := ShiftLeft(y, k);
    var y1 := y;
    k := ShiftFor(y, 0x4000, 2);
    n := n + k;
    y := ShiftLeft(y, k);
    var h := 14 - n + y / 0x8000;
    NormalisedHighBit(x, n - k - k0, y0, k0, y1, k, y, h);
    i := 2 * h + Pre(s, h + 7) % 2;
  }

  /** A 32-bit left shift by 0, 2, 4 or 8 places. */
  method ShiftLeft(y: nat, k: nat) returns (r: nat)
    requires y <= 0xFFFF && (k == 0 || k == 2 || k == 4 || k == 8)
    ensures r == y * Pow2(k)
  {
    SmallPowers();
    r := (if k == 2 then 4 * y else if k == 4 then 16 * y else if k == 8 then 256 * y else y) % UINT;
  }

  lemma {:induction false} SmallPowers()
    ensures Pow2(0) == 1 && Pow2(2) == 4 && Pow2(4) == 16 && Pow2(8) == 256
  {
    Pow2Add(2, 2);
    Pow2Add(4, 4);
  }

  lemma {:induction false} NormalisedHighBit(x: nat, n: nat, y0: nat, k0: nat, y1: nat, k1: nat, y2: nat, h: nat)
    requires x >= 1
    requires y0 == x * Pow2(n) && y1 == y0 * Pow2(k0) && y2 == y1 * Pow2(k1)
    requires 0x4000 <= y2 <= 0xFFFF && h + n + k0 + k1 == 14 + y2 / 0x8000
    ensures h == HighBit(x)
  {
    PreShift(y1, k1, h + n + k0);
    PreShift(y0, k0, h + n);
    PreShift(x, n, h);
    LeadingOne(y2);
    HighBitUnique(x, h);
  }

  lemma {:induction false} LeadingOne(y: nat)
    requires 0x4000 <= y <= 0xFFFF
    ensures Pre(y, 14 + y / 0x8000) == 1
  {
    Pow2Word();
    PowFifteen();
    PreIsDiv(y, 14 + y / 0x8000);
    assert Pow2(15) == 2 * Pow2(14);
  }
}
