/** The word masks that test for a power of two and round an address up to one. */
module Masks {
  import opened Bits

  /** Bitwise conjunction. */
  function And(x: nat, y: nat): nat {
    if x == 0 || y == 0 then 0 else 2 * And(x / 2, y / 2) + (x % 2) * (y % 2)
  }

  predicate IsPow2(x: nat) {
    x == 1 || (x > 0 && x % 2 == 0 && IsPow2(x / 2))
  }

  lemma {:induction false} AndSelf(x: nat)
    ensures And(x, x) == x
  {
    if x > 0 {
      AndSelf(x / 2);
      assert (x % 2) * (x % 2) == x % 2 by {
        if x % 2 == 0 {
        } else {
          assert x % 2 == 1;
        }
      }
    }
  }

  /** x & (x - 1) is zero exactly for powers of two. */
  lemma {:induction false} PowerTest(x: nat)
    requires x > 0
    ensures And(x, x - 1) == 0 <==> IsPow2(x)
  {
    if x > 1 {
      if x % 2 == 1 {
        AndSelf(x / 2);
        assert (x - 1) / 2 == x / 2;
      } else {
        PowerTest(x / 2);
        assert (x - 1) / 2 == x / 2 - 1;
      }
    }
  }

  lemma {:induction false} PowerExponent(x: nat) returns (k: nat)
    requires IsPow2(x)
    ensures x == Pow2(k)
  {
    if x == 1 {
      k := 0;
    } else {
      k := PowerExponent(x / 2);
      k := k + 1;
    }
  }

  lemma {:induction false} PowerIsPow2(k: nat)
    ensures IsPow2(Pow2(k)) && Pow2(k) > 0
  {
    if k > 0 {
      PowerIsPow2(k - 1);
    }
  }

  /** All ones keep everything. */
  lemma {:induction false} AndOnes(x: nat, n: nat)
    requires x < Pow2(n)
    ensures And(x, Pow2(n) - 1) == x
  {
    if x > 0 {
      assert (Pow2(n) - 1) / 2 == Pow2(n - 1) - 1 && (Pow2(n) - 1) % 2 == 1;
      AndOnes(x / 2, n - 1);
      assert x % 2 == 0 || x % 2 == 1;
    }
  }

  lemma AndHighStep(x: nat, y: nat, p: nat)
    requires x > 0 && y > 0 && y % 2 == 0 && p > 0 && And(x / 2, y / 2) == x / 2 - x / 2 % p
    ensures And(x, y) == x - x % (2 * p)
  {
    HalfMod(x, p);
    assert (x % 2) * (y % 2) == 0;
  }

  /** The mask -2^k clears the low k bits. */
  lemma {:induction false} AndHigh(x: nat, n: nat, k: nat)
    requires x < Pow2(n) && k <= n
    ensures Pow2(k) <= Pow2(n) && And(x, Pow2(n) - Pow2(k)) == x - x % Pow2(k)
  {
    hide And, Pow2;
    Pow2Mono(k, n);
    var y := Pow2(n) - Pow2(k);
    if k == 0 {
      Pow2Step(0);
      AndOnes(x, n);
      assert x % 1 == 0;
    } else if x == 0 || y == 0 {
      AndZero(x, y);
      SmallMod(x, Pow2(k));
    } else {
      Pow2Step(k);
      Pow2Step(n);
      Pow2Mono(k - 1, n - 1);
      HalfOf(x, y, Pow2(n - 1), Pow2(k - 1));
      AndHigh(x / 2, n - 1, k - 1);
      AndHighStep(x, y, Pow2(k - 1));
    }
  }

  lemma Pow2Step(n: nat)
    ensures Pow2(n) == if n == 0 then 1 else 2 * Pow2(n - 1)
  {
  }

  lemma HalfOf(x: nat, y: nat, p: nat, q: nat)
    requires y == 2 * p - 2 * q && x < 2 * p
    ensures y / 2 == p - q && y % 2 == 0 && x / 2 < p
  {
  }

  lemma AndZero(x: nat, y: nat)
    requires x == 0 || y == 0
    ensures And(x, y) == 0
  {
  }

  lemma SmallMod(x: nat, p: nat)
    requires p > 0
    ensures x < p ==> x % p == x
  {
    if x < p {
      QuotientIs(x, p, 0, x);
    }
  }

  lemma HalfMod(x: nat, a: nat)
    requires a > 0
    ensures x % (2 * a) == 2 * (x / 2 % a) + x % 2
  {
    var q := x / 2 / a;
    var r := x / 2 % a;
    assert x == 2 * (a * q + r) + x % 2;
    assert x == (2 * a) * q + (2 * r + x % 2);
    QuotientIs(x, 2 * a, q, 2 * r + x % 2);
  }

  const HALF: nat := 0x8000_0000_0000_0000

  predicate Multiple(x: nat, a: nat) {
    a > 0 && x % a == 0
  }

  lemma NextMultiple(x: nat, a: nat)
    requires Multiple(x, a)
    ensures Multiple(x + a, a)
  {
    QuotientIs(x + a, a, x / a + 1, 0);
  }

  lemma MultipleTrans(x: nat, a: nat, b: nat)
    requires Multiple(x, a) && Multiple(a, b)
    ensures Multiple(x, b)
  {
    var k, q := a / b, x / a;
    assert x == b * (k * q);
    QuotientIs(x, b, k * q, 0);
  }

  /** (x + a - 1) & -a in 64 bits. */
  function AlignUp(x: nat, a: nat): nat
    requires a <= WORD
  {
    And((x + a - 1) % WORD, WORD - a)
  }

  lemma FloorMultiple(y: nat, a: nat)
    requires a > 0
    ensures (y - y % a) % a == 0 && y - y % a == a * (y / a)
  {
    QuotientIs(a * (y / a), a, y / a, 0);
  }

  /** AlignUp is the least multiple of a that is not below x, if nothing wraps around. */
  lemma AlignUpIsLeast(x: nat, a: nat)
    requires IsPow2(a) && a <= HALF && x + a <= WORD
    ensures var r := AlignUp(x, a); Multiple(r, a) && x <= r < x + a && (Multiple(x, a) ==> r == x)
  {
    hide And, IsPow2, Pow2;
    PowerPositive(a);
    MaskFloor(x + a - 1, a);
    FloorMultiple(x + a - 1, a);
    SmallMod(x + a - 1, WORD);
    if Multiple(x, a) {
      FloorMultiple(x, a);
      QuotientIs(x + a - 1, a, x / a, a - 1);
    }
  }

  lemma PowerPositive(a: nat)
    requires IsPow2(a)
    ensures a > 0
  {
  }

  /** Masking with -a rounds down to a multiple of a. */
  lemma MaskFloor(y: nat, a: nat)
    requires IsPow2(a) && a <= HALF && y < WORD
    ensures a > 0 && And(y, WORD - a) == y - y % a
  {
    hide And, IsPow2;
    var k := PowerExponent(a);
    Pow2Word();
    if k > 64 {
      Pow2Mono(64, k);
    }
    AndHigh(y, 64, k);
  }

  lemma {:induction false} PowerMultiple(a: nat, b: nat)
    requires IsPow2(a) && IsPow2(b) && a <= b
    ensures Multiple(b, a)
  {
    if a < b {
      if b / 2 < a {
        PowersApart(a, b);
      }
      PowerMultiple(a, b / 2);
      var q := b / 2 / a;
      assert b == a * (2 * q);
      QuotientIs(b, a, 2 * q, 0);
    } else {
      QuotientIs(b, a, 1, 0);
    }
  }

  lemma {:induction false} PowersApart(a: nat, b: nat)
    requires IsPow2(a) && IsPow2(b) && a < b
    ensures a <= b / 2
  {
    if a > 1 {
      PowersApart(a / 2, b / 2);
    }
  }

  lemma HalfIsPow2()
    ensures IsPow2(HALF)
  {
    Pow2Word();
    PowerIsPow2(63);
  }

  /** The first steps of internal_memalign: at least 32, and a power of two. */
  method RoundAlignment(alignment: nat) returns (a: nat)
    requires 0 < alignment <= HALF
    ensures IsPow2(a) && a >= 32 && alignment <= a <= HALF
    ensures IsPow2(alignment) ==> Multiple(a, alignment)
    ensures alignment >= 32 && IsPow2(alignment) ==> a == alignment
    ensures a == 32 || a < 2 * alignment
  {
    HalfIsPow2();
    a := if alignment < 32 then 32 else alignment;
    PowerTest(a);
    if And(a, a - 1) != 0 {
      var b := 16;
      while b < a
        invariant IsPow2(b) && 16 <= b <= HALF && (b > 16 ==> b / 2 < a)
        decreases a - b
      {
        PowersApart(b, HALF);
        b := b * 2;
      }
      a := b;
    }
    if IsPow2(alignment) {
      PowerMultiple(alignment, a);
    }
  }
}
