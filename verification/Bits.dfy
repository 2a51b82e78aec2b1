/** Arithmetic of sizes seen as 64-bit words: shifts, leading digits and the sign-bit register. */
module Bits {

  const WORD: nat := 0x1_0000_0000_0000_0000

  /** Subtraction of 64-bit words. */
  function Minus(a: nat, b: nat): nat
    requires a < WORD && b < WORD
  {
    if a >= b then a - b else WORD + a - b
  }

  function Pow2(n: nat): (p: nat)
    ensures p >= 1
  {
    if n == 0 then 1 else 2 * Pow2(n - 1)
  }

  /** s >> b, one place at a time. */
  function Pre(s: nat, b: nat): nat {
    if b == 0 then s else Pre(s, b - 1) / 2
  }

  lemma {:induction false} PreIsDiv(s: nat, b: nat)
    ensures Pre(s, b) == s / Pow2(b)
  {
    if b > 0 {
      PreIsDiv(s, b - 1);
      DivDiv(s, Pow2(b - 1));
    }
  }

  lemma DivDiv(s: nat, p: nat)
    requires p >= 1
    ensures s / p / 2 == s / (2 * p)
  {
    var q, r := s / p, s % p;
    assert s == p * q + r;
    var h, l := q / 2, q % 2;
    assert q == 2 * h + l;
    assert s == (2 * p) * h + (p * l + r) by {
      assert p * q == p * (2 * h) + p * l;
    }
    assert 0 <= p * l + r < 2 * p;
    QuotientIs(s, 2 * p, h, p * l + r);
  }

  lemma Multiple(d: int, k: int)
    requires d >= 1
    ensures k >= 1 ==> d * k >= d
    ensures k <= -1 ==> d * k <= -d
  {
    assert d * k == d + d * (k - 1);
    assert d * k == -d + d * (k + 1);
  }

  lemma QuotientIs(s: nat, d: nat, q: nat, r: nat)
    requires d >= 1 && s == d * q + r && r < d
    ensures s / d == q && s % d == r
  {
    assert d * (s / d - q) == r - s % d;
    Multiple(d, s / d - q);
  }

  lemma Distribute(d: nat, q: nat, r: nat, p: nat)
    ensures (d * q + r) * p == (p * d) * q + r * p
  {
    assert (d * q + r) * p == (d * q) * p + r * p;
    assert (d * q) * p == (p * d) * q;
  }

  lemma Scale(r: nat, d: nat, p: nat)
    requires r < d && p >= 1
    ensures r * p < d * p
  {
  }

  lemma {:induction false} PreMono(x: nat, y: nat, b: nat)
    requires x <= y
    ensures Pre(x, b) <= Pre(y, b)
  {
    if b > 0 {
      PreMono(x, y, b - 1);
    }
  }

  lemma {:induction false} PrePre(s: nat, a: nat, b: nat)
    ensures Pre(Pre(s, a), b) == Pre(s, a + b)
  {
    if b > 0 {
      PrePre(s, a, b - 1);
    }
  }

  /** Equal leading digits stay equal when more low digits are dropped. */
  lemma {:induction false} PreAgree(x: nat, y: nat, a: nat, b: nat)
    requires Pre(x, a) == Pre(y, a) && a <= b
    ensures Pre(x, b) == Pre(y, b)
  {
    PrePre(x, a, b - a);
    PrePre(y, a, b - a);
  }

  lemma {:induction false} PreShift(x: nat, n: nat, b: nat)
    ensures Pre(x * Pow2(n), n + b) == Pre(x, b)
  {
    if n > 0 {
      var y := x * Pow2(n - 1);
      assert x * Pow2(n) == 2 * y;
      PrePre(2 * y, 1, n - 1 + b);
      assert Pre(2 * y, 1) == Pre(2 * y, 0) / 2;
      PreShift(x, n - 1, b);
    } else {
      assert x * Pow2(0) == x;
    }
  }

  lemma {:induction false} PreBounds(s: nat, b: nat)
    ensures Pre(s, b) * Pow2(b) <= s < (Pre(s, b) + 1) * Pow2(b)
  {
    PreIsDiv(s, b);
    QuotientBounds(s, Pow2(b));
  }

  lemma QuotientBounds(s: nat, p: nat)
    requires p >= 1
    ensures (s / p) * p <= s < (s / p + 1) * p
  {
  }

  lemma {:induction false} Pow2Add(a: nat, b: nat)
    ensures Pow2(a + b) == Pow2(a) * Pow2(b)
  {
    if b > 0 {
      Pow2Add(a, b - 1);
    } else {
      assert Pow2(a) * Pow2(0) == Pow2(a);
    }
  }

  lemma {:induction false} Pow2Mono(a: nat, b: nat)
    requires a <= b
    ensures Pow2(a) <= Pow2(b)
  {
    if a < b {
      Pow2Mono(a, b - 1);
    }
  }

  lemma {:induction false} Pow2Word()
    ensures Pow2(8) == 256 && Pow2(22) == 0x40_0000 && Pow2(24) == 0x100_0000 && Pow2(40) == 0x100_0000_0000
    ensures Pow2(63) == 0x8000_0000_0000_0000 && Pow2(64) == WORD
  {
    assert Pow2(4) == 16;
    Pow2Add(4, 4);
    Pow2Add(8, 8);
    Pow2Add(16, 6);
    Pow2Add(16, 8);
    Pow2Add(16, 16);
    Pow2Add(32, 8);
    Pow2Add(32, 32);
  }

  // ----- the sign-bit register used by the descents -----

  /** The size shifted so that bit b-1 is the sign bit of a 64-bit word. */
  function Register(s: nat, b: nat): nat
    requires b <= 64
  {
    s * Pow2(64 - b) % WORD
  }

  function SignBit(k: nat): nat {
    k / 0x8000_0000_0000_0000
  }

  /** The register holds the low b bits of s, left-aligned. */
  lemma {:induction false} RegisterIs(s: nat, b: nat)
    requires b <= 64
    ensures Register(s, b) == (s % Pow2(b)) * Pow2(64 - b)
  {
    Pow2Word();
    Pow2Add(64 - b, b);
    var p, d := Pow2(64 - b), Pow2(b);
    RegisterQuotient(s, p, d);
  }

  lemma {:induction false} RegisterQuotient(s: nat, p: nat, d: nat)
    requires p >= 1 && d >= 1 && p * d == WORD
    ensures s * p % WORD == (s % d) * p
  {
    var q, r := s / d, s % d;
    Distribute(d, q, r, p);
    assert s == d * q + r;
    Scale(r, d, p);
    QuotientIs(s * p, WORD, q, r * p);
  }

  /** The sign bit of the register is the next digit of s. */
  lemma {:induction false} RegisterSign(s: nat, b: nat)
    requires 1 <= b <= 64
    ensures SignBit(Register(s, b)) == Pre(s, b - 1) % 2
  {
    RegisterIs(s, b);
    Pow2Word();
    Pow2Add(64 - b, b - 1);
    PreIsDiv(s, b - 1);
    SignQuotient(s, Pow2(64 - b), Pow2(b - 1));
  }

  lemma SignQuotient(s: nat, p: nat, d: nat)
    requires p >= 1 && d >= 1
    ensures (s % (2 * d)) * p / (p * d) == (s / d) % 2
  {
    var q, r := s / d, s % d;
    var h, l := q / 2, q % 2;
    assert s == d * q + r;
    assert d * q == (2 * d) * h + d * l by {
      assert q == 2 * h + l;
      assert d * (2 * h + l) == (2 * d) * h + d * l;
    }
    QuotientIs(s, 2 * d, h, d * l + r);
    Distribute(d, l, r, p);
    Scale(r, d, p);
    QuotientIs((d * l + r) * p, p * d, l, r * p);
  }

  /** Shifting the register left by one advances it by one digit. */
  lemma {:induction false} RegisterStep(s: nat, b: nat)
    requires 1 <= b <= 64
    ensures 2 * Register(s, b) % WORD == Register(s, b - 1)
  {
    var p := Pow2(64 - b);
    assert Pow2(65 - b) == 2 * p;
    var q, r := s * p / WORD, s * p % WORD;
    assert s * (2 * p) == 2 * (s * p);
    assert s * (2 * p) == WORD * (2 * q) + 2 * r;
    ModShift(2 * r, 2 * q);
  }

  lemma ModShift(r: nat, q: nat)
    ensures (WORD * q + r) % WORD == r % WORD
  {
    var a, b := r / WORD, r % WORD;
    assert WORD * q + r == WORD * (q + a) + b;
    QuotientIs(WORD * q + r, WORD, q + a, b);
  }
}
