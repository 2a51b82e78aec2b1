/** The Blowfish block cipher over arbitrary subkey and substitution tables. */
module Blowfish {
  import opened Sums

  datatype Block = Block(l: bv32, r: bv32)

  const ZERO := Block(0, 0)

  /** Bitwise exclusive or; proofs use its laws only. */
  function Add(x: bv32, y: bv32): bv32 {
    x ^ y
  }

  lemma AddLaws(x: bv32, y: bv32, z: bv32)
    ensures Add(Add(x, y), z) == Add(x, Add(y, z))
    ensures Add(x, y) == Add(y, x)
    ensures Add(x, x) == 0
    ensures Add(x, 0) == x
  {
    hide Add;
    AddAssociates(x, y, z);
    AddCommutes(x, y);
    AddZero(x);
  }

  lemma AddAssociates(x: bv32, y: bv32, z: bv32)
    ensures Add(Add(x, y), z) == Add(x, Add(y, z))
  {
  }

  lemma AddCommutes(x: bv32, y: bv32)
    ensures Add(x, y) == Add(y, x)
  {
  }

  lemma AddZero(x: bv32)
    ensures Add(x, x) == 0 && Add(x, 0) == x
  {
  }

  lemma AddTwice(x: bv32, y: bv32)
    ensures Add(Add(x, y), y) == x
  {
  }

  function Xor(a: Block, b: Block): Block {
    Block(Add(a.l, b.l), Add(a.r, b.r))
  }

  lemma XorTwice(a: Block, b: Block)
    ensures Xor(Xor(a, b), b) == a
  {
    hide Add;
    AddTwice(a.l, b.l);
    AddTwice(a.r, b.r);
  }

  /** The eighteen subkeys and the four substitution boxes. */
  datatype Tables = Tables(p: seq<bv32>, s: seq<seq<bv32>>)

  ghost predicate Boxes(s: seq<seq<bv32>>) {
    |s| == 4 && forall j: nat :: j < 4 ==> |s[j]| == 256
  }

  ghost predicate Shaped(t: Tables) {
    |t.p| == 18 && Boxes(t.s)
  }

  function Byte(x: bv32): bv8 {
    (x & 0xff) as bv8
  }

  function Cell(s: seq<seq<bv32>>, j: nat, i: bv8): bv32
    requires Boxes(s) && j < 4
  {
    s[j][i as int]
  }

  function F(s: seq<seq<bv32>>, x: bv32): bv32
    requires Boxes(s)
  {
    Plus(Add(Plus(Cell(s, 0, Byte(x >> 24)), Cell(s, 1, Byte(x >> 16))), Cell(s, 2, Byte(x >> 8))), Cell(s, 3, Byte(x)))
  }

  // ----- the sixteen-round network -----

  /** One round adds its subkey to the left half, mixes that into the right half and swaps the two. */
  function Round(s: seq<seq<bv32>>, k: bv32, w: Block): Block
    requires Boxes(s)
  {
    Block(Add(w.r, F(s, Add(w.l, k))), Add(w.l, k))
  }

  /** The two halves before round i. */
  function Before(t: Tables, b: Block, i: nat): Block
    requires Shaped(t) && i <= 16
  {
    if i == 0 then b else Round(t.s, t.p[i - 1], Before(t, b, i - 1))
  }

  /** All sixteen rounds, with the last swap undone and the last two subkeys added. */
  function Network(t: Tables, b: Block): Block
    requires Shaped(t)
  {
    var w := Before(t, b, 16);
    Block(Add(w.r, t.p[17]), Add(w.l, t.p[16]))
  }

  function Reversed(p: seq<bv32>): (q: seq<bv32>)
    ensures |q| == |p| && forall i :: 0 <= i < |p| ==> q[i] == p[|p| - 1 - i]
  {
    seq(|p|, i requires 0 <= i < |p| => p[|p| - 1 - i])
  }

  /** The same boxes with the subkeys in reverse order. */
  function Mirrored(t: Tables): (m: Tables)
    ensures Shaped(t) ==> Shaped(m)
  {
    t.(p := Reversed(t.p))
  }

  lemma MirroredTwice(t: Tables)
    requires Shaped(t)
    ensures Mirrored(Mirrored(t)) == t
  {
    assert Reversed(Reversed(t.p)) == t.p;
  }

  /** With the subkey of the round behind it added, a round is undone by the round with that subkey. */
  lemma RoundUndone(s: seq<seq<bv32>>, k: bv32, next: bv32, after: bv32, w: Block)
    requires Boxes(s)
    ensures var x := Round(s, k, w);
            Round(s, after, Block(Add(x.r, after), Add(x.l, next))) == Block(Add(w.r, next), Add(w.l, k))
  {
    hide Add, F, Boxes;
    var m := Add(w.l, k);
    var f := F(s, m);
    AddTwice(m, after);
    AddLaws(w.r, f, next);
    AddLaws(f, next, f);
    AddLaws(w.r, Add(f, next), f);
    AddLaws(next, f, f);
    AddTwice(next, f);
  }

  /** Round j of the mirrored network undoes round 16 - j of the network. */
  lemma {:induction false} RoundsUndone(t: Tables, b: Block, j: nat)
    requires Shaped(t) && j <= 16
    ensures var w := Before(t, b, 16 - j);
            Before(Mirrored(t), Network(t, b), j) == Block(Add(w.r, t.p[17 - j]), Add(w.l, t.p[16 - j]))
  {
    hide Add, F, Boxes, Round;
    if j > 0 {
      RoundsUndone(t, b, j - 1);
      RoundUndone(t.s, t.p[16 - j], t.p[17 - j], t.p[18 - j], Before(t, b, 16 - j));
    }
  }

  lemma MirrorInverts(t: Tables, b: Block)
    requires Shaped(t)
    ensures Network(Mirrored(t), Network(t, b)) == b
  {
    hide Add, F, Boxes, Round;
    RoundsUndone(t, b, 16);
    AddTwice(b.l, t.p[0]);
    AddTwice(b.r, t.p[1]);
  }

  function Encipher(t: Tables, b: Block): Block
    requires Shaped(t)
  {
    Network(t, b)
  }

  function Decipher(t: Tables, b: Block): Block
    requires Shaped(t)
  {
    Network(Mirrored(t), b)
  }

  /** For all tables, deciphering and enciphering undo each other on every block. */
  lemma CipherInverts(t: Tables, b: Block)
    requires Shaped(t)
    ensures Decipher(t, Encipher(t, b)) == b && Encipher(t, Decipher(t, b)) == b
  {
    hide Network, Reversed;
    MirrorInverts(t, b);
    MirrorInverts(Mirrored(t), b);
    MirroredTwice(t);
  }

  // ----- the unrolled form -----

  /** u and v are the halves of the unrolled code with the subkey of round i already added to u. */
  ghost predicate At(t: Tables, b: Block, i: nat, u: bv32, v: bv32)
    requires Shaped(t)
  {
    i <= 16 && var w := Before(t, b, i); u == Add(w.l, t.p[i]) && v == w.r
  }

  lemma AtStart(t: Tables, b: Block)
    requires Shaped(t)
    ensures At(t, b, 0, Add(b.l, t.p[0]), b.r)
  {
    hide Add;
  }

  lemma Advance(t: Tables, b: Block, i: nat, u: bv32, v: bv32)
    requires Shaped(t) && i < 16 && At(t, b, i, u, v)
    ensures At(t, b, i + 1, Add(v, Add(F(t.s, u), t.p[i + 1])), u)
  {
    hide Add, F, Boxes;
    AddLaws(v, F(t.s, u), t.p[i + 1]);
  }

  lemma AtEnd(t: Tables, b: Block, u: bv32, v: bv32)
    requires Shaped(t) && At(t, b, 16, u, v)
    ensures Network(t, b) == Block(Add(v, t.p[17]), u)
  {
    hide Add, F, Boxes;
  }
}
