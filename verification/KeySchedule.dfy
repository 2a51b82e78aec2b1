/** How a key fills the tables: its bytes, repeated, are added to the subkeys, and then the evolving cipher overwrites
    every word. */
module KeySchedule {
  import opened Blowfish
  import opened CipherModes

  const KEY_LIMIT := 56
  const STEPS := 521

  // ----- the repeated key -----

  /** Word i of the key, repeated without end. */
  function KeyWord(key: seq<bv8>, i: nat): bv32
    requires |key| > 0
  {
    Word(key[(4 * i) % |key|], key[(4 * i + 1) % |key|], key[(4 * i + 2) % |key|], key[(4 * i + 3) % |key|])
  }

  function Keyed(t: Tables, key: seq<bv8>): (t': Tables)
    requires Shaped(t) && |key| > 0
    ensures Shaped(t')
  {
    t.(p := seq(18, i requires 0 <= i < 18 => Add(t.p[i], KeyWord(key, i))))
  }

  /** The word so far when bytes are shifted in from the right. */
  function ShiftIn(x: bv32, b: bv8): bv32 {
    (x << 8) | (b as bv32)
  }

  lemma FourShifts(a: bv8, b: bv8, c: bv8, d: bv8)
    ensures ShiftIn(ShiftIn(ShiftIn(ShiftIn(0, a), b), c), d) == Word(a, b, c, d)
  {
  }

  function Shifted(key: seq<bv8>, a: nat, m: nat): bv32
    requires |key| > 0
  {
    if m == 0 then 0 else ShiftIn(Shifted(key, a, m - 1), key[(a + m - 1) % |key|])
  }

  lemma ShiftedIsWord(key: seq<bv8>, i: nat)
    requires |key| > 0
    ensures Shifted(key, 4 * i, 4) == KeyWord(key, i)
  {
    hide ShiftIn, Word;
    var a := 4 * i;
    FourShifts(key[a % |key|], key[(a + 1) % |key|], key[(a + 2) % |key|], key[(a + 3) % |key|]);
    assert Shifted(key, a, 1) == ShiftIn(0, key[a % |key|]) by {
      assert Shifted(key, a, 0) == 0;
    }
    assert Shifted(key, a, 2) == ShiftIn(Shifted(key, a, 1), key[(a + 1) % |key|]);
    assert Shifted(key, a, 3) == ShiftIn(Shifted(key, a, 2), key[(a + 2) % |key|]);
    assert Shifted(key, a, 4) == ShiftIn(Shifted(key, a, 3), key[(a + 3) % |key|]);
  }

  /** Counting up and starting over at k is counting modulo k. */
  lemma NextCyclic(a: nat, k: nat)
    requires k > 0
    ensures (a + 1) % k == if a % k + 1 == k then 0 else a % k + 1
  {
    var q, r := a / k, a % k;
    assert a + 1 == q * k + (r + 1);
    if r + 1 == k {
      assert a + 1 == (q + 1) * k;
      Remainder(a + 1, q + 1, 0, k);
    } else {
      Remainder(a + 1, q, r + 1, k);
    }
  }

  lemma Remainder(x: nat, q: nat, r: nat, k: nat)
    requires k > 0 && r < k && x == q * k + r
    ensures x % k == r
  {
    var d := x / k - q;
    assert d * k == r - x % k;
  }

  // ----- the evolving cipher -----

  function Half(b: Block, w: nat): bv32 {
    if w % 2 == 0 then b.l else b.r
  }

  /** Word w of the tables, subkeys first and then the boxes row by row, when the blocks bs lie over the first ones. */
  function Over(bs: seq<Block>, w: nat, below: bv32): bv32 {
    if w < 2 * |bs| then Half(bs[w / 2], w) else below
  }

  function Overlaid(t: Tables, bs: seq<Block>): (t': Tables)
    requires Shaped(t)
    ensures Shaped(t')
  {
    Tables(seq(18, i requires 0 <= i < 18 => Over(bs, i, t.p[i])),
           seq(4, j requires 0 <= j < 4 => seq(256, k requires 0 <= k < 256 => Over(bs, 18 + 256 * j + k, t.s[j][k]))))
  }

  /** Each block enciphers the one before it with the tables as all earlier blocks have left them. */
  ghost predicate Chained(t: Tables, bs: seq<Block>)
    requires Shaped(t)
  {
    forall m: nat :: m < |bs| ==> bs[m] == Encipher(Overlaid(t, bs[..m]), Last(bs[..m]))
  }

  function Last(bs: seq<Block>): Block {
    if |bs| == 0 then ZERO else bs[|bs| - 1]
  }

  ghost predicate Scheduled(t0: Tables, key: seq<bv8>, t: Tables)
    requires Shaped(t0) && |key| > 0
  {
    exists bs: seq<Block> :: |bs| == STEPS && Chained(Keyed(t0, key), bs) && t == Overlaid(Keyed(t0, key), bs)
  }

  lemma {:induction false} ChainUnique(t: Tables, bs: seq<Block>, bs': seq<Block>)
    requires Shaped(t) && |bs| == |bs'| && Chained(t, bs) && Chained(t, bs')
    ensures bs == bs'
    decreases |bs|
  {
    hide Encipher, Overlaid, Shaped;
    if |bs| > 0 {
      var m := |bs| - 1;
      ChainPrefix(t, bs);
      ChainPrefix(t, bs');
      ChainUnique(t, bs[..m], bs'[..m]);
      assert bs == bs[..m] + [bs[m]] && bs' == bs'[..m] + [bs'[m]];
    }
  }

  lemma ChainPrefix(t: Tables, bs: seq<Block>)
    requires Shaped(t) && |bs| > 0 && Chained(t, bs)
    ensures Chained(t, bs[..|bs| - 1])
  {
    hide Encipher, Overlaid, Shaped, Last;
    var c := bs[..|bs| - 1];
    forall m: nat | m < |c|
      ensures c[m] == Encipher(Overlaid(t, c[..m]), Last(c[..m]))
    {
      assert c[..m] == bs[..m];
    }
  }

  /** The key determines the tables. */
  lemma ScheduleUnique(t0: Tables, key: seq<bv8>, t: Tables, t': Tables)
    requires Shaped(t0) && |key| > 0 && Scheduled(t0, key, t) && Scheduled(t0, key, t')
    ensures t == t'
  {
    hide Chained, Overlaid, Keyed, Shaped;
    var bs: seq<Block> :| |bs| == STEPS && Chained(Keyed(t0, key), bs) && t == Overlaid(Keyed(t0, key), bs);
    var bs': seq<Block> :| |bs'| == STEPS && Chained(Keyed(t0, key), bs') && t' == Overlaid(Keyed(t0, key), bs');
    ChainUnique(Keyed(t0, key), bs, bs');
  }

  /** No word of the initial tables is left. */
  lemma AllOverlaid(t: Tables, t': Tables, bs: seq<Block>)
    requires Shaped(t) && Shaped(t') && |bs| == STEPS
    ensures Overlaid(t, bs) == Overlaid(t', bs)
  {
    assert forall j: nat :: j < 4 ==> Overlaid(t, bs).s[j] == Overlaid(t', bs).s[j];
  }

  lemma NothingOverlaid(t: Tables)
    requires Shaped(t)
    ensures Overlaid(t, []) == t
  {
    assert forall j: nat :: j < 4 ==> Overlaid(t, []).s[j] == t.s[j];
  }

  lemma EmptyChain(t: Tables)
    requires Shaped(t)
    ensures Chained(t, [])
  {
  }

  lemma ChainOneMore(t: Tables, bs: seq<Block>)
    requires Shaped(t) && Chained(t, bs)
    ensures Chained(t, bs + [Encipher(Overlaid(t, bs), Last(bs))])
  {
    hide Encipher, Overlaid, Shaped, Last;
    var c := bs + [Encipher(Overlaid(t, bs), Last(bs))];
    forall m: nat | m < |c|
      ensures c[m] == Encipher(Overlaid(t, c[..m]), Last(c[..m]))
    {
      assert c[..m] == bs[..m];
      assert m == |bs| ==> bs[..m] == bs;
    }
  }

  lemma OverlayP(t: Tables, bs: seq<Block>, b: Block, i: nat)
    requires Shaped(t) && i == 2 * |bs| < 18
    ensures var o := Overlaid(t, bs); Overlaid(t, bs + [b]) == o.(p := o.p[i := b.l][i + 1 := b.r])
  {
    var o, o' := Overlaid(t, bs), Overlaid(t, bs + [b]);
    forall j: nat | j < 4
      ensures o'.s[j] == o.s[j]
    {
    }
    assert o'.s == o.s;
    assert o'.p == o.p[i := b.l][i + 1 := b.r];
  }

  lemma OverlayS(t: Tables, bs: seq<Block>, b: Block, j: nat, k: nat)
    requires Shaped(t) && j < 4 && k < 255 && 18 + 256 * j + k == 2 * |bs|
    ensures var o := Overlaid(t, bs); Overlaid(t, bs + [b]) == o.(s := o.s[j := o.s[j][k := b.l][k + 1 := b.r]])
  {
    var o, o' := Overlaid(t, bs), Overlaid(t, bs + [b]);
    forall l: nat | l < 4
      ensures o'.s[l] == if l == j then o.s[j][k := b.l][k + 1 := b.r] else o.s[l]
    {
    }
    assert o'.s == o.s[j := o.s[j][k := b.l][k + 1 := b.r]];
    assert o'.p == o.p;
  }
}
