/** Boundary tags: the head and foot words of the chunks that tile the segments of an mspace. */
module Chunks {
  import opened Sizes

  /** A head word: the chunk size with its in-use bit (C) and the in-use bit of the chunk before it (P). */
  datatype Head = Head(size: nat, cinuse: bool, pinuse: bool)

  /** The head word and the prev_foot word at each chunk address. */
  datatype Words = Words(head: map<Addr, Head>, foot: map<Addr, int>)

  /** Which chunks the words stand for: sizes by start, the starts in use, the top chunk, and the fenceposts. */
  datatype Tiling = Tiling(ck: map<Addr, nat>, used: set<Addr>, top: Addr, ends: set<Addr>)

  function Next(t: Tiling, p: Addr): Addr
    requires p in t.ck
  {
    p + t.ck[p]
  }

  /** What do_check_inuse_chunk, do_check_free_chunk and do_check_top_chunk ask of one chunk. */
  ghost predicate ChunkOk(w: Words, t: Tiling, p: Addr)
    requires p in t.ck
  {
    var n := Next(t, p);
    && p > 0 && p % 8 == 0 && t.ck[p] % 8 == 0 && t.ck[p] > 0
    && p in w.head && w.head[p].size == t.ck[p] && w.head[p].cinuse == (p in t.used)
    && n in w.head
    && (if p == t.top then
          p !in t.used && w.head[p].pinuse && !w.head[n].pinuse
        else
          t.ck[p] >= MIN_CHUNK_SIZE && (n in t.ck || n in t.ends) && w.head[n].pinuse == (p in t.used))
    && (p !in t.used && p != t.top ==> n in t.ck && n in t.used && n in w.foot && w.foot[n] == t.ck[p])
    && (!w.head[p].pinuse ==>
          p in w.foot &&
          var q := p - w.foot[p];
          q in t.ck && q !in t.used && q != t.top && t.ck[q] == w.foot[p])
  }

  /** No chunk reaches into another one, into a fencepost or into the foot of top. */
  ghost predicate Apart(ck: map<Addr, nat>, top: Addr, ends: set<Addr>) {
    && (forall p: Addr, q: Addr :: p in ck && q in ck && p < q ==> p + ck[p] <= q)
    && (forall p: Addr, e: Addr :: p in ck && e in ends ==> e < p || p + ck[p] <= e)
    && top in ck && top + ck[top] !in ends && top + ck[top] !in ck
  }

  ghost predicate Fenced(w: Words, t: Tiling) {
    forall e :: e in t.ends ==> e in w.head && w.head[e].cinuse && w.head[e].pinuse
  }

  ghost predicate Tagged(w: Words, t: Tiling) {
    && t.top in t.ck && t.used <= t.ck.Keys
    && Apart(t.ck, t.top, t.ends) && Fenced(w, t)
    && (forall p {:trigger ChunkOk(w, t, p)} :: p in t.ck ==> ChunkOk(w, t, p))
  }

  // ----- taking a free chunk whole -----

  /** set_inuse_and_pinuse. */
  function SetInuseAndPinuse(w: Words, p: Addr, s: nat, cookie: int): Words
    requires p + s in w.head
  {
    Words(w.head[p := Head(s, true, true)][p + s := w.head[p + s].(pinuse := true)], w.foot[p + s := cookie])
  }

  lemma TakeWholeAt(w: Words, t: Tiling, p: Addr, cookie: int, q: Addr)
    requires Apart(t.ck, t.top, t.ends) && p in t.ck && p !in t.used && p != t.top && t.top in t.ck && ChunkOk(w, t, p)
    requires q in t.ck && ChunkOk(w, t, q)
    ensures ChunkOk(SetInuseAndPinuse(w, p, t.ck[p], cookie), t.(used := t.used + {p}), q)
  {
  }

  lemma TakeWholeKeepsTags(w: Words, t: Tiling, p: Addr, cookie: int)
    requires Tagged(w, t) && p in t.ck && p !in t.used && p != t.top
    ensures ChunkOk(w, t, p) && Tagged(SetInuseAndPinuse(w, p, t.ck[p], cookie), t.(used := t.used + {p}))
  {
    assert ChunkOk(w, t, p);
    var w', t' := SetInuseAndPinuse(w, p, t.ck[p], cookie), t.(used := t.used + {p});
    forall q {:trigger ChunkOk(w', t', q)} | q in t'.ck
      ensures ChunkOk(w', t', q)
    {
      assert ChunkOk(w, t, q);
      TakeWholeAt(w, t, p, cookie, q);
    }
    assert Fenced(w', t');
  }

  // ----- taking the front of a free chunk -----

  /** set_size_and_pinuse_of_inuse_chunk for the front, set_size_and_pinuse_of_free_chunk for the rest. */
  function SplitWords(w: Words, p: Addr, nb: nat, rsize: nat, cookie: int): Words {
    var r := p + nb;
    Words(w.head[p := Head(nb, true, true)][r := Head(rsize, false, true)], w.foot[r := cookie][r + rsize := rsize])
  }

  function SplitTiling(t: Tiling, p: Addr, nb: nat, rsize: nat): Tiling {
    t.(ck := t.ck[p := nb][p + nb := rsize], used := t.used + {p})
  }

  ghost predicate CanSplit(t: Tiling, p: Addr, nb: nat, rsize: nat) {
    && p in t.ck && p !in t.used && t.ck[p] == nb + rsize
    && nb % 8 == 0 && nb >= MIN_CHUNK_SIZE && rsize > 0
  }

  lemma SplitAt(w: Words, t: Tiling, p: Addr, nb: nat, rsize: nat, cookie: int, q: Addr)
    requires Apart(t.ck, t.top, t.ends) && CanSplit(t, p, nb, rsize) && p != t.top && rsize >= MIN_CHUNK_SIZE
    requires t.used <= t.ck.Keys && ChunkOk(w, t, p) && (q == p + nb || (q in t.ck && ChunkOk(w, t, q)))
    ensures ChunkOk(SplitWords(w, p, nb, rsize, cookie), SplitTiling(t, p, nb, rsize), q)
  {
    hide ChunkOk, SplitWords, SplitTiling;
    assert p + nb !in t.ck;
    if q == p || q == p + nb {
      SplitHere(w, t, p, nb, rsize, cookie, q);
    } else {
      SplitElsewhere(w, t, p, nb, rsize, cookie, q);
    }
  }

  lemma SplitHere(w: Words, t: Tiling, p: Addr, nb: nat, rsize: nat, cookie: int, q: Addr)
    requires CanSplit(t, p, nb, rsize) && p != t.top && rsize >= MIN_CHUNK_SIZE && p + nb !in t.ck && t.top in t.ck
    requires t.used <= t.ck.Keys && ChunkOk(w, t, p) && (q == p || q == p + nb)
    ensures ChunkOk(SplitWords(w, p, nb, rsize, cookie), SplitTiling(t, p, nb, rsize), q)
  {
  }

  lemma SplitElsewhere(w: Words, t: Tiling, p: Addr, nb: nat, rsize: nat, cookie: int, q: Addr)
    requires Apart(t.ck, t.top, t.ends) && CanSplit(t, p, nb, rsize) && p != t.top && rsize >= MIN_CHUNK_SIZE
    requires t.used <= t.ck.Keys && ChunkOk(w, t, p) && q in t.ck && ChunkOk(w, t, q) && q != p && q != p + nb
    ensures ChunkOk(SplitWords(w, p, nb, rsize, cookie), SplitTiling(t, p, nb, rsize), q)
  {
  }

  lemma SplitApart(t: Tiling, p: Addr, nb: nat, rsize: nat)
    requires Apart(t.ck, t.top, t.ends) && CanSplit(t, p, nb, rsize)
    ensures p != t.top ==> Apart(t.ck[p := nb][p + nb := rsize], t.top, t.ends)
    ensures p == t.top ==> Apart(t.ck[p := nb][p + nb := rsize], p + nb, t.ends)
  {
  }

  lemma SplitKeepsTags(w: Words, t: Tiling, p: Addr, nb: nat, rsize: nat, cookie: int)
    requires Tagged(w, t) && CanSplit(t, p, nb, rsize) && p != t.top && rsize >= MIN_CHUNK_SIZE
    ensures Tagged(SplitWords(w, p, nb, rsize, cookie), SplitTiling(t, p, nb, rsize))
  {
    var w', t' := SplitWords(w, p, nb, rsize, cookie), SplitTiling(t, p, nb, rsize);
    assert ChunkOk(w, t, p);
    SplitApart(t, p, nb, rsize);
    forall q {:trigger ChunkOk(w', t', q)} | q in t'.ck
      ensures ChunkOk(w', t', q)
    {
      if q != p + nb {
        assert ChunkOk(w, t, q);
      }
      SplitAt(w, t, p, nb, rsize, cookie, q);
    }
  }

  // ----- taking the front of top -----

  function SplitTopWords(w: Words, p: Addr, nb: nat, rsize: nat, cookie: int): Words {
    Words(w.head[p + nb := Head(rsize, false, true)][p := Head(nb, true, true)], w.foot[p + nb := cookie])
  }

  lemma SplitTopAt(w: Words, t: Tiling, nb: nat, rsize: nat, cookie: int, q: Addr)
    requires Apart(t.ck, t.top, t.ends) && CanSplit(t, t.top, nb, rsize)
    requires t.used <= t.ck.Keys && ChunkOk(w, t, t.top) && (q == t.top + nb || (q in t.ck && ChunkOk(w, t, q)))
    ensures ChunkOk(SplitTopWords(w, t.top, nb, rsize, cookie), SplitTiling(t, t.top, nb, rsize).(top := t.top + nb), q)
  {
  }

  lemma SplitTopKeepsTags(w: Words, t: Tiling, nb: nat, rsize: nat, cookie: int)
    requires Tagged(w, t) && CanSplit(t, t.top, nb, rsize)
    ensures Tagged(SplitTopWords(w, t.top, nb, rsize, cookie), SplitTiling(t, t.top, nb, rsize).(top := t.top + nb))
  {
    var w', t' := SplitTopWords(w, t.top, nb, rsize, cookie), SplitTiling(t, t.top, nb, rsize).(top := t.top + nb);
    assert ChunkOk(w, t, t.top);
    SplitApart(t, t.top, nb, rsize);
    forall q {:trigger ChunkOk(w', t', q)} | q in t'.ck
      ensures ChunkOk(w', t', q)
    {
      if q != t.top + nb {
        assert ChunkOk(w, t, q);
      }
      SplitTopAt(w, t, nb, rsize, cookie, q);
    }
  }

  // ----- merging a run of chunks into one free chunk -----

  /** The chunks that start in [a, b) are a itself and the ones in dead. */
  ghost predicate Run(t: Tiling, a: Addr, b: Addr, dead: set<Addr>) {
    && a in t.ck && a !in dead && dead <= t.ck.Keys && a < b
    && (forall q: Addr :: q in t.ck ==> (a <= q < b <==> q == a || q in dead))
  }

  function MergeTiling(t: Tiling, a: Addr, b: Addr, dead: set<Addr>): Tiling
    requires a < b
  {
    t.(ck := (t.ck - dead)[a := b - a], used := t.used - dead - {a})
  }

  /** The head and foot of the merged chunk, and the cleared pinuse bit behind it. */
  function MergeWords(w: Words, a: Addr, b: Addr): Words
    requires a < b && b in w.head
  {
    Words(w.head[a := Head(b - a, false, true)][b := w.head[b].(pinuse := false)], w.foot[b := b - a])
  }

  ghost predicate CanMerge(w: Words, t: Tiling, a: Addr, b: Addr, dead: set<Addr>) {
    && Run(t, a, b, dead) && a != t.top && t.top !in dead && b in t.ck && b in t.used
    && a in w.head && w.head[a].pinuse && b - a >= MIN_CHUNK_SIZE && (b - a) % 8 == 0
  }

  lemma MergeHere(w: Words, t: Tiling, a: Addr, b: Addr, dead: set<Addr>)
    requires CanMerge(w, t, a, b, dead) && ChunkOk(w, t, a) && ChunkOk(w, t, b)
    ensures ChunkOk(MergeWords(w, a, b), MergeTiling(t, a, b, dead), a)
  {
  }

  lemma MergeBehind(w: Words, t: Tiling, a: Addr, b: Addr, dead: set<Addr>)
    requires Apart(t.ck, t.top, t.ends) && CanMerge(w, t, a, b, dead) && ChunkOk(w, t, b)
    ensures ChunkOk(MergeWords(w, a, b), MergeTiling(t, a, b, dead), b)
  {
  }

  /** A chunk outside the run keeps its neighbours. */
  lemma MergeElsewhere(w: Words, t: Tiling, a: Addr, b: Addr, dead: set<Addr>, q: Addr)
    requires Apart(t.ck, t.top, t.ends) && CanMerge(w, t, a, b, dead) && b in w.head
    requires ChunkOk(w, t, a) && q in t.ck && q !in dead && q != a && q != b && ChunkOk(w, t, q)
    ensures ChunkOk(MergeWords(w, a, b), MergeTiling(t, a, b, dead), q)
  {
    var n := Next(t, q);
    assert n != a || q in t.used;
    assert n in t.ck ==> n !in dead;
  }

  lemma MergeApart(t: Tiling, a: Addr, b: Addr, dead: set<Addr>)
    requires Apart(t.ck, t.top, t.ends) && Run(t, a, b, dead) && a != t.top && t.top !in dead && b in t.ck
    requires forall e :: e in t.ends ==> e < a || b <= e
    ensures Apart(MergeTiling(t, a, b, dead).ck, t.top, t.ends)
  {
  }

  lemma MergeKeepsTags(w: Words, t: Tiling, a: Addr, b: Addr, dead: set<Addr>)
    requires Tagged(w, t) && CanMerge(w, t, a, b, dead)
    requires forall e :: e in t.ends ==> e < a || b <= e
    ensures b in w.head && Tagged(MergeWords(w, a, b), MergeTiling(t, a, b, dead))
  {
    assert ChunkOk(w, t, a) && ChunkOk(w, t, b);
    var w', t' := MergeWords(w, a, b), MergeTiling(t, a, b, dead);
    MergeApart(t, a, b, dead);
    forall q {:trigger ChunkOk(w', t', q)} | q in t'.ck
      ensures ChunkOk(w', t', q)
    {
      if q == a {
        MergeHere(w, t, a, b, dead);
      } else if q == b {
        MergeBehind(w, t, a, b, dead);
      } else {
        assert ChunkOk(w, t, q);
        MergeElsewhere(w, t, a, b, dead, q);
      }
    }
  }

  // ----- merging a run of chunks into top -----

  function MergeTopTiling(t: Tiling, a: Addr, b: Addr, dead: set<Addr>): Tiling
    requires a < b
  {
    MergeTiling(t, a, b, dead).(top := a)
  }

  function MergeTopWords(w: Words, a: Addr, b: Addr): Words
    requires a < b
  {
    Words(w.head[a := Head(b - a, false, true)], w.foot)
  }

  ghost predicate CanMergeTop(w: Words, t: Tiling, a: Addr, b: Addr, dead: set<Addr>) {
    && Run(t, a, b, dead) && t.top in dead && b == t.top + t.ck[t.top]
    && a in w.head && w.head[a].pinuse && (b - a) % 8 == 0
  }

  lemma MergeTopAt(w: Words, t: Tiling, a: Addr, b: Addr, dead: set<Addr>, q: Addr)
    requires Apart(t.ck, t.top, t.ends) && CanMergeTop(w, t, a, b, dead)
    requires ChunkOk(w, t, a) && ChunkOk(w, t, t.top) && q in t.ck && q !in dead && ChunkOk(w, t, q)
    ensures ChunkOk(MergeTopWords(w, a, b), MergeTopTiling(t, a, b, dead), q)
  {
    var n := Next(t, q);
    assert q != a ==> n != a || q in t.used;
    assert q != a && n in t.ck ==> n !in dead;
  }

  lemma MergeTopKeepsTags(w: Words, t: Tiling, a: Addr, b: Addr, dead: set<Addr>)
    requires Tagged(w, t) && CanMergeTop(w, t, a, b, dead)
    requires forall e :: e in t.ends ==> e < a || b < e
    ensures Tagged(MergeTopWords(w, a, b), MergeTopTiling(t, a, b, dead))
  {
    assert ChunkOk(w, t, a) && ChunkOk(w, t, t.top);
    var w', t' := MergeTopWords(w, a, b), MergeTopTiling(t, a, b, dead);
    forall q {:trigger ChunkOk(w', t', q)} | q in t'.ck
      ensures ChunkOk(w', t', q)
    {
      assert ChunkOk(w, t, q);
      MergeTopAt(w, t, a, b, dead, q);
    }
  }
}
