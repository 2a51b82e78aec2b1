/** Runs of neighbouring chunks that an operation merges. */
module Merging {
  import opened Sizes
  import opened Chunks
  import opened ChunkGrowth
  import opened Segments
  import opened SegmentGrowth
  import opened Heaps
  import opened HeapGrowth

  /** set_size_and_pinuse_of_free_chunk. */
  function FreeWords(w: Words, p: Addr, s: nat): Words {
    Words(w.head[p := Head(s, false, true)], w.foot[p + s := s])
  }

  /** set_free_with_pinuse. */
  function FreeWithPinuse(w: Words, p: Addr, s: nat): Words
    requires p + s in w.head
  {
    FreeWords(w.(head := w.head[p + s := w.head[p + s].(pinuse := false)]), p, s)
  }

  /** w' are the words after the chunks from a to b have become one free chunk. */
  ghost predicate AreMerged(w: Words, w': Words, a: Addr, b: Addr) {
    a < b && b in w.head && w' == MergeWords(w, a, b)
  }

  /** Both ways of writing a merged chunk are the same when the bit behind it is clear already. */
  lemma MergedWords(w: Words, a: Addr, b: Addr)
    requires a < b && b in w.head
    ensures FreeWithPinuse(w, a, b - a) == MergeWords(w, a, b)
    ensures !w.head[b].pinuse ==> FreeWords(w, a, b - a) == MergeWords(w, a, b)
  {
    assert w.head[b := w.head[b].(pinuse := false)][a := Head(b - a, false, true)]
        == w.head[a := Head(b - a, false, true)][b := w.head[b].(pinuse := false)];
    if !w.head[b].pinuse {
      assert w.head[a := Head(b - a, false, true)][b := w.head[b].(pinuse := false)]
          == w.head[a := Head(b - a, false, true)];
    }
  }

  lemma SegOfChunk(h: Heap, a: Addr) returns (i: nat)
    requires Sound(h) && a in h.t.ck
    ensures i < |h.segs| && InSeg(h.segs, h.t, a, i)
  {
    assert Placed(h.segs, h.t, a);
    i :| i < |h.segs| && InSeg(h.segs, h.t, a, i);
  }

  /** Behind a chunk in use that is not the allocator's own there is a chunk, not a fencepost. */
  lemma NextIsChunk(h: Heap, p: Addr)
    requires Sound(h) && p in h.t.ck && p != h.t.top && !Reserved(h, p)
    ensures Next(h.t, p) in h.t.ck && h.t.ck[p] % 8 == 0 && h.t.ck[p] >= MIN_CHUNK_SIZE && Next(h.t, p) in h.w.head
    ensures p !in h.t.used ==> Next(h.t, p) in h.t.used && !h.w.head[Next(h.t, p)].pinuse
    ensures p in h.t.used ==> h.w.head[Next(h.t, p)].pinuse
    ensures h.w.head[Next(h.t, p)].cinuse == (Next(h.t, p) in h.t.used)
  {
    assert ChunkOk(h.w, h.t, p);
    var n := Next(h.t, p);
    if n !in h.t.ck {
      RecordBeforeFence(h, p);
    }
    TaggedFacts(h.w, h.t, n);
  }

  lemma RecordBeforeFence(h: Heap, p: Addr)
    requires Sound(h) && p in h.t.ck && Next(h.t, p) in h.t.ends
    ensures Reserved(h, p)
  {
    var n := Next(h.t, p);
    assert FencePlaced(h.segs, n);
    var j: nat :| 0 < j < |h.segs| && Fence(h.segs[j]) == n;
    SegFacts(h.segs, h.t);
    var r := RecordChunk(h.segs[j]);
    assert r + h.t.ck[r] == n;
    ChunkFacts(h.w, h.t, p, r);
  }

  lemma RunOne(w: Words, t: Tiling, a: Addr)
    requires Tagged(w, t) && a in t.ck
    ensures Run(t, a, Next(t, a), {})
  {
    assert ChunkOk(w, t, a);
  }

  lemma RunTwo(w: Words, t: Tiling, a: Addr)
    requires Tagged(w, t) && a in t.ck && Next(t, a) in t.ck
    ensures var c := Next(t, a); Run(t, a, Next(t, c), {c})
  {
    var c := Next(t, a);
    assert ChunkOk(w, t, a) && ChunkOk(w, t, c);
  }

  lemma RunThree(w: Words, t: Tiling, a: Addr)
    requires Tagged(w, t) && a in t.ck && Next(t, a) in t.ck && Next(t, Next(t, a)) in t.ck
    ensures var c := Next(t, a); var d := Next(t, c); Run(t, a, Next(t, d), {c, d})
  {
    var c := Next(t, a);
    var d := Next(t, c);
    assert ChunkOk(w, t, a) && ChunkOk(w, t, c) && ChunkOk(w, t, d);
  }

  /** The chunks a, then c, then d, follow one another; the run may stop at a or at c. */
  ghost predicate Chain(t: Tiling, a: Addr, b: Addr, dead: set<Addr>) {
    && a in t.ck
    && var c := Next(t, a);
       || (b == c && dead == {})
       || (c in t.ck && (|| (b == Next(t, c) && dead == {c})
                         || (Next(t, c) in t.ck && b == Next(t, Next(t, c)) && dead == {c, Next(t, c)})))
  }

  /** One chunk, or two. */
  ghost predicate ShortChain(t: Tiling, a: Addr, b: Addr, dead: set<Addr>) {
    && a in t.ck
    && var c := Next(t, a);
       (b == c && dead == {}) || (c in t.ck && b == Next(t, c) && dead == {c})
  }

  lemma ExtendChain(t: Tiling, a: Addr, b: Addr, dead: set<Addr>)
    requires ShortChain(t, a, b, dead)
    ensures Chain(t, a, b, dead)
    ensures b in t.ck ==> Chain(t, a, Next(t, b), dead + {b})
  {
    if b in t.ck && dead == {} {
      assert dead + {b} == {b};
    }
  }

  lemma BehindChain(h: Heap, a: Addr, b: Addr, dead: set<Addr>)
    requires Sound(h) && ShortChain(h.t, a, b, dead)
    ensures b != a && b !in dead
  {
    hide SegsOk, Kept, Owned, Directs, Tagged;
    ChunkFacts(h.w, h.t, a, a);
    if Next(h.t, a) in h.t.ck {
      ChunkFacts(h.w, h.t, Next(h.t, a), a);
    }
  }

  lemma ChainIsRun(h: Heap, a: Addr, b: Addr, dead: set<Addr>) returns (i: nat)
    requires Sound(h) && Chain(h.t, a, b, dead)
    ensures Run(h.t, a, b, dead) && i < |h.segs| && InSeg(h.segs, h.t, a, i) && b <= Limit(h.segs, h.t, i)
    ensures (b - a) % 8 == 0
  {
    hide SegsOk, Kept, Owned, Directs, Tagged, Run;
    i := SegOfChunk(h, a);
    var c := Next(h.t, a);
    ChunkFacts(h.w, h.t, a, a);
    if b == c && dead == {} {
      RunOne(h.w, h.t, a);
    } else {
      ChunkFacts(h.w, h.t, c, c);
      NextInSeg(h.segs, h.t, a, i);
      if b == Next(h.t, c) && dead == {c} {
        RunTwo(h.w, h.t, a);
      } else {
        var d := Next(h.t, c);
        ChunkFacts(h.w, h.t, d, d);
        NextInSeg(h.segs, h.t, c, i);
        RunThree(h.w, h.t, a);
        SumOfEights(h.t.ck[a], h.t.ck[c], h.t.ck[d]);
      }
    }
  }

  lemma SumOfEights(x: nat, y: nat, z: nat)
    requires x % 8 == 0 && y % 8 == 0 && z % 8 == 0
    ensures (x + y + z) % 8 == 0
  {
  }

  /** A chain of chunks in hand before a chunk in use becomes one free chunk in hand. */
  lemma MergeChain(h: Heap, a: Addr, b: Addr, dead: set<Addr>)
    requires Sound(h) && Chain(h.t, a, b, dead) && a in h.loose && dead <= h.loose && b in h.t.ck && b in h.t.used
    requires a in h.w.head && h.w.head[a].pinuse
    ensures a < b && b in h.w.head && b - a >= MIN_CHUNK_SIZE && Sound(Merge(h, a, b, dead))
  {
    hide SegsOk, Kept, Owned, Directs, Tagged, Chain, ChunkOk, Run;
    var i := ChainIsRun(h, a, b, dead);
    LooseNotTop(h, a);
    TopNotLoose(h, dead);
    ChainRoom(h, a, b, dead);
    MergeKeepsSound(h, a, b, dead, i);
  }

  lemma ChainRoom(h: Heap, a: Addr, b: Addr, dead: set<Addr>)
    requires Sound(h) && Chain(h.t, a, b, dead) && a != h.t.top && a in h.t.ck
    ensures b - a >= MIN_CHUNK_SIZE
  {
    hide SegsOk, Kept, Owned, Directs;
    assert ChunkOk(h.w, h.t, a);
    var c := Next(h.t, a);
    assert c in h.t.ck ==> ChunkOk(h.w, h.t, c);
    assert c in h.t.ck && Next(h.t, c) in h.t.ck ==> ChunkOk(h.w, h.t, Next(h.t, c));
  }

  lemma LooseNotTop(h: Heap, a: Addr)
    requires Sound(h) && a in h.loose
    ensures a != h.t.top && a in h.t.ck
  {
    assert KeptAt(h, a);
    TopIsFree(h);
  }

  lemma TopNotLoose(h: Heap, dead: set<Addr>)
    requires Sound(h) && dead <= h.loose
    ensures h.t.top !in dead
  {
    TopIsFree(h);
  }

  /** A chain of chunks in hand that ends with top becomes top. */
  lemma MergeTopChain(h: Heap, a: Addr, dead: set<Addr>)
    requires Sound(h) && h.t.top in h.t.ck && Chain(h.t, a, Next(h.t, h.t.top), dead) && a in h.loose
             && dead <= h.loose + {h.t.top} && h.t.top in dead
    requires a in h.w.head && h.w.head[a].pinuse
    ensures a < Next(h.t, h.t.top) && Sound(MergeTop(h, a, Next(h.t, h.t.top), dead))
  {
    hide SegsOk, Kept, Owned, Directs, Tagged, Chain, Run;
    var b := Next(h.t, h.t.top);
    var i := ChainIsRun(h, a, b, dead);
    RunStarts(h.t, a, b, dead);
    InTopSeg(h, a, b, i);
    MergeTopKeepsSound(h, a, b, dead);
  }

  lemma RunStarts(t: Tiling, a: Addr, b: Addr, dead: set<Addr>)
    requires Run(t, a, b, dead)
    ensures a < b
  {
  }

  lemma InTopSeg(h: Heap, a: Addr, b: Addr, i: nat)
    requires Sound(h) && h.t.top in h.t.ck && b == Next(h.t, h.t.top) && i < |h.segs| && a < b
    requires InSeg(h.segs, h.t, a, i) && b <= Limit(h.segs, h.t, i)
    ensures i == 0
  {
    SegFacts(h.segs, h.t);
    assert SegOk(h.segs, h.t, i) && SegOk(h.segs, h.t, 0);
    LimitInside(h.segs, h.t, i);
    LimitInside(h.segs, h.t, 0);
    OneSeg(h.segs, 0, i, b);
  }
}
