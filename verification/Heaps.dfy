/** The heap invariant of an mspace: chunks, bins, owners and directly mapped chunks, over all that the state says. */
module Heaps {
  import opened Sizes
  import opened Chunks
  import opened ChunkGrowth
  import opened Segments
  import opened System

  /** The size of the chunk that holds the malloc_state itself. */
  const MSTATE_CHUNK: nat := 1024
  const MMAP_FOOT_PAD: nat := 32

  /** A directly mapped region. */
  datatype Region = Region(base: Addr, size: nat)

  /** A heap: memory words, the chunks they stand for, the segments, the chunks callers hold with their sizes, the
      directly mapped chunks with their regions, the chunks in the small bins, in the trees, as dv, and the chunks, free
      or in use, that an operation has in hand. home is the chunk of the malloc_state, cookie the footer of a chunk in
      use. */
  datatype Heap = Heap(w: Words, t: Tiling, segs: seq<Seg>, held: map<Addr, nat>, direct: map<Addr, Region>,
                       small: map<Addr, nat>, large: map<Addr, nat>, victim: map<Addr, nat>, loose: set<Addr>,
                       home: Addr, cookie: int)

  // ----- every free chunk is in one place -----

  ghost predicate IsFree(t: Tiling, p: Addr) {
    p in t.ck && p !in t.used && p != t.top
  }

  ghost predicate ExactlyOne(a: bool, b: bool, c: bool, d: bool) {
    (a || b || c || d) && !(a && b) && !(a && c) && !(a && d) && !(b && c) && !(b && d) && !(c && d)
  }

  /** A free chunk is in exactly one of the small bins, the trees, dv and the hand; nothing else is in a bin. */
  ghost predicate KeptAt(h: Heap, p: Addr) {
    && (if IsFree(h.t, p) then ExactlyOne(p in h.small, p in h.large, p in h.victim, p in h.loose)
        else p !in h.small && p !in h.large && p !in h.victim && (p in h.loose ==> p in h.t.used))
    && (p in h.small ==> p in h.t.ck && h.small[p] == h.t.ck[p])
    && (p in h.large ==> p in h.t.ck && h.large[p] == h.t.ck[p])
    && (p in h.victim ==> p in h.t.ck && h.victim[p] == h.t.ck[p])
  }

  ghost predicate Kept(h: Heap) {
    forall p: Addr {:trigger KeptAt(h, p)} :: KeptAt(h, p)
  }

  // ----- every chunk in use is a caller's or the allocator's own -----

  ghost predicate Reserved(h: Heap, p: Addr) {
    p == h.home || exists j: nat :: 0 < j < |h.segs| && RecordChunk(h.segs[j]) == p
  }

  ghost predicate OwnedAt(h: Heap, p: Addr) {
    && (p in h.held ==>
          && p in h.t.used && p in h.t.ck && h.t.ck[p] == h.held[p] && !Reserved(h, p) && p !in h.loose
          && Next(h.t, p) in h.w.foot && h.w.foot[Next(h.t, p)] == h.cookie)
    && (p in h.t.used ==> p in h.held || Reserved(h, p) || p in h.loose)
    && (Reserved(h, p) ==> p !in h.loose)
  }

  ghost predicate Owned(h: Heap) {
    && h.home in h.t.ck && h.home in h.t.used && h.t.ck[h.home] == MSTATE_CHUNK
    && (forall p: Addr {:trigger OwnedAt(h, p)} :: OwnedAt(h, p))
  }

  // ----- directly mapped chunks -----

  /** The usable size of the chunk at p in its own region. */
  function DirectSize(p: Addr, r: Region): int {
    r.base + r.size - MMAP_FOOT_PAD - p
  }

  ghost predicate Inside(segs: seq<Seg>, x: Addr) {
    exists i: nat :: i < |segs| && segs[i].base <= x < End(segs[i])
  }

  /** do_check_mmapped_chunk but for the least size, and that the region is no segment. */
  ghost predicate DirectAt(h: Heap, p: Addr)
    requires p in h.direct
  {
    var r := h.direct[p];
    var n := r.base + r.size - MMAP_FOOT_PAD;
    && Aligned(r.base, r.size) && r.base <= p && p + MIN_CHUNK_SIZE <= n && p % 8 == 0
    && p in h.w.head && h.w.head[p] == Head(n - p, false, false)
    && p in h.w.foot && h.w.foot[p] == p - r.base
    && n in h.w.foot && h.w.foot[n] == h.cookie
    && n in h.w.head && h.w.head[n] == Head(8, true, true) && n + 8 in h.w.head
       && h.w.head[n + 8] == Head(0, false, false)
    && !Inside(h.segs, p) && !Inside(h.segs, n) && !Inside(h.segs, n + 8)
  }

  ghost predicate Directs(h: Heap) {
    forall p: Addr {:trigger DirectAt(h, p)} :: p in h.direct ==> DirectAt(h, p)
  }

  ghost predicate Sound(h: Heap) {
    Tagged(h.w, h.t) && SegsOk(h.segs, h.t) && Kept(h) && Owned(h) && Directs(h)
  }

  // ----- writing inside a segment does not reach the directly mapped chunks -----

  ghost predicate SameOutside(segs: seq<Seg>, w: Words, w': Words) {
    forall x: Addr {:trigger Inside(segs, x)} :: !Inside(segs, x) ==> SameAt(w, w', x)
  }

  lemma ChunkInside(segs: seq<Seg>, t: Tiling, p: Addr, x: Addr)
    requires SegsOk(segs, t) && p in t.ck && p <= x <= Next(t, p)
    ensures Inside(segs, x)
  {
    assert Placed(segs, t, p);
    var i: nat :| i < |segs| && InSeg(segs, t, p, i);
    assert SegOk(segs, t, i);
    LimitInside(segs, t, i);
  }

  lemma DirectsFrame(h: Heap, h': Heap)
    requires Directs(h) && SameOutside(h.segs, h.w, h'.w)
    requires h'.direct == h.direct && h'.segs == h.segs && h'.cookie == h.cookie
    ensures Directs(h')
  {
    forall p: Addr {:trigger DirectAt(h', p)} | p in h'.direct
      ensures DirectAt(h', p)
    {
      assert DirectAt(h, p);
    }
  }

  // ----- moving a free chunk between the bins, dv and the hand -----

  /** Only where free chunks are kept has changed. */
  ghost predicate Resorted(h: Heap, h': Heap) {
    && h' == h.(small := h'.small, large := h'.large, victim := h'.victim, loose := h'.loose)
    && (forall p: Addr :: (p in h.loose) != (p in h'.loose) ==> IsFree(h.t, p))
  }

  lemma ResortKeepsSound(h: Heap, h': Heap)
    requires Sound(h) && Resorted(h, h')
    requires Kept(h')
    ensures Sound(h')
  {
    forall p: Addr {:trigger OwnedAt(h', p)}
      ensures OwnedAt(h', p)
    {
      assert OwnedAt(h, p);
      assert Reserved(h', p) == Reserved(h, p);
      if Reserved(h, p) {
        ReservedIsUsed(h, p);
      }
    }
    DirectsFrame(h, h');
  }

  function OutOfSmall(h: Heap, p: Addr): Heap {
    h.(small := h.small - {p}, loose := h.loose + {p})
  }

  function OutOfLarge(h: Heap, p: Addr): Heap {
    h.(large := h.large - {p}, loose := h.loose + {p})
  }

  function OutOfVictim(h: Heap): Heap {
    h.(victim := map[], loose := h.loose + h.victim.Keys)
  }

  lemma TakeOutKeepsSound(h: Heap, p: Addr)
    requires Sound(h)
    ensures p in h.small ==> Sound(OutOfSmall(h, p)) && IsFree(h.t, p) && p !in h.loose && h.small[p] == h.t.ck[p]
    ensures p in h.large ==> Sound(OutOfLarge(h, p)) && IsFree(h.t, p) && p !in h.loose && h.large[p] == h.t.ck[p]
    ensures Sound(OutOfVictim(h))
    ensures p in h.victim ==> IsFree(h.t, p) && p !in h.loose && h.victim[p] == h.t.ck[p]
  {
    hide Tagged, SegsOk, Directs, Owned;
    assert KeptAt(h, p);
    forall q: Addr | q in h.victim
      ensures IsFree(h.t, q)
    {
      assert KeptAt(h, q);
    }
    var h' := OutOfVictim(h);
    forall q: Addr {:trigger KeptAt(h', q)}
      ensures KeptAt(h', q)
    {
      assert KeptAt(h, q);
    }
    ResortKeepsSound(h, h');
    if p in h.small {
      h' := OutOfSmall(h, p);
      forall q: Addr {:trigger KeptAt(h', q)}
        ensures KeptAt(h', q)
      {
        assert KeptAt(h, q);
      }
      ResortKeepsSound(h, h');
    } else if p in h.large {
      h' := OutOfLarge(h, p);
      forall q: Addr {:trigger KeptAt(h', q)}
        ensures KeptAt(h', q)
      {
        assert KeptAt(h, q);
      }
      ResortKeepsSound(h, h');
    }
  }

  function IntoSmall(h: Heap, p: Addr, s: nat): Heap {
    h.(small := h.small[p := s], loose := h.loose - {p})
  }

  function IntoLarge(h: Heap, p: Addr, s: nat): Heap {
    h.(large := h.large[p := s], loose := h.loose - {p})
  }

  function IntoVictim(h: Heap, p: Addr, s: nat): Heap {
    h.(victim := map[p := s], loose := h.loose - {p})
  }

  lemma PutBackKeepsSound(h: Heap, p: Addr)
    requires Sound(h) && p in h.loose && p !in h.t.used
    ensures p in h.t.ck && IsFree(h.t, p) && p !in h.small && p !in h.large && p !in h.victim
    ensures Sound(IntoSmall(h, p, h.t.ck[p])) && Sound(IntoLarge(h, p, h.t.ck[p]))
    ensures h.victim == map[] ==> Sound(IntoVictim(h, p, h.t.ck[p]))
  {
    hide Tagged, SegsOk, Directs, Owned;
    assert KeptAt(h, p);
    var s := h.t.ck[p];
    var h' := IntoSmall(h, p, s);
    forall q: Addr {:trigger KeptAt(h', q)}
      ensures KeptAt(h', q)
    {
      assert KeptAt(h, q);
    }
    ResortKeepsSound(h, h');
    h' := IntoLarge(h, p, s);
    forall q: Addr {:trigger KeptAt(h', q)}
      ensures KeptAt(h', q)
    {
      assert KeptAt(h, q);
    }
    ResortKeepsSound(h, h');
    if h.victim == map[] {
      h' := IntoVictim(h, p, s);
      forall q: Addr {:trigger KeptAt(h', q)}
        ensures KeptAt(h', q)
      {
        assert KeptAt(h, q);
      }
      ResortKeepsSound(h, h');
    }
  }

  // ----- taking a free chunk, or its front -----

  lemma ReservedIsUsed(h: Heap, p: Addr)
    requires SegsOk(h.segs, h.t) && Owned(h) && Reserved(h, p)
    ensures p in h.t.ck && p in h.t.used
  {
    SegFacts(h.segs, h.t);
  }

  /** set_inuse_and_pinuse on a chunk in hand. */
  function TakeWhole(h: Heap, p: Addr): Heap
    requires p in h.t.ck && Next(h.t, p) in h.w.head
  {
    h.(w := SetInuseAndPinuse(h.w, p, h.t.ck[p], h.cookie), t := h.t.(used := h.t.used + {p}),
       held := h.held[p := h.t.ck[p]], loose := h.loose - {p})
  }

  lemma TakeWholeKept(h: Heap, p: Addr)
    requires Kept(h) && p in h.loose && p in h.t.ck && p !in h.t.used && Next(h.t, p) in h.w.head
    ensures Kept(TakeWhole(h, p))
  {
    var h' := TakeWhole(h, p);
    forall q: Addr {:trigger KeptAt(h', q)}
      ensures KeptAt(h', q)
    {
      assert KeptAt(h, q);
    }
  }

  lemma TakeWholeOwned(h: Heap, p: Addr)
    requires Owned(h) && p in h.t.ck && p !in h.t.used && Next(h.t, p) in h.w.head && !Reserved(h, p)
    ensures Owned(TakeWhole(h, p))
  {
    var h' := TakeWhole(h, p);
    forall q: Addr {:trigger OwnedAt(h', q)}
      ensures OwnedAt(h', q)
    {
      assert OwnedAt(h, q);
    }
  }

  lemma LooseIsFree(h: Heap, p: Addr)
    requires Sound(h) && p in h.loose && p !in h.t.used
    ensures IsFree(h.t, p) && ChunkOk(h.w, h.t, p) && !Reserved(h, p)
    ensures p !in h.held && p !in h.small && p !in h.large && p !in h.victim
  {
    assert KeptAt(h, p) && OwnedAt(h, p) && ChunkOk(h.w, h.t, p);
    if Reserved(h, p) {
      ReservedIsUsed(h, p);
    }
  }

  lemma TakeWholeKeepsSound(h: Heap, p: Addr)
    requires Sound(h) && p in h.loose && p !in h.t.used
    ensures IsFree(h.t, p) && Next(h.t, p) in h.w.head && Sound(TakeWhole(h, p))
  {
    hide Kept, Owned, Tagged, SegsOk, Directs, Reserved;
    LooseIsFree(h, p);
    TakeWholeKept(h, p);
    TakeWholeOwned(h, p);
    TakeWholeKeepsTags(h.w, h.t, p, h.cookie);
    TakeKeepsSegs(h.segs, h.t, p);
    ChunkInside(h.segs, h.t, p, p);
    ChunkInside(h.segs, h.t, p, Next(h.t, p));
    DirectsFrame(h, TakeWhole(h, p));
  }

  /** Splitting a chunk in hand: the front of nb bytes is taken, the rest stays in hand. */
  function SplitFront(h: Heap, p: Addr, nb: nat): Heap
    requires p in h.t.ck && nb <= h.t.ck[p]
  {
    var rsize := h.t.ck[p] - nb;
    h.(w := SplitWords(h.w, p, nb, rsize, h.cookie), t := SplitTiling(h.t, p, nb, rsize),
       held := h.held[p := nb], loose := h.loose - {p} + {p + nb})
  }

  lemma SplitFrontKept(h: Heap, p: Addr, nb: nat)
    requires Kept(h) && p in h.loose && p in h.t.ck && p !in h.t.used && nb <= h.t.ck[p] && p + nb !in h.t.ck && nb > 0
             && h.t.used <= h.t.ck.Keys
    requires h.t.top in h.t.ck
    ensures Kept(SplitFront(h, p, nb))
  {
    var h' := SplitFront(h, p, nb);
    forall q: Addr {:trigger KeptAt(h', q)}
      ensures KeptAt(h', q)
    {
      assert KeptAt(h, q);
    }
  }

  lemma SplitFrontOwned(h: Heap, p: Addr, nb: nat)
    requires Owned(h) && Tagged(h.w, h.t) && p in h.t.ck && nb <= h.t.ck[p] && CanSplit(h.t, p, nb, h.t.ck[p] - nb)
    requires !Reserved(h, p) && !Reserved(h, p + nb)
    ensures Owned(SplitFront(h, p, nb))
  {
    var h' := SplitFront(h, p, nb);
    assert p + nb !in h.t.ck;
    forall q: Addr {:trigger OwnedAt(h', q)}
      ensures OwnedAt(h', q)
    {
      assert OwnedAt(h, q);
      assert q in h.t.ck ==> ChunkOk(h.w, h.t, q);
    }
  }

  lemma SplitFrontKeepsSound(h: Heap, p: Addr, nb: nat)
    requires Sound(h) && p in h.loose && p in h.t.ck && p !in h.t.used && nb % 8 == 0
             && MIN_CHUNK_SIZE <= nb <= h.t.ck[p] - MIN_CHUNK_SIZE
    ensures IsFree(h.t, p) && Sound(SplitFront(h, p, nb)) && p + nb !in h.t.ck
  {
    hide Kept, Owned, SegsOk, Directs, Reserved, Tagged;
    LooseIsFree(h, p);
    var rsize := h.t.ck[p] - nb;
    TaggedFacts(h.w, h.t, p);
    assert p + nb !in h.t.ck;
    if Reserved(h, p + nb) {
      ReservedIsUsed(h, p + nb);
    }
    SplitFrontKept(h, p, nb);
    SplitFrontOwned(h, p, nb);
    SplitKeepsTags(h.w, h.t, p, nb, rsize, h.cookie);
    SplitKeepsSegs(h.segs, h.t, p, nb, rsize);
    ChunkInside(h.segs, h.t, p, p);
    ChunkInside(h.segs, h.t, p, p + nb);
    ChunkInside(h.segs, h.t, p, Next(h.t, p));
    DirectsFrame(h, SplitFront(h, p, nb));
  }

  /** Taking the front of top. */
  function SplitTop(h: Heap, nb: nat): Heap
    requires h.t.top in h.t.ck && nb <= h.t.ck[h.t.top]
  {
    var p, rsize := h.t.top, h.t.ck[h.t.top] - nb;
    h.(w := SplitTopWords(h.w, p, nb, rsize, h.cookie), t := SplitTiling(h.t, p, nb, rsize).(top := p + nb),
       held := h.held[p := nb])
  }

  lemma SplitTopKept(h: Heap, nb: nat)
    requires Kept(h) && h.t.top in h.t.ck && nb <= h.t.ck[h.t.top] && h.t.top + nb !in h.t.ck && nb > 0
             && h.t.used <= h.t.ck.Keys
    ensures Kept(SplitTop(h, nb))
  {
    var h' := SplitTop(h, nb);
    forall q: Addr {:trigger KeptAt(h', q)}
      ensures KeptAt(h', q)
    {
      assert KeptAt(h, q);
    }
  }

  lemma SplitTopOwned(h: Heap, nb: nat)
    requires Owned(h) && h.t.top in h.t.ck && nb <= h.t.ck[h.t.top] && CanSplit(h.t, h.t.top, nb, h.t.ck[h.t.top] - nb)
             && !Reserved(h, h.t.top)
    requires Apart(h.t.ck, h.t.top, h.t.ends) && h.t.top !in h.loose
    ensures Owned(SplitTop(h, nb))
  {
    var h' := SplitTop(h, nb);
    assert h.t.top + nb !in h.t.ck;
    forall q: Addr {:trigger OwnedAt(h', q)}
      ensures OwnedAt(h', q)
    {
      assert OwnedAt(h, q);
    }
  }

  lemma TopIsFree(h: Heap)
    requires Sound(h)
    ensures h.t.top in h.t.ck && h.t.top !in h.t.used && !Reserved(h, h.t.top) && ChunkOk(h.w, h.t, h.t.top)
    ensures h.t.top !in h.held && h.t.top !in h.small && h.t.top !in h.large && h.t.top !in h.victim
            && h.t.top !in h.loose
  {
    assert ChunkOk(h.w, h.t, h.t.top) && OwnedAt(h, h.t.top) && KeptAt(h, h.t.top);
    if Reserved(h, h.t.top) {
      ReservedIsUsed(h, h.t.top);
    }
  }

  lemma SplitTopKeepsSound(h: Heap, nb: nat)
    requires Sound(h) && h.t.top in h.t.ck && nb % 8 == 0 && MIN_CHUNK_SIZE <= nb < h.t.ck[h.t.top]
    ensures Sound(SplitTop(h, nb)) && h.t.top + nb !in h.t.ck
  {
    hide Kept, Owned, SegsOk, Directs, Reserved;
    TopIsFree(h);
    var p, rsize := h.t.top, h.t.ck[h.t.top] - nb;
    assert p + nb !in h.t.ck;
    SplitTopKept(h, nb);
    SplitTopOwned(h, nb);
    SplitTopKeepsTags(h.w, h.t, nb, rsize, h.cookie);
    SplitKeepsSegs(h.segs, h.t, p, nb, rsize);
    ChunkInside(h.segs, h.t, p, p);
    ChunkInside(h.segs, h.t, p, p + nb);
    DirectsFrame(h, SplitTop(h, nb));
  }

  // ----- merging -----

  /** The run [a, b) in segment i consists of chunks in hand, or top. */
  ghost predicate Mergeable(h: Heap, a: Addr, b: Addr, dead: set<Addr>, i: nat) {
    && Run(h.t, a, b, dead) && i < |h.segs| && InSeg(h.segs, h.t, a, i) && b <= Limit(h.segs, h.t, i)
    && (forall q: Addr :: q == a || q in dead ==> q in h.loose || q == h.t.top)
  }

  lemma FencesApart(segs: seq<Seg>, t: Tiling, a: Addr, b: Addr, i: nat)
    requires SegsOk(segs, t) && i < |segs| && InSeg(segs, t, a, i) && b <= Limit(segs, t, i)
    ensures forall e: Addr :: e in t.ends ==> e < a || b <= e
    ensures i == 0 ==> forall e: Addr :: e in t.ends ==> e < a || b < e
  {
    assert SegOk(segs, t, i);
    LimitInside(segs, t, i);
    forall e: Addr | e in t.ends
      ensures e < a || b <= e
      ensures i == 0 ==> e < a || b < e
    {
      assert FencePlaced(segs, e);
      var j: nat :| 0 < j < |segs| && Fence(segs[j]) == e;
      assert SegOk(segs, t, j);
      if a <= e < End(segs[i]) {
        OneSeg(segs, i, j, e);
      }
    }
  }

  /** No chunk of a mergeable run is one of the allocator's own. */
  lemma MergeableNotReserved(h: Heap, a: Addr, b: Addr, dead: set<Addr>, i: nat)
    requires Sound(h) && Mergeable(h, a, b, dead, i)
    ensures forall q: Addr :: Reserved(h, q) ==> q != a && q !in dead
    ensures forall j: nat :: 0 < j < |h.segs| ==> RecordChunk(h.segs[j]) != a && RecordChunk(h.segs[j]) !in dead
  {
    forall q: Addr | Reserved(h, q)
      ensures q != a && q !in dead
    {
      ReservedIsUsed(h, q);
      assert OwnedAt(h, q) && KeptAt(h, q);
      TopIsFree(h);
    }
    forall j: nat | 0 < j < |h.segs|
      ensures Reserved(h, RecordChunk(h.segs[j]))
    {
    }
  }

  function Merge(h: Heap, a: Addr, b: Addr, dead: set<Addr>): Heap
    requires a < b && b in h.w.head
  {
    h.(w := MergeWords(h.w, a, b), t := MergeTiling(h.t, a, b, dead),
       loose := h.loose - dead + {a})
  }

  lemma MergeKept(h: Heap, a: Addr, b: Addr, dead: set<Addr>)
    requires Kept(h) && Run(h.t, a, b, dead) && b in h.w.head && a != h.t.top && h.t.top !in dead
    requires forall q: Addr :: q == a || q in dead ==> q in h.loose
    ensures Kept(Merge(h, a, b, dead))
  {
    var h' := Merge(h, a, b, dead);
    forall q: Addr {:trigger KeptAt(h', q)}
      ensures KeptAt(h', q)
    {
      assert KeptAt(h, q);
    }
  }

  lemma MergeOwned(h: Heap, a: Addr, b: Addr, dead: set<Addr>)
    requires Owned(h) && Run(h.t, a, b, dead) && b in h.w.head && Tagged(h.w, h.t)
    requires forall q: Addr :: q == a || q in dead ==> q in h.loose
    requires forall q: Addr :: Reserved(h, q) ==> q != a && q !in dead
    ensures Owned(Merge(h, a, b, dead))
  {
    var h' := Merge(h, a, b, dead);
    assert Reserved(h, h.home);
    forall q: Addr {:trigger OwnedAt(h', q)}
      ensures OwnedAt(h', q)
    {
      assert OwnedAt(h, q);
      assert q in h.t.ck ==> ChunkOk(h.w, h.t, q);
      assert Reserved(h', q) == Reserved(h, q);
    }
  }

  /** The merged chunk spans the run and is in hand. */
  lemma MergeKeepsSound(h: Heap, a: Addr, b: Addr, dead: set<Addr>, i: nat)
    requires Sound(h) && Mergeable(h, a, b, dead, i) && CanMerge(h.w, h.t, a, b, dead)
    ensures b in h.w.head && Sound(Merge(h, a, b, dead))
  {
    hide Kept, Owned, SegsOk, Directs, Reserved, Tagged;
    TaggedFacts(h.w, h.t, b);
    MergeableNotReserved(h, a, b, dead, i);
    FencesApart(h.segs, h.t, a, b, i);
    MergeKept(h, a, b, dead);
    MergeOwned(h, a, b, dead);
    MergeKeepsTags(h.w, h.t, a, b, dead);
    MergeKeepsSegs(h.segs, h.t, a, b, dead, i);
    ChunkInside(h.segs, h.t, a, a);
    ChunkInside(h.segs, h.t, b, b);
    DirectsFrame(h, Merge(h, a, b, dead));
  }

  lemma TaggedFacts(w: Words, t: Tiling, p: Addr)
    requires Tagged(w, t) && p in t.ck
    ensures ChunkOk(w, t, p) && p in w.head && Apart(t.ck, t.top, t.ends) && t.used <= t.ck.Keys && t.top in t.ck
  {
    assert ChunkOk(w, t, p);
  }

  function MergeTop(h: Heap, a: Addr, b: Addr, dead: set<Addr>): Heap
    requires a < b
  {
    h.(w := MergeTopWords(h.w, a, b), t := MergeTopTiling(h.t, a, b, dead),
       loose := h.loose - dead - {a})
  }

  lemma MergeTopKept(h: Heap, a: Addr, b: Addr, dead: set<Addr>)
    requires Kept(h) && Run(h.t, a, b, dead) && h.t.top in dead
    requires forall q: Addr :: q == a || q in dead ==> q in h.loose || q == h.t.top
    ensures Kept(MergeTop(h, a, b, dead))
  {
    var h' := MergeTop(h, a, b, dead);
    forall q: Addr {:trigger KeptAt(h', q)}
      ensures KeptAt(h', q)
    {
      assert KeptAt(h, q);
    }
  }

  lemma MergeTopOwned(h: Heap, a: Addr, b: Addr, dead: set<Addr>)
    requires Owned(h) && Run(h.t, a, b, dead) && h.t.top !in h.t.used
    requires forall q: Addr :: q == a || q in dead ==> q in h.loose || q == h.t.top
    requires forall q: Addr :: Reserved(h, q) ==> q != a && q !in dead
    ensures Owned(MergeTop(h, a, b, dead))
  {
    var h' := MergeTop(h, a, b, dead);
    assert Reserved(h, h.home);
    forall q: Addr {:trigger OwnedAt(h', q)}
      ensures OwnedAt(h', q)
    {
      assert OwnedAt(h, q);
      assert Reserved(h', q) == Reserved(h, q);
    }
  }

  /** The run becomes the new top. */
  lemma MergeTopKeepsSound(h: Heap, a: Addr, b: Addr, dead: set<Addr>)
    requires Sound(h) && Mergeable(h, a, b, dead, 0) && CanMergeTop(h.w, h.t, a, b, dead)
    ensures Sound(MergeTop(h, a, b, dead))
  {
    hide Kept, Owned, SegsOk, Directs, Reserved, Tagged;
    TopIsFree(h);
    MergeableNotReserved(h, a, b, dead, 0);
    FencesApart(h.segs, h.t, a, b, 0);
    MergeTopKept(h, a, b, dead);
    MergeTopOwned(h, a, b, dead);
    MergeTopKeepsTags(h.w, h.t, a, b, dead);
    MergeKeepsSegs(h.segs, h.t, a, b, dead, 0);
    ChunkInside(h.segs, h.t, a, a);
    DirectsFrame(h, MergeTop(h, a, b, dead));
  }
}
