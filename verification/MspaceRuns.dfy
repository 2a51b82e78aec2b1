/** What holds of every mspace between operations, and of whole runs of operations. */
module MspaceRuns {
  import opened Sizes
  import opened Chunks
  import opened Segments
  import opened SegmentGrowth
  import opened System
  import opened Heaps
  import opened HeapGrowth
  import opened Footprints
  import opened Mspaces
  import BinMap
  import Bits
  import Masks
  import SmallBins
  import TreeBins
  import TreeIndex

  // ----- chunks tile the segments -----

  ghost predicate Holds(t: Tiling, p: Addr, x: Addr) {
    p in t.ck && p <= x < Next(t, p)
  }

  /** From a chunk of segment i up to the end of its chunks there is no gap. */
  lemma {:induction false} NoGap(h: Heap, i: nat, p: Addr, x: Addr) returns (q: Addr)
    requires Sound(h) && i < |h.segs| && InSeg(h.segs, h.t, p, i) && h.t.top in h.t.ck && p <= x < Limit(h.segs, h.t, i)
    ensures Holds(h.t, q, x)
    decreases x - p
  {
    hide Kept, Owned, Directs, Tagged, SegsOk;
    q := p;
    TaggedFacts(h.w, h.t, p);
    if x >= Next(h.t, p) {
      var n := Next(h.t, p);
      NextInChain(h, i, p, x);
      TaggedFacts(h.w, h.t, n);
      NextInSeg(h.segs, h.t, p, i);
      q := NoGap(h, i, n, x);
    }
  }

  lemma NextInChain(h: Heap, i: nat, p: Addr, x: Addr)
    requires Sound(h) && i < |h.segs| && InSeg(h.segs, h.t, p, i) && h.t.top in h.t.ck
             && Next(h.t, p) <= x < Limit(h.segs, h.t, i)
    ensures Next(h.t, p) in h.t.ck
  {
    TaggedFacts(h.w, h.t, p);
    SegFacts(h.segs, h.t);
    assert SegOk(h.segs, h.t, i);
    LimitInside(h.segs, h.t, i);
    var n := Next(h.t, p);
    if p == h.t.top {
      TopIsInFirst(h, i);
    } else if n in h.t.ends {
      FenceSeg(h.segs, h.t, n, i);
    }
  }

  lemma TopIsInFirst(h: Heap, i: nat)
    requires Sound(h) && i < |h.segs| && InSeg(h.segs, h.t, h.t.top, i)
    ensures i == 0
  {
    SegFacts(h.segs, h.t);
    LimitBelowEnd(h, i);
    ChunkFacts(h.w, h.t, h.t.top, h.t.top);
    OneSeg(h.segs, 0, i, h.t.top);
  }

  lemma LimitBelowEnd(h: Heap, i: nat)
    requires Sound(h) && i < |h.segs|
    ensures h.t.top in h.t.ck && Limit(h.segs, h.t, i) + 16 <= End(h.segs[i])
  {
    assert SegOk(h.segs, h.t, i);
    LimitInside(h.segs, h.t, i);
  }

  /** Chunks tile each segment: every address below its limit is in exactly one chunk, and the chunk stays below it. */
  lemma ChunksTile(h: Heap, i: nat, x: Addr)
    requires Sound(h) && i < |h.segs| && h.t.top in h.t.ck && h.segs[i].base <= x < Limit(h.segs, h.t, i)
    ensures exists p: Addr :: Holds(h.t, p, x) && InSeg(h.segs, h.t, p, i)
    ensures forall p: Addr, q: Addr :: Holds(h.t, p, x) && Holds(h.t, q, x) ==> p == q
  {
    hide Kept, Owned, Directs, Tagged, SegsOk;
    FirstChunk(h.w, h.segs, h.t, i);
    var p := NoGap(h, i, h.segs[i].base, x);
    LimitBelowEnd(h, i);
    InItsSegment(h, i, p, x);
    forall p: Addr, q: Addr | Holds(h.t, p, x) && Holds(h.t, q, x)
      ensures p == q
    {
      ChunkFacts(h.w, h.t, p, q);
    }
  }

  lemma InItsSegment(h: Heap, i: nat, p: Addr, x: Addr)
    requires Sound(h) && i < |h.segs| && Holds(h.t, p, x) && h.segs[i].base <= x < End(h.segs[i])
    ensures InSeg(h.segs, h.t, p, i)
  {
    assert Placed(h.segs, h.t, p);
    var j: nat :| j < |h.segs| && InSeg(h.segs, h.t, p, j);
    assert SegOk(h.segs, h.t, j);
    LimitInside(h.segs, h.t, j);
    OneSeg(h.segs, i, j, x);
  }

  // ----- what callers hold -----

  /** Chunks that callers hold do not overlap, and all of them lie in memory the mspace has mapped. */
  lemma LiveApart(h: Heap, g: Shape, b: Ledger, mapped: set<int>, p: Addr, q: Addr)
    requires Sound(h) && h.held == g.held && h.direct == g.direct && Accounted(h.segs, h.direct, b, mapped)
    requires p in Live(g) && q in Live(g) && p != q
    ensures p + Live(g)[p] <= q || q + Live(g)[q] <= p
  {
    hide Kept, Owned, Directs, Tagged, SegsOk, Accounted;
    GrantedPlace(h, g, p);
    GrantedPlace(h, g, q);
    if p in g.held && q in g.held {
      HeldFacts(h, p);
      HeldFacts(h, q);
      ChunkFacts(h.w, h.t, p, q);
    } else if p in g.direct && q in g.direct {
      RegionsApart(h, b, mapped, p, q);
    } else if p in g.direct {
      RegionApart(h, b, mapped, p, q);
    } else {
      RegionApart(h, b, mapped, q, p);
    }
  }

  lemma RegionsApart(h: Heap, b: Ledger, mapped: set<int>, p: Addr, q: Addr)
    requires Sound(h) && Accounted(h.segs, h.direct, b, mapped) && p in h.direct && q in h.direct && p != q
    ensures p + DirectSize(p, h.direct[p]) <= q || q + DirectSize(q, h.direct[q]) <= p
  {
    var r, s := h.direct[p], h.direct[q];
    DirectRange(h);
    assert DirectHeld(r, b.direct) && DirectHeld(s, b.direct) && RegionPages(r) !! RegionPages(s);
    PagesDisjoint(r.base, r.size, s.base, s.size);
  }

  lemma RegionApart(h: Heap, b: Ledger, mapped: set<int>, p: Addr, q: Addr)
    requires Sound(h) && Accounted(h.segs, h.direct, b, mapped) && p in h.direct && q in h.held
    ensures q in h.t.ck && h.t.ck[q] == h.held[q]
    ensures p + DirectSize(p, h.direct[p]) <= q || q + h.held[q] <= p
  {
    hide Kept, Owned, Directs, Tagged, SegsOk, SegsHeld, Pages;
    var r := h.direct[p];
    DirectRange(h);
    DirectIsHeld(h.direct, b.direct, p);
    FreshApart(h.segs, b.segs, r.base, r.size);
    HeldFacts(h, q);
    HeldInside(h, q);
  }

  lemma DirectIsHeld(direct: map<Addr, Region>, mine: set<int>, p: Addr)
    requires DirectsHeld(direct, mine) && p in direct
    ensures Aligned(direct[p].base, direct[p].size) && RegionPages(direct[p]) <= mine
  {
    assert DirectHeld(direct[p], mine);
  }

  lemma HeldInside(h: Heap, q: Addr)
    requires Sound(h) && q in h.t.ck
    ensures exists i: nat :: i < |h.segs| && h.segs[i].base <= q && q + h.t.ck[q] <= End(h.segs[i])
  {
    assert Placed(h.segs, h.t, q);
    var i: nat :| i < |h.segs| && InSeg(h.segs, h.t, q, i);
    assert SegOk(h.segs, h.t, i);
    LimitInside(h.segs, h.t, i);
  }

  // ----- what the checkers of malloc.c.h ask for -----

  /** Every chunk: its words, its neighbours, and for a free one the single place that its size selects. */
  lemma ChunkReport(s: Mspace, p: Addr)
    requires s.Valid() && p in s.g.t.ck
    ensures var w, t := s.m.w, s.g.t;
            && p % 8 == 0 && p in w.head && w.head[p].size == t.ck[p] && w.head[p].cinuse == (p in t.used)
            && (p != s.m.top ==> t.ck[p] >= MIN_CHUNK_SIZE && Next(t, p) in w.head
                                 && w.head[Next(t, p)].pinuse == (p in t.used))
            && (p !in t.used && p != s.m.top ==>
                  && Next(t, p) in t.ck && Next(t, p) in t.used && Next(t, p) in w.foot && w.foot[Next(t, p)] == t.ck[p]
                  && Filed(s, p))
            && (p in t.used ==> p in s.g.held || Reserved(s.TheHeap(), p))
    ensures s.m.top in s.g.t.ck && s.m.top !in s.g.t.used
  {
    hide SmallBins.Inv, TreeBins.Inv, Charged, Directs, SegsOk;
    var h := s.TheHeap();
    assert ChunkOk(h.w, h.t, p) && KeptAt(h, p) && OwnedAt(h, p);
    TopIsFree(h);
    if p in h.small {
      SmallBins.StoredIsSmall(s.small.n, s.small.g, p);
    }
    if p in h.large {
      TreeBins.StoredAt(s.trees.n, s.trees.g, p);
    }
  }

  /** A free chunk is dv, or in the small bin of its size, or in the tree of its size, and in only one of the three. */
  ghost predicate Filed(s: Mspace, p: Addr)
    reads s, s.small, s.trees
  {
    var size := if p in s.g.t.ck then s.g.t.ck[p] else 0;
    && p in s.g.t.ck
    && ((p == s.m.dv && s.m.dvsize == size && size > 0 && p !in s.small.n.size && p !in s.trees.n.size)
        || (IsSmall(size) && p in s.small.n.size && s.small.n.size[p] == size && p !in s.trees.n.size
           && (p == s.m.dv ==> s.m.dvsize == 0))
        || (!IsSmall(size) && p in s.trees.n.size && s.trees.n.size[p] == size && p !in s.small.n.size
           && (p == s.m.dv ==> s.m.dvsize == 0)))
  }

  /** Every directly mapped chunk: offset and size span whole pages, and a fencepost and a zero word follow it. */
  lemma DirectReport(s: Mspace, p: Addr)
    requires s.Valid() && p in s.g.direct
    ensures var w := s.m.w;
            && p % 8 == 0 && IsDirect(w, p) && p in w.foot && w.foot[p] >= 0
            && var n := p + w.head[p].size;
            && (p - w.foot[p]) % PAGE == 0 && (w.foot[p] + w.head[p].size + MMAP_FOOT_PAD) % PAGE == 0
            && n in w.foot && w.foot[n] == s.cookie && n in w.head && w.head[n] == Head(8, true, true)
            && n + 8 in w.head && w.head[n + 8] == Head(0, false, false)
  {
    hide SmallBins.Inv, TreeBins.Inv, Charged, Cached, Tagged, SegsOk, Kept, Owned;
    assert DirectAt(s.TheHeap(), p);
  }

  /** A map bit is set exactly when its bin holds a free chunk. */
  lemma MapReport(s: Mspace, i: nat)
    requires s.Valid() && i < BinMap.NBINS
    ensures BinMap.Has(s.small.n.smallmap, i) <==> exists p :: p in s.small.n.size && IsFree(s.g.t, p)
                                                               && s.g.t.ck[p] == 8 * i
    ensures BinMap.Has(s.trees.n.treemap, i) <==>
              exists p :: p in s.trees.n.size && IsFree(s.g.t, p) && s.g.t.ck[p] >= MIN_LARGE_SIZE
                          && TreeIndex.Index(s.g.t.ck[p]) == i
  {
    hide BinMap.Has, Charged, Directs, SegsOk, Tagged, Owned, SmallBins.Inv, TreeBins.Inv;
    var h := s.TheHeap();
    SmallBins.MarkedIffHolds(s.small.n, s.small.g, i);
    TreeBins.MarkedIffHolds(s.trees.n, s.trees.g, i);
    forall p | p in h.small
      ensures IsFree(h.t, p) && h.small[p] == h.t.ck[p]
    {
      assert KeptAt(h, p);
    }
    forall p | p in h.large
      ensures IsFree(h.t, p) && h.large[p] == h.t.ck[p] && h.t.ck[p] >= MIN_LARGE_SIZE
    {
      assert KeptAt(h, p);
      TreeBins.StoredAt(s.trees.n, s.trees.g, p);
    }
  }

  /** The footprint is the bytes of all segments, of all directly mapped regions and of pages munmap refused to take. */
  lemma FootprintReport(s: Mspace)
    requires s.Valid()
    ensures s.m.footprint == SegBytes(s.m.segs) + DirectBytes(s.g.direct)
            + PAGE * |s.g.ledger.leaked| <= s.m.maxFootprint
  {
    hide Sound, SmallBins.Inv, TreeBins.Inv, Accounted;
    MappedBytes(s.m.segs, s.g.direct, s.g.ledger, s.g.mine);
  }

  // ----- memalign and mmap_resize -----

  /** Whenever a chunk that memalign has put into a region of its own is remapped for 2 * PAGE - 56 bytes, it ends up
      with less than that. */
  method AlignedThenShort(s: Mspace, alignment: nat, bytes: nat) returns (r: Addr, ghost remapped: bool)
    requires s.Valid() && 8 < alignment <= 1024 && bytes < Bits.WORD
    modifies s, s.small, s.trees, s.sys
    ensures s.Valid()
    ensures remapped ==> r in Live(s.g) && Live(s.g)[r] < 2 * PAGE - 56
  {
    hide Mspaces.Mspace.Local, Live, AlignedTo, Masks.IsPow2, Masks.Multiple, PageAlign, Resized;
    r, remapped := 0, false;
    var mem := s.Memalign(alignment, bytes);
    if mem != 0 && mem - 16 in s.m.w.head && IsDirect(s.m.w, mem - 16) {
      var p := mem - 16;
      DirectTold(s, p);
      ghost var g := s.g;
      RoomForMoved(g.direct[p], p);
      r, remapped := s.MmapResize(p, 2 * PAGE - 56);
      if remapped {
        MovedFallsShort(g, s.g, p, r);
        ResizedIsLive(g, s.g, p, r);
      }
    }
  }

  lemma DirectTold(s: Mspace, p: Addr)
    requires s.Valid() && p in Live(s.g) && IsDirect(s.m.w, p)
    ensures p in s.g.direct
  {
    hide SmallBins.Inv, TreeBins.Inv, Sound, Charged, Cached;
    WordsOfLive(s.TheHeap(), p);
  }

  lemma RoomForMoved(r: Region, p: Addr)
    requires p - r.base < 2 * 1024 + 64
    ensures RemapFits(r, p, 2 * PAGE - 56)
  {
    assert PageAlign((2 * PAGE - 56 + 48 + 7) % Bits.WORD) == 2 * PAGE;
  }

  lemma ResizedIsLive(g: Shape, g': Shape, p: Addr, q: Addr)
    requires p in g.direct && Resized(g, g', p, q, 2 * PAGE - 56)
    ensures q in Live(g')
  {
  }

  // ----- runs -----

  datatype Op =
    | MallocOp(bytes: nat)
    | MemalignOp(alignment: nat, bytes: nat)
    | FreeOp(k: nat)
    | TrimOp(pad: nat)

  predicate InRange(op: Op) {
    match op
    case MallocOp(bytes) => bytes < Bits.WORD
    case MemalignOp(alignment, bytes) => alignment <= Masks.HALF && bytes < Bits.WORD
    case FreeOp(_) => true
    case TrimOp(pad) => true
  }

  /** create_mspace: 0 on failure, which is all that a capacity out of range can lead to. */
  method CreateMspace(sys: System, capacity: nat, cookie: int, useMmap: bool) returns (s: Mspace?)
    requires capacity < Bits.WORD
    modifies sys
    ensures s != null ==> s.Valid() && fresh(s) && fresh(s.small) && fresh(s.trees) && s.sys == sys
                          && Live(s.g) == map[]
    ensures s != null ==> s.g.mine !! old(sys.mapped) && sys.mapped == old(sys.mapped) + s.g.mine
    ensures s != null ==> s.m.dvsize == 0 && s.small.n.size == map[] && s.trees.n.size == map[]
    ensures s != null ==> s.m.releaseChecks == MAX_RELEASE_CHECK_RATE
                          && s.m.topsize + MSTATE_CHUNK + TOP_FOOT_SIZE == s.m.footprint
    ensures s == null ==> sys.mapped == old(sys.mapped)
    ensures capacity == 0 ==> (s != null <==> old(sys.Offers(GRANULARITY)))
                              && (s != null ==> s.m.footprint == GRANULARITY)
    ensures s == null ==>
              capacity >= Bits.WORD - (MSTATE_CHUNK + TOP_FOOT_SIZE + PAGE) || sys.refusals > old(sys.refusals)
    ensures s != null && capacity > 0 ==>
              s.m.footprint % GRANULARITY == 0 && 0 <= s.m.topsize - capacity < GRANULARITY
  {
    hide GranularityAlign, Pages, Aligned, SmallBins.Inv, TreeBins.Inv, Sound, Charged, Cached;
    s := null;
    if capacity < Bits.WORD - (MSTATE_CHUNK + TOP_FOOT_SIZE + PAGE) {
      var rs := if capacity == 0 then GRANULARITY else capacity + TOP_FOOT_SIZE + MSTATE_CHUNK;
      var tsize := GranularityAlign(rs);
      CreateRoom(rs);
      var tbase := sys.Mmap(tsize);
      if tbase != -1 {
        MappedSize(tbase, tsize);
        s := new Mspace(sys, tbase, tsize, cookie, useMmap);
      }
    }
  }

  lemma MappedSize(base: Addr, size: nat)
    requires Aligned(base, size)
    ensures size > 0
  {
  }

  lemma WholeUnits(y: nat)
    ensures var t := y / GRANULARITY * GRANULARITY; t % GRANULARITY == 0 && t % PAGE == 0 && t <= y < t + GRANULARITY
  {
  }

  lemma CreateRoom(rs: nat)
    requires MSTATE_CHUNK + TOP_FOOT_SIZE < rs < Bits.WORD
    ensures var t := GranularityAlign(rs);
            t % PAGE == 0 && t % GRANULARITY == 0 && (t == 0 || rs <= t < rs + GRANULARITY)
    ensures GranularityAlign(GRANULARITY) == GRANULARITY
  {
    var y := (rs + GRANULARITY - 1) % Bits.WORD;
    WholeUnits(y);
    assert y == if rs + GRANULARITY - 1 < Bits.WORD then rs + GRANULARITY - 1 else rs + GRANULARITY - 1 - Bits.WORD;
  }

  predicate NoDuplicates(a: seq<Addr>) {
    forall i: nat, j: nat :: i < j < |a| ==> a[i] != a[j]
  }

  /** Any run of operations from a fresh mspace keeps it valid, and the chunks that have been handed out and not freed
      yet are all different and are exactly the live ones. FreeOp(k) frees the k-th chunk still held. */
  method Run(s: Mspace, ops: seq<Op>) returns (held: seq<Addr>)
    requires s.Valid() && Live(s.g) == map[] && forall op :: op in ops ==> InRange(op)
    modifies s, s.small, s.trees, s.sys
    ensures s.Valid() && NoDuplicates(held) && Live(s.g).Keys == (set p | p in held)
  {
    hide Live, SmallBins.Inv, TreeBins.Inv, Sound, Charged, Cached, Granted, AlignedTo;
    held := [];
    var i := 0;
    while i < |ops|
      invariant i <= |ops| && s.Valid() && NoDuplicates(held) && Live(s.g).Keys == (set p | p in held)
    {
      held := Step(s, ops[i], held);
      i := i + 1;
    }
  }

  method Step(s: Mspace, op: Op, held0: seq<Addr>) returns (held: seq<Addr>)
    requires s.Valid() && NoDuplicates(held0) && Live(s.g).Keys == (set p | p in held0) && InRange(op)
    modifies s, s.small, s.trees, s.sys
    ensures s.Valid() && NoDuplicates(held) && Live(s.g).Keys == (set p | p in held)
  {
    hide SmallBins.Inv, TreeBins.Inv, Sound, Charged, Cached, AlignedTo, RequestSize, Live;
    held := held0;
    match op
    case MallocOp(bytes) =>
      var mem := s.Malloc(bytes);
      if mem != 0 {
        held := held0 + [mem - 16];
      }
    case MemalignOp(alignment, bytes) =>
      var mem := s.Memalign(alignment, bytes);
      if mem != 0 {
        held := held0 + [mem - 16];
      }
    case FreeOp(k) =>
      if k < |held0| {
        assert held0[k] in Live(s.g).Keys;
        LivePositive(s.TheHeap(), s.g, held0[k]);
        s.Free(held0[k] + 16);
        held := held0[..k] + held0[k + 1..];
        Without(held0, k);
      }
    case TrimOp(pad) =>
      ghost var g := s.g;
      var trimmed := s.SysTrim(pad);
      LiveSame(g, s.g);
  }

  lemma NoneHeld()
    ensures NoDuplicates([])
  {
  }

  lemma LiveSame(g: Shape, g': Shape)
    requires g'.held == g.held && g'.direct == g.direct
    ensures Live(g') == Live(g)
  {
  }

  lemma LivePositive(h: Heap, g: Shape, p: Addr)
    requires Sound(h) && h.held == g.held && h.direct == g.direct && p in Live(g)
    ensures p > 0
  {
    hide Sound;
    if p in g.held {
      HeldSize(h, p);
    } else {
      DirectPlace(h, p);
    }
  }

  lemma Without(a: seq<Addr>, k: nat)
    requires NoDuplicates(a) && k < |a|
    ensures var b := a[..k] + a[k + 1..]; NoDuplicates(b) && (set p | p in b) == (set p | p in a) - {a[k]}
  {
    var b := a[..k] + a[k + 1..];
    forall p | p in a && p != a[k]
      ensures p in b
    {
      var i: nat :| i < |a| && a[i] == p;
      assert b[if i < k then i else i - 1] == p;
    }
  }
}
