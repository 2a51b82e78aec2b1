/** The mspace of malloc.c.h: a malloc_state with its bins, segments and system memory. */
module Mspaces {
  import opened Sizes
  import opened Chunks
  import opened ChunkGrowth
  import opened Segments
  import opened SegmentGrowth
  import opened System
  import opened Heaps
  import opened HeapGrowth
  import opened Footprints
  import opened Merging
  import BinMap
  import Bits
  import Masks
  import SmallBins
  import TreeBins
  import TreeIndex

  const GRANULARITY: nat := 0x10_0000
  const MMAP_THRESHOLD: nat := 0x4_0000
  const TRIM_THRESHOLD: nat := 0x20_0000
  const MAX_SIZE_T: nat := 0xFFFF_FFFF_FFFF_FFFF
  const MAX_REQUEST: nat := 0x1_0000_0000_0000_0000 - 128
  const MAX_SMALL_REQUEST: nat := 232
  const MIN_REQUEST: nat := 15
  const MAX_RELEASE_CHECK_RATE: nat := 4095
  const SYS_ALLOC_PADDING: nat := 88

  /** Where the segment record lies in the chunk of the malloc_state. */
  const SEG_FIELD: nat := 896

  /** The fields of malloc_state other than the bins, and the head and foot words of memory. */
  datatype Space = Space(w: Words, dv: Addr, dvsize: nat, top: Addr, topsize: nat, segs: seq<Seg>,
                         footprint: nat, maxFootprint: nat, trimCheck: nat, releaseChecks: nat)

  /** What the state stands for; dvHeld says that dv is in place and not being merged, mine are the pages of this
      mspace. */
  datatype Shape = Shape(t: Tiling, held: map<Addr, nat>, direct: map<Addr, Region>, loose: set<Addr>,
                         dvHeld: bool, ledger: Ledger, mine: set<int>)

  function Victim(m: Space, g: Shape): map<Addr, nat> {
    if g.dvHeld && m.dvsize != 0 then map[m.dv := m.dvsize] else map[]
  }

  function HeapOf(m: Space, g: Shape, small: map<Addr, nat>, large: map<Addr, nat>, home: Addr, cookie: int): Heap {
    Heap(m.w, g.t, m.segs, g.held, g.direct, small, large, Victim(m, g), g.loose, home, cookie)
  }

  /** The cached address and size of top. */
  ghost predicate Cached(top: Addr, topsize: nat, t: Tiling) {
    top == t.top && top in t.ck && topsize == t.ck[top]
  }

  /** The footprint is what is mapped, and never exceeds the recorded maximum. */
  ghost predicate Charged(segs: seq<Seg>, direct: map<Addr, Region>, b: Ledger, mapped: set<int>, footprint: nat,
      max: nat) {
    Accounted(segs, direct, b, mapped) && footprint == PAGE * |mapped| && footprint <= max
  }

  /** The chunks callers hold, with their sizes. */
  function Live(g: Shape): map<Addr, int> {
    map p: Addr | p in g.held.Keys + g.direct.Keys :: if p in g.held then g.held[p] else DirectSize(p, g.direct[p])
  }

  predicate IsSmall(s: nat) {
    s / 8 < 32
  }

  /** The old region has gone and the new one is charged, in use by nobody yet. */
  lemma Remapped(segs: seq<Seg>, direct: map<Addr, Region>, b: Ledger, mapped: set<int>, p: Addr, r: Region)
    requires Accounted(segs, direct, b, mapped) && p in direct && Aligned(r.base, r.size)
    requires RegionPages(r) !! (mapped - RegionPages(direct[p]))
    ensures var less, more := RegionPages(direct[p]), RegionPages(r);
            && PAGE * |Swap(mapped, less, more)| == PAGE * |mapped| - direct[p].size + r.size
            && Accounted(segs, direct - {p}, b.(direct := b.direct - less, leaked := b.leaked + more),
               Swap(mapped, less, more))
            && b.leaked + more - more == b.leaked && less <= mapped
  {
    hide Accounted, Pages, Aligned;
    var less, more := RegionPages(direct[p]), RegionPages(r);
    RegionGone(segs, direct, b, mapped, p);
    ObtainedHeld(segs, direct - {p}, b.(direct := b.direct - less), mapped - less, more);
    PagesCardinality(r.base, r.size);
  }

  lemma OffsetAligned(h: Heap, p: Addr)
    requires Sound(h) && p in h.direct && p in h.w.foot
    ensures h.w.foot[p] % 8 == 0
  {
    hide Tagged, SegsOk, Kept, Owned, Aligned;
    assert DirectAt(h, p);
    AlignedEight(h.direct[p].base, h.direct[p].size);
  }

  lemma SpotInRegion(base: Addr, size: nat, offset: nat)
    requires Aligned(base, size) && offset % 8 == 0 && offset + MMAP_FOOT_PAD + MIN_CHUNK_SIZE <= size
    ensures base <= base + offset && base + offset + MIN_CHUNK_SIZE <= DirectEnd(Region(base, size))
            && (base + offset) % 8 == 0
  {
    hide Aligned;
    AlignedEight(base, size);
  }

  lemma ResizedLive(g: Shape, g': Shape, p: Addr, q: Addr, nb: nat, r: Region)
    requires p in g.direct && p !in g.held && q !in g.held && q !in g.direct - {p} && g'.held == g.held
    requires g'.direct == (g.direct - {p})[q := r] && r.size == PageAlign((nb + 48 + 7) % Bits.WORD)
             && q == r.base + (p - g.direct[p].base)
    ensures Resized(g, g', p, q, nb)
  {
    hide PageAlign;
    assert Live(g').Keys == (Live(g) - {p})[q := Live(g')[q]].Keys;
  }

  /** The resized chunk holds the request for every size exactly when its offset in the region is at most 24. A chunk
      that memalign has moved has an offset of 32 or more. */
  lemma ResizeHoldsRequest(offset: nat)
    ensures (forall nb: nat :: nb % 8 == 0 && MIN_LARGE_SIZE <= nb < HUGE ==> Leftover(nb) - offset >= nb) <==>
            offset <= 24
  {
    if offset <= 24 {
      forall nb: nat | nb % 8 == 0 && MIN_LARGE_SIZE <= nb < HUGE
        ensures Leftover(nb) - offset >= nb
      {
        LeftoverRoom(nb);
      }
    } else {
      var nb := 2 * PAGE - 56;
      assert nb % 8 == 0 && Leftover(nb) == nb + 24;
    }
  }

  const HUGE: nat := Bits.WORD - 2 * PAGE

  /** The defect at work: a chunk that memalign has moved gets less than it asks for. */
  lemma MovedFallsShort(g: Shape, g': Shape, p: Addr, q: Addr)
    requires p in g.direct && p - g.direct[p].base >= MIN_CHUNK_SIZE && Resized(g, g', p, q, 2 * PAGE - 56)
    ensures Live(g')[q] < 2 * PAGE - 56
  {
    hide Live;
    assert PageAlign((2 * PAGE - 56 + 48 + 7) % Bits.WORD) == 2 * PAGE;
  }

  /** What a region for nb bytes has behind an offset of 0. */
  function Leftover(nb: nat): int {
    PageAlign((nb + 48 + 7) % Bits.WORD) - MMAP_FOOT_PAD
  }

  lemma LeftoverRoom(nb: nat)
    requires nb % 8 == 0 && nb < HUGE
    ensures Leftover(nb) >= nb + 24
  {
    var x := nb + 55;
    assert x < Bits.WORD && x + PAGE - 1 < Bits.WORD;
    assert x % 8 == 7;
    assert (x + PAGE - 1) / PAGE * PAGE >= x + 1;
  }

  /** The region that mmap_resize asks for still has room for a chunk behind the offset. */
  predicate RemapFits(r: Region, p: Addr, nb: nat) {
    p - r.base + MMAP_FOOT_PAD + MIN_CHUNK_SIZE <= PageAlign((nb + 48 + 7) % Bits.WORD)
  }

  /** q has replaced p, with what the new region leaves behind the old offset. */
  ghost predicate Resized(g: Shape, g': Shape, p: Addr, q: Addr, nb: nat)
    requires p in g.direct
  {
    && q in Live(g') && Live(g') == (Live(g) - {p})[q := Live(g')[q]] && (q == p || q !in Live(g))
    && Live(g')[q] == PageAlign((nb + 48 + 7) % Bits.WORD) - (p - g.direct[p].base) - MMAP_FOOT_PAD
  }

  /** is_mmapped. */
  predicate IsDirect(w: Words, p: Addr) {
    p in w.head && !w.head[p].cinuse && !w.head[p].pinuse
  }

  /** mem is a multiple of a power of two that is not below alignment. */
  ghost predicate AlignedTo(mem: Addr, alignment: nat) {
    mem >= 0 && exists a: nat :: Masks.IsPow2(a) && alignment <= a && Masks.Multiple(mem, a)
  }

  /** a is the least power of two that is at least 32 and not below the alignment asked for. */
  ghost predicate RoundedTo(alignment: nat, a: nat) {
    Masks.IsPow2(a) && 32 <= a && alignment <= a && (a == 32 || a < 2 * alignment)
  }

  /** For a power of two that is a multiple of the alignment asked for. */
  lemma AlignedToPower(mem: Addr, alignment: nat)
    ensures AlignedTo(mem, alignment) && Masks.IsPow2(alignment) ==> Masks.Multiple(mem, alignment)
  {
    hide Masks.IsPow2, Masks.Multiple;
    if AlignedTo(mem, alignment) && Masks.IsPow2(alignment) {
      var a: nat :| Masks.IsPow2(a) && alignment <= a && Masks.Multiple(mem, a);
      Masks.PowerMultiple(alignment, a);
      Masks.MultipleTrans(mem, a, alignment);
    }
  }

  /** The memory behind the header at the start of a page is aligned to no power of two above 16. */
  lemma PageIsMisaligned(p: Addr, a: nat)
    requires p > 0 && Masks.IsPow2(a) && a >= 32
    ensures p % PAGE == 0 ==> !Masks.Multiple(p + 16, a)
  {
    hide Masks.Multiple;
    if p % PAGE == 0 && Masks.Multiple(p + 16, a) {
      assert Masks.IsPow2(32);
      Masks.PowerMultiple(32, a);
      Masks.MultipleTrans(p + 16, a, 32);
      NotByThirtyTwo(p);
    }
  }

  lemma NotByThirtyTwo(p: Addr)
    requires p > 0 && p % PAGE == 0
    ensures !Masks.Multiple(p + 16, 32)
  {
    assert p % 32 == 0;
  }

  lemma SmallAlignment(mem: Addr, alignment: nat)
    requires alignment <= 8
    ensures mem >= 0 && mem % 8 == 0 ==> AlignedTo(mem, alignment)
  {
    if mem >= 0 && mem % 8 == 0 {
      assert Masks.IsPow2(8) && Masks.Multiple(mem, 8);
    }
  }

  lemma RoundedMultiple(mem: Addr, alignment: nat, a: nat)
    requires mem >= 0 && Masks.IsPow2(a) && alignment <= a && Masks.Multiple(mem, a)
    ensures AlignedTo(mem, alignment)
  {
  }

  /** The enlarged request is padded to room for the chunk, the alignment and a leader. */
  lemma RoundedRequest(bytes: nat, a: nat)
    requires Masks.IsPow2(a) && 32 <= a <= Masks.HALF && bytes < MAX_REQUEST - a
    ensures var nb := RequestSize(bytes);
            && nb % 8 == 0 && nb >= MIN_CHUNK_SIZE && nb + a + MIN_CHUNK_SIZE - 16 < Bits.WORD
            && RequestSize(nb + a + MIN_CHUNK_SIZE - 16) == nb + a + MIN_CHUNK_SIZE
  {
    assert Masks.IsPow2(8);
    Masks.PowerMultiple(8, a);
    ByEight(a);
    PaddedSum(RequestSize(bytes), a);
  }

  lemma PaddedSum(nb: nat, a: nat)
    requires nb % 8 == 0 && a % 8 == 0
    ensures RequestSize(nb + a + MIN_CHUNK_SIZE - 16) == nb + a + MIN_CHUNK_SIZE
  {
  }

  lemma GrantedPlace(h: Heap, g: Shape, p: Addr)
    requires Sound(h) && h.held == g.held && h.direct == g.direct && p in Live(g)
    ensures IsDirect(h.w, p) <==> p in g.direct
    ensures p in g.direct ==> p !in g.held && Live(g)[p] == DirectSize(p, g.direct[p])
    ensures p !in g.direct ==> p in g.held && Live(g)[p] == g.held[p]
  {
    WordsOfLive(h, p);
  }

  /** One chunk takes the place of another that was not there before. */
  lemma Replaced(before: map<Addr, int>, middle: map<Addr, int>, after: map<Addr, int>, p: Addr, q: Addr)
    requires p !in before && p in middle && middle == before[p := middle[p]] && (q == p || q !in middle)
    requires q in after && after == (middle - {p})[q := after[q]]
    ensures q !in before && after == before[q := after[q]]
  {
    assert middle - {p} == before;
  }

  lemma PiecesFreed(live: map<Addr, int>, p: Addr, lead: nat, size: nat, rest: nat)
    requires p in live && size > 0 && (lead > 0 ==> p + lead !in live) && (rest > 0 ==> p + lead + size !in live)
    ensures var all := Pieces(live, p, lead, size, rest);
            && p + lead in all && all[p + lead] == size && (lead > 0 ==> p in all)
               && (rest > 0 ==> p + lead + size in all && p + lead + size != p)
            && all - (if lead > 0 then {p} else {}) - (if rest > 0 then {p + lead + size} else {})
               == (live - {p})[p + lead := size]
  {
    var all := Pieces(live, p, lead, size, rest);
    var left := all - (if lead > 0 then {p} else {}) - (if rest > 0 then {p + lead + size} else {});
    assert left.Keys == (live - {p})[p + lead := size].Keys;
  }

  lemma DirectPlace(h: Heap, p: Addr)
    requires Sound(h) && p in h.direct
    ensures p > 0 && p % 8 == 0 && p + DirectSize(p, h.direct[p]) < Bits.WORD && p !in h.held
  {
    hide Tagged, SegsOk, Kept, Owned;
    assert DirectAt(h, p);
    WordsOfLive(h, p);
  }

  lemma LiveShift(g: Shape, g': Shape, p: Addr, q: Addr)
    requires p in g.direct && p !in g.held && q !in g.held && (q == p || q !in g.direct) && g'.held == g.held
    requires g'.direct == (g.direct - {p})[q := g.direct[p]]
    ensures q in Live(g') && Live(g')[q] == DirectSize(q, g.direct[p]) && (q == p || q !in Live(g))
    ensures Live(g') == (Live(g) - {p})[q := Live(g')[q]]
  {
    assert Live(g').Keys == (Live(g) - {p})[q := Live(g')[q]].Keys;
  }

  /** A chunk at p cut into up to three: no leader if lead is 0, no trailer if rest is 0. */
  function Pieces(live: map<Addr, int>, p: Addr, lead: nat, size: nat, rest: nat): map<Addr, int> {
    var front := if lead > 0 then live[p := lead] else live;
    var middle := front[p + lead := size];
    if rest > 0 then middle[p + lead + size := rest] else middle
  }

  lemma CutPieces(live: map<Addr, int>, live': map<Addr, int>, p: Addr, lead: nat, size: nat, rest: nat)
    requires p in live && live[p] == lead + size + rest && size > 0
    requires var front := if lead > 0 then live[p := lead][p + lead := size + rest] else live;
             live' == if rest > 0 then front[p + lead := size][p + lead + size := rest] else front
    ensures live' == Pieces(live, p, lead, size, rest)
  {
  }

  /** An aligned place inside a misaligned chunk that leaves room for a chunk before it. */
  method AlignedSpot(p: Addr, a: nat) returns (pos: Addr)
    requires p > 0 && p % 8 == 0 && p + 16 + a <= Bits.WORD && Masks.IsPow2(a) && 32 <= a <= Masks.HALF
             && !Masks.Multiple(p + 16, a)
    ensures MIN_CHUNK_SIZE <= pos - p < a + MIN_CHUNK_SIZE && pos > 0 && Masks.Multiple(pos + 16, a) && pos % 8 == 0
  {
    hide Masks.And, Masks.AlignUp, Masks.IsPow2, Masks.Multiple;
    Masks.AlignUpIsLeast(p + 16, a);
    var br := Masks.AlignUp(p + 16, a) - 16;
    SpotIsAligned(br + 16, a);
    pos := if br - p >= MIN_CHUNK_SIZE then br else br + a;
  }

  lemma SpotIsAligned(r: nat, a: nat)
    requires a >= 32 && Masks.IsPow2(a) && Masks.Multiple(r, a)
    ensures Masks.Multiple(r + a, a) && r % 8 == 0 && (r + a) % 8 == 0
  {
    hide Masks.Multiple;
    Masks.NextMultiple(r, a);
    assert Masks.IsPow2(8);
    Masks.PowerMultiple(8, a);
    Masks.MultipleTrans(r, a, 8);
    Masks.MultipleTrans(r + a, a, 8);
    ByEight(r);
    ByEight(r + a);
  }

  lemma ByEight(r: nat)
    requires Masks.Multiple(r, 8)
    ensures r % 8 == 0
  {
  }

  lemma HeldSize(h: Heap, p: Addr)
    requires Sound(h) && p in h.held
    ensures p > 0 && p % 8 == 0 && h.held[p] % 8 == 0 && p + h.held[p] < Bits.WORD && p in h.w.head
            && h.w.head[p].size == h.held[p]
  {
    hide Kept, Owned, Directs;
    HeldFacts(h, p);
    assert Placed(h.segs, h.t, p);
    var i: nat :| i < |h.segs| && InSeg(h.segs, h.t, p, i);
    assert SegOk(h.segs, h.t, i);
    LimitInside(h.segs, h.t, i);
  }

  lemma LiveAt(g: Shape, p: Addr)
    requires p in g.held
    ensures p in Live(g) && Live(g)[p] == g.held[p]
  {
  }

  lemma LiveCut(g: Shape, g': Shape, p: Addr, lead: nat, rest: nat)
    requires p in g.held && p + lead !in g.held && p !in g'.direct && p + lead !in g'.direct
    requires g'.held == g.held[p := lead][p + lead := rest] && g'.direct == g.direct
    ensures Live(g') == Live(g)[p := lead][p + lead := rest] && p + lead !in Live(g)
  {
  }

  lemma CutIsNotTop(h: Heap, p: Addr, lead: nat)
    requires Sound(h) && p in h.held && MIN_CHUNK_SIZE <= lead <= h.held[p] - MIN_CHUNK_SIZE
    ensures p != h.t.top && p + lead != h.t.top && p in h.w.head && h.w.head[p].size == h.held[p]
  {
    HeldFacts(h, p);
    TopIsFree(h);
    ChunkFacts(h.w, h.t, p, h.t.top);
  }

  /** A directly mapped chunk moves within its region; the accounts do not change. */
  lemma MovedDirect(h: Heap, b: Ledger, mapped: set<int>, w: Words, p: Addr, newp: Addr)
    requires Sound(h) && Accounted(h.segs, h.direct, b, mapped) && p in h.direct && p < newp
             && newp + MIN_CHUNK_SIZE <= DirectEnd(h.direct[p]) && newp % 8 == 0
    requires p in h.w.head && p in h.w.foot && h.w.head[p].size >= newp - p
    requires w == Words(h.w.head[newp := Head(h.w.head[p].size - (newp - p), false, false)],
             h.w.foot[newp := h.w.foot[p] + newp - p])
    ensures newp !in h.held && newp !in h.direct
    ensures Sound(h.(w := w, direct := (h.direct - {p})[newp := h.direct[p]]))
    ensures Accounted(h.segs, (h.direct - {p})[newp := h.direct[p]], b, mapped)
  {
    hide Sound, Accounted, Pages, Aligned;
    var r := h.direct[p];
    var pages := RegionPages(r);
    var b1 := b.(direct := b.direct - pages, leaked := b.leaked + pages);
    var h1 := DropDirect(h, p);
    FromDirect(h.segs, h.direct, b, mapped, p);
    DropDirectKeepsSound(h, p);
    MovedWords(h, w, p, newp);
    NewDirect(h1, b1, mapped, w, newp, r);
    NotLeaked(h.segs, h.direct, b, mapped, p);
    RegionCharged(h.segs, h.direct, b, mapped, p);
    assert b1.leaked - pages == b.leaked && b1.direct + pages == b.direct;
    NotSame(h, p, newp);
  }

  lemma NotSame(h: Heap, p: Addr, newp: Addr)
    requires newp !in h.direct - {p} && newp != p
    ensures newp !in h.direct
  {
  }

  lemma RegionCharged(segs: seq<Seg>, direct: map<Addr, Region>, b: Ledger, mapped: set<int>, p: Addr)
    requires Accounted(segs, direct, b, mapped) && p in direct
    ensures RegionPages(direct[p]) <= b.direct && RegionPages(direct[p]) <= mapped
  {
    assert DirectHeld(direct[p], b.direct);
  }

  lemma MovedWords(h: Heap, w: Words, p: Addr, newp: Addr)
    requires Sound(h) && p in h.direct && p < newp && newp + MIN_CHUNK_SIZE <= DirectEnd(h.direct[p]) && p in h.w.head
             && p in h.w.foot && h.w.head[p].size >= newp - p
    requires w == Words(h.w.head[newp := Head(h.w.head[p].size - (newp - p), false, false)],
             h.w.foot[newp := h.w.foot[p] + newp - p])
    ensures DirectWritten(h.w, w, newp, h.direct[p], h.cookie)
  {
    assert DirectAt(h, p);
    var r := h.direct[p];
    forall x: Addr {:trigger SameAt(h.w, w, x)} | !(r.base <= x < r.base + r.size)
      ensures SameAt(h.w, w, x)
    {
    }
  }

  /** pad_request, and at least MIN_CHUNK_SIZE. */
  function RequestSize(bytes: nat): nat {
    if bytes < MIN_REQUEST then MIN_CHUNK_SIZE else (bytes + 16 + 7) / 8 * 8
  }

  /** Sizes of chunks are far below MAX_SIZE_T. */
  /** The padded size is the least size of a chunk that holds the request. */
  lemma RequestSizeIsLeast(bytes: nat, n: nat)
    ensures var nb := RequestSize(bytes); nb % 8 == 0 && nb >= MIN_CHUNK_SIZE && nb >= bytes + 16
    ensures n % 8 == 0 && n >= MIN_CHUNK_SIZE && n >= bytes + 16 ==> RequestSize(bytes) <= n
  {
    if n % 8 == 0 && bytes >= MIN_REQUEST && n >= bytes + 16 {
      assert n == n / 8 * 8;
    }
  }

  lemma SizesFit(h: Heap, dv: Addr)
    requires Sound(h)
    ensures dv in h.victim ==> h.victim[dv] < MAX_SIZE_T
    ensures h.t.top in h.t.ck && h.t.ck[h.t.top] < MAX_SIZE_T
  {
    hide Tagged, SegsOk, Kept, Owned, Directs;
    TakeOutKeepsSound(h, dv);
    if dv in h.victim {
      FreeSize(h, dv);
    }
    TopShape(h);
    SegIsAligned(h.segs, h.t, 0);
  }

  /** (x + GRANULARITY - 1) & ~(GRANULARITY - 1) in 64 bits. */
  function GranularityAlign(x: nat): nat {
    (x + GRANULARITY - 1) % Bits.WORD / GRANULARITY * GRANULARITY
  }

  lemma NoTreeFits(size: map<Addr, nat>, nb: nat, dvsize: nat)
    requires forall x :: TreeBins.Fits(size, nb, x) ==> nb <= dvsize
    ensures dvsize < nb ==> forall x :: x in size ==> size[x] < nb
  {
    if dvsize < nb {
      forall x | x in size
        ensures size[x] < nb
      {
        assert !TreeBins.Fits(size, nb, x);
      }
    }
  }

  /** The size that sys_alloc would ask for does not fit a word. */
  predicate Wraps(nb: nat) {
    nb + SYS_ALLOC_PADDING + GRANULARITY - 1 >= Bits.WORD
  }

  /** The test for wrap-around lets through exactly the requests that leave room; not the forced failure. */
  lemma GranularityRoom(nb: nat)
    requires MIN_CHUNK_SIZE <= nb <= MAX_SIZE_T
    ensures var r := GranularityAlign((nb + SYS_ALLOC_PADDING) % Bits.WORD);
            r % PAGE == 0 && (r > nb <==> !Wraps(nb)) && (r > nb ==> r >= nb + SYS_ALLOC_PADDING && nb != MAX_SIZE_T)
    ensures nb == MAX_SIZE_T ==> PageAlign((nb + 48 + 7) % Bits.WORD) <= nb
  {
  }

  /** p was not live and now is, with at least nb bytes; nothing else has changed hands. A chunk of the heap has less
      than 32 bytes to spare and both in-use bits set, a directly mapped one has both clear and starts its region. */
  ghost predicate Granted(g: Shape, g': Shape, w: Words, p: Addr, nb: nat) {
    && p > 0 && p % 8 == 0 && p !in Live(g) && p in Live(g') && Live(g') == Live(g)[p := Live(g')[p]]
    && Live(g')[p] >= nb && g'.ledger.leaked == g.ledger.leaked && p in w.head
    && w.head[p].size == Live(g')[p]
    && (if p in g'.held then Live(g')[p] < nb + MIN_CHUNK_SIZE && w.head[p].cinuse && w.head[p].pinuse
        else !w.head[p].cinuse && !w.head[p].pinuse && p in g'.direct && p == g'.direct[p].base && p % PAGE == 0)
  }

  lemma GrantedIsLive(g: Shape, g': Shape, w: Words, p: Addr, nb: nat)
    requires Granted(g, g', w, p, nb)
    ensures p in Live(g')
  {
  }

  lemma HeldGrants(h: Heap, g: Shape, g': Shape, p: Addr, nb: nat)
    requires Sound(h) && h.held == g'.held && h.direct == g'.direct
             && Took(g.(ledger := g'.ledger, mine := g'.mine), g', h.w, p, nb)
    requires g'.ledger.leaked == g.ledger.leaked
    ensures Granted(g, g', h.w, p, nb) && p > 0
  {
    hide Tagged, SegsOk, Kept, Owned, Directs;
    HeldFacts(h, p);
    WordsOfLive(h, p);
  }

  lemma DirectGrants(h: Heap, g: Shape, g': Shape, p: Addr, nb: nat)
    requires Sound(h) && h.held == g'.held && h.direct == g'.direct && TookDirect(g, g', h.w, p, nb)
    ensures Granted(g, g', h.w, p, nb) && p > 0
  {
    hide Tagged, SegsOk, Kept, Owned;
    WordsOfLive(h, p);
    assert DirectAt(h, p);
  }

  /** init_top at a new place. */
  function InitTopWords(w: Words, top: Addr, s: nat): Words {
    Words(w.head[top := Head(s, false, true)][top + s := Head(80, false, false)], w.foot)
  }

  /** Where add_segment puts the record of the old segment: its last place, or top itself if too little is left before
      it. */
  function RecordPlace(top: Addr, end: Addr): Addr
    requires end >= 87
  {
    var rawsp := end - (SEGMENT_CHUNK + 32 + 7);
    var asp := rawsp + AlignOffset(rawsp + 16);
    if asp < top + MIN_CHUNK_SIZE then top else asp
  }

  lemma RecordRoom(h: Heap, csp: Addr)
    requires Sound(h) && |h.segs| > 0 && End(h.segs[0]) >= 87 && csp == RecordPlace(h.t.top, End(h.segs[0]))
    ensures (csp == h.t.top || csp >= h.t.top + MIN_CHUNK_SIZE) && csp % 8 == 0
            && csp + SEGMENT_CHUNK + 32 <= End(h.segs[0])
  {
    hide Sound;
    TopShape(h);
    TopAligned(h);
  }

  lemma TopAligned(h: Heap)
    requires Sound(h)
    ensures h.t.top % 8 == 0 && |h.segs| > 0 && End(h.segs[0]) % 8 == 0 && End(h.segs[0]) >= 87
  {
    hide Tagged, SegsOk, Kept, Owned, Directs, Aligned;
    SegFacts(h.segs, h.t);
    ChunkFacts(h.w, h.t, h.t.top, h.t.top);
    SegIsAligned(h.segs, h.t, 0);
    AlignedEight(h.segs[0].base, h.segs[0].size);
    PageSized(h.segs[0].base, h.segs[0].size);
  }

  lemma SegIsAligned(segs: seq<Seg>, t: Tiling, i: nat)
    requires SegsOk(segs, t) && i < |segs|
    ensures Aligned(segs[i].base, segs[i].size)
  {
    assert SegOk(segs, t, i);
  }

  lemma PageSized(base: Addr, size: nat)
    requires Aligned(base, size)
    ensures base > 0 && size >= PAGE
  {
  }

  /** Trailing fenceposts from f to the end of the segment; there are at least two. */
  method InsertFences(w: Words, f: Addr, end: Addr) returns (w': Words, nfences: nat)
    requires f + 32 <= end
    ensures w'.foot == w.foot && nfences >= 2
    ensures forall x: Addr :: !(f <= x < end) ==> (x in w'.head <==> x in w.head)
    ensures forall x: Addr :: !(f <= x < end) && x in w.head ==> w'.head[x] == w.head[x]
    ensures f in w'.head && w'.head[f] == Head(8, true, true)
  {
    var p := f;
    w', nfences := w.(head := w.head[p := Head(8, true, true)]), 1;
    while p + 16 < end
      invariant f <= p < end && nfences >= 1 && (p == f || nfences >= 2)
      invariant w'.foot == w.foot && f in w'.head && w'.head[f] == Head(8, true, true)
      invariant forall x: Addr :: !(f <= x < end) ==> (x in w'.head <==> x in w.head)
      invariant forall x: Addr :: !(f <= x < end) && x in w.head ==> w'.head[x] == w.head[x]
      decreases end - p
    {
      p := p + 8;
      w', nfences := w'.(head := w'.head[p := Head(8, true, true)]), nfences + 1;
    }
  }

  /** w is what the words say after the fenceposts are written. */
  ghost predicate Fencing(h: Heap, csp: Addr, tbase: Addr, tsize: nat, w: Words)
    requires tsize >= TOP_FOOT_SIZE && |h.segs| > 0
  {
    var w0 := FrontWords(InitTopWords(h.w, tbase, tsize - TOP_FOOT_SIZE), csp, SEGMENT_CHUNK, h.cookie);
    var f, end := csp + SEGMENT_CHUNK, End(h.segs[0]);
    && w.foot == w0.foot
    && (forall x: Addr :: !(f <= x < end) ==> (x in w.head <==> x in w0.head))
    && (forall x: Addr :: !(f <= x < end) && x in w0.head ==> w.head[x] == w0.head[x])
    && f in w.head && w.head[f] == Head(8, true, true)
  }

  /** The words before the rest of the old top is freed, as if it were in use. */
  function RestInUse(w: Words, top: Addr, csp: Addr): Words
    requires top <= csp
  {
    if csp == top then w else w.(head := w.head[top := Head(csp - top, true, true)])
  }

  lemma FencedWords(h: Heap, csp: Addr, tbase: Addr, tsize: nat, w: Words)
    requires tsize >= TOP_FOOT_SIZE && |h.segs| > 0 && Fencing(h, csp, tbase, tsize, w) && h.t.top in h.t.ck
             && h.t.top <= csp
    requires CanRetire(h.t, csp, SEGMENT_CHUNK, End(h.segs[0]), tbase, tsize - TOP_FOOT_SIZE, tbase + tsize)
    ensures PushWords(h, RestInUse(w, h.t.top, csp), csp, tbase, tsize) && csp in w.head
  {
    var w' := RestInUse(w, h.t.top, csp);
    var end := End(h.segs[0]);
    forall x: Addr {:trigger SameAt(h.w, w', x)} | !(h.t.top <= x < end) && !(tbase <= x < tbase + tsize)
      ensures SameAt(h.w, w', x)
    {
    }
  }

  lemma NewSegmentPushed(h: Heap, b: Ledger, mapped: set<int>, csp: Addr, tbase: Addr, tsize: nat, w: Words)
    requires Sound(h) && Accounted(h.segs, h.direct, b, mapped) && Aligned(tbase, tsize) && tsize >= PAGE
             && Pages(tbase, tsize) <= b.leaked && |h.segs| > 0
    requires (csp == h.t.top || csp >= h.t.top + MIN_CHUNK_SIZE) && csp % 8 == 0
             && csp + SEGMENT_CHUNK + 32 <= End(h.segs[0])
    requires Fencing(h, csp, tbase, tsize, w)
    ensures var pages := Pages(tbase, tsize);
            Accounted(PushedSegs(h.segs, csp, tbase, tsize), h.direct,
                b.(segs := b.segs + pages, leaked := b.leaked - pages), mapped)
    ensures Sound(Push(h, RestInUse(w, h.t.top, csp), csp, tbase, tsize)) && csp in w.head && h.t.top != tbase
            && csp != tbase
  {
    hide Sound, Accounted, Pages, Aligned, SegsHeld, SegsApart, Clear, Fencing, PushWords, CanRetire;
    var pages, segs' := Pages(tbase, tsize), PushedSegs(h.segs, csp, tbase, tsize);
    AccountedParts(h.segs, h.direct, b, mapped);
    PushedHeld(h.segs, b.segs, csp, tbase, tsize);
    ToSegs(h.segs, segs', h.direct, b, mapped, pages);
    DirectRange(h);
    HeldClear(segs', h.direct, b.(segs := b.segs + pages, leaked := b.leaked - pages), mapped);
    FreshApart(h.segs, b.segs, tbase, tsize);
    TopShape(h);
    TagsOf(h);
    PushClear(h.w, h.segs, h.t, csp, tbase, tsize);
    FencedWords(h, csp, tbase, tsize, w);
    PushKeepsSound(h, RestInUse(w, h.t.top, csp), csp, tbase, tsize);
    assert End(h.segs[0]) <= tbase || tbase + tsize <= h.segs[0].base;
  }

  lemma TagsOf(h: Heap)
    requires Sound(h)
    ensures Tagged(h.w, h.t) && SegsOk(h.segs, h.t)
  {
  }

  /** add_segment keeps the heap sound: the old top is retired and its rest, if any, is a free chunk in hand. */
  lemma NewSegment(h: Heap, b: Ledger, mapped: set<int>, csp: Addr, tbase: Addr, tsize: nat, w: Words)
    requires Sound(h) && Accounted(h.segs, h.direct, b, mapped) && Aligned(tbase, tsize) && tsize >= PAGE
             && Pages(tbase, tsize) <= b.leaked && |h.segs| > 0
    requires (csp == h.t.top || csp >= h.t.top + MIN_CHUNK_SIZE) && csp % 8 == 0
             && csp + SEGMENT_CHUNK + 32 <= End(h.segs[0])
    requires Fencing(h, csp, tbase, tsize, w) && h.loose == {}
    ensures var pages := Pages(tbase, tsize);
            Accounted(PushedSegs(h.segs, csp, tbase, tsize), h.direct,
                b.(segs := b.segs + pages, leaked := b.leaked - pages), mapped)
    ensures var t := RetireTiling(h.t, csp, SEGMENT_CHUNK, tbase, tsize - TOP_FOOT_SIZE);
            && t.top == tbase && tbase in t.ck && t.ck[tbase] == tsize - TOP_FOOT_SIZE && csp in w.head
            && var segs := PushedSegs(h.segs, csp, tbase, tsize);
               if csp == h.t.top then Sound(h.(w := w, t := t, segs := segs))
               else var t' := MergeTiling(t, h.t.top, csp, {});
                    && Sound(h.(w := FreeWithPinuse(w, h.t.top, csp - h.t.top), t := t', segs := segs,
                       loose := {h.t.top}))
                    && t'.top == tbase && tbase in t'.ck && t'.ck[tbase] == tsize - TOP_FOOT_SIZE
                    && h.t.top in t'.ck && h.t.top !in t'.used && t'.ck[h.t.top] == csp - h.t.top
  {
    hide Sound, Accounted, Pages, Aligned, Fencing, Chain, ShortChain;
    NewSegmentPushed(h, b, mapped, csp, tbase, tsize, w);
    var top, w1 := h.t.top, RestInUse(w, h.t.top, csp);
    if csp != top {
      var h1 := Push(h, w1, csp, tbase, tsize);
      PrependChain(h1.t, top, csp);
      ExtendChain(h1.t, top, csp, {});
      MergeChain(h1, top, csp, {});
      assert h1.loose - {} + {top} == {top};
      MergedWords(w, top, csp);
      assert MergeWords(w1, top, csp) == MergeWords(w, top, csp) by {
        assert MergeWords(w1, top, csp).head == MergeWords(w, top, csp).head;
      }
    }
  }

  lemma FirstOfSeg(h: Heap, j: nat)
    requires Sound(h) && j < |h.segs|
    ensures h.segs[j].base in h.t.ck && h.segs[j].base > 0 && h.segs[j].base in h.w.head
    ensures h.w.head[h.segs[j].base].cinuse == (h.segs[j].base in h.t.used)
  {
    SegFacts(h.segs, h.t);
    TaggedFacts(h.w, h.t, h.segs[j].base);
  }

  lemma PrependTopMerge(h: Heap, b: Ledger, mapped: set<int>, j: nat, p: Addr, nb: nat, qsize: nat)
    requires Sound(h) && Accounted(h.segs, h.direct, b, mapped) && j < |h.segs|
             && h.segs[j].base == p + nb + qsize == h.t.top
    requires Aligned(p, nb + qsize) && nb % 8 == 0 && nb >= MIN_CHUNK_SIZE && qsize >= MIN_CHUNK_SIZE
    requires Pages(p, nb + qsize) <= b.leaked && h.loose == {} && h.t.top in h.t.ck
    ensures var pages := Pages(p, nb + qsize);
            Accounted(PrependedSegs(h.segs, j, p, nb + qsize), h.direct,
                b.(segs := b.segs + pages, leaked := b.leaked - pages), mapped)
    ensures var q, e := p + nb, Next(h.t, h.t.top);
            var w := FrontWords(h.w, p, nb, h.cookie);
            var t := MergeTopTiling(PrependTiling(h.t, p, nb, qsize), q, e, {h.t.top});
            && p !in h.held && t.top == q && q in t.ck && t.ck[q] == e - q
            && Sound(h.(w := w.(head := w.head[q := Head(e - q, false, true)]), t := t,
               segs := PrependedSegs(h.segs, j, p, nb + qsize),
                        held := h.held[p := nb]))
  {
    hide Sound, Accounted, Aligned, Pages, Chain, ShortChain;
    PrependSound(h, b, mapped, j, p, nb, qsize);
    var h1, q, c, e := Prepend(h, j, p, nb, qsize), p + nb, h.t.top, Next(h.t, h.t.top);
    PrependChain(h1.t, q, c);
    ExtendChain(h1.t, q, c, {});
    assert {} + {c} == {c};
    MergeTopChain(h1, q, {c});
    assert h1.loose - {c} - {q} == {};
    var w := FrontWords(h.w, p, nb, h.cookie);
    assert MergeTopWords(h1.w, q, e) == w.(head := w.head[q := Head(e - q, false, true)]);
  }

  /** set_size_and_pinuse_of_inuse_chunk. */
  function FrontWords(w: Words, p: Addr, nb: nat, cookie: int): Words {
    Words(w.head[p := Head(nb, true, true)], w.foot[p + nb := cookie])
  }

  /** What prepend_alloc writes for the rest is a merge of it with what follows. */
  lemma PrependedWords(w: Words, p: Addr, nb: nat, qsize: nat, s: nat, cookie: int)
    requires p + nb + s in w.head && nb > 0 && s > 0
    ensures var q, w1 := p + nb, FrontWords(w, p, nb, cookie);
            && q + s in w1.head
            && MergeWords(PrependWords(w, p, nb, qsize, cookie), q, q + s) == FreeWithPinuse(w1, q, s)
            && (!w.head[q + s].pinuse ==> MergeWords(PrependWords(w, p, nb, qsize, cookie), q, q + s) == FreeWords(w1,
                                          q, s))
            && var h := FreeWithPinuse(w1, q, s).head; p in h && h[p] == Head(nb, true, true)
  {
    var q, w1, w2 := p + nb, FrontWords(w, p, nb, cookie), PrependWords(w, p, nb, qsize, cookie);
    MergedWords(w1, q, q + s);
    assert MergeWords(w2, q, q + s).head == MergeWords(w1, q, q + s).head;
    assert MergeWords(w2, q, q + s).foot == MergeWords(w1, q, q + s).foot;
  }

  lemma PrependMerge(h: Heap, b: Ledger, mapped: set<int>, j: nat, p: Addr, nb: nat, qsize: nat, e: Addr,
      dead: set<Addr>)
    requires Sound(h) && Accounted(h.segs, h.direct, b, mapped) && j < |h.segs| && h.segs[j].base == p + nb + qsize
    requires Aligned(p, nb + qsize) && nb % 8 == 0 && nb >= MIN_CHUNK_SIZE && qsize >= MIN_CHUNK_SIZE
    requires Pages(p, nb + qsize) <= b.leaked && h.loose == dead && (dead == {} || dead == {h.segs[j].base})
    requires h.segs[j].base in h.t.ck && e == h.segs[j].base + (if dead == {} then 0 else h.t.ck[h.segs[j].base])
    requires e in h.t.ck && e in h.t.used
    ensures var pages := Pages(p, nb + qsize);
            Accounted(PrependedSegs(h.segs, j, p, nb + qsize), h.direct,
                b.(segs := b.segs + pages, leaked := b.leaked - pages), mapped)
    ensures p !in h.held && p + nb < e && e in h.w.head && h.t.top in h.t.ck
    ensures var t := MergeTiling(PrependTiling(h.t, p, nb, qsize), p + nb, e, dead);
            && t.top == h.t.top && t.top in t.ck && t.ck[t.top] == h.t.ck[h.t.top]
            && p + nb in t.ck && p + nb !in t.used && t.ck[p + nb] == e - p - nb
    ensures Sound(Merge(Prepend(h, j, p, nb, qsize), p + nb, e, dead).(loose := {p + nb}))
  {
    hide Sound, Accounted, Aligned, Pages, CanPrepend, CanPrependSeg, Chain, ShortChain;
    PrependSound(h, b, mapped, j, p, nb, qsize);
    var h1, q, c := Prepend(h, j, p, nb, qsize), p + nb, h.segs[j].base;
    PrependChain(h1.t, q, c);
    ExtendChain(h1.t, q, c, {});
    assert dead != {} ==> {} + {c} == dead;
    MergeChain(h1, q, e, dead);
    assert h1.loose - dead + {q} == {q};
    HeadOf(h, e);
    TopShape(h);
    TopNotLoose(h, dead);
  }

  lemma PrependChain(t: Tiling, q: Addr, c: Addr)
    requires q in t.ck && c == Next(t, q)
    ensures ShortChain(t, q, c, {})
  {
  }

  lemma HeadOf(h: Heap, p: Addr)
    requires Sound(h) && p in h.t.ck
    ensures p in h.w.head
  {
    TaggedFacts(h.w, h.t, p);
  }

  lemma PrependSound(h: Heap, b: Ledger, mapped: set<int>, j: nat, p: Addr, nb: nat, qsize: nat)
    requires Sound(h) && Accounted(h.segs, h.direct, b, mapped) && j < |h.segs| && h.segs[j].base == p + nb + qsize
    requires Aligned(p, nb + qsize) && nb % 8 == 0 && nb >= MIN_CHUNK_SIZE && qsize >= MIN_CHUNK_SIZE
    requires Pages(p, nb + qsize) <= b.leaked
    ensures var pages := Pages(p, nb + qsize);
            Accounted(PrependedSegs(h.segs, j, p, nb + qsize), h.direct,
                b.(segs := b.segs + pages, leaked := b.leaked - pages), mapped)
    ensures Sound(Prepend(h, j, p, nb, qsize)) && p !in h.t.ck && p + nb !in h.t.ck && p !in h.held && p !in h.loose
  {
    hide Sound, Accounted, Pages, CanPrepend, SegsHeld, SegsApart, Clear, Aligned;
    var pages, segs' := Pages(p, nb + qsize), PrependedSegs(h.segs, j, p, nb + qsize);
    AccountedParts(h.segs, h.direct, b, mapped);
    PrependedHeld(h.segs, b.segs, j, p, nb + qsize);
    ToSegs(h.segs, segs', h.direct, b, mapped, pages);
    HeldApart(segs', b.segs + pages);
    DirectRange(h);
    HeldClear(segs', h.direct, b.(segs := b.segs + pages, leaked := b.leaked - pages), mapped);
    SegAligned(segs', b.segs + pages, j);
    AlignedEight(p, nb + qsize);
    PrependKeepsSound(h, j, p, nb, qsize);
  }

  /** The words of a directly mapped chunk tell its region. */
  lemma DirectWordsOf(h: Heap, p: Addr)
    requires Sound(h) && p in h.direct
    ensures p in h.w.head && p in h.w.foot && h.w.foot[p] >= 0
    ensures var r := h.direct[p]; p - h.w.foot[p] == r.base && h.w.head[p].size + h.w.foot[p] + MMAP_FOOT_PAD == r.size
  {
    assert DirectAt(h, p);
  }

  lemma RegionGone(segs: seq<Seg>, direct: map<Addr, Region>, b: Ledger, mapped: set<int>, p: Addr)
    requires Accounted(segs, direct, b, mapped) && p in direct
    ensures var less := RegionPages(direct[p]);
            && Accounted(segs, direct - {p}, b.(direct := b.direct - less, leaked := b.leaked + less), mapped)
            && Accounted(segs, direct - {p}, b.(direct := b.direct - less), mapped - less)
            && PAGE * |mapped - less| == PAGE * |mapped| - direct[p].size
            && b.leaked + less != b.leaked && less <= mapped
  {
    hide Accounted, Pages;
    var less := RegionPages(direct[p]);
    FromDirect(segs, direct, b, mapped, p);
    var b' := b.(direct := b.direct - less, leaked := b.leaked + less);
    ReturnedHeld(segs, direct - {p}, b', mapped, less);
    NotLeaked(segs, direct, b, mapped, p);
    RegionCharged(segs, direct, b, mapped, p);
    assert b.leaked + less - less == b.leaked;
    PagesCardinality(direct[p].base, direct[p].size);
  }

  lemma NotLeaked(segs: seq<Seg>, direct: map<Addr, Region>, b: Ledger, mapped: set<int>, p: Addr)
    requires Accounted(segs, direct, b, mapped) && p in direct
    ensures RegionPages(direct[p]) !! b.leaked && RegionPages(direct[p]) != {}
  {
    hide Pages, Aligned;
    DroppedHeld(direct, b.direct, p);
    PagesCardinality(direct[p].base, direct[p].size);
    SomePages(direct[p].base, direct[p].size);
  }

  lemma SomePages(base: Addr, size: nat)
    requires Aligned(base, size)
    ensures Pages(base, size) != {} && base / PAGE in Pages(base, size)
  {
    assert base / PAGE in Pages(base, size);
  }

  /** The in-use bits tell the chunks of the heap from the directly mapped ones. */
  lemma WordsOfLive(h: Heap, p: Addr)
    requires Sound(h) && (p in h.held || p in h.direct)
    ensures p in h.w.head && !(p in h.held && p in h.direct)
    ensures p in h.direct <==> !h.w.head[p].pinuse && !h.w.head[p].cinuse
  {
    if p in h.held {
      HeldFacts(h, p);
    }
    if p in h.direct {
      assert DirectAt(h, p);
    }
  }

  lemma DvSizeIs(h: Heap, dv: Addr, dvsize: nat)
    requires Sound(h) && h.victim == map[dv := dvsize]
    ensures IsFree(h.t, dv) && h.t.ck[dv] == dvsize && dvsize > 0
  {
    TakeOutKeepsSound(h, dv);
    FreeSize(h, dv);
  }

  /** Behind a free chunk there is a chunk in use whose pinuse bit is clear. */
  lemma FreeNext(h: Heap, q: Addr)
    requires Sound(h) && IsFree(h.t, q)
    ensures var n := Next(h.t, q); n in h.t.ck && n in h.t.used && n in h.w.head && !h.w.head[n].pinuse
  {
    assert ChunkOk(h.w, h.t, q);
  }

  /** A free chunk that is neither top nor dv nor in hand is binned, and its head tells its size. */
  lemma BinnedNext(h: Heap, q: Addr)
    requires Sound(h) && q in h.t.ck && q !in h.t.used && q != h.t.top && q !in h.loose && q !in h.victim
    ensures IsFree(h.t, q) && (q in h.small || q in h.large) && q in h.w.head && h.w.head[q].size == h.t.ck[q]
  {
    assert ChunkOk(h.w, h.t, q) && KeptAt(h, q);
  }

  lemma VictimNot(h: Heap, p: Addr)
    requires Sound(h) && p in h.held
    ensures p !in h.victim && p > 0
  {
    HeldFacts(h, p);
  }

  /** A clear pinuse bit: the free chunk before p ends at p, and the bit of that chunk is set. */
  lemma PrevFacts(h: Heap, p: Addr)
    requires Sound(h) && h.loose == {} && p in h.t.ck && p in h.w.head && !h.w.head[p].pinuse
    ensures p in h.w.foot && h.w.foot[p] > 0
    ensures var q := p - h.w.foot[p];
            && IsFree(h.t, q) && h.t.ck[q] == h.w.foot[p] && q in h.w.head && h.w.head[q].pinuse && q > 0
            && (q in h.small || q in h.large || q in h.victim)
  {
    hide SegsOk, Owned, Directs;
    assert ChunkOk(h.w, h.t, p);
    var q := p - h.w.foot[p];
    assert ChunkOk(h.w, h.t, q) && KeptAt(h, q);
    FreeHasPinuse(h.w, h.t, q);
  }

  /** No two free chunks touch, so the bit of a free chunk is set. */
  lemma FreeHasPinuse(w: Words, t: Tiling, q: Addr)
    requires Tagged(w, t) && q in t.ck && q !in t.used
    ensures q in w.head && w.head[q].pinuse
  {
    assert ChunkOk(w, t, q);
    if !w.head[q].pinuse {
      TaggedFacts(w, t, q - w.foot[q]);
    }
  }

  /** What sys_trim gives back is whole units and leaves more than pad. */
  lemma ExtraRoom(topsize: nat, pad: nat)
    requires topsize > pad
    ensures var extra := ((topsize - pad + (GRANULARITY - 1)) / GRANULARITY - 1) * GRANULARITY;
            extra >= 0 && extra % PAGE == 0 && extra % GRANULARITY == 0 && pad < topsize - extra <= pad + GRANULARITY
  {
  }

  lemma TopSegment(h: Heap, i: nat)
    requires Sound(h) && i <= |h.segs| && (i == |h.segs| ==> !Inside(h.segs, h.t.top))
    requires i < |h.segs| ==> h.segs[i].base <= h.t.top < End(h.segs[i])
    ensures |h.segs| > 0 && i == 0
  {
    SegFacts(h.segs, h.t);
    assert Inside(h.segs, h.t.top) by {
      assert h.segs[0].base <= h.t.top < End(h.segs[0]);
    }
    OneSeg(h.segs, 0, i, h.t.top);
  }

  /** Cutting a region by mremap leaves the same pages as unmapping its end. */
  lemma RemapIsUnmap(base: Addr, newsize: nat, extra: nat, mapped: set<int>)
    requires base % PAGE == 0 && newsize % PAGE == 0 && extra % PAGE == 0 && Pages(base, newsize + extra) <= mapped
    ensures mapped - Pages(base, newsize + extra) + Pages(base, newsize) == mapped - Pages(base + newsize, extra)
    ensures extra == 0 ==> Pages(base + newsize, extra) == {}
  {
    hide Pages;
    PagesJoin(base, newsize, extra);
    NoPages(base + newsize);
  }

  lemma NoPages(base: Addr)
    ensures Pages(base, 0) == {}
  {
  }

  lemma ShrinkPages(segs: seq<Seg>, direct: map<Addr, Region>, b: Ledger, mapped: set<int>, extra: nat)
    requires Accounted(segs, direct, b, mapped) && |segs| > 0 && extra < segs[0].size && extra % PAGE == 0
    ensures Aligned(segs[0].base, segs[0].size) && Pages(segs[0].base, segs[0].size) <= mapped
    ensures var size := segs[0].size - extra;
            var less := Pages(segs[0].base + size, extra);
            && Accounted(ResizedSegs(segs, size), direct, b.(segs := b.segs - less), mapped - less)
            && PAGE * |mapped - less| == PAGE * |mapped| - extra && less <= mapped
  {
    hide SegsHeld, DirectsHeld, Pages, Aligned;
    ShrunkHeld(segs, b.segs, extra);
    SegAligned(segs, b.segs, 0);
    SegOwned(segs, b.segs, 0);
    var size := segs[0].size - extra;
    var less := Pages(segs[0].base + size, extra);
    TailCount(segs[0].base, segs[0].size, extra, mapped, less);
  }

  lemma TailCount(base: Addr, size: nat, extra: nat, mapped: set<int>, less: set<int>)
    requires Aligned(base, size) && extra < size && extra % PAGE == 0 && less == Pages(base + (size - extra), extra)
             && less <= mapped
    ensures PAGE * |mapped - less| == PAGE * |mapped| - extra
  {
    hide Pages, Aligned;
    MinusCardinality(mapped, less);
    if extra == 0 {
      NoPages(base + (size - extra));
    } else {
      TailAligned(base, size, extra);
      PagesCardinality(base + (size - extra), extra);
    }
  }

  lemma ShrinkTop(h: Heap, b: Ledger, mapped: set<int>, extra: nat)
    requires Sound(h) && Accounted(h.segs, h.direct, b, mapped) && h.t.top in h.t.ck && extra < h.t.ck[h.t.top]
             && extra % PAGE == 0 && |h.segs| > 0
    ensures extra < h.segs[0].size && h.segs[0].base % PAGE == 0 && (h.segs[0].size - extra) % PAGE == 0
    ensures Pages(h.segs[0].base, h.segs[0].size) <= mapped
    ensures var size := h.segs[0].size - extra;
            var less := Pages(h.segs[0].base + size, extra);
            && Sound(Resize(h, h.t.ck[h.t.top] - extra, size))
            && Accounted(ResizedSegs(h.segs, size), h.direct, b.(segs := b.segs - less), mapped - less)
            && PAGE * |mapped - less| == PAGE * |mapped| - extra && less <= mapped
  {
    hide Sound, Accounted, SegsHeld, DirectsHeld, Pages, Clear, CanResize;
    TopShape(h);
    ShrinkPages(h.segs, h.direct, b, mapped, extra);
    var size := h.segs[0].size - extra;
    var less := Pages(h.segs[0].base + size, extra);
    var segs', b' := ResizedSegs(h.segs, size), b.(segs := b.segs - less);
    AccountedParts(segs', h.direct, b', mapped - less);
    HeldApart(segs', b'.segs);
    DirectRange(h);
    HeldClear(segs', h.direct, b', mapped - less);
    ShrunkShape(h, extra);
    ResizeKeepsSound(h, h.t.ck[h.t.top] - extra, size);
  }

  lemma TailAligned(base: Addr, size: nat, extra: nat)
    requires Aligned(base, size) && 0 < extra < size && extra % PAGE == 0
    ensures Aligned(base + (size - extra), extra)
  {
  }

  lemma SegOwned(segs: seq<Seg>, mine: set<int>, i: nat)
    requires SegsHeld(segs, mine) && i < |segs|
    ensures SegPages(segs[i]) <= mine
  {
    assert SegHeld(segs[i], mine);
  }

  lemma ShrunkShape(h: Heap, extra: nat)
    requires |h.segs| > 0 && h.t.top in h.t.ck && extra < h.t.ck[h.t.top] && h.t.ck[h.t.top] % 8 == 0
             && extra % PAGE == 0
    requires h.t.top + h.t.ck[h.t.top] + TOP_FOOT_SIZE == End(h.segs[0]) && h.segs[0].base <= h.t.top
    requires Aligned(h.segs[0].base, h.segs[0].size) && extra < h.segs[0].size
             && SegsApart(ResizedSegs(h.segs, h.segs[0].size - extra))
    ensures CanResize(h.segs, h.t, h.t.ck[h.t.top] - extra, h.segs[0].size - extra)
  {
    hide SegsApart;
    assert extra % 8 == 0 by {
      assert extra == 8 * (512 * (extra / PAGE));
    }
  }

  /** An unused segment can be dropped, and its free chunk is large. */
  lemma UnusedSeg(h: Heap, i: nat)
    requires Sound(h) && h.loose == {} && 0 < i < |h.segs|
    requires var p := h.segs[i].base;
             p in h.w.head && !h.w.head[p].cinuse && p + h.w.head[p].size >= End(h.segs[i]) - TOP_FOOT_SIZE
    ensures CanDropSeg(h.segs, h.t, i) && IsFree(h.t, h.segs[i].base) && h.segs[i].base > 0
    ensures h.t.ck[h.segs[i].base] == h.w.head[h.segs[i].base].size >= MIN_LARGE_SIZE
    ensures h.segs[i].base in h.small || h.segs[i].base in h.large || h.segs[i].base in h.victim
  {
    hide Owned, Directs;
    SegFacts(h.segs, h.t);
    var p, r := h.segs[i].base, RecordChunk(h.segs[i]);
    assert SegOk(h.segs, h.t, i) && ChunkOk(h.w, h.t, p) && KeptAt(h, p);
    ChunkFacts(h.w, h.t, p, r);
    NotTopSeg(h.segs, i, p, h.t.top);
  }

  /** The segment holds nothing but a free chunk and its own record. */
  predicate IsIdle(w: Words, s: Seg) {
    && s.base in w.head && !w.head[s.base].cinuse && w.head[s.base].pinuse
    && s.base + w.head[s.base].size >= End(s) - TOP_FOOT_SIZE
  }

  /** None of the first n segments, the very first apart, is idle. */
  ghost predicate NoneIdle(w: Words, segs: seq<Seg>, n: nat) {
    n <= |segs| && forall j: nat :: 1 <= j < n ==> !IsIdle(w, segs[j])
  }

  lemma NotTopSeg(segs: seq<Seg>, i: nat, p: Addr, top: Addr)
    requires SegsApart(segs) && 0 < i < |segs| && segs[i].base <= p < End(segs[i]) && segs[0].base <= top < End(segs[0])
    ensures p != top
  {
    if p == top {
      OneSeg(segs, 0, i, p);
    }
  }

  /** The segment, its record and its pages are gone. */
  lemma SegGone(h: Heap, b: Ledger, mapped: set<int>, i: nat)
    requires Sound(h) && Accounted(h.segs, h.direct, b, mapped) && 0 < i < |h.segs| && CanDropSeg(h.segs, h.t, i)
             && h.segs[i].base in h.loose
    ensures Sound(DropSeg(h, i)) && h.t.top in h.t.ck && h.t.top != h.segs[i].base && h.t.top != RecordChunk(h.segs[i])
    ensures Accounted(WithoutSeg(h.segs, i), h.direct, b.(segs := b.segs - SegPages(h.segs[i])),
            mapped - SegPages(h.segs[i]))
    ensures PAGE * |mapped - SegPages(h.segs[i])| == PAGE * |mapped| - h.segs[i].size && SegPages(h.segs[i]) <= mapped
  {
    hide Sound, SegsHeld, DirectsHeld, CanDropSeg, Pages;
    DropSegKeepsSound(h, i);
    TopStays(h, i);
    WithoutHeld(h.segs, b.segs, i);
    MinusCardinality(mapped, SegPages(h.segs[i]));
    SegAligned(h.segs, b.segs, i);
    PagesCardinality(h.segs[i].base, h.segs[i].size);
  }

  lemma TopStays(h: Heap, i: nat)
    requires Sound(h) && 0 < i < |h.segs| && CanDropSeg(h.segs, h.t, i)
    ensures h.t.top in h.t.ck && h.t.top != h.segs[i].base && h.t.top != RecordChunk(h.segs[i])
  {
    SegFacts(h.segs, h.t);
    TopIsFree(h);
  }

  lemma SegAligned(segs: seq<Seg>, mine: set<int>, i: nat)
    requires SegsHeld(segs, mine) && i < |segs|
    ensures Aligned(segs[i].base, segs[i].size)
  {
    assert SegHeld(segs[i], mine);
  }

  /** What others have mapped is not touched when own pages go and fresh pages come. */
  lemma OthersMove(mapped: set<int>, mine: set<int>, less: set<int>, more: set<int>)
    requires mine <= mapped && less <= mine && more !! (mapped - less)
    ensures Swap(mapped, less, more) - Swap(mine, less, more) == mapped - mine
    ensures Swap(mine, less, more) <= Swap(mapped, less, more)
  {
  }

  lemma OthersJoin(mapped: set<int>, mine: set<int>, more: set<int>)
    requires mine <= mapped && more !! mapped
    ensures Joined(mapped, more) - Joined(mine, more) == mapped - mine && Joined(mine, more) <= Joined(mapped, more)
            && more !! mine
  {
  }

  lemma GrowTop(h: Heap, b: Ledger, mapped: set<int>, tsize: nat)
    requires Sound(h) && Accounted(h.segs, h.direct, b, mapped) && |h.segs| > 0
    requires Aligned(End(h.segs[0]), tsize) && Pages(End(h.segs[0]), tsize) <= b.leaked
    ensures h.t.top in h.t.ck
    ensures var pages := Pages(End(h.segs[0]), tsize);
            && Sound(Resize(h, h.t.ck[h.t.top] + tsize, h.segs[0].size + tsize))
            && Accounted(ResizedSegs(h.segs, h.segs[0].size + tsize), h.direct,
                         b.(segs := b.segs + pages, leaked := b.leaked - pages), mapped)
  {
    hide Sound, Accounted, Aligned, Pages, SegsHeld;
    var pages := Pages(End(h.segs[0]), tsize);
    var segs' := ResizedSegs(h.segs, h.segs[0].size + tsize);
    AccountedParts(h.segs, h.direct, b, mapped);
    GrownHeld(h.segs, b.segs, tsize);
    ToSegs(h.segs, segs', h.direct, b, mapped, pages);
    HeldApart(segs', b.segs + pages);
    DirectRange(h);
    HeldClear(segs', h.direct, b.(segs := b.segs + pages, leaked := b.leaked - pages), mapped);
    TopShape(h);
    GrownShape(h, tsize, b.segs + pages);
    ResizeKeepsSound(h, h.t.ck[h.t.top] + tsize, h.segs[0].size + tsize);
  }

  lemma AccountedParts(segs: seq<Seg>, direct: map<Addr, Region>, b: Ledger, mapped: set<int>)
    requires Accounted(segs, direct, b, mapped)
    ensures SegsHeld(segs, b.segs) && DirectsHeld(direct, b.direct) && b.segs !! b.leaked && b.direct !! b.leaked
            && b.segs !! b.direct
  {
  }

  lemma TopShape(h: Heap)
    requires Sound(h)
    ensures |h.segs| > 0 && h.t.top in h.t.ck && h.t.ck[h.t.top] > 0 && h.t.ck[h.t.top] % 8 == 0
    ensures h.t.top + h.t.ck[h.t.top] + TOP_FOOT_SIZE == End(h.segs[0]) && h.segs[0].base <= h.t.top
  {
    assert SegOk(h.segs, h.t, 0) && ChunkOk(h.w, h.t, h.t.top);
  }

  lemma GrownShape(h: Heap, tsize: nat, mine: set<int>)
    requires |h.segs| > 0 && h.t.top in h.t.ck && h.t.ck[h.t.top] > 0 && h.t.ck[h.t.top] % 8 == 0
             && Aligned(End(h.segs[0]), tsize)
    requires h.t.top + h.t.ck[h.t.top] + TOP_FOOT_SIZE == End(h.segs[0]) && h.segs[0].base <= h.t.top
    requires SegsHeld(ResizedSegs(h.segs, h.segs[0].size + tsize), mine)
             && SegsApart(ResizedSegs(h.segs, h.segs[0].size + tsize))
    ensures CanResize(h.segs, h.t, h.t.ck[h.t.top] + tsize, h.segs[0].size + tsize)
  {
    hide SegsApart, Aligned;
    AlignedEight(End(h.segs[0]), tsize);
    assert SegHeld(ResizedSegs(h.segs, h.segs[0].size + tsize)[0], mine);
  }

  lemma AlignOffsetZero(base: Addr, size: nat)
    requires Aligned(base, size)
    ensures base > 0 && base % 8 == 0 && base % PAGE == 0 && AlignOffset(base + 16) == 0
  {
    AlignedEight(base, size);
  }

  /** (x + PAGE - 1) & ~(PAGE - 1) in 64 bits. */
  function PageAlign(x: nat): nat {
    (x + PAGE - 1) % Bits.WORD / PAGE * PAGE
  }

  function AlignOffset(a: nat): nat {
    if a % 8 == 0 then 0 else 8 - a % 8
  }

  /** The test mmsize > nb is exactly that the sum has not wrapped around. */
  lemma PageAlignRoom(nb: nat)
    requires MIN_CHUNK_SIZE <= nb < Bits.WORD
    ensures PageAlign((nb + 48 + 7) % Bits.WORD) % PAGE == 0
    ensures PageAlign((nb + 48 + 7) % Bits.WORD) > nb <==> nb + 48 + 7 + PAGE - 1 < Bits.WORD
    ensures PageAlign((nb + 48 + 7) % Bits.WORD) > nb ==> PageAlign((nb + 48 + 7) % Bits.WORD) >= nb + 48 + 7
  {
  }

  /** p has been handed out in a region of its own. */
  ghost predicate TookDirect(g: Shape, g': Shape, w: Words, p: Addr, nb: nat) {
    && p !in g.held && p !in g.direct && p in g'.direct && g'.direct == g.direct[p := g'.direct[p]] && g'.held == g.held
    && g'.ledger.leaked == g.ledger.leaked && nb <= DirectSize(p, g'.direct[p]) && p == g'.direct[p].base
       && p % PAGE == 0
    && p in w.head && w.head[p] == Head(DirectSize(p, g'.direct[p]), false, false)
  }

  lemma DirectRange(h: Heap)
    requires Sound(h)
    ensures forall p: Addr :: p in h.direct ==> h.direct[p].base <= p < DirectEnd(h.direct[p])
  {
    forall p: Addr | p in h.direct
      ensures h.direct[p].base <= p < DirectEnd(h.direct[p])
    {
      assert DirectAt(h, p);
    }
  }

  /** Pages not in use become the region of a chunk at p. */
  lemma NewDirect(h: Heap, b: Ledger, mapped: set<int>, w: Words, p: Addr, r: Region)
    requires Sound(h) && Accounted(h.segs, h.direct, b, mapped) && Aligned(r.base, r.size) && RegionPages(r) <= b.leaked
    requires DirectWritten(h.w, w, p, r, h.cookie) && p % 8 == 0
    ensures Sound(AddDirect(h, w, p, r)) && p !in h.held && p !in h.direct
    ensures Accounted(h.segs, h.direct[p := r], b.(direct := b.direct + RegionPages(r),
            leaked := b.leaked - RegionPages(r)), mapped)
  {
    hide Sound, Aligned, Accounted, Pages, RegionPages, DirectWritten;
    DirectRange(h);
    HeldFresh(h, b, mapped, r);
    AddDirectKeepsSound(h, w, p, r);
    ToDirect(h.segs, h.direct, b, mapped, p, r);
  }

  lemma DirectHead(w: Words, p: Addr, r: Region, cookie: int)
    requires p < DirectEnd(r)
    ensures var w' := DirectWords(w, p, r, cookie); p in w'.head && w'.head[p] == Head(DirectSize(p, r), false, false)
  {
  }

  lemma TreeHolds(h: Heap, v: Addr)
    requires Sound(h) && v in h.large
    ensures v in h.t.ck && h.t.ck[v] == h.large[v] < Bits.WORD
  {
    assert KeptAt(h, v);
    FreeSize(h, v);
  }

  lemma DvSize(h: Heap, dv: Addr)
    requires Sound(h)
    ensures dv in h.victim ==> h.victim[dv] < Bits.WORD
  {
    assert KeptAt(h, dv);
    if dv in h.victim {
      FreeSize(h, dv);
    }
  }

  /** What a caller gets of a chunk of s bytes: all of it if the rest would be too small for a chunk. */
  function Given(s: nat, nb: nat): nat {
    if s < nb + MIN_CHUNK_SIZE then s else nb
  }

  /** A chunk of exactly s bytes is stored. */
  ghost predicate Stores(size: map<Addr, nat>, s: nat) {
    exists x :: x in size && size[x] == s
  }

  ghost predicate SomeFits(size: map<Addr, nat>, nb: nat) {
    exists x :: TreeBins.Fits(size, nb, x)
  }

  /** The bins or the trees serve the request, rather than dv: a small request fits a stored small chunk with no or 8
      bytes to spare, or any stored chunk if dv is too small; a large one fits a tree chunk better than dv. */
  ghost predicate Binned(small: map<Addr, nat>, trees: map<Addr, nat>, dvsize: nat, nb: nat) {
    if nb < MIN_LARGE_SIZE then
      Stores(small, nb) || Stores(small, nb + 8) || (dvsize < nb && (SomeFits(small, nb) || SomeFits(trees, nb)))
    else
      exists x :: TreeBins.Fits(trees, nb, x) && (dvsize < nb || trees[x] < dvsize)
  }

  /** p, of which the caller gets got bytes, is the stored chunk that is due: an exact fit, one with 8 bytes to spare,
      the best fit of the small chunks, the best fit of the trees. */
  ghost predicate FromBins(small: map<Addr, nat>, trees: map<Addr, nat>, nb: nat, p: Addr, got: int) {
    if nb < MIN_LARGE_SIZE && Stores(small, nb) then p in small && small[p] == nb && got == nb
    else if nb < MIN_LARGE_SIZE && Stores(small, nb + 8) then p in small && small[p] == nb + 8 && got == nb + 8
    else if nb < MIN_LARGE_SIZE && SomeFits(small, nb) then
      TreeBins.BestFit(small, nb, p) && got == Given(small[p], nb)
    else TreeBins.BestFit(trees, nb, p) && got == Given(trees[p], nb)
  }

  /** p is dv, the front of top, or the start of memory that is new to the mspace or extends top. */
  ghost predicate FromRest(m: Space, mine: set<int>, nb: nat, p: Addr, got: int) {
    if nb <= m.dvsize then p == m.dv && got == Given(m.dvsize, nb)
    else if nb < m.topsize then p == m.top && got == nb
    else p == m.top || p / PAGE !in mine
  }

  /** The chunk at p is the one that mspace_malloc owes a request of nb bytes. */
  ghost predicate Chosen(small: map<Addr, nat>, trees: map<Addr, nat>, m: Space, mine: set<int>, nb: nat, p: Addr,
                         got: int)
  {
    if Binned(small, trees, m.dvsize, nb) then FromBins(small, trees, nb, p, got) else FromRest(m, mine, nb, p, got)
  }

  lemma ExactIsBinned(small: map<Addr, nat>, trees: map<Addr, nat>, dvsize: nat, nb: nat, p: Addr)
    requires nb < MIN_LARGE_SIZE && p in small && (small[p] == nb || (small[p] == nb + 8 && !Stores(small, nb)))
    ensures Binned(small, trees, dvsize, nb) && FromBins(small, trees, nb, p, small[p])
  {
  }

  lemma NextIsBinned(small: map<Addr, nat>, trees: map<Addr, nat>, dvsize: nat, nb: nat, p: Addr)
    requires dvsize < nb < MIN_LARGE_SIZE && !Stores(small, nb) && !Stores(small, nb + 8)
    requires TreeBins.BestFit(small, nb, p)
    ensures Binned(small, trees, dvsize, nb) && FromBins(small, trees, nb, p, Given(small[p], nb))
  {
  }

  lemma TreeIsBinned(small: map<Addr, nat>, trees: map<Addr, nat>, dvsize: nat, nb: nat, p: Addr)
    requires dvsize < nb < MIN_LARGE_SIZE && p in trees && trees[p] >= nb
    requires forall x :: x in small ==> small[x] < nb
    requires forall x :: x in trees ==> trees[p] <= trees[x]
    ensures Binned(small, trees, dvsize, nb) && FromBins(small, trees, nb, p, Given(trees[p], nb))
  {
    assert TreeBins.Fits(trees, nb, p);
  }

  lemma NoneIsBinned(small: map<Addr, nat>, trees: map<Addr, nat>, dvsize: nat, nb: nat)
    requires nb < MIN_LARGE_SIZE && !Stores(small, nb) && !Stores(small, nb + 8)
    requires dvsize < nb ==> forall x :: x in small ==> small[x] < nb
    requires dvsize < nb ==> forall x :: x in trees ==> trees[x] < nb
    ensures !Binned(small, trees, dvsize, nb)
  {
  }

  lemma LargeIsBinned(small: map<Addr, nat>, trees: map<Addr, nat>, dvsize: nat, nb: nat, p: Addr)
    requires nb >= MIN_LARGE_SIZE && TreeBins.BestFit(trees, nb, p) && (dvsize < nb || trees[p] < dvsize)
    ensures Binned(small, trees, dvsize, nb) && FromBins(small, trees, nb, p, Given(trees[p], nb))
  {
  }

  lemma NoLargeIsBinned(small: map<Addr, nat>, trees: map<Addr, nat>, dvsize: nat, nb: nat)
    requires nb >= MIN_LARGE_SIZE
    requires forall x :: TreeBins.Fits(trees, nb, x) ==> nb <= dvsize <= trees[x]
    ensures !Binned(small, trees, dvsize, nb)
  {
  }

  /** p has been handed out: it was not held, its size is nb or up to 24 bytes more, and both in-use bits are set. */
  ghost predicate Took(g: Shape, g': Shape, w: Words, p: Addr, nb: nat) {
    && p !in g.held && p in g'.held && g'.held == g.held[p := g'.held[p]] && g'.direct == g.direct
       && g'.ledger == g.ledger && g'.mine == g.mine
    && nb <= g'.held[p] < nb + MIN_CHUNK_SIZE
    && p in w.head && w.head[p] == Head(g'.held[p], true, true)
  }

  lemma WholeHead(w: Words, p: Addr, s: nat, cookie: int)
    requires p + s in w.head && s > 0
    ensures var w' := SetInuseAndPinuse(w, p, s, cookie); p in w'.head && w'.head[p] == Head(s, true, true)
  {
  }

  lemma FrontHead(w: Words, p: Addr, nb: nat, rsize: nat, cookie: int)
    requires nb > 0
    ensures var w' := SplitWords(w, p, nb, rsize, cookie); p in w'.head && w'.head[p] == Head(nb, true, true)
  {
  }

  /** dv moves to its small bin and the chunk p in hand becomes dv. */
  lemma NewVictimKeepsSound(h: Heap, dv: Addr, dvs: nat, p: Addr)
    requires Sound(h) && h.victim == map[dv := dvs] && IsSmall(dvs) && p in h.loose && p !in h.t.used
    ensures SmallBins.Storable(dvs) && dv > 0 && dv !in h.small && p in h.t.ck
    ensures Sound(h.(small := h.small[dv := dvs], victim := map[p := h.t.ck[p]], loose := h.loose - {p}))
  {
    hide Sound;
    TakeOutKeepsSound(h, dv);
    var h1 := OutOfVictim(h);
    PutBackKeepsSound(h1, dv);
    FreeSize(h1, dv);
    var h2 := IntoSmall(h1, dv, dvs);
    PutBackKeepsSound(h2, p);
    assert h2.loose == h.loose;
  }

  lemma LooseHasSize(h: Heap, p: Addr)
    requires Sound(h) && p in h.loose && p !in h.t.used
    ensures p in h.t.ck && h.t.ck[p] != 0
  {
    LooseIsFree(h, p);
  }

  lemma LooseNotUsed(h: Heap, q: Addr)
    requires Sound(h) && q !in h.t.ck
    ensures q !in h.t.used
  {
  }

  /** A free chunk can go to a bin: its size is a multiple of 8, at least 32 and fits a word. */
  lemma FreeSize(h: Heap, p: Addr)
    requires Sound(h) && IsFree(h.t, p)
    ensures p > 0 && h.t.ck[p] % 8 == 0 && h.t.ck[p] >= MIN_CHUNK_SIZE && h.t.ck[p] < Bits.WORD
    ensures IsSmall(h.t.ck[p]) ==> SmallBins.Storable(h.t.ck[p])
    ensures !IsSmall(h.t.ck[p]) ==> TreeBins.Storable(h.t.ck[p])
  {
    assert ChunkOk(h.w, h.t, p) && Placed(h.segs, h.t, p);
    var i: nat :| i < |h.segs| && InSeg(h.segs, h.t, p, i);
    assert SegOk(h.segs, h.t, i);
    LimitInside(h.segs, h.t, i);
  }

  lemma InitialAccounted(base: Addr, size: nat)
    requires Aligned(base, size)
    ensures Accounted([Seg(base, size, 0)], map[], Ledger(Pages(base, size), {}, {}), Pages(base, size))
  {
    hide Pages, Aligned;
    var segs := [Seg(base, size, 0)];
    assert SegPages(segs[0]) == Pages(base, size);
  }

  class Mspace {
    const small: SmallBins.SmallBins
    const trees: TreeBins.TreeBins
    const sys: System
    const home: Addr
    const cookie: int
    const useMmap: bool
    var m: Space
    ghost var g: Shape

    ghost function TheHeap(): Heap
      reads this, small, trees
    {
      HeapOf(m, g, small.n.size, trees.n.size, home, cookie)
    }

    /** What holds throughout an operation, as far as it depends on this mspace alone. */
    ghost predicate Local()
      reads this, small, trees
    {
      && small.Valid() && trees.Valid() && Sound(TheHeap())
      && Cached(m.top, m.topsize, g.t) && m.releaseChecks > 0 && |m.segs| > 0 && (m.dvsize == 0 ==> m.dv == 0)
      && Charged(m.segs, g.direct, g.ledger, g.mine, m.footprint, m.maxFootprint)
    }

    /** Holds throughout an operation. */
    ghost predicate Inv()
      reads this, small, trees, sys
    {
      Local() && g.mine <= sys.mapped
    }

    /** The pages that the system has mapped for others. */
    ghost function Others(): set<int>
      reads this, sys
    {
      sys.mapped - g.mine
    }

    /** Holds between operations: nothing is in hand. */
    ghost predicate Valid()
      reads this, small, trees, sys
    {
      Inv() && g.loose == {} && g.dvHeld
    }

    /** The part of Valid that does not depend on the system. */
    ghost predicate Resting()
      reads this, small, trees
    {
      Local() && g.loose == {} && g.dvHeld
    }

    /** init_user_mstate, in memory fresh from the system. */
    constructor (sys: System, base: Addr, size: nat, cookie: int, useMmap: bool)
      requires Aligned(base, size) && size > MSTATE_CHUNK + TOP_FOOT_SIZE && Pages(base, size) <= sys.mapped
      ensures Valid() && this.sys == sys && g.mine == Pages(base, size) && fresh(small) && fresh(trees)
      ensures g.held == map[] && g.direct == map[] && m.footprint == size
      ensures m.topsize == size - MSTATE_CHUNK - TOP_FOOT_SIZE && m.dvsize == 0
              && m.releaseChecks == MAX_RELEASE_CHECK_RATE
      ensures small.n.size == map[] && trees.n.size == map[]
    {
      hide SmallBins.Inv, TreeBins.Inv, Sound, Pages, Accounted, Aligned;
      this.sys, this.home, this.cookie, this.useMmap := sys, base, cookie, useMmap;
      small := new SmallBins.SmallBins();
      trees := new TreeBins.TreeBins();
      var s := size - MSTATE_CHUNK - TOP_FOOT_SIZE;
      m := Space(InitialWords(base, size), 0, 0, base + MSTATE_CHUNK, s, [Seg(base, size, 0)], size, size,
          TRIM_THRESHOLD,
                 MAX_RELEASE_CHECK_RATE);
      g := Shape(Initial(base, size, cookie).t, map[], map[], {}, true, Ledger(Pages(base, size), {}, {}),
          Pages(base, size));
      new;
      InitialSound(base, size, cookie);
      PagesCardinality(base, size);
      InitialAccounted(base, size);
    }

    // ----- bins -----

    /** unlink_chunk. */
    method UnlinkChunk(p: Addr, s: nat)
      requires Inv() && (p in small.n.size || p in trees.n.size) && p in g.t.ck && s == g.t.ck[p]
      modifies this`g, small, trees
      ensures Inv() && g == old(g).(loose := old(g.loose) + {p}) && IsFree(g.t, p) && p !in old(g.loose)
      ensures small.n.size == old(small.n.size) - {p} && trees.n.size == old(trees.n.size) - {p}
    {
      hide SmallBins.Inv, TreeBins.Inv, Sound, Cached, Charged;
      ghost var h := TheHeap();
      TakeOutKeepsSound(h, p);
      if IsSmall(s) {
        if p in trees.n.size {
          TreeBins.StoredAt(trees.n, trees.g, p);
        }
        small.UnlinkSmallChunk(p, s);
      } else {
        if p in small.n.size {
          SmallBins.StoredIsSmall(small.n, small.g, p);
        }
        trees.UnlinkLargeChunk(p);
      }
      g := g.(loose := g.loose + {p});
      assert small.n.size == h.small - {p} && trees.n.size == h.large - {p};
    }

    /** insert_chunk. */
    method InsertChunk(p: Addr, s: nat)
      requires Inv() && p in g.loose && p !in g.t.used && p in g.t.ck && s == g.t.ck[p]
      modifies this`g, small, trees
      ensures Inv() && g == old(g).(loose := old(g.loose) - {p})
      ensures if IsSmall(s) then small.n.size == old(small.n.size)[p := s] && trees.n == old(trees.n)
              else trees.n.size == old(trees.n.size)[p := s] && small.n == old(small.n)
    {
      hide SmallBins.Inv, TreeBins.Inv, Sound, Cached, Charged;
      ghost var h := TheHeap();
      PutBackKeepsSound(h, p);
      FreeSize(h, p);
      if IsSmall(s) {
        small.InsertSmallChunk(p, s);
      } else {
        trees.InsertLargeChunk(p, s);
      }
      g := g.(loose := g.loose - {p});
    }

    /** replace_dv: the old dv, which must be small, goes to its bin. */
    method ReplaceDv(p: Addr, s: nat)
      requires Inv() && g.dvHeld && p in g.loose && p !in g.t.used && p in g.t.ck && s == g.t.ck[p] && IsSmall(m.dvsize)
      modifies this, small
      ensures Inv() && g == old(g).(loose := old(g.loose) - {p}) && m == old(m).(dv := p, dvsize := s)
    {
      hide SmallBins.Inv, TreeBins.Inv, Sound, Cached, Charged;
      ghost var h := TheHeap();
      var dvs := m.dvsize;
      if dvs != 0 {
        var dv := m.dv;
        NewVictimKeepsSound(h, dv, dvs, p);
        small.InsertSmallChunk(dv, dvs);
      } else {
        PutBackKeepsSound(h, p);
      }
      m := m.(dvsize := s, dv := p);
      g := g.(loose := g.loose - {p});
      LooseHasSize(h, p);
    }

    // ----- marking chunks in use -----

    /** set_inuse_and_pinuse on a free chunk in hand. */
    method MarkWhole(p: Addr, s: nat)
      requires Inv() && p in g.loose && p !in g.t.used && p in g.t.ck && s == g.t.ck[p]
      modifies this
      ensures Inv() && p + s in old(m.w.head) && m == old(m).(w := SetInuseAndPinuse(old(m.w), p, s, cookie))
      ensures g == old(g).(t := old(g.t).(used := old(g.t.used) + {p}), held := old(g.held)[p := s],
              loose := old(g.loose) - {p})
      ensures p !in old(g.held)
    {
      hide SmallBins.Inv, TreeBins.Inv, Sound, Charged;
      ghost var h := TheHeap();
      LooseIsFree(h, p);
      TakeWholeKeepsSound(h, p);
      m := m.(w := SetInuseAndPinuse(m.w, p, s, cookie));
      g := g.(t := g.t.(used := g.t.used + {p}), held := g.held[p := s], loose := g.loose - {p});
    }

    /** set_size_and_pinuse_of_inuse_chunk on the front of a free chunk in hand, set_size_and_pinuse_of_free_chunk on
        the rest. */
    method MarkFront(p: Addr, nb: nat, rsize: nat)
      requires Inv() && p in g.loose && p !in g.t.used && p in g.t.ck && nb + rsize == g.t.ck[p]
      requires nb % 8 == 0 && nb >= MIN_CHUNK_SIZE && rsize >= MIN_CHUNK_SIZE
      modifies this
      ensures Inv() && m == old(m).(w := SplitWords(old(m.w), p, nb, rsize, cookie))
      ensures g == old(g).(t := SplitTiling(old(g.t), p, nb, rsize), held := old(g.held)[p := nb],
              loose := old(g.loose) - {p} + {p + nb})
      ensures p !in old(g.held) && p + nb !in old(g.t.ck) && p + nb !in g.t.used
    {
      hide SmallBins.Inv, TreeBins.Inv, Sound, Charged;
      ghost var h := TheHeap();
      LooseIsFree(h, p);
      SplitFrontKeepsSound(h, p, nb);
      m := m.(w := SplitWords(m.w, p, nb, rsize, cookie));
      g := g.(t := SplitTiling(g.t, p, nb, rsize), held := g.held[p := nb], loose := g.loose - {p} + {p + nb});
      LooseNotUsed(h, p + nb);
    }

    /** The front of top is taken. */
    method MarkTopFront(nb: nat) returns (p: Addr)
      requires Inv() && nb % 8 == 0 && MIN_CHUNK_SIZE <= nb < m.topsize
      modifies this
      ensures Inv() && p == old(m.top)
      ensures m == old(m).(w := SplitTopWords(old(m.w), p, nb, old(m.topsize) - nb, cookie), top := p + nb,
              topsize := old(m.topsize) - nb)
      ensures g == old(g).(t := SplitTiling(old(g.t), p, nb, old(m.topsize) - nb).(top := p + nb),
              held := old(g.held)[p := nb])
      ensures p !in old(g.held)
    {
      hide SmallBins.Inv, TreeBins.Inv, Sound, Charged;
      ghost var h := TheHeap();
      TopIsFree(h);
      SplitTopKeepsSound(h, nb);
      p := m.top;
      var rsize := m.topsize - nb;
      m := m.(topsize := rsize, top := p + nb);
      m := m.(w := SplitTopWords(m.w, p, nb, rsize, cookie));
      g := g.(t := SplitTiling(g.t, p, nb, rsize).(top := p + nb), held := g.held[p := nb]);
    }

    // ----- the paths of mspace_malloc -----

    /** The first chunk of a small bin comes into hand. */
    method TakeFirstSmall(i: nat) returns (p: Addr)
      requires Inv() && i < SmallBins.NSMALLBINS && BinMap.Has(small.n.smallmap, i)
      modifies this`g, small
      ensures Inv() && g == old(g).(loose := old(g.loose) + {p}) && IsFree(g.t, p) && g.t.ck[p] == 8 * i
              && p !in old(g.loose)
      ensures p in old(small.n.size) && old(small.n.size)[p] == 8 * i && small.n.size == old(small.n.size) - {p}
    {
      hide SmallBins.Inv, TreeBins.Inv, Sound, Cached, Charged, BinMap.Has;
      ghost var h := TheHeap();
      p := small.TakeFirst(i);
      TakeOutKeepsSound(h, p);
      g := g.(loose := g.loose + {p});
    }

    /** A chunk in hand of less than nb + MIN_CHUNK_SIZE bytes goes to the caller as it is. */
    method GiveWhole(p: Addr, s: nat, ghost nb: nat)
      requires Inv() && g.loose == {p} && g.dvHeld && p !in g.t.used && p in g.t.ck && s == g.t.ck[p]
               && 0 < nb <= s < nb + MIN_CHUNK_SIZE
      modifies this
      ensures Valid() && Took(old(g), g, m.w, p, nb) && g.held[p] == s && m == old(m).(w := m.w)
    {
      hide SmallBins.Inv, TreeBins.Inv, Sound, Charged, Cached;
      MarkWhole(p, s);
      assert g.loose == {};
      WholeHead(old(m.w), p, s, cookie);
    }

    /** The remainderless fit. */
    method MallocExact(i: nat, nb: nat) returns (p: Addr)
      requires Valid() && i < SmallBins.NSMALLBINS && BinMap.Has(small.n.smallmap, i)
               && 0 < nb <= 8 * i < nb + MIN_CHUNK_SIZE
      modifies this, small
      ensures Valid() && Took(old(g), g, m.w, p, nb) && g.held[p] == 8 * i && p in old(small.n.size)
              && old(small.n.size)[p] == 8 * i
      ensures small.n.size == old(small.n.size) - {p} && m == old(m).(w := m.w)
    {
      hide SmallBins.Inv, TreeBins.Inv, Sound, Charged, Cached, BinMap.Has;
      p := TakeFirstSmall(i);
      GiveWhole(p, 8 * i, nb);
    }

    /** The front of a chunk in hand goes to the caller, the rest replaces dv. */
    method GiveFront(p: Addr, nb: nat, rsize: nat)
      requires Inv() && g.loose == {p} && g.dvHeld && p !in g.t.used && p in g.t.ck && nb + rsize == g.t.ck[p]
      requires nb % 8 == 0 && nb >= MIN_CHUNK_SIZE && rsize >= MIN_CHUNK_SIZE && IsSmall(m.dvsize)
      modifies this, small
      ensures Valid() && Took(old(g), g, m.w, p, nb) && g.held[p] == nb
      ensures m.dv == p + nb && m.dvsize == rsize
    {
      hide SmallBins.Inv, TreeBins.Inv, Sound, Charged, Cached, IsSmall;
      MarkFront(p, nb, rsize);
      assert g.loose == {p + nb};
      FrontHead(old(m.w), p, nb, rsize, cookie);
      ReplaceDv(p + nb, rsize);
      assert g.loose == {};
    }

    /** The next non-empty small bin. */
    method MallocNextSmall(i: nat, nb: nat) returns (p: Addr)
      requires Valid() && i < SmallBins.NSMALLBINS && BinMap.Has(small.n.smallmap, i)
      requires nb % 8 == 0 && MIN_CHUNK_SIZE <= nb <= 8 * i && m.dvsize < nb
      modifies this, small
      ensures Valid() && Took(old(g), g, m.w, p, nb) && g.held[p] == Given(8 * i, nb) && p in old(small.n.size)
              && old(small.n.size)[p] == 8 * i
      ensures var rsize := 8 * i - nb;
              if rsize < MIN_CHUNK_SIZE then m.dv == old(m.dv) && m.dvsize == old(m.dvsize) else
                                             m.dv == p + nb && m.dvsize == rsize
    {
      hide SmallBins.Inv, TreeBins.Inv, Sound, Charged, Cached, BinMap.Has;
      p := TakeFirstSmall(i);
      var rsize := 8 * i - nb;
      if rsize < MIN_CHUNK_SIZE {
        GiveWhole(p, 8 * i, nb);
      } else {
        GiveFront(p, nb, rsize);
      }
    }

    /** tmalloc_small: the smallest chunk of all trees. */
    method TmallocSmall(nb: nat) returns (v: Addr)
      requires Valid() && trees.n.treemap != 0 && nb % 8 == 0 && MIN_CHUNK_SIZE <= nb < MIN_LARGE_SIZE && m.dvsize < nb
      modifies this, small, trees
      ensures Valid() && Took(old(g), g, m.w, v, nb)
      ensures v in old(trees.n.size) && forall x :: x in old(trees.n.size) ==>
                                                    old(trees.n.size)[v] <= old(trees.n.size)[x]
      ensures g.held[v] == Given(old(trees.n.size)[v], nb)
      ensures var rsize := old(trees.n.size)[v] - nb;
              if rsize < MIN_CHUNK_SIZE then m.dv == old(m.dv) && m.dvsize == old(m.dvsize)
              else m.dv == v + nb && m.dvsize == rsize
    {
      hide SmallBins.Inv, TreeBins.Inv, Sound, Charged, Cached, TreeBins.BestFit;
      var rsize;
      v, rsize := trees.FindSmall(nb);
      TreeHolds(TheHeap(), v);
      UnlinkChunk(v, rsize + nb);
      assert g.loose == {v};
      if rsize < MIN_CHUNK_SIZE {
        GiveWhole(v, rsize + nb, nb);
      } else {
        GiveFront(v, nb, rsize);
      }
    }

    /** The bins hold the rest of a split chunk. */
    ghost predicate BinnedRest(p: Addr, s: nat)
      reads small, trees
    {
      if IsSmall(s) then p in small.n.size && small.n.size[p] == s else p in trees.n.size && trees.n.size[p] == s
    }

    /** tmalloc_large: a best fit over all trees, unless dv fits at least as well. */
    method TmallocLarge(nb: nat) returns (v: Addr)
      requires Valid() && nb % 8 == 0 && MIN_LARGE_SIZE <= nb < Bits.WORD
      modifies this, small, trees
      ensures Valid() && g.mine == old(g.mine)
      ensures v == 0 ==> m == old(m) && g == old(g) && trees.n == old(trees.n)
      ensures v == 0 ==> forall x :: TreeBins.Fits(trees.n.size, nb, x) ==> nb <= m.dvsize <= trees.n.size[x]
      ensures v != 0 ==> Took(old(g), g, m.w, v, nb) && TreeBins.BestFit(old(trees.n.size), nb, v)
      ensures v != 0 ==> g.held[v] == Given(old(trees.n.size)[v], nb) && m.dv == old(m.dv) && m.dvsize == old(m.dvsize)
      ensures v != 0 && old(trees.n.size)[v] >= nb + MIN_CHUNK_SIZE ==>
                BinnedRest(v + nb, old(trees.n.size)[v] - nb)
      ensures v != 0 ==> old(m.dvsize) < nb || old(trees.n.size)[v] < old(m.dvsize)
    {
      hide SmallBins.Inv, TreeBins.Inv, Sound, Charged, Cached;
      var rsize;
      v, rsize := trees.FindLarge(nb);
      DvSize(TheHeap(), m.dv);
      ghost var best := v;
      if v != 0 {
        TreeHolds(TheHeap(), v);
      }
      if v != 0 && rsize < Bits.Minus(m.dvsize, nb) {
        UnlinkChunk(v, rsize + nb);
        assert g.loose == {v};
        if rsize < MIN_CHUNK_SIZE {
          GiveWhole(v, rsize + nb, nb);
        } else {
          MarkFront(v, nb, rsize);
          FrontHead(old(m.w), v, nb, rsize, cookie);
          assert g.loose == {v + nb};
          InsertChunk(v + nb, rsize);
          assert g.loose == {};
        }
      } else {
        v := 0;
        assert best != 0 ==> nb <= m.dvsize <= trees.n.size[best];
      }
    }

    /** From dv: its front, or all of it when the rest would be too small. */
    method MallocFromDv(nb: nat) returns (p: Addr)
      requires Valid() && nb % 8 == 0 && MIN_CHUNK_SIZE <= nb <= m.dvsize
      modifies this
      ensures Valid() && Took(old(g), g, m.w, p, nb) && p == old(m.dv) && g.held[p] == Given(old(m.dvsize), nb)
      ensures m == if old(m.dvsize) < nb + MIN_CHUNK_SIZE then old(m).(w := m.w, dv := 0, dvsize := 0)
                   else old(m).(w := m.w, dv := p + nb, dvsize := old(m.dvsize) - nb)
    {
      hide SmallBins.Inv, TreeBins.Inv, Sound, Charged, Cached;
      var rsize := m.dvsize - nb;
      p := m.dv;
      DvToHand();
      if rsize >= MIN_CHUNK_SIZE {
        MarkFront(p, nb, rsize);
        FrontHead(old(m.w), p, nb, rsize, cookie);
        m := m.(dv := p + nb, dvsize := rsize);
        assert g.loose == {p + nb};
        DvFromHand(p + nb);
        assert g.loose == {};
      } else {
        var dvs := m.dvsize;
        m := m.(dvsize := 0, dv := 0);
        g := g.(dvHeld := true);
        GiveWhole(p, dvs, nb);
      }
    }

    /** dv is about to change: its chunk counts as in hand from here on. */
    ghost method DvToHand()
      requires Inv() && g.dvHeld && m.dvsize != 0
      modifies this`g
      ensures Inv() && g == old(g).(dvHeld := false, loose := old(g.loose) + {m.dv}) && IsFree(g.t, m.dv)
              && g.t.ck[m.dv] == m.dvsize
      ensures m.dv !in old(g.loose)
    {
      hide SmallBins.Inv, TreeBins.Inv, Sound, Charged, Cached;
      ghost var h := TheHeap();
      TakeOutKeepsSound(h, m.dv);
      assert h.victim.Keys == {m.dv};
      g := g.(dvHeld := false, loose := g.loose + {m.dv});
    }

    /** The chunk in hand that the dv fields already name becomes dv. */
    ghost method DvFromHand(p: Addr)
      requires Inv() && !g.dvHeld && p in g.loose && p !in g.t.used && p in g.t.ck && m.dv == p && m.dvsize == g.t.ck[p]
      modifies this`g
      ensures Inv() && g == old(g).(dvHeld := true, loose := old(g.loose) - {p})
    {
      hide SmallBins.Inv, TreeBins.Inv, Sound, Charged, Cached;
      PutBackKeepsSound(TheHeap(), p);
      LooseHasSize(TheHeap(), p);
      g := g.(dvHeld := true, loose := g.loose - {p});
    }

    /** From top. */
    method MallocFromTop(nb: nat) returns (p: Addr)
      requires Valid() && nb % 8 == 0 && MIN_CHUNK_SIZE <= nb < m.topsize
      modifies this
      ensures Valid() && Took(old(g), g, m.w, p, nb) && p == old(m.top) && g.held[p] == nb
      ensures m == old(m).(w := SplitTopWords(old(m.w), p, nb, old(m.topsize) - nb, cookie), top := p + nb,
              topsize := old(m.topsize) - nb)
    {
      hide SmallBins.Inv, TreeBins.Inv, Sound, Charged, Cached;
      p := MarkTopFront(nb);
    }

    // ----- memory from the system -----

    /** mmap, charged to the footprint; the pages are not in use yet. */
    method Obtain(size: nat) returns (base: Addr)
      requires Inv() && size % PAGE == 0
      modifies this, sys
      ensures Others() == old(Others())
      ensures Inv()
      ensures sys.refusals == old(sys.refusals) + if base == -1 then 1 else 0
      ensures base == -1 ==> m == old(m) && g == old(g) && sys.mapped == old(sys.mapped)
      ensures base != -1 ==> Aligned(base, size) && Pages(base, size) !! old(sys.mapped)
                             && Pages(base, size) !! old(g.ledger.leaked)
      ensures base != -1 ==> g == old(g).(ledger := old(g.ledger).(leaked := old(g.ledger.leaked) + Pages(base, size)),
                             mine := Joined(old(g.mine), Pages(base, size)))
      ensures base != -1 ==> m == old(m).(footprint := m.footprint, maxFootprint := m.maxFootprint)
    {
      hide SmallBins.Inv, TreeBins.Inv, Sound, Cached, Accounted, Aligned, Pages, Joined;
      base := sys.Mmap(size);
      if base != -1 {
        var pages := Pages(base, size);
        OthersJoin(old(sys.mapped), g.mine, pages);
        ObtainedHeld(m.segs, g.direct, g.ledger, g.mine, pages);
        PagesCardinality(base, size);
        m := m.(footprint := m.footprint + size);
        m := m.(maxFootprint := if m.footprint > m.maxFootprint then m.footprint else m.maxFootprint);
        g := g.(ledger := g.ledger.(leaked := g.ledger.leaked + pages), mine := Joined(g.mine, pages));
      }
    }

    /** The words of a chunk in a region of its own whose pages are not in use yet. */
    method SetUpDirect(p: Addr, mm: Addr, mmsize: nat)
      requires Inv() && Aligned(mm, mmsize) && Pages(mm, mmsize) <= g.ledger.leaked
      requires mm <= p && p + MIN_CHUNK_SIZE <= DirectEnd(Region(mm, mmsize)) && p % 8 == 0
      modifies this
      ensures Inv() && p !in old(g.held) && p !in old(g.direct)
              && m == old(m).(w := DirectWords(old(m.w), p, Region(mm, mmsize), cookie))
      ensures g == old(g).(direct := old(g.direct)[p := Region(mm, mmsize)], ledger := g.ledger)
      ensures g.ledger.leaked == old(g.ledger.leaked) - Pages(mm, mmsize)
    {
      hide SmallBins.Inv, TreeBins.Inv, Sound, Cached, Accounted, Aligned, Pages;
      ghost var r := Region(mm, mmsize);
      DirectWordsWritten(m.w, p, r, cookie);
      NewDirect(TheHeap(), g.ledger, g.mine, DirectWords(m.w, p, r, cookie), p, r);
      m := m.(w := DirectWords(m.w, p, Region(mm, mmsize), cookie));
      g := g.(direct := g.direct[p := r],
              ledger := g.ledger.(direct := g.ledger.direct + RegionPages(r),
                  leaked := g.ledger.leaked - RegionPages(r)));
    }

    /** mmap_alloc: a region of its own for one chunk. */
    method MmapAlloc(nb: nat) returns (p: Addr)
      requires Valid() && MIN_CHUNK_SIZE <= nb < Bits.WORD
      modifies this, sys
      ensures Others() == old(Others())
      ensures Valid()
      ensures p == 0 ==> m == old(m) && g == old(g) && sys.mapped == old(sys.mapped)
      ensures p != 0 ==> TookDirect(old(g), g, m.w, p, nb) && p / PAGE !in old(g.mine)
      ensures sys.refusals >= old(sys.refusals)
      ensures p == 0 <==> PageAlign((nb + 48 + 7) % Bits.WORD) <= nb || sys.refusals > old(sys.refusals)
    {
      hide SmallBins.Inv, TreeBins.Inv, Sound, Cached, Charged, Aligned, Pages, PageAlign, AlignOffset, DirectWords;
      p := 0;
      var mmsize := PageAlign((nb + 48 + 7) % Bits.WORD);
      PageAlignRoom(nb);
      if mmsize > nb {
        var mm := Obtain(mmsize);
        if mm != -1 {
          AlignOffsetZero(mm, mmsize);
          SomePages(mm, mmsize);
          var offset := AlignOffset(mm + 16);
          p := mm + offset;
          SetUpDirect(p, mm, mmsize);
          assert g.ledger.leaked == old(g.ledger.leaked);
          DirectHead(old(m.w), p, Region(mm, mmsize), cookie);
        }
      }
    }

    /** init_top at the end of a segment that has grown by tsize bytes. */
    method ExtendTop(tsize: nat)
      requires Inv() && Aligned(End(m.segs[0]), tsize) && Pages(End(m.segs[0]), tsize) <= g.ledger.leaked
      modifies this
      ensures Inv() && m.topsize == old(m.topsize) + tsize && m.top == old(m.top) && m.dv == old(m.dv)
              && m.dvsize == old(m.dvsize)
      ensures g == old(g).(t := g.t, ledger := g.ledger) && g.t.used == old(g.t.used)
      ensures g.ledger.leaked == old(g.ledger.leaked) - Pages(End(old(m.segs[0])), tsize)
      ensures m.footprint == old(m.footprint) && m.maxFootprint == old(m.maxFootprint)
    {
      hide SmallBins.Inv, TreeBins.Inv, Sound, Accounted, Aligned, Pages, CanResize;
      ghost var h, pages := TheHeap(), Pages(End(m.segs[0]), tsize);
      var size, s := m.segs[0].size + tsize, m.topsize + tsize;
      GrowTop(h, g.ledger, g.mine, tsize);
      m := m.(segs := ResizedSegs(m.segs, size), topsize := s, w := ResizeTopWords(m.w, m.top, s),
          trimCheck := TRIM_THRESHOLD);
      g := g.(t := ResizeTopTiling(g.t, s), ledger := g.ledger.(segs := g.ledger.segs + pages,
          leaked := g.ledger.leaked - pages));
    }

    // ----- memory back to the system -----

    /** segment_holding. */
    method SegmentHolding(a: Addr) returns (i: nat)
      ensures i <= |m.segs|
      ensures i < |m.segs| ==> m.segs[i].base <= a < End(m.segs[i])
      ensures i == |m.segs| ==> !Inside(m.segs, a)
    {
      i := 0;
      while i < |m.segs| && !(m.segs[i].base <= a < End(m.segs[i]))
        invariant i <= |m.segs|
        invariant forall j: nat :: j < i ==> !(m.segs[j].base <= a < End(m.segs[j]))
      {
        i := i + 1;
      }
    }

    /** Where the record of segment i is kept: the head of the list is a field of the malloc_state. */
    function RecordAt(i: nat): Addr
      requires i < |m.segs|
      reads this
    {
      if i == 0 then home + SEG_FIELD else m.segs[i].rec
    }

    /** has_segment_link. */
    method HasSegmentLink(k: nat) returns (linked: bool)
      requires k < |m.segs|
      ensures linked <==> exists i: nat :: i < |m.segs| && m.segs[k].base <= RecordAt(i) < End(m.segs[k])
      ensures k == 0 ==> (linked <==> Pinned())
    {
      var i := 0;
      linked := false;
      while i < |m.segs|
        invariant i <= |m.segs|
        invariant forall j: nat :: j < i ==> !(m.segs[k].base <= RecordAt(j) < End(m.segs[k]))
      {
        if m.segs[k].base <= RecordAt(i) < End(m.segs[k]) {
          return true;
        }
        i := i + 1;
      }
    }

    /** Some record of the list lies in the segment of top. */
    ghost predicate Pinned()
      reads this
    {
      exists i: nat :: i < |m.segs| && m.segs[0].base <= RecordAt(i) < End(m.segs[0])
    }

    predicate Unused(i: nat)
      requires i < |m.segs|
      reads this
    {
      IsIdle(m.w, m.segs[i])
    }

    /** The free chunk of an unused segment leaves dv or its bin. */
    method TakeUnused(i: nat) returns (p: Addr, psize: nat)
      requires Valid() && 0 < i < |m.segs| && Unused(i)
      modifies this, small, trees
      ensures m == old(m).(dv := m.dv, dvsize := m.dvsize) && p == m.segs[i].base && Inv() && g.dvHeld
      ensures g == old(g).(loose := {p}) && IsFree(g.t, p) && g.t.ck[p] == psize >= MIN_LARGE_SIZE
      ensures CanDropSeg(m.segs, g.t, i)
    {
      hide SmallBins.Inv, TreeBins.Inv, Sound, Cached, Charged, CanDropSeg;
      p := m.segs[i].base;
      psize := m.w.head[p].size;
      ghost var h := TheHeap();
      UnusedSeg(h, i);
      if p == m.dv {
        DvToHand();
        m := m.(dv := 0, dvsize := 0);
        g := g.(dvHeld := true);
      } else {
        UnlinkChunk(p, psize);
      }
      assert g.loose == {p};
    }

    /** One segment of release_unused_segments: unmapped with its record, or back in a tree if munmap fails. */
    method ReleaseSegment(i: nat) returns (ok: bool)
      requires Valid() && 0 < i < |m.segs| && Unused(i)
      modifies this, small, trees, sys
      ensures Others() == old(Others())
      ensures Valid() && g.held == old(g.held) && g.direct == old(g.direct) && g.ledger.leaked == old(g.ledger.leaked)
      ensures m.segs == if ok then WithoutSeg(old(m.segs), i) else old(m.segs)
      ensures m.w == old(m.w) && sys.denials == old(sys.denials) + if ok then 0 else 1
      ensures m.footprint == if ok then old(m.footprint) - old(m.segs[i]).size else old(m.footprint)
      ensures m.top == old(m.top) && m.topsize == old(m.topsize) && m.maxFootprint == old(m.maxFootprint)
              && m.trimCheck == old(m.trimCheck)
    {
      hide SmallBins.Inv, TreeBins.Inv, Sound, Accounted, CanDropSeg, Pages;
      var s := m.segs[i];
      var p, psize := TakeUnused(i);
      ok := sys.Munmap(s.base, s.size);
      if ok {
        SegGone(TheHeap(), g.ledger, g.mine, i);
        assert g.loose - {p} == {};
        m := m.(footprint := m.footprint - s.size, segs := WithoutSeg(m.segs, i));
        g := g.(t := DropTiling(g.t, p, RecordChunk(s), Fence(s)), loose := {},
            ledger := g.ledger.(segs := g.ledger.segs - SegPages(s)),
                mine := g.mine - SegPages(s));
      } else {
        InsertChunk(p, psize);
        assert g.loose == {};
      }
    }

    /** release_unused_segments: every idle segment but the first of the list goes, unless the system keeps it. */
    method ReleaseUnusedSegments() returns (released: nat)
      requires Valid()
      modifies this, small, trees, sys
      ensures Others() == old(Others())
      ensures m.w == old(m.w) && sys.denials >= old(sys.denials) && |m.segs| > 0 && m.segs[0] == old(m.segs)[0]
      ensures sys.denials == old(sys.denials) ==> NoneIdle(m.w, m.segs, |m.segs|)
      ensures forall s :: s in m.segs ==> s in old(m.segs)
      ensures forall s :: s in old(m.segs) && !IsIdle(m.w, s) ==> s in m.segs
      ensures Valid() && g.held == old(g.held) && g.direct == old(g.direct) && g.ledger.leaked == old(g.ledger.leaked)
      ensures released == old(m.footprint) - m.footprint
      ensures m.top == old(m.top) && m.topsize == old(m.topsize) && m.maxFootprint == old(m.maxFootprint)
              && m.trimCheck == old(m.trimCheck)
    {
      hide SmallBins.Inv, TreeBins.Inv, Sound, Cached, Charged;
      released := 0;
      var nsegs, i := 0, 1;
      while i < |m.segs|
        invariant Others() == old(Others())
        invariant Valid() && i >= 1 && g.held == old(g.held) && g.direct == old(g.direct)
                  && g.ledger.leaked == old(g.ledger.leaked)
        invariant released == old(m.footprint) - m.footprint
        invariant m.w == old(m.w) && sys.denials >= old(sys.denials) && |m.segs| > 0 && m.segs[0] == old(m.segs)[0]
        invariant i <= |m.segs| && (sys.denials == old(sys.denials) ==> NoneIdle(m.w, m.segs, i))
        invariant forall s :: s in m.segs ==> s in old(m.segs)
        invariant forall s :: s in old(m.segs) && !IsIdle(m.w, s) ==> s in m.segs
        invariant m.top == old(m.top) && m.topsize == old(m.topsize) && m.maxFootprint == old(m.maxFootprint)
                  && m.trimCheck == old(m.trimCheck)
        decreases |m.segs| - i
      {
        nsegs := nsegs + 1;
        var gone := false;
        if Unused(i) {
          var size := m.segs[i].size;
          gone := ReleaseSegment(i);
          if gone {
            released := released + size;
          }
        }
        if !gone {
          i := i + 1;
        }
      }
      m := m.(releaseChecks := if nsegs > MAX_RELEASE_CHECK_RATE then nsegs else MAX_RELEASE_CHECK_RATE);
    }

    /** The last extra bytes of a region go back to the system, by mremap or else by munmap. */
    method UnmapTail(base: Addr, newsize: nat, extra: nat) returns (ok: bool)
      requires base % PAGE == 0 && newsize % PAGE == 0 && extra % PAGE == 0
               && Pages(base, newsize + extra) <= sys.mapped
      modifies sys
      ensures sys.mapped == if ok then old(sys.mapped) - Pages(base + newsize, extra) else old(sys.mapped)
      ensures extra == 0 ==> sys.mapped == old(sys.mapped)
      ensures sys.denials >= old(sys.denials) && (sys.denials == old(sys.denials) ==> ok)
    {
      hide Pages;
      RemapIsUnmap(base, newsize, extra, sys.mapped);
      var r := sys.Mremap(base, newsize + extra, newsize, false);
      ok := r != -1;
      if !ok {
        ok := sys.Munmap(base + newsize, extra);
      }
    }

    /** The end of top goes back to the system, and init_top follows. */
    method TrimTop(extra: nat) returns (ok: bool)
      requires Valid() && extra % PAGE == 0 && extra < m.topsize
      modifies this, sys
      ensures Others() == old(Others())
      ensures Valid() && g.held == old(g.held) && g.direct == old(g.direct) && g.ledger.leaked == old(g.ledger.leaked)
      ensures m.top == old(m.top) && m.topsize == if ok then old(m.topsize) - extra else old(m.topsize)
      ensures m.footprint == if ok then old(m.footprint) - extra else old(m.footprint)
      ensures m.trimCheck == if ok && extra != 0 then TRIM_THRESHOLD else old(m.trimCheck)
      ensures sys.denials >= old(sys.denials) && (sys.denials == old(sys.denials) ==> ok)
      ensures m.maxFootprint == old(m.maxFootprint)
    {
      hide SmallBins.Inv, TreeBins.Inv, Sound, Accounted, Pages, ResizeTopWords;
      ghost var h := TheHeap();
      TopShape(h);
      ShrinkTop(h, g.ledger, g.mine, extra);
      var base, size := m.segs[0].base, m.segs[0].size;
      var newsize := size - extra;
      ghost var less := Pages(base + newsize, extra);
      ok := UnmapTail(base, newsize, extra);
      if ok && extra != 0 {
        var s := m.topsize - extra;
        m := m.(segs := ResizedSegs(m.segs, newsize), footprint := m.footprint - extra);
        m := m.(w := ResizeTopWords(m.w, m.top, s), topsize := s, trimCheck := TRIM_THRESHOLD);
        g := g.(t := ResizeTopTiling(g.t, s), ledger := g.ledger.(segs := g.ledger.segs - less), mine := g.mine - less);
      }
    }

    /** The part of sys_trim that cuts top down to pad bytes and at most one unit of granularity more. */
    method CutTop(pad: nat) returns (released: nat)
      requires Valid()
      modifies this, sys
      ensures Others() == old(Others())
      ensures Valid() && g.held == old(g.held) && g.direct == old(g.direct) && g.ledger.leaked == old(g.ledger.leaked)
      ensures m.top == old(m.top) && m.topsize == old(m.topsize) - released
              && m.footprint == old(m.footprint) - released && m.maxFootprint == old(m.maxFootprint)
      ensures released % GRANULARITY == 0 && (released > 0 ==> m.topsize > pad && !old(Pinned()))
      ensures sys.denials >= old(sys.denials)
      ensures sys.denials == old(sys.denials) && !old(Pinned()) ==> m.topsize <= pad + GRANULARITY
    {
      hide SmallBins.Inv, TreeBins.Inv, Sound, Charged;
      released := 0;
      if m.topsize > pad {
        var extra := ((m.topsize - pad + (GRANULARITY - 1)) / GRANULARITY - 1) * GRANULARITY;
        ExtraRoom(m.topsize, pad);
        var i := SegmentHolding(m.top);
        TopSegment(TheHeap(), i);
        TopShape(TheHeap());
        if m.segs[i].size >= extra {
          var linked := HasSegmentLink(i);
          if !linked {
            var ok := TrimTop(extra);
            released := if ok then extra else 0;
          }
        }
      }
    }

    /** sys_trim: unless the system keeps something, top is cut down to the pad and at most one unit of granularity
        more, and no segment but the first is left idle. */
    method SysTrim(pad0: nat) returns (trimmed: bool)
      requires Valid()
      modifies this, small, trees, sys
      ensures Others() == old(Others())
      ensures Valid() && g.held == old(g.held) && g.direct == old(g.direct) && g.ledger.leaked == old(g.ledger.leaked)
      ensures m.top == old(m.top) && (m.topsize != old(m.topsize) ==> m.topsize > pad0 + TOP_FOOT_SIZE)
      ensures m.footprint <= old(m.footprint) && m.maxFootprint == old(m.maxFootprint)
      ensures trimmed <==> m.footprint != old(m.footprint)
      ensures (old(m.topsize) - m.topsize) % GRANULARITY == 0
      ensures pad0 < MAX_REQUEST && sys.denials == old(sys.denials) && !old(Pinned()) ==>
                m.topsize <= pad0 + TOP_FOOT_SIZE + GRANULARITY
      ensures pad0 >= MAX_REQUEST || old(Pinned()) ==> m.topsize == old(m.topsize)
      ensures pad0 < MAX_REQUEST && sys.denials == old(sys.denials) ==>
                NoneIdle(m.w, m.segs, |m.segs|)
      ensures pad0 >= MAX_REQUEST ==> m == old(m)
    {
      hide SmallBins.Inv, TreeBins.Inv, Sound, Charged, Cached, Pinned, NoneIdle;
      var released := 0;
      if pad0 < MAX_REQUEST {
        released := CutTop(pad0 + TOP_FOOT_SIZE);
        var more := ReleaseUnusedSegments();
        released := released + more;
        if released == 0 && m.topsize > m.trimCheck {
          m := m.(trimCheck := MAX_SIZE_T);
        }
      }
      trimmed := released != 0;
    }

    // ----- mspace_free -----

    /** A chain of chunks in hand becomes one free chunk in hand; clear says whether the bit behind it is written. */
    method MarkMerged(a: Addr, s: nat, clear: bool, ghost dead: set<Addr>)
      requires a in m.w.head && m.w.head[a].pinuse && (clear || (a + s in m.w.head && !m.w.head[a + s].pinuse))
      requires Chain(g.t, a, a + s, dead) && a in g.loose && dead <= g.loose && a + s in g.t.ck && a + s in g.t.used
      requires Inv()
      modifies this
      ensures s >= MIN_CHUNK_SIZE && m == old(m).(w := m.w) && AreMerged(old(m.w), m.w, a, a + s)
      ensures a !in g.t.used && a in g.t.ck && g.t.ck[a] == s
      ensures g == old(g).(t := MergeTiling(old(g.t), a, a + s, dead), loose := old(g.loose) - dead + {a})
      ensures Inv()
    {
      hide SmallBins.Inv, TreeBins.Inv, Sound, Charged, Chain, MergeWords;
      ghost var h := TheHeap();
      MergeChain(h, a, a + s, dead);
      MergedWords(m.w, a, a + s);
      TopNotLoose(h, dead);
      LooseNotTop(h, a);
      m := m.(w := if clear then FreeWithPinuse(m.w, a, s) else FreeWords(m.w, a, s));
      g := g.(t := MergeTiling(g.t, a, a + s, dead), loose := g.loose - dead + {a});
    }

    /** A chain of chunks in hand before top joins it. */
    method MarkMergedTop(a: Addr, psize: nat, ghost dead: set<Addr>)
      requires a + psize == m.top && 0 < psize && Inv() && Chain(g.t, a, m.top + m.topsize, dead + {m.top})
               && a in g.loose && dead <= g.loose
      requires a in m.w.head && m.w.head[a].pinuse
      modifies this
      ensures g == old(g).(t := MergeTopTiling(old(g.t), a, old(m.top) + old(m.topsize), dead + {old(m.top)}),
              loose := old(g.loose) - (dead + {old(m.top)}) - {a})
      ensures m == old(m).(top := a, topsize := old(m.topsize) + psize,
              w := MergeTopWords(old(m.w), a, old(m.top) + old(m.topsize)))
      ensures Inv()
    {
      hide SmallBins.Inv, TreeBins.Inv, Sound, Charged, Chain;
      ghost var h := TheHeap();
      MergeTopChain(h, a, dead + {m.top});
      ghost var b := m.top + m.topsize;
      g := g.(t := MergeTopTiling(g.t, a, b, dead + {m.top}), loose := g.loose - (dead + {m.top}) - {a});
      m := m.(topsize := m.topsize + psize, top := a);
      m := m.(w := m.w.(head := m.w.head[a := Head(m.topsize, false, true)]));
    }

    /** The chunks in hand are a and the one behind it, if any; together they have psize bytes, and a chunk follows. */
    ghost predicate InHand(a: Addr, psize: nat, dead: set<Addr>)
      reads this, small, trees, sys
    {
      && ShortChain(g.t, a, a + psize, dead) && g.loose == dead + {a} && a !in dead && psize > 0
      && a > 0 && a in m.w.head && m.w.head[a].pinuse
      && a + psize in g.t.ck && a + psize in m.w.head && m.w.head[a + psize].pinuse
         && m.w.head[a + psize].cinuse == (a + psize in g.t.used)
      && g.dvHeld == (a != m.dv) && (a == m.dv ==> m.dvsize != 0)
      && Inv()
    }

    /** The chunk p comes back from its caller; a free chunk before it comes into hand too. */
    method ConsolidateBackward(p: Addr) returns (a: Addr, psize: nat, ghost dead: set<Addr>)
      requires Valid() && p in g.held
      modifies this`g, small, trees
      ensures g == old(g).(held := old(g.held) - {p}, loose := dead + {a}, dvHeld := a != m.dv)
      ensures p in m.w.head && (m.w.head[p].pinuse ==>
                a == p != m.dv && psize == old(g.held)[p] && small.n == old(small.n) && trees.n == old(trees.n))
      ensures InHand(a, psize, dead)
    {
      hide SmallBins.Inv, TreeBins.Inv, Sound, Charged, Cached;
      ghost var h := TheHeap();
      LetGoKeepsSound(h, p);
      HeldFacts(h, p);
      NextIsChunk(h, p);
      a, psize, dead := p, m.w.head[p].size, {};
      assert g.loose + {p} == {p};
      g := g.(held := g.held - {p}, loose := {p});
      if !m.w.head[p].pinuse {
        PrevFacts(h, p);
        var prevsize := m.w.foot[p];
        a, psize, dead := p - prevsize, psize + prevsize, {p};
        if a != m.dv {
          UnlinkChunk(a, prevsize);
        } else {
          DvToHand();
        }
        assert g.loose == {p, a};
      } else {
        VictimNot(h, p);
      }
    }

    /** dv lies before the chunk in hand and a chunk in use behind it. */
    method GrowDvBack(a: Addr, psize: nat, ghost dead: set<Addr>)
      requires a + psize in m.w.head && m.w.head[a + psize].cinuse && a == m.dv && InHand(a, psize, dead)
      modifies this
      ensures Valid() && g.held == old(g.held) && g.direct == old(g.direct) && g.ledger == old(g.ledger)
              && g.mine == old(g.mine)
      ensures m.dv == a && m.dvsize == psize && m.top == old(m.top) && m.topsize == old(m.topsize)
    {
      hide SmallBins.Inv, TreeBins.Inv, Sound, Charged, Cached, ShortChain, Chain;
      ExtendChain(g.t, a, a + psize, dead);
      m := m.(dvsize := psize);
      MarkMerged(a, psize, true, dead);
      DvFromHand(a);
      assert g.loose == {};
    }

    /** top lies behind the chunk in hand. */
    method JoinTop(a: Addr, psize: nat, ghost dead: set<Addr>)
      requires InHand(a, psize, dead) && a + psize == m.top
      modifies this, small, trees, sys
      ensures Others() == old(Others())
      ensures Valid() && g.held == old(g.held) && g.direct == old(g.direct) && g.ledger.leaked == old(g.ledger.leaked)
      ensures m.top == a && (m.topsize == old(m.topsize) + psize || m.topsize > TOP_FOOT_SIZE)
    {
      hide SmallBins.Inv, TreeBins.Inv, Sound, Charged, ShortChain, Chain;
      ExtendChain(g.t, a, m.top, dead);
      MarkMergedTop(a, psize, dead);
      assert g.loose == {};
      if a == m.dv {
        m := m.(dv := 0, dvsize := 0);
        g := g.(dvHeld := true);
      }
      if m.topsize > m.trimCheck {
        var trimmed := SysTrim(0);
      }
    }

    /** dv lies behind the chunk in hand. */
    method GrowDvFront(a: Addr, psize: nat, ghost dead: set<Addr>)
      requires a + psize in m.w.head && !m.w.head[a + psize].cinuse && a + psize == m.dv && a != m.dv && m.dv != m.top
               && InHand(a, psize, dead)
      modifies this
      ensures Valid() && g.held == old(g.held) && g.direct == old(g.direct) && g.ledger == old(g.ledger)
              && g.mine == old(g.mine)
      ensures m.dv == a && m.dvsize == old(m.dvsize) + psize && m.top == old(m.top) && m.topsize == old(m.topsize)
    {
      hide SmallBins.Inv, TreeBins.Inv, Sound, Charged, ShortChain, Chain;
      ExtendChain(g.t, a, m.dv, dead);
      DvSizeIs(TheHeap(), m.dv, m.dvsize);
      FreeNext(TheHeap(), m.dv);
      ghost var dead' := dead + {m.dv};
      var dsize := m.dvsize + psize;
      DvToHand();
      m := m.(dvsize := dsize, dv := a);
      MarkMerged(a, dsize, false, dead');
      DvFromHand(a);
      assert g.loose == {};
    }

    /** A binned chunk lies behind the chunk in hand; the merged one stays dv if it was. */
    method JoinNext(a: Addr, psize: nat, ghost dead: set<Addr>) returns (size: nat, done: bool)
      requires a + psize in m.w.head && !m.w.head[a + psize].cinuse && a + psize != m.top && a + psize != m.dv
               && InHand(a, psize, dead)
      modifies this, small, trees
      ensures g.held == old(g.held) && g.direct == old(g.direct) && g.ledger == old(g.ledger) && g.mine == old(g.mine)
      ensures Inv() && g.dvHeld && g.loose == (if done then {} else {a})
      ensures !done ==> a in g.t.ck && a !in g.t.used && g.t.ck[a] == size
    {
      hide SmallBins.Inv, TreeBins.Inv, Sound, Charged, ShortChain, Chain;
      var next := a + psize;
      var nsize := m.w.head[next].size;
      ExtendChain(g.t, a, next, dead);
      BehindChain(TheHeap(), a, next, dead);
      BinnedNext(TheHeap(), next);
      FreeNext(TheHeap(), next);
      size := psize + nsize;
      UnlinkChunk(next, nsize);
      MarkMerged(a, size, false, dead + {next});
      assert g.loose == {a};
      done := a == m.dv;
      if done {
        m := m.(dvsize := size);
        DvFromHand(a);
        assert g.loose == {};
      }
    }

    /** The bins and trees have chunk a of the given size, and nothing else has changed in them. */
    twostate predicate BinnedAs(a: Addr, size: nat)
      reads small, trees
    {
      if IsSmall(size) then small.n.size == old(small.n.size)[a := size] && trees.n.size == old(trees.n.size)
      else trees.n.size == old(trees.n.size)[a := size] && small.n.size == old(small.n.size)
    }

    /** Both neighbours of a chunk that a caller holds are in use. */
    ghost predicate Enclosed(p: Addr)
      reads this
    {
      p in g.held && p in m.w.head && m.w.head[p].pinuse && p + g.held[p] in m.w.head && m.w.head[p + g.held[p]].cinuse
    }

    /** A free chunk in hand goes to its bin; large ones count towards the next release check. */
    method Bin(a: Addr, size: nat)
      requires Inv() && g.dvHeld && g.loose == {a} && a in g.t.ck && a !in g.t.used && g.t.ck[a] == size
      modifies this, small, trees, sys
      ensures Others() == old(Others())
      ensures Valid() && g.held == old(g.held) && g.direct == old(g.direct) && g.ledger.leaked == old(g.ledger.leaked)
      ensures IsSmall(size) || old(m.releaseChecks) > 1 ==> m == old(m).(releaseChecks := m.releaseChecks)
                                                            && BinnedAs(a, size)
    {
      hide SmallBins.Inv, TreeBins.Inv, Sound, Charged, Cached;
      InsertChunk(a, size);
      assert g.loose == {};
      if !IsSmall(size) {
        var checks := m.releaseChecks - 1;
        if checks == 0 {
          var released := ReleaseUnusedSegments();
        } else {
          m := m.(releaseChecks := checks);
        }
      }
    }

    /** mspace_free for a chunk of the heap. */
    method FreeChunk(p: Addr)
      requires Valid() && p in g.held
      modifies this, small, trees, sys
      ensures Others() == old(Others())
      ensures Valid() && g.held == old(g.held) - {p} && g.direct == old(g.direct)
              && g.ledger.leaked == old(g.ledger.leaked)
      ensures old(Enclosed(p)) && (IsSmall(old(g.held)[p]) || old(m.releaseChecks) > 1) ==>
                BinnedAs(p, old(g.held)[p]) && m.dvsize == old(m.dvsize)
    {
      hide SmallBins.Inv, TreeBins.Inv, Sound, Charged, Cached, ShortChain;
      var a, psize, dead := ConsolidateBackward(p);
      var next := a + psize;
      if a == m.dv && m.w.head[next].cinuse {
        GrowDvBack(a, psize, dead);
      } else if !m.w.head[next].cinuse {
        if next == m.top {
          JoinTop(a, psize, dead);
        } else if next == m.dv {
          GrowDvFront(a, psize, dead);
        } else {
          var size, done := JoinNext(a, psize, dead);
          if !done {
            Bin(a, size);
          }
        }
      } else {
        ExtendChain(g.t, a, next, dead);
        MarkMerged(a, psize, true, dead);
        assert g.loose == {a};
        Bin(a, psize);
      }
    }

    /** mspace_free for a directly mapped chunk; the pages stay charged if the system keeps them. */
    method FreeDirect(p: Addr)
      requires Valid() && p in g.direct
      modifies this, sys
      ensures Others() == old(Others())
      ensures Valid() && g.held == old(g.held) && g.direct == old(g.direct) - {p}
      ensures g.ledger.leaked == old(g.ledger.leaked)
              + (if sys.denials == old(sys.denials) then {} else RegionPages(old(g.direct)[p]))
      ensures m.footprint == old(m.footprint)
              - (if sys.denials == old(sys.denials) then old(g.direct)[p].size else 0)
    {
      hide SmallBins.Inv, TreeBins.Inv, Sound, Cached, Accounted, Pages, Aligned;
      ghost var h, b, r := TheHeap(), g.ledger, g.direct[p];
      DirectWordsOf(h, p);
      DropDirectKeepsSound(h, p);
      RegionGone(m.segs, g.direct, b, g.mine, p);
      var psize, prevsize := m.w.head[p].size, m.w.foot[p];
      psize := psize + prevsize + MMAP_FOOT_PAD;
      var ok := sys.Munmap(p - prevsize, psize);
      if ok {
        m := m.(footprint := m.footprint - psize);
        g := g.(direct := g.direct - {p}, ledger := b.(direct := b.direct - RegionPages(r)),
            mine := g.mine - RegionPages(r));
      } else {
        g := g.(direct := g.direct - {p}, ledger := b.(direct := b.direct - RegionPages(r),
            leaked := b.leaked + RegionPages(r)));
      }
    }

    /** mspace_free: frees nothing for a null pointer, else exactly the chunk of mem. */
    method Free(mem: Addr)
      requires Valid() && (mem == 0 || mem - 16 in Live(g))
      modifies this, small, trees, sys
      ensures Others() == old(Others())
      ensures Valid() && Live(g) == if mem == 0 then old(Live(g)) else old(Live(g)) - {mem - 16}
      ensures sys.denials == old(sys.denials) ==> g.ledger.leaked == old(g.ledger.leaked)
      ensures mem != 0 && mem - 16 in old(g.held) ==> g.direct == old(g.direct) && g.held == old(g.held) - {mem - 16}
      ensures old(Enclosed(mem - 16)) && mem != 0 && (IsSmall(old(g.held)[mem - 16]) || old(m.releaseChecks) > 1) ==>
                BinnedAs(mem - 16, old(g.held)[mem - 16]) && m.dvsize == old(m.dvsize)
    {
      hide SmallBins.Inv, TreeBins.Inv, Sound, Cached, Charged;
      if mem != 0 {
        var p := mem - 16;
        ghost var h := TheHeap();
        WordsOfLive(h, p);
        if !m.w.head[p].pinuse && !m.w.head[p].cinuse {
          FreeDirect(p);
        } else {
          FreeChunk(p);
        }
      }
    }

    // ----- sys_alloc -----

    /** New memory in front of segment j: nb bytes for the caller, the rest a free chunk in hand that swallows dead. */
    method PrependFree(j: nat, tbase: Addr, tsize: nat, nb: nat, s: nat, clear: bool, ghost dead: set<Addr>)
      requires j < |m.segs| && tbase + tsize == m.segs[j].base && Aligned(tbase, tsize) && nb % 8 == 0
               && MIN_CHUNK_SIZE <= nb <= tsize - MIN_CHUNK_SIZE
      requires Pages(tbase, tsize) <= g.ledger.leaked && g.loose == dead && (dead == {} || dead == {m.segs[j].base})
      requires Inv() && m.segs[j].base in g.t.ck && s == tsize - nb + (if dead == {} then 0 else g.t.ck[m.segs[j].base])
      requires tbase + nb + s in g.t.ck && tbase + nb + s in g.t.used && m.segs[j].base != m.top
      requires clear || (tbase + nb + s in m.w.head && !m.w.head[tbase + nb + s].pinuse)
      modifies this
      ensures m == old(m).(w := m.w, segs := PrependedSegs(old(m.segs), j, tbase, tsize))
      ensures tbase in m.w.head && m.w.head[tbase] == Head(nb, true, true)
      ensures g.held == old(g.held)[tbase := nb] && tbase !in old(g.held) && g.direct == old(g.direct)
              && g.mine == old(g.mine) && g.dvHeld == old(g.dvHeld)
      ensures g.ledger.leaked == old(g.ledger.leaked) - Pages(tbase, tsize) && g.loose == {tbase + nb}
      ensures tbase + nb in g.t.ck && tbase + nb !in g.t.used && g.t.ck[tbase + nb] == s
      ensures Inv()
    {
      hide SmallBins.Inv, TreeBins.Inv, Sound, Accounted, Aligned, Pages, MergeWords, FreeWithPinuse, FreeWords,
        FrontWords, PrependTiling, MergeTiling;
      ghost var h, pages, oldfirst := TheHeap(), Pages(tbase, tsize), m.segs[j].base;
      PrependMerge(h, g.ledger, g.mine, j, tbase, nb, tsize - nb, tbase + nb + s, dead);
      PrependedWords(m.w, tbase, nb, tsize - nb, s, cookie);
      m := m.(segs := PrependedSegs(m.segs, j, tbase, tsize));
      m := m.(w := FrontWords(m.w, tbase, nb, cookie));
      m := m.(w := if clear then FreeWithPinuse(m.w, tbase + nb, s) else FreeWords(m.w, tbase + nb, s));
      ghost var t := PrependTiling(g.t, tbase, nb, tsize - nb);
      g := g.(t := MergeTiling(t, tbase + nb, tbase + nb + s, dead), held := g.held[tbase := nb], loose := {tbase + nb},
              ledger := g.ledger.(segs := g.ledger.segs + pages, leaked := g.ledger.leaked - pages));
    }

    /** New memory in front of the segment whose first chunk is top. */
    method PrependTop(j: nat, tbase: Addr, tsize: nat, nb: nat)
      requires j < |m.segs| && tbase + tsize == m.segs[j].base == m.top && Aligned(tbase, tsize) && nb % 8 == 0
               && MIN_CHUNK_SIZE <= nb <= tsize - MIN_CHUNK_SIZE
      requires Pages(tbase, tsize) <= g.ledger.leaked && Valid()
      modifies this
      ensures m.dv == old(m.dv) && m.dvsize == old(m.dvsize) && m.top == tbase + nb
              && m.topsize == old(m.topsize) + tsize - nb
      ensures Took(old(g).(ledger := g.ledger), g, m.w, tbase, nb)
              && g.ledger.leaked == old(g.ledger.leaked) - Pages(tbase, tsize)
      ensures Valid()
    {
      hide SmallBins.Inv, TreeBins.Inv, Sound, Accounted, Aligned, Pages, PrependTiling, MergeTopTiling;
      ghost var h, pages := TheHeap(), Pages(tbase, tsize);
      var q, qsize := tbase + nb, tsize - nb;
      PrependTopMerge(h, g.ledger, g.mine, j, tbase, nb, qsize);
      m := m.(segs := PrependedSegs(m.segs, j, tbase, tsize));
      m := m.(w := FrontWords(m.w, tbase, nb, cookie));
      m := m.(topsize := m.topsize + qsize, top := q);
      m := m.(w := m.w.(head := m.w.head[q := Head(m.topsize, false, true)]));
      g := g.(t := MergeTopTiling(PrependTiling(g.t, tbase, nb, qsize), q, q + m.topsize, {old(m.top)}),
          held := g.held[tbase := nb],
              ledger := g.ledger.(segs := g.ledger.segs + pages, leaked := g.ledger.leaked - pages));
    }

    /** New memory in front of the segment whose first chunk is dv. */
    method PrependDv(j: nat, tbase: Addr, tsize: nat, nb: nat)
      requires j < |m.segs| && tbase + tsize == m.segs[j].base == m.dv && Aligned(tbase, tsize) && nb % 8 == 0
               && MIN_CHUNK_SIZE <= nb <= tsize - MIN_CHUNK_SIZE
      requires Pages(tbase, tsize) <= g.ledger.leaked && m.dv != m.top && m.dvsize != 0 && Valid()
      modifies this
      ensures Took(old(g).(ledger := g.ledger), g, m.w, tbase, nb)
              && g.ledger.leaked == old(g.ledger.leaked) - Pages(tbase, tsize)
      ensures m.dv == tbase + nb && m.dvsize == old(m.dvsize) + tsize - nb
      ensures Valid()
    {
      hide SmallBins.Inv, TreeBins.Inv, Sound, Cached, Charged, Aligned, Pages, PrependedSegs;
      DvSizeIs(TheHeap(), m.dv, m.dvsize);
      FreeNext(TheHeap(), m.dv);
      DvToHand();
      var q, dsize := tbase + nb, m.dvsize + tsize - nb;
      assert g.loose == {m.dv};
      PrependFree(j, tbase, tsize, nb, dsize, false, {m.dv});
      m := m.(dvsize := dsize, dv := q);
      DvFromHand(q);
      assert g.loose == {};
    }

    /** New memory in front of a segment whose first chunk is in use or binned. */
    method PrependPlain(j: nat, tbase: Addr, tsize: nat, nb: nat)
      requires j < |m.segs| && tbase + tsize == m.segs[j].base && Aligned(tbase, tsize) && nb % 8 == 0
               && MIN_CHUNK_SIZE <= nb <= tsize - MIN_CHUNK_SIZE
      requires Pages(tbase, tsize) <= g.ledger.leaked && m.segs[j].base != m.top && m.segs[j].base != m.dv && Valid()
      modifies this, small, trees
      ensures Took(old(g).(ledger := g.ledger), g, m.w, tbase, nb)
              && g.ledger.leaked == old(g.ledger.leaked) - Pages(tbase, tsize)
      ensures tbase + nb in small.n.size || tbase + nb in trees.n.size
      ensures Valid()
    {
      hide SmallBins.Inv, TreeBins.Inv, Sound, Charged, Aligned, Pages, PrependedSegs;
      var oldfirst, q, qsize := m.segs[j].base, tbase + nb, tsize - nb;
      FirstOfSeg(TheHeap(), j);
      ghost var dead: set<Addr> := {};
      if !m.w.head[oldfirst].cinuse {
        var nsize := m.w.head[oldfirst].size;
        BinnedNext(TheHeap(), oldfirst);
        FreeNext(TheHeap(), oldfirst);
        UnlinkChunk(oldfirst, nsize);
        dead, qsize := {oldfirst}, qsize + nsize;
        assert g.loose == dead;
      }
      PrependFree(j, tbase, tsize, nb, qsize, true, dead);
      InsertChunk(q, qsize);
      assert g.loose == {};
    }

    /** prepend_alloc. */
    method PrependAlloc(j: nat, tbase: Addr, tsize: nat, nb: nat)
      requires j < |m.segs| && tbase + tsize == m.segs[j].base && Aligned(tbase, tsize) && nb % 8 == 0
               && MIN_CHUNK_SIZE <= nb <= tsize - MIN_CHUNK_SIZE
      requires Pages(tbase, tsize) <= g.ledger.leaked && Valid()
      modifies this, small, trees
      ensures Took(old(g).(ledger := g.ledger), g, m.w, tbase, nb)
              && g.ledger.leaked == old(g.ledger.leaked) - Pages(tbase, tsize)
      ensures if tbase + tsize == old(m.top) then m.top == tbase + nb && m.topsize == old(m.topsize) + tsize - nb
              else if tbase + tsize == old(m.dv) then m.dv == tbase + nb && m.dvsize == old(m.dvsize) + tsize - nb
              else tbase + nb in small.n.size || tbase + nb in trees.n.size
      ensures Valid()
    {
      hide SmallBins.Inv, TreeBins.Inv, Sound, Cached, Charged, Aligned, Pages;
      var oldfirst := m.segs[j].base;
      FirstOfSeg(TheHeap(), j);
      if oldfirst == m.top {
        PrependTop(j, tbase, tsize, nb);
      } else if oldfirst == m.dv {
        PrependDv(j, tbase, tsize, nb);
      } else {
        PrependPlain(j, tbase, tsize, nb);
      }
    }

    /** Where add_segment puts the record of the segment that holds top. */
    method PlaceRecord() returns (csp: Addr)
      requires Inv()
      ensures (csp == m.top || csp >= m.top + MIN_CHUNK_SIZE) && csp % 8 == 0
              && csp + SEGMENT_CHUNK + 32 <= End(m.segs[0])
    {
      hide SmallBins.Inv, TreeBins.Inv, Sound, Charged, RecordPlace;
      ghost var h := TheHeap();
      var i := SegmentHolding(m.top);
      TopSegment(h, i);
      TopAligned(h);
      csp := RecordPlace(m.top, End(m.segs[i]));
      RecordRoom(h, csp);
    }

    /** The new top, the record of the old segment and its fenceposts; the rest of the old top, if any, is in hand. */
    method RetireTop(tbase: Addr, tsize: nat, csp: Addr)
      requires (csp == m.top || csp >= m.top + MIN_CHUNK_SIZE) && csp % 8 == 0 && |m.segs| > 0
               && csp + SEGMENT_CHUNK + 32 <= End(m.segs[0])
      requires Aligned(tbase, tsize) && tsize >= PAGE && Pages(tbase, tsize) <= g.ledger.leaked && Valid()
      modifies this
      ensures g.held == old(g.held) && g.direct == old(g.direct) && g.mine == old(g.mine)
              && g.ledger.leaked == old(g.ledger.leaked) - Pages(tbase, tsize)
      ensures m.topsize == tsize - TOP_FOOT_SIZE && m.top == tbase && g.dvHeld
      ensures if csp == old(m.top) then g.loose == {}
              else g.loose == {old(m.top)} && old(m.top) in g.t.ck && old(m.top) !in g.t.used
                   && g.t.ck[old(m.top)] == csp - old(m.top)
      ensures Inv()
    {
      hide SmallBins.Inv, TreeBins.Inv, Sound, Accounted, Aligned, Pages, RetireTiling, MergeTiling, FrontWords,
        FreeWithPinuse, InitTopWords;
      ghost var h, pages := TheHeap(), Pages(tbase, tsize);
      var oldtop, end := m.top, End(m.segs[0]);
      var w := InitTopWords(m.w, tbase, tsize - TOP_FOOT_SIZE);
      w := FrontWords(w, csp, SEGMENT_CHUNK, cookie);
      var nfences;
      w, nfences := InsertFences(w, csp + SEGMENT_CHUNK, end);
      NewSegment(h, g.ledger, g.mine, csp, tbase, tsize, w);
      m := m.(top := tbase, topsize := tsize - TOP_FOOT_SIZE, trimCheck := TRIM_THRESHOLD,
          segs := PushedSegs(m.segs, csp, tbase, tsize));
      g := g.(t := RetireTiling(g.t, csp, SEGMENT_CHUNK, tbase, tsize - TOP_FOOT_SIZE),
              ledger := g.ledger.(segs := g.ledger.segs + pages, leaked := g.ledger.leaked - pages));
      if csp != oldtop {
        m := m.(w := FreeWithPinuse(w, oldtop, csp - oldtop));
        g := g.(t := MergeTiling(g.t, oldtop, csp, {}), loose := {oldtop});
      } else {
        m := m.(w := w);
      }
    }

    /** add_segment: the memory becomes a segment of its own with the new top; what is left of the old top is binned. */
    method AddSegment(tbase: Addr, tsize: nat)
      requires Aligned(tbase, tsize) && tsize >= PAGE && Pages(tbase, tsize) <= g.ledger.leaked && Valid()
      modifies this, small, trees
      ensures g.held == old(g.held) && g.direct == old(g.direct) && g.mine == old(g.mine)
              && g.ledger.leaked == old(g.ledger.leaked) - Pages(tbase, tsize)
      ensures m.topsize == tsize - TOP_FOOT_SIZE && m.top == tbase
      ensures Valid()
    {
      hide SmallBins.Inv, TreeBins.Inv, Sound, Charged, Cached, Aligned, Pages;
      var oldtop := m.top;
      var csp := PlaceRecord();
      RetireTop(tbase, tsize, csp);
      if csp != oldtop {
        InsertChunk(oldtop, csp - oldtop);
        assert g.loose == {};
      }
    }

    /** The segment that ends at a, if any. */
    method SegmentEndingAt(a: Addr) returns (i: nat)
      ensures i <= |m.segs| && (i < |m.segs| ==> End(m.segs[i]) == a)
      ensures i == |m.segs| ==> forall j: nat :: j < |m.segs| ==> End(m.segs[j]) != a
    {
      i := 0;
      while i < |m.segs| && a != End(m.segs[i])
        invariant i <= |m.segs| && forall j: nat :: j < i ==> End(m.segs[j]) != a
      {
        i := i + 1;
      }
    }

    /** The segment that starts at a, if any. */
    method SegmentStartingAt(a: Addr) returns (i: nat)
      ensures i <= |m.segs| && (i < |m.segs| ==> m.segs[i].base == a)
      ensures i == |m.segs| ==> forall j: nat :: j < |m.segs| ==> m.segs[j].base != a
    {
      i := 0;
      while i < |m.segs| && m.segs[i].base != a
        invariant i <= |m.segs| && forall j: nat :: j < i ==> m.segs[j].base != a
      {
        i := i + 1;
      }
    }

    /** New memory is appended to the segment of top, prepended to a segment, or made a segment; then nb bytes are
        taken. */
    method UseMemory(tbase: Addr, tsize: nat, nb: nat) returns (p: Addr)
      requires Aligned(tbase, tsize) && nb % 8 == 0 && MIN_CHUNK_SIZE <= nb && nb + SYS_ALLOC_PADDING <= tsize
               && tsize >= PAGE
      requires Pages(tbase, tsize) <= g.ledger.leaked && Valid()
      modifies this, small, trees
      ensures Took(old(g).(ledger := g.ledger), g, m.w, p, nb)
              && g.ledger.leaked == old(g.ledger.leaked) - Pages(tbase, tsize)
      ensures p == tbase || p == old(m.top)
      ensures Valid()
    {
      hide SmallBins.Inv, TreeBins.Inv, Sound, Charged, Aligned, Pages;
      var i := SegmentEndingAt(tbase);
      if i < |m.segs| && m.segs[i].base <= m.top < End(m.segs[i]) {
        TopSegment(TheHeap(), i);
        ExtendTop(tsize);
      } else {
        var j := SegmentStartingAt(tbase + tsize);
        if j < |m.segs| {
          PrependAlloc(j, tbase, tsize, nb);
          return tbase;
        }
        AddSegment(tbase, tsize);
      }
      p := MallocFromTop(nb);
    }

    /** sys_alloc. */
    method SysAlloc(nb: nat) returns (p: Addr)
      requires Valid() && MIN_CHUNK_SIZE <= nb && (nb == MAX_SIZE_T || (nb % 8 == 0 && nb < Bits.WORD))
      modifies this, small, trees, sys
      ensures Others() == old(Others())
      ensures p == 0 ==> m == old(m) && g == old(g) && sys.mapped == old(sys.mapped)
      ensures nb == MAX_SIZE_T ==> p == 0
      ensures p != 0 ==> p > 0 && Granted(old(g), g, m.w, p, nb)
      ensures p != 0 && nb < MMAP_THRESHOLD ==> p in g.held
      ensures p != 0 && useMmap && nb >= MMAP_THRESHOLD && sys.refusals == old(sys.refusals) ==> p in g.direct
      ensures p != 0 ==> p == old(m.top) || p / PAGE !in old(g.mine)
      ensures p == 0 ==> sys.refusals > old(sys.refusals) || Wraps(nb)
      ensures Valid()
    {
      hide SmallBins.Inv, TreeBins.Inv, Sound, Charged, Aligned, Pages, PageAlign, GranularityAlign, Granted;
      p := 0;
      GranularityRoom(nb);
      PageAlignRoom(nb);
      TopShape(TheHeap());
      if useMmap && nb >= MMAP_THRESHOLD && m.topsize != 0 {
        p := MmapAlloc(nb);
        if p != 0 {
          DirectGrants(TheHeap(), old(g), g, p, nb);
          return;
        }
      }
      var rsize := GranularityAlign((nb + SYS_ALLOC_PADDING) % Bits.WORD);
      if rsize > nb {
        var tbase := Obtain(rsize);
        if tbase != -1 {
          PageSized(tbase, rsize);
          SomePages(tbase, rsize);
          p := UseMemory(tbase, rsize, nb);
          assert g.ledger.leaked == old(g.ledger.leaked);
          HeldGrants(TheHeap(), old(g), g, p, nb);
        }
      }
    }

    // ----- mspace_malloc -----

    lemma NoSmallFits(nb: nat)
      requires small.Valid() && nb < MIN_LARGE_SIZE && nb % 8 == 0
      requires forall j: nat :: nb / 8 <= j < BinMap.NBINS ==> !BinMap.Has(small.n.smallmap, j)
      ensures forall x :: x in small.n.size ==> small.n.size[x] < nb
    {
      hide SmallBins.Inv, BinMap.Has;
      forall x | x in small.n.size
        ensures small.n.size[x] < nb
      {
        SmallBins.StoredIsSmall(small.n, small.g, x);
        SmallBins.MarkedIffHolds(small.n, small.g, small.n.size[x] / 8);
      }
    }

    /** What the marks of the bins say of the exact fits. */
    lemma ExactStored(nb: nat)
      requires small.Valid() && nb < MIN_LARGE_SIZE && nb % 8 == 0
      ensures BinMap.Has(small.n.smallmap, nb / 8) <==> Stores(small.n.size, nb)
      ensures nb / 8 + 1 < BinMap.NBINS ==> (BinMap.Has(small.n.smallmap, nb / 8 + 1) <==> Stores(small.n.size, nb + 8))
      ensures nb / 8 + 1 >= BinMap.NBINS ==> !Stores(small.n.size, nb + 8)
    {
      hide SmallBins.Inv, BinMap.Has;
      SmallBins.MarkedIffHolds(small.n, small.g, nb / 8);
      if nb / 8 + 1 < BinMap.NBINS {
        SmallBins.MarkedIffHolds(small.n, small.g, nb / 8 + 1);
      } else {
        forall x | x in small.n.size
          ensures small.n.size[x] != nb + 8
        {
          SmallBins.StoredIsSmall(small.n, small.g, x);
        }
      }
    }

    /** The chunks of the least marked bin are the best fits. */
    lemma LeastMarked(nb: nat, i: nat)
      requires small.Valid() && nb < MIN_LARGE_SIZE && nb % 8 == 0 && nb <= 8 * i
      requires forall j: nat :: nb / 8 <= j < BinMap.NBINS && BinMap.Has(small.n.smallmap, j) ==> i <= j
      ensures forall x :: TreeBins.Fits(small.n.size, nb, x) ==> 8 * i <= small.n.size[x]
    {
      hide SmallBins.Inv, BinMap.Has;
      forall x | TreeBins.Fits(small.n.size, nb, x)
        ensures 8 * i <= small.n.size[x]
      {
        SmallBins.StoredIsSmall(small.n, small.g, x);
        SmallBins.MarkedIffHolds(small.n, small.g, small.n.size[x] / 8);
      }
    }

    lemma NoTreeHolds()
      requires trees.Valid() && trees.n.treemap == 0
      ensures trees.n.size == map[]
    {
      hide TreeBins.Inv, BinMap.Has;
      forall x
        ensures x !in trees.n.size
      {
        if x in trees.n.size {
          TreeBins.StoredAt(trees.n, trees.g, x);
          var i := TreeIndex.Index(trees.n.size[x]);
          TreeBins.MarkedIffHolds(trees.n, trees.g, i);
          BinMap.NonZero(trees.n.treemap);
        }
      }
    }

    lemma NoLargeInSmall(nb: nat)
      requires small.Valid() && nb >= MIN_LARGE_SIZE
      ensures forall x :: x in small.n.size ==> small.n.size[x] < nb
    {
      hide SmallBins.Inv;
      forall x | x in small.n.size
        ensures small.n.size[x] < nb
      {
        SmallBins.StoredIsSmall(small.n, small.g, x);
      }
    }

    /** A small request: an exact bin, or a larger one or a tree when dv is too small. */
    method ServeSmall(nb: nat) returns (p: Addr)
      requires Valid() && nb % 8 == 0 && MIN_CHUNK_SIZE <= nb < MIN_LARGE_SIZE
      modifies this, small, trees
      ensures p == 0 ==> m == old(m) && g == old(g)
      ensures p == 0 ==> nb <= m.dvsize || old(Sparse(nb))
      ensures p == 0 ==> !Binned(old(small.n.size), old(trees.n.size), m.dvsize, nb)
      ensures p != 0 ==> p > 0 && Granted(old(g), g, m.w, p, nb) && p in g.held
      ensures p != 0 ==> Binned(old(small.n.size), old(trees.n.size), old(m.dvsize), nb)
      ensures p != 0 ==> FromBins(old(small.n.size), old(trees.n.size), nb, p, g.held[p])
      ensures g.mine == old(g.mine)
      ensures Valid()
    {
      hide SmallBins.Inv, TreeBins.Inv, Sound, Charged, Cached, Granted, BinMap.Has;
      p := 0;
      var idx := nb / 8;
      ExactStored(nb);
      ghost var bins, large := small.n.size, trees.n.size;
      var i := BinMap.ExactBin(small.n.smallmap, idx);
      if i < BinMap.NBINS {
        p := MallocExact(i, nb);
        ExactIsBinned(bins, large, old(m.dvsize), nb, p);
      } else if nb > m.dvsize {
        i := BinMap.NextBin(small.n.smallmap, idx);
        if i < BinMap.NBINS {
          LeastMarked(nb, i);
          p := MallocNextSmall(i, nb);
          NextIsBinned(bins, large, old(m.dvsize), nb, p);
        } else if trees.n.treemap != 0 {
          NoSmallFits(nb);
          p := TmallocSmall(nb);
          TreeIsBinned(bins, large, old(m.dvsize), nb, p);
        } else {
          NoSmallFits(nb);
          NoTreeHolds();
          NoneIsBinned(bins, large, m.dvsize, nb);
          return;
        }
      } else {
        NoneIsBinned(bins, large, m.dvsize, nb);
        return;
      }
      HeldGrants(TheHeap(), old(g), g, p, nb);
    }

    /** dv, then top, then the system. */
    method ServeRest(nb: nat) returns (p: Addr)
      requires Valid() && MIN_CHUNK_SIZE <= nb && (nb == MAX_SIZE_T || (nb % 8 == 0 && nb < Bits.WORD))
      modifies this, small, trees, sys
      ensures Others() == old(Others())
      ensures p == 0 ==> m == old(m) && g == old(g) && sys.mapped == old(sys.mapped)
      ensures nb == MAX_SIZE_T ==> p == 0
      ensures p != 0 ==> p > 0 && Granted(old(g), g, m.w, p, nb)
      ensures p != 0 && nb < MMAP_THRESHOLD ==> p in g.held
      ensures p != 0 && useMmap && nb >= MMAP_THRESHOLD && old(m.dvsize) < nb && old(m.topsize) <= nb ==>
                sys.refusals == old(sys.refusals) ==> p in g.direct
      ensures p == 0 ==> m.dvsize < nb && m.topsize <= nb && (sys.refusals > old(sys.refusals) || Wraps(nb))
      ensures p != 0 ==> p in Live(g) && FromRest(old(m), old(g.mine), nb, p, Live(g)[p])
      ensures Valid()
    {
      hide SmallBins.Inv, TreeBins.Inv, Sound, Charged, Granted, Wraps, Live;
      SizesFit(TheHeap(), m.dv);
      if nb <= m.dvsize {
        p := MallocFromDv(nb);
        HeldGrants(TheHeap(), old(g), g, p, nb);
        LiveAt(g, p);
      } else if nb < m.topsize {
        p := MallocFromTop(nb);
        HeldGrants(TheHeap(), old(g), g, p, nb);
        LiveAt(g, p);
      } else {
        p := SysAlloc(nb);
        if p != 0 {
          GrantedIsLive(old(g), g, m.w, p, nb);
        }
      }
    }

    /** No chunk of the bins and trees is large enough. */
    ghost predicate Sparse(nb: nat)
      reads this, small, trees
    {
      (forall x :: x in small.n.size ==> small.n.size[x] < nb)
          && (forall x :: x in trees.n.size ==> trees.n.size[x] < nb)
    }

    /** Neither the bins and trees nor dv nor top can serve the request. */
    ghost predicate Exhausted(nb: nat)
      reads this, small, trees
    {
      Sparse(nb) && m.dvsize < nb && m.topsize <= nb
    }

    /** There was nothing for nb bytes, and the system refused or the size wraps around. */
    twostate predicate Refused(nb: nat)
      reads sys
    {
      old(Exhausted(nb)) && (sys.refusals > old(sys.refusals) || Wraps(nb))
    }

    /** The chunk at p, with got bytes for the caller, is the one due to a request of nb bytes. */
    ghost predicate Owes(nb: nat, p: Addr, got: int)
      reads this, small, trees
    {
      Chosen(small.n.size, trees.n.size, m, g.mine, nb, p, got)
    }

    /** A best fit of all trees has s bytes and is better than dv. */
    ghost predicate TreeServes(nb: nat, s: nat)
      reads this, trees
    {
      (exists v: Addr :: TreeBins.BestFit(trees.n.size, nb, v) && trees.n.size[v] == s)
          && (m.dvsize < nb || s < m.dvsize)
    }

    /** mspace_malloc: memory for the request, or 0 and no change. A request that is not too large fails only if no
        chunk of the bins, the trees and dv fits, top is too small, and the system refuses. */
    method Malloc(bytes: nat) returns (mem: Addr)
      requires Valid() && bytes < Bits.WORD
      modifies this, small, trees, sys
      ensures Others() == old(Others())
      ensures mem == 0 ==> Live(g) == old(Live(g)) && m.footprint == old(m.footprint) && sys.mapped == old(sys.mapped)
      ensures mem != 0 ==> Granted(old(g), g, m.w, mem - 16, RequestSize(bytes)) && bytes + 16 <= RequestSize(bytes)
      ensures mem != 0 && RequestSize(bytes) < MMAP_THRESHOLD ==> mem - 16 in g.held
      ensures mem != 0 ==> var got := Live(g)[mem - 16]; old(Owes(RequestSize(bytes), mem - 16, got))
      ensures mem != 0 && useMmap && RequestSize(bytes) >= MMAP_THRESHOLD && old(Exhausted(RequestSize(bytes))) ==>
                sys.refusals == old(sys.refusals) ==> mem - 16 in g.direct
      ensures MAX_SMALL_REQUEST < bytes < MAX_REQUEST ==>
                forall s: nat :: old(TreeServes(RequestSize(bytes), s)) ==>
                  mem != 0 && mem - 16 in g.held && g.held[mem - 16] == Given(s, RequestSize(bytes))
      ensures bytes >= MAX_REQUEST ==> mem == 0
      ensures mem == 0 && bytes < MAX_REQUEST ==> Refused(RequestSize(bytes))
      ensures Valid()
    {
      hide SmallBins.Inv, TreeBins.Inv, Sound, Charged, Cached, Granted, Wraps, Binned, FromBins, FromRest;
      var p: Addr := 0;
      var nb;
      if bytes <= MAX_SMALL_REQUEST {
        nb := RequestSize(bytes);
        p := ServeSmall(nb);
      } else if bytes >= MAX_REQUEST {
        nb := MAX_SIZE_T;
      } else {
        nb := RequestSize(bytes);
        NoLargeInSmall(nb);
        if trees.n.treemap != 0 {
          p := TmallocLarge(nb);
          if p != 0 {
            HeldGrants(TheHeap(), old(g), g, p, nb);
            LargeIsBinned(old(small.n.size), old(trees.n.size), old(m.dvsize), nb, p);
          } else {
            NoTreeFits(trees.n.size, nb, m.dvsize);
            NoLargeIsBinned(old(small.n.size), old(trees.n.size), m.dvsize, nb);
          }
        } else {
          NoTreeHolds();
          NoLargeIsBinned(small.n.size, trees.n.size, m.dvsize, nb);
        }
      }
      if p == 0 {
        p := ServeRest(nb);
      } else {
        LiveAt(g, p);
      }
      mem := if p == 0 then 0 else p + 16;
    }

    // ----- internal_memalign -----

    /** set_inuse on the back of a caller's chunk and on its front: the caller holds two chunks. */
    method CutHeld(p: Addr, lead: nat)
      requires p in g.held && lead % 8 == 0 && MIN_CHUNK_SIZE <= lead <= g.held[p] - MIN_CHUNK_SIZE && Valid()
      modifies this
      ensures m == old(m).(w := m.w) && p + lead !in old(g.held)
      ensures g == old(g).(t := g.t, held := old(g.held)[p := lead][p + lead := old(g.held)[p] - lead])
      ensures Live(g) == old(Live(g))[p := lead][p + lead := old(g.held)[p] - lead] && p + lead !in old(Live(g))
      ensures Valid()
    {
      hide SmallBins.Inv, TreeBins.Inv, Sound, Charged, Live;
      ghost var h := TheHeap();
      HeldFacts(h, p);
      CutKeepsSound(h, p, lead);
      var rest := m.w.head[p].size - lead;
      CutIsNotTop(h, p, lead);
      m := m.(w := CutWords(m.w, p, lead, rest, cookie));
      g := g.(t := CutTiling(g.t, p, lead, rest), held := g.held[p := lead][p + lead := rest]);
      WordsOfLive(TheHeap(), p);
      WordsOfLive(TheHeap(), p + lead);
      LiveCut(old(g), g, p, lead, rest);
    }

    /** A directly mapped chunk starts later in its region: its offset grows and its size shrinks. */
    method ShiftDirect(p: Addr, newp: Addr)
      requires p in g.direct && p < newp && newp + MIN_CHUNK_SIZE <= DirectEnd(g.direct[p]) && newp % 8 == 0 && Valid()
      modifies this
      ensures m == old(m).(w := m.w) && newp !in old(g.held) && newp !in old(g.direct)
      ensures g == old(g).(direct := (old(g.direct) - {p})[newp := old(g.direct)[p]])
      ensures Valid()
    {
      hide SmallBins.Inv, TreeBins.Inv, Sound, Cached, Accounted;
      ghost var h, r := TheHeap(), g.direct[p];
      DirectWordsOf(h, p);
      var lead := newp - p;
      var w := Words(m.w.head[newp := Head(m.w.head[p].size - lead, false, false)],
          m.w.foot[newp := m.w.foot[p] + lead]);
      MovedDirect(h, g.ledger, g.mine, w, p, newp);
      m := m.(w := w);
      g := g.(direct := (g.direct - {p})[newp := r]);
    }

    /** Leader, aligned chunk and trailer are cut out of a caller's chunk, which they tile. */
    method Carve(p: Addr, a: nat, nb: nat) returns (lead: nat, size: nat, rest: nat)
      requires p in g.held && p > 0 && Masks.IsPow2(a) && 32 <= a <= Masks.HALF && nb % 8 == 0 && nb >= MIN_CHUNK_SIZE
      requires g.held[p] >= nb + a + MIN_CHUNK_SIZE && Valid()
      modifies this
      ensures lead + size + rest == old(g.held)[p] && Masks.Multiple(p + lead + 16, a)
              && nb <= size <= nb + MIN_CHUNK_SIZE
      ensures (lead == 0 || lead >= MIN_CHUNK_SIZE) && (rest == 0 || rest >= MIN_CHUNK_SIZE)
      ensures Live(g) == Pieces(old(Live(g)), p, lead, size, rest) && g.direct == old(g.direct)
              && g.ledger == old(g.ledger) && g.mine == old(g.mine)
      ensures (lead > 0 ==> p + lead !in old(Live(g))) && (rest > 0 ==> p + lead + size !in old(Live(g)))
      ensures p in g.held && p + lead in g.held && (rest > 0 ==> p + lead + size in g.held)
      ensures Valid()
    {
      hide SmallBins.Inv, TreeBins.Inv, Sound, Charged, Cached, Masks.IsPow2, Masks.Multiple, Pieces, Live;
      HeldSize(TheHeap(), p);
      LiveAt(g, p);
      lead := 0;
      if !Masks.Multiple(p + 16, a) {
        var pos := AlignedSpot(p, a);
        lead := pos - p;
        CutHeld(p, lead);
      }
      HeldSize(TheHeap(), p + lead);
      size, rest := m.w.head[p + lead].size, 0;
      if size > nb + MIN_CHUNK_SIZE {
        rest := size - nb;
        CutHeld(p + lead, nb);
        size := nb;
      }
      CutPieces(old(Live(g)), Live(g), p, lead, size, rest);
    }

    /** In a region of its own a misaligned chunk is moved to an aligned place. */
    method AlignDirect(p: Addr, a: nat, nb: nat) returns (q: Addr)
      requires p in g.direct && p > 0 && Masks.IsPow2(a) && 32 <= a <= Masks.HALF && nb >= MIN_CHUNK_SIZE
      requires DirectSize(p, g.direct[p]) >= nb + a + MIN_CHUNK_SIZE && Valid()
      modifies this
      ensures q > 0 && Masks.Multiple(q + 16, a) && (q == p || q !in old(Live(g))) && g.ledger == old(g.ledger)
              && g.mine == old(g.mine)
      ensures q in Live(g) && Live(g)[q] >= nb && Live(g) == (old(Live(g)) - {p})[q := Live(g)[q]] && q in g.direct
              && q !in g.held
      ensures m.footprint == old(m.footprint)
      ensures g.direct[q] == old(g.direct)[p] && (q == p || MIN_CHUNK_SIZE <= q - p < a + MIN_CHUNK_SIZE)
              && (p % PAGE == 0 ==> q != p)
      ensures Valid()
    {
      hide SmallBins.Inv, TreeBins.Inv, Sound, Charged, Cached, Masks.IsPow2, Masks.Multiple, Live;
      q := p;
      DirectPlace(TheHeap(), p);
      PageIsMisaligned(p, a);
      if !Masks.Multiple(p + 16, a) {
        q := AlignedSpot(p, a);
        ShiftDirect(p, q);
      }
      LiveShift(old(g), g, p, q);
    }

    /** Leader and trailer go back, the aligned chunk stays with the caller. */
    method KeepAligned(mem0: Addr, a: nat, nb: nat) returns (mem: Addr)
      requires mem0 - 16 in g.held && mem0 > 16 && Masks.IsPow2(a) && 32 <= a <= Masks.HALF && nb % 8 == 0
               && nb >= MIN_CHUNK_SIZE
      requires g.held[mem0 - 16] >= nb + a + MIN_CHUNK_SIZE && Valid()
      modifies this, small, trees, sys
      ensures Others() == old(Others())
      ensures mem > 16 && Masks.Multiple(mem, a) && (mem == mem0 || mem - 16 !in old(Live(g)))
      ensures mem - 16 in Live(g) && Live(g) == (old(Live(g)) - {mem0 - 16})[mem - 16 := Live(g)[mem - 16]]
      ensures nb <= Live(g)[mem - 16] <= nb + MIN_CHUNK_SIZE && g.direct == old(g.direct) && mem - 16 !in g.direct
      ensures Valid()
    {
      hide SmallBins.Inv, TreeBins.Inv, Sound, Charged, Cached, Masks.IsPow2, Masks.Multiple, Live, Pieces;
      ghost var live, p := Live(g), mem0 - 16;
      LiveAt(g, p);
      var lead, size, rest := Carve(mem0 - 16, a, nb);
      PiecesFreed(live, p, lead, size, rest);
      var leader, trailer := mem0, mem0 + lead + size;
      mem := mem0 + lead;
      if lead != 0 {
        Free(leader);
      }
      if rest != 0 {
        Free(trailer);
      }
      WordsOfLive(TheHeap(), mem - 16);
    }

    /** internal_memalign: an aligned chunk of at least the padded size, or 0 and no change of hands, and that only if
        malloc cannot serve the request with the room for alignment. */
    method Memalign(alignment: nat, bytes: nat) returns (mem: Addr)
      requires Valid() && alignment <= Masks.HALF && bytes < Bits.WORD
      modifies this, small, trees, sys
      ensures Others() == old(Others())
      ensures mem == 0 ==> Live(g) == old(Live(g))
      ensures mem == 0 && alignment <= 8 ==> bytes >= MAX_REQUEST || Refused(RequestSize(bytes))
      ensures mem == 0 && alignment > 8 ==>
                exists a: nat :: RoundedTo(alignment, a) &&
                                 var nb := RequestSize(bytes) + a + MIN_CHUNK_SIZE;
                                 nb - 16 >= MAX_REQUEST || Refused(nb)
      ensures mem != 0 ==> AlignedTo(mem, alignment) && mem - 16 !in old(Live(g)) && mem - 16 in Live(g)
      ensures mem != 0 ==> Live(g) == old(Live(g))[mem - 16 := Live(g)[mem - 16]]
                           && Live(g)[mem - 16] >= RequestSize(bytes)
      ensures mem != 0 && !IsDirect(m.w, mem - 16) ==> Live(g)[mem - 16] <= RequestSize(bytes) + MIN_CHUNK_SIZE
      ensures mem > 0 && Masks.IsPow2(alignment) ==> Masks.Multiple(mem, alignment)
      ensures mem != 0 && alignment > 8 && mem - 16 in g.direct ==>
                MIN_CHUNK_SIZE <= mem - 16 - g.direct[mem - 16].base < 2 * alignment + 64
      ensures Valid()
    {
      hide SmallBins.Inv, TreeBins.Inv, Sound, Charged, Cached, Masks.IsPow2, Masks.Multiple, Live, Pieces, AlignedTo,
        RequestSize, Exhausted, Wraps, Owes;
      if alignment <= 8 {
        mem := Malloc(bytes);
        SmallAlignment(mem, alignment);
        AlignedToPower(mem, alignment);
        return;
      }
      var a := Masks.RoundAlignment(alignment);
      mem := 0;
      assert RoundedTo(alignment, a);
      RequestSizeIsLeast(bytes, 0);
      if bytes < MAX_REQUEST - a {
        var nb := RequestSize(bytes);
        RoundedRequest(bytes, a);
        mem := Malloc(nb + a + MIN_CHUNK_SIZE - 16);
        if mem != 0 {
          ghost var p := mem - 16;
          ghost var live := Live(g);
          GrantedPlace(TheHeap(), g, p);
          if IsDirect(m.w, mem - 16) {
            var q := AlignDirect(mem - 16, a, nb);
            mem := q + 16;
            GrantedPlace(TheHeap(), g, q);
          } else {
            mem := KeepAligned(mem, a, nb);
          }
          Replaced(old(Live(g)), live, Live(g), p, mem - 16);
          RoundedMultiple(mem, alignment, a);
          AlignedToPower(mem, alignment);
        }
      }
    }

    // ----- mmap_resize -----

    /** mremap of the region of a chunk, charged to the footprint; the chunk has no place until its words are written.
        */
    method RemapPages(p: Addr, newmm: nat) returns (cp: Addr)
      requires p in g.direct && newmm % PAGE == 0 && Valid()
      modifies this, sys
      ensures Others() == old(Others())
      ensures sys.denials == old(sys.denials) + if cp == -1 then 1 else 0
      ensures cp == -1 ==> m == old(m) && g == old(g) && sys.mapped == old(sys.mapped)
      ensures cp != -1 ==> Aligned(cp, newmm) && m == old(m).(footprint := m.footprint, maxFootprint := m.maxFootprint)
      ensures cp != -1 ==> g == old(g).(direct := old(g.direct) - {p}, ledger := g.ledger, mine := g.mine)
                           && Pages(cp, newmm) <= g.ledger.leaked
      ensures cp != -1 ==> g.ledger.leaked - Pages(cp, newmm) == old(g.ledger.leaked)
      ensures Valid()
    {
      hide SmallBins.Inv, TreeBins.Inv, Sound, Cached, Accounted, Pages, Aligned, Swap;
      ghost var h, b, less := TheHeap(), g.ledger, RegionPages(g.direct[p]);
      DirectWordsOf(h, p);
      var offset := m.w.foot[p];
      var oldmm := m.w.head[p].size + offset + MMAP_FOOT_PAD;
      cp := sys.Mremap(p - offset, oldmm, newmm, true);
      if cp != -1 {
        DropDirectKeepsSound(h, p);
        Remapped(m.segs, g.direct, b, g.mine, p, Region(cp, newmm));
        OthersMove(old(sys.mapped), g.mine, less, Pages(cp, newmm));
        m := m.(footprint := m.footprint + newmm - oldmm);
        m := m.(maxFootprint := if m.footprint > m.maxFootprint then m.footprint else m.maxFootprint);
        g := g.(direct := g.direct - {p}, ledger := b.(direct := b.direct - less,
            leaked := b.leaked + Pages(cp, newmm)),
                mine := Swap(g.mine, less, Pages(cp, newmm)));
      }
    }

    /** The remapping part of mmap_resize. */
    method Remap(p: Addr, nb: nat) returns (r: Addr, ghost remapped: bool)
      requires p in g.direct && MIN_CHUNK_SIZE <= nb < Bits.WORD && Valid()
      modifies this, sys
      ensures Others() == old(Others())
      ensures m.footprint == PAGE * |g.mine| && m.footprint <= m.maxFootprint
      ensures !remapped ==> r == 0 && m == old(m) && g == old(g) && sys.mapped == old(sys.mapped)
      ensures (remapped <==> sys.denials == old(sys.denials)) && (remapped ==> r > 0)
      ensures remapped && RemapFits(old(g.direct)[p], p, nb) ==> Resized(old(g), g, p, r, nb)
      ensures !remapped || RemapFits(old(g.direct)[p], p, nb) ==> Valid()
    {
      hide SmallBins.Inv, TreeBins.Inv, Sound, Cached, Accounted, Pages, Aligned, PageAlign, DirectWords, Resized,
        Bits.Minus;
      DirectWordsOf(TheHeap(), p);
      DirectPlace(TheHeap(), p);
      OffsetAligned(TheHeap(), p);
      var offset := m.w.foot[p];
      var newmm := PageAlign((nb + 48 + 7) % Bits.WORD);
      PageAlignRoom(nb);
      var cp := RemapPages(p, newmm);
      if cp == -1 {
        return 0, false;
      }
      r, remapped := cp + offset, true;
      PageSized(cp, newmm);
      if offset + MMAP_FOOT_PAD + MIN_CHUNK_SIZE <= newmm {
        SpotInRegion(cp, newmm, offset);
        SetUpDirect(r, cp, newmm);
        ResizedLive(old(g), g, p, r, nb, Region(cp, newmm));
      } else {
        var psize := Bits.Minus(newmm % Bits.WORD, (offset + MMAP_FOOT_PAD) % Bits.WORD);
        m := m.(w := m.w.(head := m.w.head[r := Head(psize, false, false)]));
      }
    }

    /** mmap_resize: 0 for a small request or if mremap fails, the same chunk if it has 8 bytes to spare and no more
        than two units of granularity, or one in a region of the new size, possibly moved. The footprint is right in
        every case; the heap stays valid whenever the new region still holds the old offset. */
    method MmapResize(p: Addr, nb: nat) returns (r: Addr, ghost remapped: bool)
      requires p in g.direct && MIN_CHUNK_SIZE <= nb < Bits.WORD && Valid()
      modifies this, sys
      ensures Others() == old(Others())
      ensures m.footprint == PAGE * |g.mine| && m.footprint <= m.maxFootprint
      ensures !remapped ==> m == old(m) && g == old(g) && sys.mapped == old(sys.mapped)
      ensures r == 0 <==> IsSmall(nb) || sys.denials != old(sys.denials)
      ensures r != 0 && !remapped <==>
                !IsSmall(nb) && nb + 8 <= DirectSize(p, old(g.direct)[p]) <= nb + 2 * GRANULARITY
      ensures r != 0 && !remapped ==> r == p && p > 0 && Live(g)[p] >= nb + 8
      ensures remapped ==> r > 0
      ensures remapped && RemapFits(old(g.direct)[p], p, nb) ==> Resized(old(g), g, p, r, nb)
      ensures !remapped || RemapFits(old(g.direct)[p], p, nb) ==> Valid()
    {
      hide SmallBins.Inv, TreeBins.Inv, Sound, Cached, Accounted, RemapFits, Resized;
      DirectWordsOf(TheHeap(), p);
      var oldsize := m.w.head[p].size;
      if IsSmall(nb) {
        return 0, false;
      }
      DirectPlace(TheHeap(), p);
      if oldsize >= nb + 8 && oldsize - nb <= 2 * GRANULARITY {
        return p, false;
      }
      r, remapped := Remap(p, nb);
    }
  }
}
