/** nedmalloc on top of its mspaces: every allocated block is with a caller or in one thread cache. */
module Nedpools {
  import opened Sizes
  import opened CacheSizes
  import opened System
  import opened Heaps
  import opened Footprints
  import opened Mspaces
  import HeapGrowth
  import MspaceRuns
  import ThreadCaches
  import Bits
  import SmallBins
  import TreeBins

  /** Where all blocks are: the live chunks of each mspace, the mspace each footer names, the blocks callers hold, the
      blocks in each cache with their recorded sizes, and blocks that have left a cache and are about to be freed. */
  datatype View = View(lives: seq<map<Addr, int>>, owner: map<Addr, nat>, user: set<Addr>, cached: seq<map<Addr, nat>>,
      transit: set<Addr>)

  /** What nedblksize says of a block. */
  function Usable(v: View, mem: Addr): int
    requires mem in v.owner && v.owner[mem] < |v.lives| && mem - 16 in v.lives[v.owner[mem]]
  {
    v.lives[v.owner[mem]][mem - 16] - CHUNK_OVERHEAD
  }

  /** The chunk size of a block; 0 if it is not live. */
  function SizeOf(v: View, mem: Addr): int {
    if mem in v.owner && v.owner[mem] < |v.lives| && mem - 16 in v.lives[v.owner[mem]]
        then v.lives[v.owner[mem]][mem - 16] else 0
  }

  /** The blocks of s have kept their sizes. */
  ghost predicate SameSizes(v: View, v': View, s: set<Addr>) {
    forall x: Addr {:trigger SizeOf(v', x)} :: x in s ==> SizeOf(v', x) == SizeOf(v, x)
  }

  /** The padded size of requests that are rounded up to THREADCACHEMAX. */
  const LARGEST: nat := 8208

  /** The size with which nedpmalloc looks for a block. */
  function Rounded(request: nat): nat {
    if request < BLOCK then BLOCK else request
  }

  /** The size with which nedpmalloc turns to the mspace of thread cache k. */
  function Asked(k: int, request: nat): nat {
    if k >= 0 && Rounded(request) <= THREADCACHEMAX then BinSize(FirstBin(Rounded(request))) else Rounded(request)
  }

  /** nedpfree puts a block of this chunk size into a cache. */
  predicate Cacheable(chunk: int) {
    BLOCK <= chunk - CHUNK_OVERHEAD <= THREADCACHEMAX + CHUNK_OVERHEAD
  }

  /** The cache takes a block of this chunk size, and puts it where the request looks first. */
  predicate Suits(chunk: int, request: nat) {
    Cacheable(chunk) && SizeToBin(chunk - CHUNK_OVERHEAD) == FirstBin(Rounded(request))
  }

  ghost predicate InCache(v: View, mem: Addr) {
    exists k: nat :: k < |v.cached| && mem in v.cached[k]
  }

  /** A block is live in the mspace its footer names and nowhere else, and if it is live it is in exactly one place. */
  ghost predicate PlaceAt(v: View, mem: Addr) {
    && (mem in v.owner ==> v.owner[mem] < |v.lives| && mem > 16)
    && (forall i: nat :: i < |v.lives| ==> (mem - 16 in v.lives[i] <==> mem in v.owner && v.owner[mem] == i))
    && (mem in v.owner <==> mem in v.user || mem in v.transit || InCache(v, mem))
    && !(mem in v.user && mem in v.transit)
    && (forall k: nat :: k < |v.cached| && mem in v.cached[k] ==>
          && mem !in v.user && mem !in v.transit && mem in v.owner && v.cached[k][mem] <= Usable(v, mem)
          && (forall l: nat :: l < |v.cached| && mem in v.cached[l] ==> l == k))
  }

  ghost predicate Partition(v: View) {
    forall mem: Addr {:trigger PlaceAt(v, mem)} :: PlaceAt(v, mem)
  }

  // ----- steps -----

  function TakeCached(v: View, k: nat, mem: Addr): View
    requires k < |v.cached|
  {
    v.(cached := v.cached[k := v.cached[k] - {mem}], user := v.user + {mem})
  }

  /** The block has moved from cache k to the user, and nothing else has changed. */
  ghost predicate FromCacheOnly(v: View, v': View, k: nat, mem: Addr) {
    k < |v.cached| && mem in v.cached[k] && v' == TakeCached(v, k, mem)
  }

  lemma TakeCachedKeeps(v: View, k: nat, mem: Addr)
    requires Partition(v) && k < |v.cached| && mem in v.cached[k]
    ensures Partition(TakeCached(v, k, mem)) && mem in v.owner && mem !in v.user
  {
    var v' := TakeCached(v, k, mem);
    assert PlaceAt(v, mem);
    forall x: Addr {:trigger PlaceAt(v', x)}
      ensures PlaceAt(v', x)
    {
      assert PlaceAt(v, x);
      Recached(v, v', k, x);
    }
  }

  /** Whether x is in a cache does not change when only another block of cache k changes. */
  lemma Recached(v: View, v': View, k: nat, x: Addr)
    requires k < |v.cached| == |v'.cached| && forall l: nat :: l < |v.cached| && l != k ==> v'.cached[l] == v.cached[l]
    ensures InCache(v', x) <==> x in v'.cached[k] || exists l: nat :: l < |v.cached| && l != k && x in v.cached[l]
    ensures InCache(v, x) <==> x in v.cached[k] || exists l: nat :: l < |v.cached| && l != k && x in v.cached[l]
  {
    if InCache(v', x) && x !in v'.cached[k] {
      var l: nat :| l < |v'.cached| && x in v'.cached[l];
      assert x in v.cached[l];
    }
    if l: nat :| l < |v.cached| && l != k && x in v.cached[l] {
      assert x in v'.cached[l];
    }
  }

  /** Block mem comes from its caller into cache k, with a recorded size not above its own; the blocks in out leave the
      cache. */
  function PutCached(v: View, k: nat, mem: Addr, s: nat, out: set<Addr>): View
    requires k < |v.cached|
  {
    v.(cached := v.cached[k := v.cached[k][mem := s] - out], user := v.user - {mem}, transit := v.transit + out)
  }

  lemma PutCachedKeeps(v: View, k: nat, mem: Addr, s: nat, out: set<Addr>)
    requires Partition(v) && k < |v.cached| && mem in v.user && out <= v.cached[k].Keys + {mem}
    requires mem in v.owner && v.owner[mem] < |v.lives| && mem - 16 in v.lives[v.owner[mem]] && s <= Usable(v, mem)
    ensures Partition(PutCached(v, k, mem, s, out))
  {
    var v' := PutCached(v, k, mem, s, out);
    assert PlaceAt(v, mem);
    forall x: Addr {:trigger PlaceAt(v', x)}
      ensures PlaceAt(v', x)
    {
      assert PlaceAt(v, x);
      Recached(v, v', k, x);
    }
  }

  /** Blocks leave cache k. */
  function DropCached(v: View, k: nat, out: set<Addr>): View
    requires k < |v.cached|
  {
    v.(cached := v.cached[k := v.cached[k] - out], transit := v.transit + out)
  }

  lemma DropCachedKeeps(v: View, k: nat, out: set<Addr>)
    requires Partition(v) && k < |v.cached| && out <= v.cached[k].Keys
    ensures Partition(DropCached(v, k, out))
  {
    var v' := DropCached(v, k, out);
    forall x: Addr {:trigger PlaceAt(v', x)}
      ensures PlaceAt(v', x)
    {
      assert PlaceAt(v, x);
      Recached(v, v', k, x);
    }
  }

  /** A caller gives a block up. */
  lemma GiveUpKeeps(v: View, mem: Addr)
    requires Partition(v) && mem in v.user
    ensures Partition(v.(user := v.user - {mem}, transit := v.transit + {mem}))
  {
    var v' := v.(user := v.user - {mem}, transit := v.transit + {mem});
    forall x: Addr {:trigger PlaceAt(v', x)}
      ensures PlaceAt(v', x)
    {
      assert PlaceAt(v, x);
      assert InCache(v', x) == InCache(v, x);
    }
  }

  lemma OwnerLives(v: View, mem: Addr)
    requires Partition(v) && mem in v.owner
    ensures v.owner[mem] < |v.lives| && mem - 16 in v.lives[v.owner[mem]]
  {
    assert PlaceAt(v, mem);
  }

  /** Mspace i hands out a block that is not live anywhere. */
  function Grant(v: View, i: nat, mem: Addr, s: int): View
    requires i < |v.lives|
  {
    v.(lives := v.lives[i := v.lives[i][mem - 16 := s]], owner := v.owner[mem := i], user := v.user + {mem})
  }

  lemma GrantKeeps(v: View, i: nat, mem: Addr, s: int)
    requires Partition(v) && i < |v.lives| && mem > 16 && forall j: nat :: j < |v.lives| ==> mem - 16 !in v.lives[j]
    ensures Partition(Grant(v, i, mem, s)) && mem !in v.owner && mem !in v.user
  {
    var v' := Grant(v, i, mem, s);
    assert PlaceAt(v, mem);
    if mem in v.owner {
      OwnerLives(v, mem);
    }
    forall x: Addr {:trigger PlaceAt(v', x)}
      ensures PlaceAt(v', x)
    {
      assert PlaceAt(v, x);
      assert InCache(v', x) == InCache(v, x);
    }
  }

  /** A block in transit goes back to its mspace. */
  function Release(v: View, mem: Addr): View
    requires mem in v.owner && v.owner[mem] < |v.lives|
  {
    var i := v.owner[mem];
    v.(lives := v.lives[i := v.lives[i] - {mem - 16}], owner := v.owner - {mem}, transit := v.transit - {mem})
  }

  lemma ReleaseKeeps(v: View, mem: Addr)
    requires Partition(v) && mem in v.transit
    ensures mem in v.owner && v.owner[mem] < |v.lives| && mem - 16 in v.lives[v.owner[mem]]
            && Partition(Release(v, mem)) && mem > 16
  {
    assert PlaceAt(v, mem);
    var v' := Release(v, mem);
    forall x: Addr {:trigger PlaceAt(v', x)}
      ensures PlaceAt(v', x)
    {
      assert PlaceAt(v, x);
      assert InCache(v', x) == InCache(v, x);
    }
  }

  // ----- the pool -----

  /** mem is live and has at least size usable bytes. */
  ghost predicate HoldsAtLeast(v: View, mem: Addr, size: nat) {
    mem in v.owner && v.owner[mem] < |v.lives| && mem - 16 in v.lives[v.owner[mem]] && Usable(v, mem) >= size
  }

  lemma LessToHold(v: View, mem: Addr, size: nat, request: nat)
    requires HoldsAtLeast(v, mem, size) && request <= size
    ensures HoldsAtLeast(v, mem, request)
  {
  }

  lemma GrantHolds(v: View, v': View, i: nat, mem: Addr, size: nat, s: int)
    requires i < |v.lives| && v' == Grant(v, i, mem, s) && s >= size + 16
    ensures HoldsAtLeast(v', mem, size)
  {
  }

  lemma GrantSizes(v: View, i: nat, mem: Addr, s: int)
    requires i < |v.lives| && mem !in v.user
    ensures SameSizes(v, Grant(v, i, mem, s), v.user)
  {
  }

  lemma ReleaseSizes(v: View, mem: Addr)
    requires mem in v.owner && v.owner[mem] < |v.lives|
    ensures SameSizes(v, Release(v, mem), v.user - {mem})
  {
  }

  lemma UserNotInTransit(v: View, mem: Addr)
    requires Partition(v) && mem in v.transit
    ensures mem !in v.user && mem in v.owner && v.owner[mem] < |v.lives|
  {
    assert PlaceAt(v, mem);
  }

  lemma CachedIsOwned(v: View, k: nat, mem: Addr)
    requires Partition(v) && k < |v.cached| && mem in v.cached[k]
    ensures mem in v.owner
  {
    assert PlaceAt(v, mem);
  }

  lemma LargestRequest(request: nat)
    requires 4096 < request <= THREADCACHEMAX
    ensures BinSize(FirstBin(request)) == THREADCACHEMAX && RequestSize(THREADCACHEMAX) == LARGEST
  {
    FirstBinIsLeast(request);
    var i := FirstBin(request);
    BinSizes();
    if i <= 8 {
      BinMono(i, 8);
    }
  }

  /** What dlmalloc grants for a rounded request on a miss suits the request. */
  lemma MissSuits(request: nat, size: nat, chunk: int)
    requires request <= 4096 && size == BinSize(FirstBin(Rounded(request)))
    requires RequestSize(size) < MMAP_THRESHOLD ==> RequestSize(size) <= chunk < RequestSize(size) + 32
    ensures Suits(chunk, request)
  {
    hide BinSize, FirstBin, SizeToBin;
    FirstBinIsLeast(Rounded(request));
    SameBin(Rounded(request), chunk);
  }

  lemma CachedHolds(v: View, k: nat, mem: Addr)
    requires Partition(v) && k < |v.cached| && mem in v.cached[k]
    ensures HoldsAtLeast(v, mem, v.cached[k][mem])
  {
    assert PlaceAt(v, mem);
    OwnerLives(v, mem);
  }

  lemma UserLives(v: View, mem: Addr)
    requires Partition(v) && mem in v.user
    ensures mem in v.owner && v.owner[mem] < |v.lives| && mem - 16 in v.lives[v.owner[mem]] && mem > 16
  {
    assert PlaceAt(v, mem);
    OwnerLives(v, mem);
  }

  lemma UserNotCached(v: View, k: nat, mem: Addr)
    requires Partition(v) && mem in v.user && k < |v.cached|
    ensures mem !in v.cached[k]
  {
    assert PlaceAt(v, mem);
  }

  lemma NextOut(out: seq<Addr>, n: nat)
    requires n < |out| && ThreadCaches.Apart(out)
    ensures out[n] in ThreadCaches.Blocks(out[n..]) && ThreadCaches.Blocks(out[n..]) - {out[n]}
            == ThreadCaches.Blocks(out[n + 1..])
  {
    var rest := out[n + 1..];
    assert out[n..] == [out[n]] + rest;
    forall x | x in rest
      ensures x != out[n]
    {
      var j: nat :| j < |rest| && rest[j] == x;
      assert out[n + 1 + j] == x;
    }
  }

  /** The head word of a live chunk tells its size. */
  lemma HeadOfLive(s: Mspace, p: Addr)
    requires s.Resting() && p in Live(s.g)
    ensures p in s.m.w.head && s.m.w.head[p].size == Live(s.g)[p] >= CHUNK_OVERHEAD
  {
    hide SmallBins.Inv, TreeBins.Inv, Sound, Cached, Accounted;
    var h := s.TheHeap();
    if p in s.g.held {
      HeldSize(h, p);
      HeldMinimum(h, p);
    } else {
      DirectWordsOf(h, p);
      DirectMinimum(h, p);
    }
  }

  lemma HeldMinimum(h: Heap, p: Addr)
    requires Sound(h) && p in h.held
    ensures h.held[p] >= 32
  {
    HeapGrowth.HeldFacts(h, p);
  }

  lemma DirectMinimum(h: Heap, p: Addr)
    requires Sound(h) && p in h.direct
    ensures DirectSize(p, h.direct[p]) >= CHUNK_OVERHEAD
  {
    assert DirectAt(h, p);
  }

  lemma PageOfLive(s: Mspace, p: Addr)
    requires s.Resting() && p in Live(s.g)
    ensures p > 0 && p / PAGE in s.g.mine
  {
    hide SmallBins.Inv, TreeBins.Inv, Sound, Cached, Accounted, Live;
    PageIsMine(s.TheHeap(), s.g, s.g.ledger, s.g.mine, p);
  }

  lemma PageIsMine(h: Heap, g: Shape, b: Ledger, mine: set<int>, p: Addr)
    requires Sound(h) && h.held == g.held && h.direct == g.direct && Accounted(h.segs, h.direct, b, mine)
             && p in Live(g)
    ensures p > 0 && p / PAGE in mine
  {
    hide Sound, SegsHeld, DirectsHeld;
    MspaceRuns.LivePositive(h, g, p);
    if p in g.held {
      HeapGrowth.HeldFacts(h, p);
      MspaceRuns.HeldInside(h, p);
      var i: nat :| i < |h.segs| && h.segs[i].base <= p && p + h.t.ck[p] <= h.segs[i].base + h.segs[i].size;
      SegOwned(h.segs, b.segs, i);
      SegAligned(h.segs, b.segs, i);
      HeldSize(h, p);
      PageInside(h.segs[i].base, h.segs[i].size, p);
    } else {
      DirectRange(h);
      MspaceRuns.DirectIsHeld(h.direct, b.direct, p);
      PageInside(h.direct[p].base, h.direct[p].size, p);
    }
  }

  lemma PageInside(base: Addr, size: nat, x: Addr)
    requires Aligned(base, size) && base <= x < base + size
    ensures x / PAGE in Pages(base, size)
  {
  }

  lemma PagesKept(mapped: set<int>, mapped': set<int>, mine: set<int>, mine': set<int>, other: set<int>)
    requires other <= mapped && other !! mine && mapped' - mine' == mapped - mine && mine' <= mapped'
    ensures other <= mapped' && other !! mine'
  {
    assert other <= mapped - mine;
  }

  class Nedpool {
    const sys: System
    const spaces: seq<Mspace>
    const caches: seq<ThreadCaches.ThreadCache>

    /** What the footers say: the mspace each allocated block came from. */
    var owner: map<Addr, nat>
    ghost var v: View

    /** The objects of the pool are all different. */
    ghost predicate Separate() {
      && (forall i: nat :: i < |spaces| ==> spaces[i].sys == sys)
      && (forall i: nat, j: nat :: i < j < |spaces| ==>
            spaces[i] != spaces[j] && spaces[i].small != spaces[j].small && spaces[i].trees != spaces[j].trees)
      && (forall i: nat, j: nat :: i < j < |caches| ==> caches[i] != caches[j])
    }

    /** Mspace i is at rest and its live chunks are the ones the view has for it. */
    ghost predicate SpaceOk(i: nat)
      requires i < |spaces|
      reads this, spaces[i], spaces[i].small, spaces[i].trees
    {
      spaces[i].Resting() && i < |v.lives| && v.lives[i] == Live(spaces[i].g)
    }

    ghost predicate CacheOk(k: nat)
      requires k < |caches|
      reads this, caches[k]
    {
      caches[k].Valid() && k < |v.cached| && v.cached[k] == caches[k].c.size
    }

    ghost function Objects(): set<object> {
      (set i: nat | i < |spaces| :: spaces[i]) + (set i: nat | i < |spaces| :: spaces[i].small)
          + (set i: nat | i < |spaces| :: spaces[i].trees)
      + (set k: nat | k < |caches| :: caches[k]) + {sys}
    }

    /** No page belongs to two mspaces, and all are mapped. */
    ghost predicate PagesOk()
      reads Objects()
    {
      && (forall i: nat :: i < |spaces| ==> spaces[i].g.mine <= sys.mapped)
      && (forall i: nat, j: nat :: i < j < |spaces| ==> spaces[i].g.mine !! spaces[j].g.mine)
    }

    ghost predicate Ok()
      reads this, Objects()
    {
      && Separate() && PagesOk() && Partition(v) && v.owner == owner && |v.lives| == |spaces| && |v.cached| == |caches|
      && (forall i: nat :: i < |spaces| ==> SpaceOk(i))
      && (forall k: nat :: k < |caches| ==> CacheOk(k))
    }

    ghost predicate Valid()
      reads this, Objects()
    {
      Ok() && v.transit == {}
    }

    /** A pool with empty caches over mspaces whose live chunks, if any, users hold. */
    constructor (sys: System, spaces: seq<Mspace>, caches: seq<ThreadCaches.ThreadCache>, owner: map<Addr, nat>)
      requires forall i: nat :: i < |spaces| ==> spaces[i].Valid() && spaces[i].sys == sys
      requires forall x: Addr :: x in owner ==> owner[x] < |spaces| && x > 16
      requires forall i: nat, x: Addr :: i < |spaces| ==> (x in Live(spaces[i].g) <==>
                                                          x + 16 in owner && owner[x + 16] == i)
      requires forall i: nat, j: nat :: i < j < |spaces| ==>
                 spaces[i] != spaces[j] && spaces[i].small != spaces[j].small && spaces[i].trees != spaces[j].trees
      requires forall i: nat, j: nat :: i < j < |spaces| ==> spaces[i].g.mine !! spaces[j].g.mine
      requires forall k: nat :: k < |caches| ==> caches[k].Valid() && caches[k].c.size == map[]
      requires forall i: nat, j: nat :: i < j < |caches| ==> caches[i] != caches[j]
      ensures this.sys == sys && this.spaces == spaces && this.caches == caches && Valid() && v.user == owner.Keys
    {
      hide Mspaces.Live, Mspaces.Mspace.Local, ThreadCaches.Inv;
      this.sys, this.spaces, this.caches, this.owner := sys, spaces, caches, owner;
      v := View(seq(|spaces|, i requires 0 <= i < |spaces| reads spaces => Live(spaces[i].g)), owner, owner.Keys,
          seq(|caches|, k => map[]), {});
      new;
      forall x: Addr {:trigger PlaceAt(v, x)}
        ensures PlaceAt(v, x)
      {
      }
    }

    /** The cache of the thread has no block for the request. */
    ghost predicate Missed(k: nat, request: nat)
      requires k < |caches|
      reads caches[k]
    {
      forall x: Addr :: x in caches[k].c.size ==> x in caches[k].g.bin
                                                  && !ThreadCaches.Probed(Rounded(request), caches[k].g.bin[x])
    }

    /** The cache has a block for the request, and x is the newest one of the first bin with such blocks. */
    ghost predicate Serves(k: nat, request: nat, x: Addr)
      requires k < |caches|
      reads caches[k]
    {
      var c, g, first := caches[k].c, caches[k].g, FirstBin(Rounded(request));
      && x in c.size && x in g.bin && g.bin[x] < |c.head| && c.head[g.bin[x]] == x
      && ThreadCaches.Probed(Rounded(request), g.bin[x])
      && (g.bin[x] != first ==> forall y: Addr :: y in c.size ==> y in g.bin && g.bin[y] != first)
    }

    /** The request is not for a cache, or the cache has no block for it. */
    ghost predicate Passes(k: int, request: nat)
      requires k < |caches|
      reads if k >= 0 then {caches[k]} else {}
    {
      k < 0 || Rounded(request) > THREADCACHEMAX || Missed(k, request)
    }

    lemma MissedRounded(k: int, request: nat)
      requires k < |caches|
      ensures k >= 0 ==> Missed(k, Rounded(request)) == Missed(k, request)
      ensures k >= 0 ==> forall x: Addr :: Serves(k, Rounded(request), x) == Serves(k, request, x)
    {
    }

    /** mem is the newest block of bin b of cache k. */
    ghost predicate Heads(k: nat, b: nat, mem: Addr)
      requires k < |caches|
      reads this, caches[k]
    {
      k < |v.cached| && mem in v.cached[k] && b < |caches[k].c.head| && caches[k].c.head[b] == mem
    }

    /** CallFree: the footer tells the mspace. */
    method CallFree(mem: Addr)
      requires Ok() && mem in v.transit
      modifies this, Objects()
      ensures Ok() && mem in old(v.owner) && old(v.owner)[mem] < |old(v.lives)| && v == Release(old(v), mem)
      ensures forall l: nat :: l < |caches| ==> caches[l].c == old(caches[l].c)
    {
      hide Partition, Mspaces.Live, Mspaces.Mspace.Local, ThreadCaches.Inv;
      ReleaseKeeps(v, mem);
      var i := owner[mem];
      assert SpaceOk(i);
      spaces[i].Free(mem);
      owner := owner - {mem};
      v := Release(v, mem);
      OthersKept(i);
      forall j: nat | j < |spaces|
        ensures SpaceOk(j)
      {
        assert old(SpaceOk(j));
      }
      forall k: nat | k < |caches|
        ensures CacheOk(k)
      {
        assert old(CacheOk(k));
      }
    }

    /** When mspace i changes and leaves the pages of others alone, the pages stay apart. */
    twostate lemma OthersKept(i: nat)
      requires i < |spaces| && old(PagesOk()) && spaces[i].g.mine <= sys.mapped
      requires sys.mapped - spaces[i].g.mine == old(sys.mapped - spaces[i].g.mine)
      requires forall j: nat :: j < |spaces| && j != i ==> spaces[j].g.mine == old(spaces[j].g.mine)
      ensures PagesOk()
    {
      forall j: nat | j < |spaces| && j != i
        ensures spaces[j].g.mine <= sys.mapped && spaces[j].g.mine !! spaces[i].g.mine
      {
        PagesKept(old(sys.mapped), sys.mapped, old(spaces[i].g.mine), spaces[i].g.mine, spaces[j].g.mine);
      }
    }

    /** A block from mspace i. */
    method CallMalloc(i: nat, size: nat) returns (mem: Addr)
      requires Ok() && i < |spaces| && size < Bits.WORD
      modifies this, Objects()
      ensures mem == 0 ==> v == old(v)
      ensures mem != 0 ==> |old(v.lives)| == |spaces| && v == Grant(old(v), i, mem, SizeOf(v, mem))
                           && SizeOf(v, mem) >= size + 16
      ensures mem != 0 && RequestSize(size) < MMAP_THRESHOLD ==>
              RequestSize(size) <= SizeOf(v, mem) < RequestSize(size) + 32
      ensures mem != 0 ==> mem !in old(v.user) && mem !in old(v.owner) && mem in v.user
      ensures mem != 0 ==> var got := SizeOf(v, mem); old(spaces[i].Owes(RequestSize(size), mem - 16, got))
      ensures mem == 0 && size < MAX_REQUEST ==> spaces[i].Refused(RequestSize(size))
      ensures MAX_SMALL_REQUEST < size < MAX_REQUEST ==>
                forall s: nat :: old(spaces[i].TreeServes(RequestSize(size), s)) ==>
                                 mem != 0 && SizeOf(v, mem) == Given(s, RequestSize(size))
      ensures Ok()
    {
      hide Partition, Mspaces.Live, Mspaces.Mspace.Local, ThreadCaches.Inv, Mspaces.Mspace.Owes,
        Mspaces.Mspace.Exhausted, Mspaces.Mspace.TreeServes, Given, RequestSize, Wraps;
      assert SpaceOk(i);
      mem := spaces[i].Malloc(size);
      OthersKept(i);
      if mem != 0 {
        ghost var s := Live(spaces[i].g)[mem - 16];
        if mem - 16 in spaces[i].g.held {
          LiveAt(spaces[i].g, mem - 16);
        }
        NotElsewhere(i, mem - 16);
        GrantKeeps(v, i, mem, s);
        v := Grant(v, i, mem, s);
        owner := owner[mem := i];
      }
      forall j: nat | j < |spaces|
        ensures SpaceOk(j)
      {
        assert old(SpaceOk(j));
      }
      forall k: nat | k < |caches|
        ensures CacheOk(k)
      {
        assert old(CacheOk(k));
      }
    }

    /** The block comes from mspace i, which owed it to a request of size bytes. */
    twostate predicate FromSpace(i: nat, size: nat, ret: Addr)
      requires i < |spaces|
      reads this
    {
      i < |old(v.lives)| && v == Grant(old(v), i, ret, SizeOf(v, ret))
        && var got := SizeOf(v, ret); old(spaces[i].Owes(RequestSize(size), ret - 16, got))
    }

    /** nedpmalloc: from the thread's cache if there is one and it has a block, else from mspace i. */
    method Nedpmalloc(k: int, i: nat, request: nat) returns (ret: Addr)
      requires Valid() && k < |caches| && i < |spaces| && request < Bits.WORD
      modifies this, Objects()
      ensures ret == 0 ==> v.user == old(v.user)
      ensures ret != 0 ==> ret !in old(v.user) && v.user == old(v.user) + {ret} && HoldsAtLeast(v, ret, request)
      ensures ret != 0 && k >= 0 && request <= 4096 && old(Missed(k, request)) ==> Suits(SizeOf(v, ret), request)
      ensures k >= 0 && 4096 < request <= THREADCACHEMAX && old(Missed(k, request)) ==>
                forall s: nat :: old(spaces[i].TreeServes(LARGEST, s)) ==> ret != 0
                                                                           && SizeOf(v, ret) == Given(s, LARGEST)
      ensures SameSizes(old(v), v, old(v.user))
      ensures !old(Passes(k, request)) ==> ret != 0 && old(Serves(k, request, ret)) && FromCacheOnly(old(v), v, k, ret)
      ensures ret != 0 && old(Passes(k, request)) ==> FromSpace(i, Asked(k, request), ret)
      ensures ret == 0 && Asked(k, request) < MAX_REQUEST ==> spaces[i].Refused(RequestSize(Asked(k, request)))
      ensures Valid()
    {
      hide Partition, Mspaces.Live, Mspaces.Mspace.Local, ThreadCaches.Inv, HoldsAtLeast, Suits, RequestSize, Missed,
        SizeOf, BinSize, FirstBin, Serves, Mspaces.Mspace.Owes, Mspaces.Mspace.Exhausted;
      MissedRounded(k, request);
      var size := if request < BLOCK then BLOCK else request;
      ret := 0;
      if k >= 0 && size <= THREADCACHEMAX {
        ret, size := FromCache(k, size);
        if 4096 < request {
          LargestRequest(request);
        }
        if ret != 0 {
          LessToHold(v, ret, size, request);
          return;
        }
      }
      assert forall s: nat :: old(spaces[i].TreeServes(LARGEST, s)) ==> spaces[i].TreeServes(LARGEST, s);
      ret := CallMalloc(i, size);
      if ret != 0 {
        GrantHolds(old(v), v, i, ret, request, SizeOf(v, ret));
        GrantSizes(old(v), i, ret, SizeOf(v, ret));
        if k >= 0 && request <= 4096 {
          MissSuits(request, size, SizeOf(v, ret));
        }
      }
    }

    /** A block from cache k, and the rounded request. */
    method FromCache(k: nat, request: nat) returns (ret: Addr, size: nat)
      requires Valid() && k < |caches| && BLOCK <= request <= THREADCACHEMAX
      modifies this, caches[k]
      ensures request <= size <= THREADCACHEMAX && size == BinSize(FirstBin(request))
      ensures old(Missed(k, request)) <==> ret == 0
      ensures ret == 0 ==> v == old(v)
      ensures ret != 0 ==> old(Serves(k, request, ret)) && FromCacheOnly(old(v), v, k, ret)
      ensures ret != 0 ==> ret !in old(v.user) && v.user == old(v.user) + {ret} && HoldsAtLeast(v, ret, size)
      ensures SameSizes(old(v), v, old(v.user))
      ensures Valid()
    {
      hide Partition, Mspaces.Live, Mspaces.Mspace.Local, ThreadCaches.Inv, BinSize, FirstBin;
      assert CacheOk(k);
      ret, size := caches[k].ThreadcacheMalloc(request);
      if ret != 0 {
        TakeCachedKeeps(v, k, ret);
        CachedHolds(v, k, ret);
        v := TakeCached(v, k, ret);
      }
      forall j: nat | j < |spaces|
        ensures SpaceOk(j)
      {
        assert old(SpaceOk(j));
      }
      forall l: nat | l < |caches|
        ensures CacheOk(l)
      {
        assert old(CacheOk(l));
      }
    }

    /** The blocks that left a cache go back to their mspaces. */
    method FreeAll(out: seq<Addr>)
      requires Ok() && v.transit == ThreadCaches.Blocks(out) && ThreadCaches.Apart(out)
      modifies this, Objects()
      ensures v.user == old(v.user) && v.cached == old(v.cached)
      ensures forall l: nat :: l < |caches| ==> caches[l].c == old(caches[l].c)
      ensures SameSizes(old(v), v, old(v.user))
      ensures Valid()
    {
      hide Partition, Mspaces.Live, Mspaces.Mspace.Local, ThreadCaches.Inv, SizeOf;
      var n := 0;
      while n < |out|
        invariant n <= |out| && Ok() && v.transit == ThreadCaches.Blocks(out[n..])
        invariant v.user == old(v.user) && v.cached == old(v.cached)
        invariant forall l: nat :: l < |caches| ==> caches[l].c == old(caches[l].c)
        invariant SameSizes(old(v), v, old(v.user))
      {
        NextOut(out, n);
        UserNotInTransit(v, out[n]);
        ReleaseSizes(v, out[n]);
        CallFree(out[n]);
        n := n + 1;
      }
    }

    /** nedpfree: into the thread's cache if there is one and the size suits, else to the mspace. */
    method Nedpfree(k: int, mem: Addr)
      requires Valid() && k < |caches| && (mem == 0 || mem in v.user)
      modifies this, Objects()
      ensures v.user == if mem == 0 then old(v.user) else old(v.user) - {mem}
      ensures mem != 0 ==>
                var s := SizeOf(old(v), mem);
                if k >= 0 && Cacheable(s) then Heads(k, SizeToBin(s - CHUNK_OVERHEAD), mem) && mem in v.owner
                else v.cached == old(v.cached) && mem !in v.owner
      ensures k >= 0 ==> k < |old(v.cached)| && |v.cached| == |old(v.cached)|
                         && v.cached == old(v.cached)[k := v.cached[k]]
      ensures mem != 0 && k >= 0 && Cacheable(SizeOf(old(v), mem)) ==>
                var size := BinSize(SizeToBin(SizeOf(old(v), mem) - CHUNK_OVERHEAD));
                old(caches[k].c.freeInCache) + size < THREADCACHEMAXFREESPACE ==>
                  v.cached[k] == old(v.cached)[k][mem := size]
      ensures SameSizes(old(v), v, v.user)
      ensures Valid()
    {
      hide Partition, Mspaces.Live, Mspaces.Mspace.Local, ThreadCaches.Inv, SizeToBin, BinSize;
      if mem == 0 {
        return;
      }
      var memsize := Nedblksize(mem);
      if k >= 0 && BLOCK <= memsize <= THREADCACHEMAX + CHUNK_OVERHEAD {
        var out := IntoCache(k, mem, memsize);
        FreeAll(out);
        CachedIsOwned(v, k, mem);
      } else {
        GiveBack(mem);
      }
    }

    /** A block that does not suit the cache goes back to its mspace. */
    method GiveBack(mem: Addr)
      requires Valid() && mem in v.user
      modifies this, Objects()
      ensures v.user == old(v.user) - {mem} && v.cached == old(v.cached) && mem !in v.owner
      ensures SameSizes(old(v), v, v.user)
      ensures Valid()
    {
      hide Partition, Mspaces.Live, Mspaces.Mspace.Local, ThreadCaches.Inv;
      UserLives(v, mem);
      ReleaseSizes(v, mem);
      GiveUpKeeps(v, mem);
      v := v.(user := v.user - {mem}, transit := {mem});
      assert {} + {mem} == {mem};
      Untouched();
      CallFree(mem);
      assert {mem} - {mem} == {};
    }

    /** nedblksize: the chunk size less the overhead. */
    method Nedblksize(mem: Addr) returns (size: int)
      requires Ok() && mem in v.user
      ensures mem in v.owner && v.owner[mem] < |v.lives| && mem - 16 in v.lives[v.owner[mem]] && size == Usable(v, mem)
              && size >= 0 && mem > 16
    {
      hide Partition, Mspaces.Live, Mspaces.Mspace.Local, ThreadCaches.Inv;
      UserLives(v, mem);
      var s := spaces[owner[mem]];
      assert SpaceOk(owner[mem]);
      HeadOfLive(s, mem - 16);
      size := s.m.w.head[mem - 16].size - CHUNK_OVERHEAD;
    }

    /** threadcache_free on cache k; the blocks it evicts are in transit. */
    method IntoCache(k: nat, mem: Addr, memsize: nat) returns (out: seq<Addr>)
      requires Valid() && k < |caches| && mem in v.user && BLOCK <= memsize <= THREADCACHEMAX + CHUNK_OVERHEAD
               && mem > 0
      requires mem in v.owner && v.owner[mem] < |v.lives| && mem - 16 in v.lives[v.owner[mem]]
               && memsize == Usable(v, mem)
      modifies this, Objects()
      ensures v.user == old(v.user) - {mem} && v.transit == ThreadCaches.Blocks(out) && ThreadCaches.Apart(out)
      ensures Heads(k, SizeToBin(memsize), mem)
      ensures k < |old(v.cached)| && v.cached == old(v.cached)[k := v.cached[k]]
      ensures old(caches[k].c.freeInCache) + BinSize(SizeToBin(memsize)) < THREADCACHEMAXFREESPACE ==>
                v.cached[k] == old(v.cached)[k][mem := BinSize(SizeToBin(memsize))]
      ensures v.lives == old(v.lives) && v.owner == old(v.owner)
      ensures Ok()
    {
      hide Partition, Mspaces.Live, Mspaces.Mspace.Local, ThreadCaches.Inv, BinSize, SizeToBin;
      assert CacheOk(k);
      UserNotCached(v, k, mem);
      ghost var passes;
      out, passes := caches[k].ThreadcacheFree(mem, memsize);
      ghost var s := BinSize(SizeToBin(memsize));
      PutCachedKeeps(v, k, mem, s, ThreadCaches.Blocks(out));
      v := PutCached(v, k, mem, s, ThreadCaches.Blocks(out));
      forall j: nat | j < |spaces|
        ensures SpaceOk(j)
      {
        assert old(SpaceOk(j));
      }
      forall l: nat | l < |caches|
        ensures CacheOk(l)
      {
        assert old(CacheOk(l));
      }
    }

    /** Only the view has changed, and not what it says of mspaces and caches. */
    twostate lemma Untouched()
      requires old(Ok()) && v.lives == old(v.lives) && v.cached == old(v.cached) && owner == old(owner)
               && v.owner == owner && Partition(v)
      requires unchanged(Objects())
      ensures Ok()
    {
      hide Partition, Mspaces.Live, Mspaces.Mspace.Local, ThreadCaches.Inv;
      forall j: nat | j < |spaces|
        ensures SpaceOk(j)
      {
        assert old(SpaceOk(j));
      }
      forall l: nat | l < |caches|
        ensures CacheOk(l)
      {
        assert old(CacheOk(l));
      }
    }

    /** nedtrimthreadcache without disabling: the cache is emptied. */
    method Nedtrimthreadcache(k: nat)
      requires Valid() && k < |caches|
      modifies this, Objects()
      ensures v.user == old(v.user) && k < |old(v.cached)| && v.cached == old(v.cached)[k := map[]]
      ensures SameSizes(old(v), v, v.user)
      ensures Valid()
    {
      hide Partition, Mspaces.Live, Mspaces.Mspace.Local, ThreadCaches.Inv;
      var out := Drain(k);
      FreeAll(out);
    }

    method Drain(k: nat) returns (out: seq<Addr>)
      requires Valid() && k < |caches|
      modifies this, Objects()
      ensures v.user == old(v.user) && v.transit == ThreadCaches.Blocks(out) && ThreadCaches.Apart(out)
              && k < |old(v.cached)| && v.cached == old(v.cached)[k := map[]]
      ensures v.lives == old(v.lives) && v.owner == old(v.owner)
      ensures Ok()
    {
      hide Partition, Mspaces.Live, Mspaces.Mspace.Local, ThreadCaches.Inv;
      assert CacheOk(k);
      out := caches[k].Trim();
      DropCachedKeeps(v, k, ThreadCaches.Blocks(out));
      v := DropCached(v, k, ThreadCaches.Blocks(out));
      forall j: nat | j < |spaces|
        ensures SpaceOk(j)
      {
        assert old(SpaceOk(j));
      }
      forall l: nat | l < |caches|
        ensures CacheOk(l)
      {
        assert old(CacheOk(l));
      }
    }

    /** A chunk of mspace i lies in its pages, so it is live in no other mspace. */
    lemma NotElsewhere(i: nat, p: Addr)
      requires i < |spaces| && PagesOk() && spaces[i].Resting() && p in Live(spaces[i].g)
      requires |v.lives| == |spaces| && forall j: nat :: j < |spaces| && j != i ==> SpaceOk(j)
      ensures p > 0 && forall j: nat :: j < |spaces| && j != i ==> p !in v.lives[j]
    {
      hide Mspaces.Live, Mspaces.Mspace.Local;
      PageOfLive(spaces[i], p);
      forall j: nat | j < |spaces| && j != i
        ensures p !in v.lives[j]
      {
        assert SpaceOk(j);
        if p in v.lives[j] {
          PageOfLive(spaces[j], p);
        }
      }
    }
  }

  // ----- runs -----

  /** A call by some thread: k is its cache, or -1 if it has none, and i the mspace it gets. */
  datatype Call =
    | MallocCall(k: int, i: nat, request: nat)
    | FreeCall(k: int, n: nat)
    | TrimCall(cache: nat)

  predicate CallOk(p: Nedpool, c: Call) {
    match c
    case MallocCall(k, i, request) => k < |p.caches| && i < |p.spaces| && request < Bits.WORD
    case FreeCall(k, n) => k < |p.caches|
    case TrimCall(k) => k < |p.caches|
  }

  /** The blocks of held are all different, are not among kept, and users hold these and the kept ones. */
  ghost predicate Holding(user: set<Addr>, held: seq<Addr>, kept: set<Addr>) {
    MspaceRuns.NoDuplicates(held) && (set x | x in held) !! kept && user == (set x | x in held) + kept
  }

  lemma HoldOneMore(user: set<Addr>, held: seq<Addr>, kept: set<Addr>, mem: Addr)
    requires Holding(user, held, kept) && mem !in user
    ensures Holding(user + {mem}, held + [mem], kept)
  {
    assert (set x | x in held + [mem]) == (set x | x in held) + {mem};
  }

  lemma HoldOneLess(user: set<Addr>, held: seq<Addr>, kept: set<Addr>, n: nat)
    requires Holding(user, held, kept) && n < |held|
    ensures Holding(user - {held[n]}, held[..n] + held[n + 1..], kept) && held[n] in user && held[n] !in kept
  {
    MspaceRuns.Without(held, n);
    assert held[n] in (set x | x in held);
  }

  /** One call; the users of the kept blocks make none. */
  method Step(p: Nedpool, c: Call, held0: seq<Addr>, ghost kept: set<Addr>) returns (held: seq<Addr>)
    requires p.Valid() && Holding(p.v.user, held0, kept) && CallOk(p, c)
    modifies p, p.Objects()
    ensures p.Valid() && Holding(p.v.user, held, kept) && SameSizes(old(p.v), p.v, kept)
  {
    hide Partition, Mspaces.Live, Mspaces.Mspace.Local, ThreadCaches.Inv, HoldsAtLeast, Suits, SizeOf, Nedpool.Missed,
      Nedpool.Heads,
      MspaceRuns.NoDuplicates;
    held := held0;
    match c
    case MallocCall(k, i, request) =>
      var ret := p.Nedpmalloc(k, i, request);
      if ret != 0 {
        HoldOneMore(old(p.v.user), held0, kept, ret);
        held := held0 + [ret];
      }
    case FreeCall(k, n) =>
      if n < |held0| && held0[n] != 0 {
        HoldOneLess(p.v.user, held0, kept, n);
        p.Nedpfree(k, held0[n]);
        held := held0[..n] + held0[n + 1..];
      }
    case TrimCall(k) =>
      p.Nedtrimthreadcache(k);
  }

  method Steps(p: Nedpool, calls: seq<Call>, held0: seq<Addr>, ghost kept: set<Addr>) returns (held: seq<Addr>)
    requires p.Valid() && Holding(p.v.user, held0, kept) && forall c :: c in calls ==> CallOk(p, c)
    modifies p, p.Objects()
    ensures p.Valid() && Holding(p.v.user, held, kept) && SameSizes(old(p.v), p.v, kept)
  {
    hide SizeOf, Holding;
    held := held0;
    var i := 0;
    while i < |calls|
      invariant i <= |calls| && p.Valid() && Holding(p.v.user, held, kept) && SameSizes(old(p.v), p.v, kept)
    {
      held := Step(p, calls[i], held, kept);
      i := i + 1;
    }
  }

  lemma HeadServes(p: Nedpool, k: nat, request: nat, mem: Addr, x: Addr)
    requires p.Valid() && k < |p.caches| && Rounded(request) <= THREADCACHEMAX
    requires p.Heads(k, FirstBin(Rounded(request)), mem) && mem != 0
    ensures !p.Passes(k, request) && (p.Serves(k, request, x) ==> x == mem)
  {
    hide Partition, Mspaces.Live, Mspaces.Mspace.Local, ThreadCaches.Inv, BinSize, FirstBin;
    assert p.CacheOk(k);
    var size := Rounded(request);
    FirstBinIsLeast(size);
    ThreadCaches.HeadWord(p.caches[k].c, p.caches[k].g, FirstBin(size));
    assert ThreadCaches.Probed(size, FirstBin(size));
  }

  /** The newest block of the bin that a request is rounded to is the one the request gets: a block that nedpfree has
      just put there comes back at once. */
  method HeadIsReused(p: Nedpool, k: nat, i: nat, request: nat, mem: Addr) returns (ret: Addr)
    requires p.Valid() && k < |p.caches| && i < |p.spaces| && Rounded(request) <= THREADCACHEMAX && mem != 0
    requires p.Heads(k, FirstBin(Rounded(request)), mem)
    modifies p, p.Objects()
    ensures ret == mem && p.Valid() && p.v.user == old(p.v.user) + {mem} && p.v.lives == old(p.v.lives)
  {
    hide Partition, Mspaces.Live, Mspaces.Mspace.Local, ThreadCaches.Inv, HoldsAtLeast, SizeOf, FirstBin, Nedpool.Heads,
      Nedpool.Passes, Nedpool.Serves;
    HeadServes(p, k, request, mem, mem);
    forall x: Addr
      ensures p.Serves(k, request, x) ==> x == mem
    {
      HeadServes(p, k, request, mem, x);
    }
    ret := p.Nedpmalloc(k, i, request);
  }

  /** A block served when the cache missed returns to the head of the bin that its request looks at first, in the cache
      of whichever thread frees it, whatever calls other users make in between. */
  method MissReturns(p: Nedpool, k: nat, i: nat, request: nat, calls: seq<Call>, held0: seq<Addr>, k': nat)
    returns (ret: Addr, held: seq<Addr>)
    requires p.Valid() && k < |p.caches| && k' < |p.caches| && i < |p.spaces| && request <= 4096 && p.Missed(k, request)
    requires Holding(p.v.user, held0, {}) && forall c :: c in calls ==> CallOk(p, c)
    modifies p, p.Objects()
    ensures p.Valid() && Holding(p.v.user, held, {})
    ensures ret != 0 ==> p.Heads(k', FirstBin(Rounded(request)), ret)
  {
    hide Partition, Mspaces.Live, Mspaces.Mspace.Local, ThreadCaches.Inv, HoldsAtLeast, SizeOf, Nedpool.Missed,
      Nedpool.Heads,
      MspaceRuns.NoDuplicates, FirstBin, SizeToBin, BinSize, Nedpool.Serves, Nedpool.FromSpace, Nedpool.Passes, Asked,
      FromCacheOnly, RequestSize, Given;
    ret := p.Nedpmalloc(k, i, request);
    held := held0;
    if ret != 0 {
      ghost var s := SizeOf(p.v, ret);
      held := Steps(p, calls, held0, {ret});
      assert SizeOf(p.v, ret) == s;
      p.Nedpfree(k', ret);
      assert p.v.user == (set x | x in held) + {};
    }
  }

  // ----- blocks do not overlap -----

  lemma PagesOfBytes(h: Heap, g: Shape, b: Ledger, mine: set<int>, p: Addr, x: Addr)
    requires Sound(h) && h.held == g.held && h.direct == g.direct && Accounted(h.segs, h.direct, b, mine)
             && p in Live(g)
    requires p <= x < p + Live(g)[p]
    ensures x / PAGE in mine
  {
    hide Sound, SegsHeld, DirectsHeld;
    if p in g.held {
      HeapGrowth.HeldFacts(h, p);
      MspaceRuns.HeldInside(h, p);
      var i: nat :| i < |h.segs| && h.segs[i].base <= p && p + h.t.ck[p] <= h.segs[i].base + h.segs[i].size;
      SegOwned(h.segs, b.segs, i);
      SegAligned(h.segs, b.segs, i);
      HeldSize(h, p);
      PageInside(h.segs[i].base, h.segs[i].size, x);
    } else {
      DirectRange(h);
      MspaceRuns.DirectIsHeld(h.direct, b.direct, p);
      PageInside(h.direct[p].base, h.direct[p].size, x);
    }
  }

  lemma ChunksApart(p: Nedpool, i: nat, j: nat, x: Addr, y: Addr)
    requires p.Valid() && i < |p.spaces| && j < |p.spaces|
    requires x in Live(p.spaces[i].g) && y in Live(p.spaces[j].g) && (i != j || x != y)
    ensures x + Live(p.spaces[i].g)[x] <= y || y + Live(p.spaces[j].g)[y] <= x
  {
    hide Partition, ThreadCaches.Inv, SmallBins.Inv, TreeBins.Inv, Sound, Cached, Accounted, Live;
    var s, t := p.spaces[i], p.spaces[j];
    assert p.SpaceOk(i) && p.SpaceOk(j);
    HeadOfLive(s, x);
    HeadOfLive(t, y);
    if i == j {
      MspaceRuns.LiveApart(s.TheHeap(), s.g, s.g.ledger, s.g.mine, x, y);
    } else if x <= y < x + Live(s.g)[x] {
      PagesOfBytes(s.TheHeap(), s.g, s.g.ledger, s.g.mine, x, y);
      PagesOfBytes(t.TheHeap(), t.g, t.g.ledger, t.g.mine, y, y);
    } else if y <= x < y + Live(t.g)[y] {
      PagesOfBytes(t.TheHeap(), t.g, t.g.ledger, t.g.mine, y, x);
      PagesOfBytes(s.TheHeap(), s.g, s.g.ledger, s.g.mine, x, x);
    }
  }

  /** The chunks of all blocks that users of the pool hold have no byte in common, whichever mspaces they came from. */
  lemma UsersApart(p: Nedpool, x: Addr, y: Addr)
    requires p.Valid() && x in p.v.user && y in p.v.user && x != y
    ensures x + SizeOf(p.v, x) <= y || y + SizeOf(p.v, y) <= x
  {
    hide Partition, ThreadCaches.Inv, Mspaces.Mspace.Local, Live;
    UserLives(p.v, x);
    UserLives(p.v, y);
    assert p.SpaceOk(p.v.owner[x]) && p.SpaceOk(p.v.owner[y]);
    ChunksApart(p, p.v.owner[x], p.v.owner[y], x - 16, y - 16);
  }

  /** In every run of calls by any threads, the blocks handed out and not freed yet are all different and do not
      overlap: caches and mspaces together never hand out memory that a caller still holds. */
  method Run(p: Nedpool, calls: seq<Call>) returns (held: seq<Addr>)
    requires p.Valid() && p.v.user == {} && forall c :: c in calls ==> CallOk(p, c)
    modifies p, p.Objects()
    ensures p.Valid() && MspaceRuns.NoDuplicates(held) && p.v.user == (set x | x in held)
    ensures forall x: Addr, y: Addr :: x in held && y in held && x != y ==> x + SizeOf(p.v, x) <= y
                                                                            || y + SizeOf(p.v, y) <= x
  {
    hide SizeOf, MspaceRuns.NoDuplicates, Nedpool.Valid;
    assert MspaceRuns.NoDuplicates([]) by { MspaceRuns.NoneHeld(); }
    held := Steps(p, calls, [], {});
    forall x: Addr, y: Addr | x in held && y in held && x != y
      ensures x + SizeOf(p.v, x) <= y || y + SizeOf(p.v, y) <= x
    {
      assert x in p.v.user && y in p.v.user;
      UsersApart(p, x, y);
    }
  }
}
