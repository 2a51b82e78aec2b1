/** Blocks of the largest bin: when the thread cache takes one back, and a pool in which it does not. */
module LargestBin {
  import opened Sizes
  import opened CacheSizes
  import opened System
  import opened Mspaces
  import opened MspaceRuns
  import opened Nedpools
  import Heaps
  import SmallBins
  import ThreadCaches
  import TreeBins

  /** A block of more than 4096 bytes that was served on a cache miss, from a tree chunk of s bytes, is taken back
      exactly if the caller has got at most 16 bytes more than the padded size. */
  method LargestReturns(p: Nedpool, k: nat, i: nat, request: nat, k': nat, ghost s: nat) returns (ret: Addr)
    requires p.Valid() && k < |p.caches| && k' < |p.caches| && i < |p.spaces| && 4096 < request <= THREADCACHEMAX
    requires p.Missed(k, request) && p.spaces[i].TreeServes(LARGEST, s)
    modifies p, p.Objects()
    ensures p.Valid() && ret != 0
    ensures if s <= LARGEST + 16 || s >= LARGEST + 32 then p.Heads(k', THREADCACHEMAXBINS, ret) else ret !in p.v.owner
  {
    hide Partition, Mspaces.Live, Mspaces.Mspace.Local, ThreadCaches.Inv, HoldsAtLeast, SizeOf, Nedpool.Missed,
      Nedpool.Heads, SizeToBin;
    ServedSize(p.spaces[i], s);
    ret := p.Nedpmalloc(k, i, request);
    LargestSize(s);
    p.Nedpfree(k', ret);
  }

  lemma ServedSize(m: Mspace, s: nat)
    requires m.TreeServes(LARGEST, s)
    ensures s >= LARGEST
  {
  }

  lemma LargestSize(s: nat)
    requires s >= LARGEST
    ensures var c := Given(s, LARGEST); Cacheable(c) <==> s <= LARGEST + 16 || s >= LARGEST + 32
    ensures var c := Given(s, LARGEST); Cacheable(c) ==> SizeToBin(c - CHUNK_OVERHEAD) == THREADCACHEMAXBINS
  {
    hide SizeToBin;
    var c := Given(s, LARGEST);
    if Cacheable(c) {
      BinSizes();
      BinBounds(c - CHUNK_OVERHEAD, 9);
    }
  }

  /** Two chunks in a row from top: the first one has chunks in use on both sides. */
  method TwoFromTop(s: Mspace, nb: nat) returns (p: Addr, q: Addr)
    requires s.Valid() && s.g.held == map[] && nb % 8 == 0 && nb >= MIN_CHUNK_SIZE && nb + 32 < s.m.topsize
    modifies s
    ensures s.Valid() && s.g.held == map[p := nb][q := 32] && p != q && s.g.direct == old(s.g.direct) && s.Enclosed(p)
    ensures s.m.dvsize == old(s.m.dvsize) && s.m.releaseChecks == old(s.m.releaseChecks)
  {
    hide Mspaces.Mspace.Local;
    p := s.MallocFromTop(nb);
    q := s.MallocFromTop(32);
  }

  /** A valid mspace, made by two allocations and one free, whose only tree chunk is 24 bytes larger than that padded
      size. */
  method SpareTree(sys: System) returns (s: Mspace, other: Addr)
    requires sys.Offers(GRANULARITY)
    modifies sys
    ensures s.Valid() && fresh(s) && fresh(s.small) && fresh(s.trees) && s.sys == sys
    ensures other > 0 && Live(s.g).Keys == {other} && s.TreeServes(LARGEST, LARGEST + 24)
  {
    hide SmallBins.Inv, TreeBins.Inv, Heaps.Sound, Charged, Cached, System.Offers, Live;
    var made := CreateMspace(sys, 0, 0, true);
    s := made;
    NoneLive(s.g);
    var p;
    p, other := TwoFromTop(s, LARGEST + 24);
    LivePair(s.g, p, other);
    LivePositive(s.TheHeap(), s.g, p);
    LivePositive(s.TheHeap(), s.g, other);
    s.Free(p + 16);
    assert TreeBins.BestFit(s.trees.n.size, LARGEST, p);
  }

  lemma NoneLive(g: Shape)
    requires Live(g) == map[]
    ensures g.held == map[] && g.direct == map[]
  {
    assert forall p: Addr :: p in g.held.Keys + g.direct.Keys ==> p in Live(g);
  }

  lemma LivePair(g: Shape, p: Addr, q: Addr)
    requires g.held.Keys == {p, q} && g.direct == map[]
    ensures Live(g).Keys == {p, q}
  {
  }

  method OfferingSystem() returns (sys: System)
    ensures fresh(sys) && sys.Offers(GRANULARITY)
  {
    sys := new System([0x10_0000]);
  }

  /** A pool and a block of 8192 bytes which its own thread gets, frees, and does not find in its cache. */
  method NotTakenBack() returns (p: Nedpool, ret: Addr)
    ensures p.Valid() && ret != 0 && ret !in p.v.owner
  {
    hide SmallBins.Inv, TreeBins.Inv, Mspaces.Mspace.Local, ThreadCaches.Inv, Partition, Live, System.Offers,
      Nedpool.Heads;
    var sys := OfferingSystem();
    var s, other := SpareTree(sys);
    var cache := new ThreadCaches.ThreadCache();
    p := new Nedpool(sys, [s], [cache], map[other + 16 := 0]);
    ret := LargestReturns(p, 0, 0, THREADCACHEMAX, 0, LARGEST + 24);
  }
}
