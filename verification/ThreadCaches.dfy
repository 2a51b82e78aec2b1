/** The thread cache of nedmalloc: power-of-two bins of freed blocks, newest first, evicted by age. */
module ThreadCaches {
  import opened Sizes
  import opened CacheSizes

  const NBINS: nat := THREADCACHEMAXBINS + 1

  /** The words of a thread cache and of the blocks in it; size and lastUsed have the cached blocks as keys. */
  datatype Cache = Cache(head: seq<Addr>, tail: seq<Addr>, next: map<Addr, Addr>, prev: map<Addr, Addr>,
                         size: map<Addr, nat>, lastUsed: map<Addr, nat>, frees: nat, freeInCache: nat)

  /** The list of a bin: the blocks at the ranks lo to hi - 1, the newest at hi - 1. */
  datatype Bin = Bin(lo: int, hi: int, at: map<int, Addr>)

  /** The lists, and for each block its bin and its rank there. */
  datatype Shadow = Shadow(bins: seq<Bin>, bin: map<Addr, nat>, rank: map<Addr, int>)

  // ----- the lists -----

  ghost predicate Ranked(b: Bin) {
    b.lo <= b.hi && forall r: int :: r in b.at <==> b.lo <= r < b.hi
  }

  /** The block of rank r in bin i has its neighbours in the list as next and prev, and the size of the bin. */
  ghost predicate EntryOk(c: Cache, g: Shadow, i: nat, r: int)
    requires i < |g.bins|
  {
    var b := g.bins[i];
    && Ranked(b) && b.lo <= r < b.hi
    && var x := b.at[r];
    && x > 0 && x in c.size && x in c.lastUsed && x in c.next && x in c.prev
    && c.size[x] == BinSize(i) && x in g.bin && g.bin[x] == i && x in g.rank && g.rank[x] == r
    && c.next[x] == (if r == b.lo then 0 else b.at[r - 1])
    && c.prev[x] == (if r == b.hi - 1 then 0 else b.at[r + 1])
    && c.lastUsed[x] <= c.frees
  }

  ghost predicate Older(c: Cache, b: Bin, r: int, s: int) {
    r in b.at && s in b.at && b.at[r] in c.lastUsed && b.at[s] in c.lastUsed
        && c.lastUsed[b.at[r]] < c.lastUsed[b.at[s]]
  }

  /** Going from the head to the tail, lastUsed strictly decreases. */
  ghost predicate Ordered(c: Cache, b: Bin) {
    forall r: int, s: int {:trigger Older(c, b, r, s)} :: b.lo <= r < s < b.hi ==> Older(c, b, r, s)
  }

  ghost predicate BinOk(c: Cache, g: Shadow, i: nat)
    requires i < |g.bins| && i < |c.head| && i < |c.tail|
  {
    var b := g.bins[i];
    && Ranked(b) && Ordered(c, b)
    && c.head[i] == (if b.lo == b.hi then 0 else b.at[b.hi - 1])
    && c.tail[i] == (if b.lo == b.hi then 0 else b.at[b.lo])
    && (forall r: int {:trigger EntryOk(c, g, i, r)} :: b.lo <= r < b.hi ==> EntryOk(c, g, i, r))
  }

  ghost predicate Binned(c: Cache, g: Shadow) {
    && |c.head| == |c.tail| == |g.bins| == NBINS
    && (forall i: nat :: i < NBINS ==> BinOk(c, g, i))
  }

  /** Every cached block is in the list of its bin, at its rank. */
  ghost predicate PlaceOk(c: Cache, g: Shadow, x: Addr) {
    && x in g.bin && x in g.rank && x in c.lastUsed && 1 <= g.bin[x] < |g.bins|
    && var b := g.bins[g.bin[x]];
       b.lo <= g.rank[x] < b.hi && g.rank[x] in b.at && b.at[g.rank[x]] == x
  }

  ghost predicate Placed(c: Cache, g: Shadow) {
    forall x: Addr {:trigger PlaceOk(c, g, x)} :: x in c.size ==> PlaceOk(c, g, x)
  }

  /** No two blocks were freed at the same time. */
  ghost predicate Distinct(c: Cache) {
    forall x: Addr, y: Addr ::
          x in c.size && y in c.size && x in c.lastUsed && y in c.lastUsed && c.lastUsed[x] == c.lastUsed[y] ==>
            x == y
  }

  // ----- the sum of the recorded sizes -----

  ghost function Total(size: map<Addr, nat>): nat
    decreases |size.Keys|
  {
    if exists x: Addr :: x in size then
      var x: Addr :| x in size;
      assert (size - {x}).Keys == size.Keys - {x};
      size[x] + Total(size - {x})
    else 0
  }

  /** The sum can start with any block. */
  lemma {:induction false} TotalSplit(size: map<Addr, nat>, x: Addr)
    requires x in size
    ensures Total(size) == size[x] + Total(size - {x})
    decreases |size.Keys|
  {
    var y: Addr :| y in size && Total(size) == size[y] + Total(size - {y});
    if y != x {
      assert (size - {y}).Keys == size.Keys - {y};
      assert (size - {x}).Keys == size.Keys - {x};
      TotalSplit(size - {y}, x);
      TotalSplit(size - {x}, y);
      assert size - {x} - {y} == size - {y} - {x};
    }
  }

  lemma TotalAdd(size: map<Addr, nat>, x: Addr, s: nat)
    requires x !in size
    ensures Total(size[x := s]) == Total(size) + s
  {
    TotalSplit(size[x := s], x);
    assert size[x := s] - {x} == size;
  }

  ghost predicate Inv(c: Cache, g: Shadow) {
    Binned(c, g) && Placed(c, g) && Distinct(c) && c.freeInCache == Total(c.size)
  }

  // ----- a block joins a list at its head -----

  function Pushed(c: Cache, x: Addr, i: nat): (c': Cache)
    requires i < |c.head| && i < |c.tail|
    ensures c'.size == c.size[x := BinSize(i)] && c'.lastUsed == c.lastUsed[x := c.frees + 1] && c'.frees == c.frees + 1
    ensures c'.freeInCache == c.freeInCache + BinSize(i)
  {
    var h := c.head[i];
    c.(head := c.head[i := x], tail := if h != 0 then c.tail else c.tail[i := x],
       next := c.next[x := h], prev := if h != 0 then c.prev[x := 0][h := x] else c.prev[x := 0],
       size := c.size[x := BinSize(i)], lastUsed := c.lastUsed[x := c.frees + 1], frees := c.frees + 1,
       freeInCache := c.freeInCache + BinSize(i))
  }

  function PushedShadow(g: Shadow, x: Addr, i: nat): Shadow
    requires i < |g.bins|
  {
    var b := g.bins[i];
    Shadow(g.bins[i := Bin(b.lo, b.hi + 1, b.at[b.hi := x])], g.bin[x := i], g.rank[x := b.hi])
  }

  lemma PushedEntry(c: Cache, g: Shadow, x: Addr, i: nat, j: nat, r: int)
    requires |c.head| == |c.tail| == |g.bins| && i < |g.bins| && j < |g.bins| && BinOk(c, g, i) && BinOk(c, g, j)
    requires x > 0 && x !in c.size && g.bins[j].lo <= r < g.bins[j].hi
    ensures EntryOk(Pushed(c, x, i), PushedShadow(g, x, i), j, r)
  {
    hide Ordered;
    assert EntryOk(c, g, j, r);
    var b := g.bins[i];
    if b.lo < b.hi {
      assert EntryOk(c, g, i, b.hi - 1);
    }
  }

  lemma PushedNew(c: Cache, g: Shadow, x: Addr, i: nat)
    requires |c.head| == |c.tail| == |g.bins| && i < |g.bins| && BinOk(c, g, i) && x > 0 && x !in c.size
    ensures EntryOk(Pushed(c, x, i), PushedShadow(g, x, i), i, g.bins[i].hi)
  {
    var b := g.bins[i];
    if b.lo < b.hi {
      assert EntryOk(c, g, i, b.hi - 1);
    }
  }

  lemma PushedOrdered(c: Cache, g: Shadow, x: Addr, i: nat, j: nat)
    requires |c.head| == |c.tail| == |g.bins| && i < |g.bins| && j < |g.bins| && BinOk(c, g, j) && x !in c.size
    ensures Ordered(Pushed(c, x, i), PushedShadow(g, x, i).bins[j])
  {
    var c', b, b' := Pushed(c, x, i), g.bins[j], PushedShadow(g, x, i).bins[j];
    forall r: int, s: int {:trigger Older(c', b', r, s)} | b'.lo <= r < s < b'.hi
      ensures Older(c', b', r, s)
    {
      assert EntryOk(c, g, j, r);
      assert s < b.hi ==> EntryOk(c, g, j, s) && Older(c, b, r, s);
    }
  }

  lemma PushedBin(c: Cache, g: Shadow, x: Addr, i: nat, j: nat)
    requires |c.head| == |c.tail| == |g.bins| && i < |g.bins| && j < |g.bins| && BinOk(c, g, i) && BinOk(c, g, j)
             && x > 0 && x !in c.size
    ensures BinOk(Pushed(c, x, i), PushedShadow(g, x, i), j)
  {
    hide EntryOk, Ordered;
    var c', g' := Pushed(c, x, i), PushedShadow(g, x, i);
    PushedOrdered(c, g, x, i, j);
    HeadNonZero(c, g, i);
    forall r: int {:trigger EntryOk(c', g', j, r)} | g'.bins[j].lo <= r < g'.bins[j].hi
      ensures EntryOk(c', g', j, r)
    {
      if r < g.bins[j].hi {
        PushedEntry(c, g, x, i, j, r);
      } else {
        PushedNew(c, g, x, i);
      }
    }
  }

  /** The head word is zero exactly for an empty list. */
  lemma HeadNonZero(c: Cache, g: Shadow, i: nat)
    requires |c.head| == |c.tail| == |g.bins| && i < |g.bins| && BinOk(c, g, i)
    ensures c.head[i] == 0 <==> g.bins[i].lo == g.bins[i].hi
    ensures c.tail[i] == 0 <==> g.bins[i].lo == g.bins[i].hi
    ensures g.bins[i].lo <= g.bins[i].hi
  {
    var b := g.bins[i];
    if b.lo < b.hi {
      assert EntryOk(c, g, i, b.hi - 1) && EntryOk(c, g, i, b.lo);
    }
  }

  lemma PushKeepsInv(c: Cache, g: Shadow, x: Addr, i: nat)
    requires Inv(c, g) && 1 <= i < NBINS && x > 0 && x !in c.size
    ensures Inv(Pushed(c, x, i), PushedShadow(g, x, i))
  {
    hide BinOk;
    var c', g' := Pushed(c, x, i), PushedShadow(g, x, i);
    forall j: nat | j < NBINS
      ensures BinOk(c', g', j)
    {
      PushedBin(c, g, x, i, j);
    }
    forall y: Addr {:trigger PlaceOk(c', g', y)} | y in c'.size
      ensures PlaceOk(c', g', y)
    {
      PushedPlace(c, g, x, i, y);
    }
    assert Distinct(c') by {
      PushedDistinct(c, g, x, i);
    }
    TotalAdd(c.size, x, BinSize(i));
  }

  lemma PushedPlace(c: Cache, g: Shadow, x: Addr, i: nat, y: Addr)
    requires |c.head| == |c.tail| == |g.bins| && 1 <= i < |g.bins| && BinOk(c, g, i) && x !in c.size
             && (y == x || (y in c.size && PlaceOk(c, g, y)))
    ensures PlaceOk(Pushed(c, x, i), PushedShadow(g, x, i), y)
  {
  }

  lemma PushedDistinct(c: Cache, g: Shadow, x: Addr, i: nat)
    requires Inv(c, g) && 1 <= i < NBINS && x !in c.size
    ensures Distinct(Pushed(c, x, i))
  {
    forall y: Addr | y in c.size
      ensures y in c.lastUsed && c.lastUsed[y] <= c.frees
    {
      LastUsedBound(c, g, y);
    }
  }

  lemma LastUsedBound(c: Cache, g: Shadow, y: Addr)
    requires Inv(c, g) && y in c.size
    ensures y in c.lastUsed && c.lastUsed[y] <= c.frees && y > 0 && PlaceOk(c, g, y) && c.size[y] == BinSize(g.bin[y])
            && g.bin[y] < NBINS
  {
    assert PlaceOk(c, g, y);
    assert BinOk(c, g, g.bin[y]);
    assert EntryOk(c, g, g.bin[y], g.rank[y]);
  }

  // ----- the newest block leaves its list -----

  function Popped(c: Cache, i: nat): (c': Cache)
    requires i < |c.head| && i < |c.tail| && c.head[i] in c.next && c.head[i] in c.size
             && c.size[c.head[i]] <= c.freeInCache
    ensures c'.size == c.size - {c.head[i]} && c'.lastUsed == c.lastUsed && c'.frees == c.frees
    ensures c'.freeInCache == c.freeInCache - c.size[c.head[i]]
  {
    var x := c.head[i];
    var n := c.next[x];
    c.(prev := if n != 0 then c.prev[n := 0] else c.prev, head := c.head[i := n], tail := if n == 0 then
                                                  c.tail[i := 0] else c.tail,
       size := c.size - {x}, freeInCache := c.freeInCache - c.size[x])
  }

  function PoppedShadow(g: Shadow, x: Addr, i: nat): Shadow
    requires i < |g.bins|
  {
    var b := g.bins[i];
    Shadow(g.bins[i := Bin(b.lo, b.hi - 1, b.at - {b.hi - 1})], g.bin - {x}, g.rank - {x})
  }

  ghost predicate CanPop(c: Cache, g: Shadow, i: nat) {
    && |c.head| == |c.tail| == |g.bins| && i < |g.bins| && BinOk(c, g, i) && g.bins[i].lo < g.bins[i].hi
    && c.head[i] in c.next && c.head[i] in c.size && c.size[c.head[i]] <= c.freeInCache
  }

  lemma PoppedEntry(c: Cache, g: Shadow, i: nat, j: nat, r: int)
    requires CanPop(c, g, i) && j < |g.bins| && BinOk(c, g, j)
    requires var b' := PoppedShadow(g, c.head[i], i).bins[j]; b'.lo <= r < b'.hi
    ensures EntryOk(Popped(c, i), PoppedShadow(g, c.head[i], i), j, r)
  {
    hide Ordered;
    var b := g.bins[i];
    assert EntryOk(c, g, j, r) && EntryOk(c, g, i, b.hi - 1);
    if b.lo < b.hi - 1 {
      assert EntryOk(c, g, i, b.hi - 2);
    }
  }

  lemma PoppedOrdered(c: Cache, g: Shadow, i: nat, j: nat)
    requires CanPop(c, g, i) && j < |g.bins| && BinOk(c, g, j)
    ensures Ordered(Popped(c, i), PoppedShadow(g, c.head[i], i).bins[j])
  {
    var c', b, b' := Popped(c, i), g.bins[j], PoppedShadow(g, c.head[i], i).bins[j];
    forall r: int, s: int {:trigger Older(c', b', r, s)} | b'.lo <= r < s < b'.hi
      ensures Older(c', b', r, s)
    {
      assert Older(c, b, r, s);
    }
  }

  lemma PoppedBin(c: Cache, g: Shadow, i: nat, j: nat)
    requires CanPop(c, g, i) && j < |g.bins| && BinOk(c, g, j)
    ensures BinOk(Popped(c, i), PoppedShadow(g, c.head[i], i), j)
  {
    hide EntryOk, Ordered;
    var c', g' := Popped(c, i), PoppedShadow(g, c.head[i], i);
    PoppedOrdered(c, g, i, j);
    HeadNext(c, g, i);
    forall r: int {:trigger EntryOk(c', g', j, r)} | g'.bins[j].lo <= r < g'.bins[j].hi
      ensures EntryOk(c', g', j, r)
    {
      PoppedEntry(c, g, i, j, r);
    }
  }

  lemma HeadNext(c: Cache, g: Shadow, i: nat)
    requires |c.head| == |c.tail| == |g.bins| && i < |g.bins| && BinOk(c, g, i) && g.bins[i].lo < g.bins[i].hi
    ensures var x, b := c.head[i], g.bins[i];
            && x > 0 && x in c.next && x in c.size && x == b.at[b.hi - 1] && c.size[x] == BinSize(i) && x in g.bin
               && g.bin[x] == i
            && x in g.rank && g.rank[x] == b.hi - 1
            && if b.hi - 1 == b.lo then c.next[x] == 0 else b.hi - 2 in b.at && c.next[x] == b.at[b.hi - 2]
                                                            && c.next[x] > 0
  {
    hide Ordered;
    var b := g.bins[i];
    assert EntryOk(c, g, i, b.hi - 1);
    if b.lo < b.hi - 1 {
      assert EntryOk(c, g, i, b.hi - 2);
    }
  }

  lemma PoppedPlace(c: Cache, g: Shadow, i: nat, y: Addr)
    requires CanPop(c, g, i) && y in c.size && y != c.head[i] && PlaceOk(c, g, y)
    ensures PlaceOk(Popped(c, i), PoppedShadow(g, c.head[i], i), y)
  {
    hide Ordered;
    HeadNext(c, g, i);
  }

  lemma PopKeepsInv(c: Cache, g: Shadow, i: nat)
    requires Inv(c, g) && i < NBINS && c.head[i] != 0
    ensures CanPop(c, g, i) && Inv(Popped(c, i), PoppedShadow(g, c.head[i], i)) && c.size[c.head[i]] == BinSize(i)
  {
    hide BinOk;
    assert BinOk(c, g, i);
    HeadNonZero(c, g, i);
    HeadNext(c, g, i);
    TotalSplit(c.size, c.head[i]);
    var c', g' := Popped(c, i), PoppedShadow(g, c.head[i], i);
    forall j: nat | j < NBINS
      ensures BinOk(c', g', j)
    {
      PoppedBin(c, g, i, j);
    }
    forall y: Addr {:trigger PlaceOk(c', g', y)} | y in c'.size
      ensures PlaceOk(c', g', y)
    {
      assert PlaceOk(c, g, y);
      PoppedPlace(c, g, i, y);
    }
  }

  // ----- the oldest block leaves its list -----

  function Evicted(c: Cache, i: nat): (c': Cache)
    requires i < |c.head| && i < |c.tail| && c.tail[i] in c.prev && c.tail[i] in c.size
             && c.size[c.tail[i]] <= c.freeInCache
    ensures c'.size == c.size - {c.tail[i]} && c'.lastUsed == c.lastUsed && c'.frees == c.frees
    ensures c'.freeInCache == c.freeInCache - c.size[c.tail[i]]
  {
    var x := c.tail[i];
    var p := c.prev[x];
    c.(tail := c.tail[i := p], next := if p != 0 then c.next[p := 0] else c.next, head := if p != 0 then
                                                                          c.head else c.head[i := 0],
       size := c.size - {x}, freeInCache := c.freeInCache - c.size[x])
  }

  function EvictedShadow(g: Shadow, x: Addr, i: nat): Shadow
    requires i < |g.bins|
  {
    var b := g.bins[i];
    Shadow(g.bins[i := Bin(b.lo + 1, b.hi, b.at - {b.lo})], g.bin - {x}, g.rank - {x})
  }

  ghost predicate CanEvict(c: Cache, g: Shadow, i: nat) {
    && |c.head| == |c.tail| == |g.bins| && i < |g.bins| && BinOk(c, g, i) && g.bins[i].lo < g.bins[i].hi
    && c.tail[i] in c.prev && c.tail[i] in c.size && c.size[c.tail[i]] <= c.freeInCache
  }

  lemma EvictedEntry(c: Cache, g: Shadow, i: nat, j: nat, r: int)
    requires CanEvict(c, g, i) && j < |g.bins| && BinOk(c, g, j)
    requires var b' := EvictedShadow(g, c.tail[i], i).bins[j]; b'.lo <= r < b'.hi
    ensures EntryOk(Evicted(c, i), EvictedShadow(g, c.tail[i], i), j, r)
  {
    hide Ordered;
    var b := g.bins[i];
    assert EntryOk(c, g, j, r) && EntryOk(c, g, i, b.lo);
    if b.lo + 1 < b.hi {
      assert EntryOk(c, g, i, b.lo + 1);
    }
  }

  lemma EvictedOrdered(c: Cache, g: Shadow, i: nat, j: nat)
    requires CanEvict(c, g, i) && j < |g.bins| && BinOk(c, g, j)
    ensures Ordered(Evicted(c, i), EvictedShadow(g, c.tail[i], i).bins[j])
  {
    var c', b, b' := Evicted(c, i), g.bins[j], EvictedShadow(g, c.tail[i], i).bins[j];
    forall r: int, s: int {:trigger Older(c', b', r, s)} | b'.lo <= r < s < b'.hi
      ensures Older(c', b', r, s)
    {
      assert Older(c, b, r, s);
    }
  }

  lemma EvictedBin(c: Cache, g: Shadow, i: nat, j: nat)
    requires CanEvict(c, g, i) && j < |g.bins| && BinOk(c, g, j)
    ensures BinOk(Evicted(c, i), EvictedShadow(g, c.tail[i], i), j)
  {
    hide EntryOk, Ordered;
    var c', g' := Evicted(c, i), EvictedShadow(g, c.tail[i], i);
    EvictedOrdered(c, g, i, j);
    TailPrev(c, g, i);
    forall r: int {:trigger EntryOk(c', g', j, r)} | g'.bins[j].lo <= r < g'.bins[j].hi
      ensures EntryOk(c', g', j, r)
    {
      EvictedEntry(c, g, i, j, r);
    }
  }

  lemma TailPrev(c: Cache, g: Shadow, i: nat)
    requires |c.head| == |c.tail| == |g.bins| && i < |g.bins| && BinOk(c, g, i) && g.bins[i].lo < g.bins[i].hi
    ensures var x, b := c.tail[i], g.bins[i];
            && x > 0 && x in c.prev && x in c.size && x in c.lastUsed && x == b.at[b.lo] && c.size[x] == BinSize(i)
               && x in g.bin && g.bin[x] == i
            && x in g.rank && g.rank[x] == b.lo && c.lastUsed[x] <= c.frees
            && if b.hi - 1 == b.lo then c.prev[x] == 0 else b.lo + 1 in b.at && c.prev[x] == b.at[b.lo + 1]
                                                            && c.prev[x] > 0
  {
    hide Ordered;
    var b := g.bins[i];
    assert EntryOk(c, g, i, b.lo);
    if b.lo + 1 < b.hi {
      assert EntryOk(c, g, i, b.lo + 1);
    }
  }

  lemma EvictedPlace(c: Cache, g: Shadow, i: nat, y: Addr)
    requires CanEvict(c, g, i) && y in c.size && y != c.tail[i] && PlaceOk(c, g, y)
    ensures PlaceOk(Evicted(c, i), EvictedShadow(g, c.tail[i], i), y)
  {
    hide Ordered;
    TailPrev(c, g, i);
  }

  lemma EvictKeepsInv(c: Cache, g: Shadow, i: nat)
    requires Inv(c, g) && i < NBINS && c.tail[i] != 0
    ensures CanEvict(c, g, i) && Inv(Evicted(c, i), EvictedShadow(g, c.tail[i], i))
    ensures c.tail[i] in c.lastUsed && c.lastUsed[c.tail[i]] <= c.frees && c.size[c.tail[i]] == BinSize(i)
  {
    hide BinOk;
    assert BinOk(c, g, i);
    HeadNonZero(c, g, i);
    TailPrev(c, g, i);
    TotalSplit(c.size, c.tail[i]);
    var c', g' := Evicted(c, i), EvictedShadow(g, c.tail[i], i);
    forall j: nat | j < NBINS
      ensures BinOk(c', g', j)
    {
      EvictedBin(c, g, i, j);
    }
    forall y: Addr {:trigger PlaceOk(c', g', y)} | y in c'.size
      ensures PlaceOk(c', g', y)
    {
      assert PlaceOk(c, g, y);
      EvictedPlace(c, g, i, y);
    }
  }

  // ----- how much can stay -----

  /** Blocks freed at different times among the last n frees are at most n. */
  lemma {:induction false} AtMost(blocks: set<Addr>, lastUsed: map<Addr, nat>, from: int, n: nat)
    requires forall x: Addr :: x in blocks ==> x in lastUsed && from < lastUsed[x] <= from + n
    requires forall x: Addr, y: Addr :: x in blocks && y in blocks && lastUsed[x] == lastUsed[y] ==> x == y
    ensures |blocks| <= n
  {
    if n == 0 {
      assert forall x: Addr :: x !in blocks;
      assert blocks == {};
    } else if x: Addr :| x in blocks && lastUsed[x] == from + n {
      AtMost(blocks - {x}, lastUsed, from, n - 1);
    } else {
      AtMost(blocks, lastUsed, from, n - 1);
    }
  }

  lemma {:induction false} TotalBound(size: map<Addr, nat>, bound: nat)
    requires forall x: Addr :: x in size ==> size[x] <= bound
    ensures Total(size) <= |size.Keys| * bound
    decreases |size.Keys|
  {
    if x: Addr :| x in size {
      TotalSplit(size, x);
      assert (size - {x}).Keys == size.Keys - {x};
      TotalBound(size - {x}, bound);
      OneMore(|(size - {x}).Keys|, bound);
    }
  }

  lemma OneMore(n: nat, k: nat)
    ensures (n + 1) * k == n * k + k
  {
  }

  /** Every cached block was freed among the last age frees. */
  ghost predicate Young(c: Cache, age: nat) {
    forall x: Addr :: x in c.size && x in c.lastUsed ==> c.frees - c.lastUsed[x] < age
  }

  /** What has left in so many passes: nothing, the blocks older than 64 frees, or those older than 32. */
  ghost predicate OldLeft(c: Cache, out: set<Addr>, passes: nat) {
    if passes == 0 then out == {}
    else Young(c, if passes == 1 then 64 else 32)
         && forall x: Addr :: x in out ==> x in c.lastUsed && c.frees - c.lastUsed[x] >= if passes == 1 then 64 else 32
  }

  /** What is left after an eviction by age is at most age blocks of at most THREADCACHEMAX bytes. */
  lemma YoungTotal(c: Cache, g: Shadow, age: nat)
    requires Inv(c, g) && Young(c, age)
    ensures c.freeInCache <= age * THREADCACHEMAX
  {
    hide Binned, Placed;
    forall x: Addr | x in c.size
      ensures x in c.lastUsed && c.frees - age < c.lastUsed[x] <= c.frees && c.size[x] <= THREADCACHEMAX
    {
      LastUsedBound(c, g, x);
      BinMono(g.bin[x], 9);
      BinSizes();
    }
    AtMost(c.size.Keys, c.lastUsed, c.frees - age, age);
    TotalBound(c.size, THREADCACHEMAX);
    Multiply(|c.size.Keys|, age, THREADCACHEMAX);
  }

  lemma Multiply(a: nat, b: nat, k: nat)
    requires a <= b
    ensures a * k <= b * k
  {
  }

  /** The tail is the oldest of its bin. */
  lemma TailIsOldest(c: Cache, g: Shadow, i: nat, x: Addr)
    requires Inv(c, g) && i < NBINS && x in c.size && x in g.bin && g.bin[x] == i
    ensures c.tail[i] != 0 && c.tail[i] in c.size && c.tail[i] in c.lastUsed && x in c.lastUsed
            && c.lastUsed[c.tail[i]] <= c.lastUsed[x]
  {
    assert BinOk(c, g, i) && PlaceOk(c, g, x);
    var b := g.bins[i];
    TailPrev(c, g, i);
    if g.rank[x] > b.lo {
      assert Older(c, b, b.lo, g.rank[x]);
    }
  }

  // ----- what the head words say -----

  lemma BinsKnown(c: Cache, g: Shadow)
    requires Inv(c, g)
    ensures |c.head| == |c.tail| == |g.bins| == NBINS
  {
  }

  /** The head of a bin is zero exactly when no cached block is in the bin; else it is a block of the bin size. */
  lemma HeadWord(c: Cache, g: Shadow, i: nat)
    requires Inv(c, g) && i < NBINS
    ensures |c.head| == NBINS && (c.head[i] == 0 <==> forall x: Addr :: x in c.size ==> x in g.bin && g.bin[x] != i)
    ensures c.head[i] != 0 ==> c.head[i] in c.size && c.size[c.head[i]] == BinSize(i) && c.head[i] in g.bin
                               && g.bin[c.head[i]] == i
  {
    hide BinOk;
    assert BinOk(c, g, i);
    HeadNonZero(c, g, i);
    if c.head[i] != 0 {
      HeadNext(c, g, i);
    }
    forall x: Addr | x in c.size
      ensures x in g.bin && (c.head[i] == 0 ==> g.bin[x] != i)
    {
      assert PlaceOk(c, g, x);
    }
  }

  /** A block freed by the last of all frees heads its bin. */
  lemma NewestIsHead(c: Cache, g: Shadow, x: Addr)
    requires Inv(c, g) && x in c.size && x in c.lastUsed && c.lastUsed[x] == c.frees
    ensures x in g.bin && g.bin[x] < |c.head| && c.head[g.bin[x]] == x
  {
    assert PlaceOk(c, g, x);
    var i, r := g.bin[x], g.rank[x];
    var b := g.bins[i];
    assert BinOk(c, g, i);
    assert EntryOk(c, g, i, b.hi - 1) && (r < b.hi - 1 ==> Older(c, b, r, b.hi - 1));
  }

  /** The bins that threadcache_malloc looks at for a request. */
  predicate Probed(request: nat, i: nat)
    requires request >= 16
  {
    i == FirstBin(request) || (i == FirstBin(request) + 1 && i <= THREADCACHEMAXBINS)
  }

  lemma AllOut(size: map<Addr, nat>, out: set<Addr>)
    requires size - out == map[] && out <= size.Keys
    ensures out == size.Keys
  {
    forall x: Addr | x in size
      ensures x in out
    {
      assert x !in size - out;
    }
  }

  lemma Later(c: Cache, g: Shadow)
    requires Inv(c, g)
    ensures Inv(c.(frees := c.frees + 1), g)
  {
    var c' := c.(frees := c.frees + 1);
    forall i: nat | i < NBINS
      ensures BinOk(c', g, i)
    {
      LaterBin(c, g, i);
    }
    forall x: Addr {:trigger PlaceOk(c', g, x)} | x in c'.size
      ensures PlaceOk(c', g, x)
    {
      assert PlaceOk(c, g, x);
    }
  }

  lemma LaterBin(c: Cache, g: Shadow, i: nat)
    requires |c.head| == |c.tail| == |g.bins| && i < |g.bins| && BinOk(c, g, i)
    ensures BinOk(c.(frees := c.frees + 1), g, i)
  {
    var c', b := c.(frees := c.frees + 1), g.bins[i];
    forall r: int {:trigger EntryOk(c', g, i, r)} | b.lo <= r < b.hi
      ensures EntryOk(c', g, i, r)
    {
      assert EntryOk(c, g, i, r);
    }
    forall r: int, s: int {:trigger Older(c', b, r, s)} | b.lo <= r < s < b.hi
      ensures Older(c', b, r, s)
    {
      assert Older(c, b, r, s);
    }
  }

  /** No block is younger than age 0. */
  lemma NoneYoung(c: Cache, g: Shadow)
    requires Inv(c, g) && Young(c, 0)
    ensures c.size == map[] && c.freeInCache == 0
  {
    hide Binned, Placed;
    forall x: Addr
      ensures x !in c.size
    {
      if x in c.size {
        LastUsedBound(c, g, x);
      }
    }
    YoungTotal(c, g, 0);
  }

  function Blocks(out: seq<Addr>): set<Addr> {
    set x | x in out
  }

  predicate Apart(out: seq<Addr>) {
    forall i: nat, j: nat :: i < j < |out| ==> out[i] != out[j]
  }

  lemma Combine(size: map<Addr, nat>, out: seq<Addr>, more: seq<Addr>)
    requires Apart(out) && Apart(more) && Blocks(more) <= (size - Blocks(out)).Keys && Blocks(out) <= size.Keys
    ensures Apart(out + more) && Blocks(out + more) == Blocks(out) + Blocks(more) && Blocks(out + more) <= size.Keys
    ensures size - Blocks(out) - Blocks(more) == size - Blocks(out + more)
  {
    forall i: nat, j: nat | i < |out| && j < |more|
      ensures out[i] != more[j]
    {
      assert out[i] in Blocks(out) && more[j] in Blocks(more);
    }
  }

  lemma NoBlocks(size: map<Addr, nat>)
    ensures Apart([]) && Blocks([]) == {} && size - Blocks([]) == size
  {
  }

  lemma CombineOne(size: map<Addr, nat>, out: seq<Addr>, f: Addr)
    requires Apart(out) && f in size - Blocks(out) && Blocks(out) <= size.Keys
    ensures Apart(out + [f]) && Blocks(out + [f]) == Blocks(out) + {f} && Blocks(out + [f]) <= size.Keys
    ensures size - Blocks(out) - {f} == size - Blocks(out + [f])
  {
    assert Blocks([f]) == {f};
    Combine(size, out, [f]);
  }

  lemma Smaller(size: map<Addr, nat>, f: Addr)
    requires f in size
    ensures |size - {f}| < |size|
  {
    assert (size - {f}).Keys == size.Keys - {f};
  }

  lemma FreeBin(memsize: nat)
    requires BLOCK <= memsize <= THREADCACHEMAX + CHUNK_OVERHEAD
    ensures 1 <= SizeToBin(memsize) < NBINS && BinSize(SizeToBin(memsize)) <= memsize
  {
    var i := SizeToBin(memsize);
    BinBounds(memsize, i);
    BinSizes();
    if i > 9 {
      BinMono(10, i);
    }
  }

  /** The blocks of the bins below n are young. */
  ghost predicate YoungBelow(c: Cache, g: Shadow, age: nat, n: nat) {
    forall x: Addr :: x in c.size && x in g.bin && g.bin[x] < n && x in c.lastUsed ==> c.frees - c.lastUsed[x] < age
  }

  lemma NoneBelow(c: Cache, g: Shadow, age: nat)
    ensures YoungBelow(c, g, age, 0)
  {
  }

  lemma TailWord(c: Cache, g: Shadow, i: nat)
    requires Inv(c, g) && i < NBINS
    ensures |c.tail| == NBINS && (c.tail[i] != 0 ==> c.tail[i] in c.size && c.tail[i] in c.lastUsed
                                                     && c.lastUsed[c.tail[i]] <= c.frees)
  {
    hide BinOk;
    assert BinOk(c, g, i);
    HeadNonZero(c, g, i);
    if c.tail[i] != 0 {
      TailPrev(c, g, i);
    }
  }

  lemma YoungAfter(c: Cache, g: Shadow, age: nat, n: nat)
    requires CanEvict(c, g, n) && YoungBelow(c, g, age, n)
    ensures YoungBelow(Evicted(c, n), EvictedShadow(g, c.tail[n], n), age, n)
  {
    hide BinOk;
  }

  /** A bin whose tail is young, or that is empty, has only young blocks. */
  lemma YoungBin(c: Cache, g: Shadow, age: nat, n: nat)
    requires Inv(c, g) && n < NBINS && YoungBelow(c, g, age, n) && |c.tail| == NBINS
    requires c.tail[n] == 0 || (c.tail[n] in c.lastUsed && c.frees - c.lastUsed[c.tail[n]] < age)
    ensures YoungBelow(c, g, age, n + 1)
  {
    hide Binned, Placed;
    forall x: Addr | x in c.size && x in g.bin && g.bin[x] < n + 1 && x in c.lastUsed
      ensures c.frees - c.lastUsed[x] < age
    {
      if g.bin[x] == n {
        TailIsOldest(c, g, n, x);
      }
    }
  }

  lemma AllYoung(c: Cache, g: Shadow, age: nat)
    requires Inv(c, g) && YoungBelow(c, g, age, NBINS)
    ensures Young(c, age)
  {
    forall x: Addr | x in c.size && x in c.lastUsed
      ensures c.frees - c.lastUsed[x] < age
    {
      LastUsedBound(c, g, x);
    }
  }

  lemma EmptyYoung(c: Cache, g: Shadow, age: nat)
    requires Inv(c, g) && c.freeInCache == 0
    ensures Young(c, age) && c.size == map[]
  {
    hide Binned, Placed;
    forall x: Addr
      ensures x !in c.size
    {
      if x in c.size {
        LastUsedBound(c, g, x);
        BinMono(0, g.bin[x]);
        TotalSplit(c.size, x);
      }
    }
  }

  class ThreadCache {
    var c: Cache
    var mallocs: nat
    var successes: nat
    ghost var g: Shadow

    ghost predicate Valid()
      reads this
    {
      Inv(c, g)
    }

    constructor ()
      ensures Valid() && c.size == map[] && c.frees == 0
    {
      var zeros := seq(NBINS, i => 0);
      c := Cache(zeros, zeros, map[], map[], map[], map[], 0, 0);
      mallocs, successes := 0, 0;
      g := Shadow(seq(NBINS, i => Bin(0, 0, map[])), map[], map[]);
    }

    /** threadcache_malloc: the newest block of the first bin for the rounded size, or of the next bin, or 0. */
    method ThreadcacheMalloc(request: nat) returns (blk: Addr, size: nat)
      requires Valid() && BLOCK <= request <= THREADCACHEMAX
      modifies this
      ensures Valid() && size == BinSize(FirstBin(request)) && request <= size <= THREADCACHEMAX
      ensures blk == 0 ==> c == old(c) && g == old(g) && forall x: Addr :: x in c.size ==>
                                                                           x in g.bin && !Probed(request, g.bin[x])
      ensures blk != 0 ==> blk in old(c.size) && c.size == old(c.size) - {blk} && size <= old(c.size)[blk]
                           && blk in old(g.bin)
      ensures blk != 0 ==> Probed(request, old(g.bin)[blk]) && old(g.bin)[blk] < |old(c.head)|
                           && blk == old(c.head)[old(g.bin)[blk]]
      ensures blk != 0 ==> c.freeInCache == old(c.freeInCache) - old(c.size)[blk]
      ensures blk != 0 && old(g.bin)[blk] != FirstBin(request) ==>
                forall x: Addr :: x in old(c.size) ==> x in old(g.bin) && old(g.bin)[x] != FirstBin(request)
      ensures c.frees == old(c.frees) && c.lastUsed == old(c.lastUsed)
    {
      hide BinSize, Inv;
      FirstBinIsLeast(request);
      BinsKnown(c, g);
      var idx := SizeToBin(request);
      if request > BinSize(idx) {
        idx := idx + 1;
      }
      size := BinSize(idx);
      HeadWord(c, g, idx);
      blk := c.head[idx];
      if blk == 0 || c.size[blk] < size {
        if idx < THREADCACHEMAXBINS {
          idx := idx + 1;
          HeadWord(c, g, idx);
          BinMono(idx - 1, idx);
          blk := c.head[idx];
        }
      }
      if blk != 0 {
        PopKeepsInv(c, g, idx);
        c, g := Popped(c, idx), PoppedShadow(g, blk, idx);
        successes := successes + 1;
      }
      mallocs := mallocs + 1;
    }

    /** RemoveCacheEntries: every block not freed among the last age frees leaves the cache, oldest first in each bin.
        */
    method RemoveCacheEntries(age: nat) returns (out: seq<Addr>)
      requires Valid()
      modifies this`c, this`g
      ensures Valid() && Young(c, age) && Apart(out) && c.size == old(c.size) - Blocks(out)
              && Blocks(out) <= old(c.size.Keys)
      ensures forall x: Addr :: x in Blocks(out) ==> x in c.lastUsed && c.frees - c.lastUsed[x] >= age
      ensures c.frees == old(c.frees) && c.lastUsed == old(c.lastUsed) && c.freeInCache <= old(c.freeInCache)
    {
      hide Inv, Young, Apart, Blocks, YoungBelow;
      out := [];
      NoBlocks(c.size);
      if c.freeInCache != 0 {
        BinsKnown(c, g);
        var n := 0;
        NoneBelow(c, g, age);
        while n < NBINS
          invariant n <= NBINS && Valid() && YoungBelow(c, g, age, n) && Apart(out)
          invariant c.size == old(c.size) - Blocks(out) && Blocks(out) <= old(c.size.Keys)
          invariant forall x: Addr :: x in Blocks(out) ==> x in c.lastUsed && c.frees - c.lastUsed[x] >= age
          invariant c.frees == old(c.frees) && c.lastUsed == old(c.lastUsed) && c.freeInCache <= old(c.freeInCache)
        {
          var more := EvictBin(n, age);
          Combine(old(c.size), out, more);
          out := out + more;
          n := n + 1;
        }
        AllYoung(c, g, age);
      } else {
        EmptyYoung(c, g, age);
      }
    }

    /** The oldest block of a bin leaves the cache. */
    method EvictOldest(n: nat) returns (f: Addr)
      requires Valid() && n < NBINS && |c.tail| == NBINS && c.tail[n] != 0
      modifies this`c, this`g
      ensures f == old(c.tail)[n] && f in old(c.size) && c.size == old(c.size) - {f} && |c.size| < |old(c.size)|
      ensures Valid() && |c.tail| == NBINS && (c.tail[n] != 0 ==> c.tail[n] in c.lastUsed)
      ensures forall age: nat :: old(YoungBelow(c, g, age, n)) ==> YoungBelow(c, g, age, n)
      ensures c.frees == old(c.frees) && c.lastUsed == old(c.lastUsed) && c.freeInCache <= old(c.freeInCache)
    {
      hide Inv, BinSize, Blocks;
      f := c.tail[n];
      EvictKeepsInv(c, g, n);
      Smaller(c.size, f);
      forall age: nat | YoungBelow(c, g, age, n)
        ensures YoungBelow(Evicted(c, n), EvictedShadow(g, f, n), age, n)
      {
        YoungAfter(c, g, age, n);
      }
      c, g := Evicted(c, n), EvictedShadow(g, f, n);
      BinsKnown(c, g);
      TailWord(c, g, n);
    }

    /** The loop over one bin, from its oldest end. */
    method EvictBin(n: nat, age: nat) returns (out: seq<Addr>)
      requires Valid() && n < NBINS && YoungBelow(c, g, age, n)
      modifies this`c, this`g
      ensures Valid() && YoungBelow(c, g, age, n + 1) && Apart(out) && c.size == old(c.size) - Blocks(out)
              && Blocks(out) <= old(c.size.Keys)
      ensures forall x: Addr :: x in Blocks(out) ==> x in c.lastUsed && c.frees - c.lastUsed[x] >= age
      ensures c.frees == old(c.frees) && c.lastUsed == old(c.lastUsed) && c.freeInCache <= old(c.freeInCache)
    {
      hide Inv, Apart, YoungBelow, Blocks;
      out := [];
      NoBlocks(old(c.size));
      BinsKnown(c, g);
      TailWord(c, g, n);
      while c.tail[n] != 0 && c.frees - c.lastUsed[c.tail[n]] >= age
        invariant Valid() && |c.tail| == NBINS && YoungBelow(c, g, age, n) && Apart(out)
        invariant c.tail[n] != 0 ==> c.tail[n] in c.lastUsed
        invariant c.size == old(c.size) - Blocks(out) && Blocks(out) <= old(c.size.Keys)
        invariant forall x: Addr :: x in Blocks(out) ==> x in c.lastUsed && c.frees - c.lastUsed[x] >= age
        invariant c.frees == old(c.frees) && c.lastUsed == old(c.lastUsed) && c.freeInCache <= old(c.freeInCache)
        decreases |c.size|
      {
        var f := EvictOldest(n);
        CombineOne(old(c.size), out, f);
        out := out + [f];
      }
      YoungBin(c, g, age, n);
    }

    /** ReleaseFreeInCache: at most two passes bring the cache below its limit. */
    method ReleaseFreeInCache() returns (out: seq<Addr>, passes: nat)
      requires Valid()
      modifies this`c, this`g
      ensures Valid() && c.freeInCache < THREADCACHEMAXFREESPACE && passes <= 2
      ensures Apart(out) && c.size == old(c.size) - Blocks(out) && Blocks(out) <= old(c.size.Keys)
      ensures forall x: Addr :: x in Blocks(out) ==> x in c.lastUsed && c.frees - c.lastUsed[x] >= 32
      ensures c.frees == old(c.frees) && c.lastUsed == old(c.lastUsed)
      ensures passes == 0 <==> old(c.freeInCache) < THREADCACHEMAXFREESPACE
      ensures OldLeft(c, Blocks(out), passes)
    {
      hide Inv, Young, Apart, Blocks;
      out, passes := [], 0;
      NoBlocks(c.size);
      var age := THREADCACHEMAXFREESPACE / 8192;
      while age != 0 && c.freeInCache >= THREADCACHEMAXFREESPACE
        invariant Valid() && Apart(out) && c.size == old(c.size) - Blocks(out) && Blocks(out) <= old(c.size.Keys)
        invariant forall x: Addr :: x in Blocks(out) ==> x in c.lastUsed && c.frees - c.lastUsed[x] >= 32
        invariant c.frees == old(c.frees) && c.lastUsed == old(c.lastUsed)
        invariant (passes == 0 && age == 64) || (passes == 1 && age == 32 && c.freeInCache <= 64 * THREADCACHEMAX)
                  || (passes == 2 && age == 16 && c.freeInCache <= 32 * THREADCACHEMAX)
        invariant OldLeft(c, Blocks(out), passes)
        invariant if passes == 0 then c == old(c) else old(c.freeInCache) >= THREADCACHEMAXFREESPACE
        decreases age
      {
        var more := RemoveCacheEntries(age);
        YoungTotal(c, g, age);
        Combine(old(c.size), out, more);
        out := out + more;
        age, passes := age / 2, passes + 1;
      }
    }

    /** What nedtrimthreadcache does with the cache: everything is older than no age at all. */
    method Trim() returns (out: seq<Addr>)
      requires Valid()
      modifies this`c, this`g
      ensures Valid() && c.size == map[] && Apart(out) && Blocks(out) == old(c.size.Keys) && c.freeInCache == 0
    {
      hide Inv, Young, Apart, Blocks;
      Later(c, g);
      c := c.(frees := c.frees + 1);
      out := RemoveCacheEntries(0);
      NoneYoung(c, g);
      AllOut(old(c.size), Blocks(out));
    }

    /** threadcache_free: the block goes to the head of the bin whose size is not above its own, and stays there
        however many older blocks are evicted. */
    method ThreadcacheFree(mem: Addr, memsize: nat) returns (out: seq<Addr>, passes: nat)
      requires Valid() && BLOCK <= memsize <= THREADCACHEMAX + CHUNK_OVERHEAD && mem > 0 && mem !in c.size
      modifies this`c, this`g
      ensures Valid() && c.freeInCache < THREADCACHEMAXFREESPACE && passes <= 2
      ensures var i := SizeToBin(memsize);
              && BinSize(i) <= memsize && Apart(out) && c.size == old(c.size)[mem := BinSize(i)] - Blocks(out)
              && Blocks(out) <= old(c.size.Keys) && i < |c.head| && c.head[i] == mem
      ensures c.frees == old(c.frees) + 1
      ensures passes == 0 <==> old(c.freeInCache) + BinSize(SizeToBin(memsize)) < THREADCACHEMAXFREESPACE
      ensures OldLeft(c, Blocks(out), passes)
      ensures forall x: Addr :: x in Blocks(out) ==> x in c.lastUsed && c.frees - c.lastUsed[x] >= 32
    {
      hide Inv, BinSize, Apart, Blocks;
      var idx := SizeToBin(memsize);
      FreeBin(memsize);
      BinsKnown(c, g);
      PushKeepsInv(c, g, mem, idx);
      c, g := Pushed(c, mem, idx), PushedShadow(g, mem, idx);
      out, passes := [], 0;
      NoBlocks(c.size);
      if c.freeInCache >= THREADCACHEMAXFREESPACE {
        out, passes := ReleaseFreeInCache();
      }
      LastUsedBound(c, g, mem);
      BinSizeInjective(g.bin[mem], idx);
      NewestIsHead(c, g, mem);
    }
  }
}
