/** Which pages an mspace holds from the system, and why: for a segment, for a directly mapped chunk, or because
    the system refused to take them back. */
module Footprints {
  import opened Sizes
  import opened Segments
  import opened SegmentGrowth
  import opened System
  import opened Heaps
  import opened HeapGrowth

  function SegPages(s: Seg): set<int> {
    Pages(s.base, s.size)
  }

  function RegionPages(r: Region): set<int> {
    Pages(r.base, r.size)
  }

  ghost predicate SegHeld(s: Seg, mine: set<int>) {
    Aligned(s.base, s.size) && SegPages(s) <= mine
  }

  ghost predicate InSomeSeg(segs: seq<Seg>, k: int) {
    exists i: nat :: i < |segs| && k in SegPages(segs[i])
  }

  /** The segments are whole pages, share none, and use up exactly the pages in mine. */
  ghost predicate SegsHeld(segs: seq<Seg>, mine: set<int>) {
    && (forall i: nat :: i < |segs| ==> SegHeld(segs[i], mine))
    && (forall i: nat, j: nat :: i < j < |segs| ==> SegPages(segs[i]) !! SegPages(segs[j]))
    && (forall k {:trigger InSomeSeg(segs, k)} :: k in mine ==> InSomeSeg(segs, k))
  }

  ghost predicate DirectHeld(r: Region, mine: set<int>) {
    Aligned(r.base, r.size) && RegionPages(r) <= mine
  }

  ghost predicate InSomeRegion(direct: map<Addr, Region>, k: int) {
    exists p: Addr :: p in direct && k in RegionPages(direct[p])
  }

  /** The same of the directly mapped regions. */
  ghost predicate DirectsHeld(direct: map<Addr, Region>, mine: set<int>) {
    && (forall p: Addr :: p in direct ==> DirectHeld(direct[p], mine))
    && (forall p: Addr, q: Addr :: p in direct && q in direct && p != q ==>
                                   RegionPages(direct[p]) !! RegionPages(direct[q]))
    && (forall k {:trigger InSomeRegion(direct, k)} :: k in mine ==> InSomeRegion(direct, k))
  }

  /** The pages of segments, of directly mapped regions, and the ones munmap refused to take. */
  datatype Ledger = Ledger(segs: set<int>, direct: set<int>, leaked: set<int>)

  ghost predicate Balanced(b: Ledger, mapped: set<int>) {
    mapped == b.segs + b.direct + b.leaked && b.segs !! b.direct && b.segs !! b.leaked && b.direct !! b.leaked
  }

  ghost predicate Accounted(segs: seq<Seg>, direct: map<Addr, Region>, b: Ledger, mapped: set<int>) {
    Balanced(b, mapped) && SegsHeld(segs, b.segs) && DirectsHeld(direct, b.direct)
  }

  // ----- pages and addresses -----

  lemma PagesJoin(base: Addr, m: nat, n: nat)
    requires base % PAGE == 0 && m % PAGE == 0 && n % PAGE == 0
    ensures Pages(base, m + n) == Pages(base, m) + Pages(base + m, n) && Pages(base, m) !! Pages(base + m, n)
  {
    assert (base + m) / PAGE == base / PAGE + m / PAGE && (m + n) / PAGE == m / PAGE + n / PAGE;
  }

  lemma HeldApart(segs: seq<Seg>, mine: set<int>)
    requires SegsHeld(segs, mine)
    ensures SegsApart(segs)
  {
    forall i: nat, j: nat | i < j < |segs|
      ensures End(segs[i]) <= segs[j].base || End(segs[j]) <= segs[i].base
    {
      assert SegHeld(segs[i], mine) && SegHeld(segs[j], mine) && SegPages(segs[i]) !! SegPages(segs[j]);
      PagesDisjoint(segs[i].base, segs[i].size, segs[j].base, segs[j].size);
    }
  }

  /** Pages that are not mapped are apart from all segments. */
  lemma FreshApart(segs: seq<Seg>, mine: set<int>, base: Addr, size: nat)
    requires SegsHeld(segs, mine) && Aligned(base, size) && Pages(base, size) !! mine
    ensures forall i: nat :: i < |segs| ==> End(segs[i]) <= base || base + size <= segs[i].base
  {
    forall i: nat | i < |segs|
      ensures End(segs[i]) <= base || base + size <= segs[i].base
    {
      assert SegHeld(segs[i], mine) && SegPages(segs[i]) !! Pages(base, size);
      PagesDisjoint(segs[i].base, segs[i].size, base, size);
    }
  }

  lemma RegionOutside(segs: seq<Seg>, mine: set<int>, r: Region, x: Addr)
    requires SegsHeld(segs, mine) && Aligned(r.base, r.size) && RegionPages(r) !! mine && r.base <= x < r.base + r.size
    ensures !Inside(segs, x)
  {
    FreshApart(segs, mine, r.base, r.size);
  }

  lemma HeldClear(segs: seq<Seg>, direct: map<Addr, Region>, b: Ledger, mapped: set<int>)
    requires Accounted(segs, direct, b, mapped)
    requires forall p: Addr :: p in direct ==> direct[p].base <= p < DirectEnd(direct[p])
    ensures Clear(segs, direct)
  {
    forall p: Addr | p in direct
      ensures !Inside(segs, p) && !Inside(segs, DirectEnd(direct[p]))
    {
      assert DirectHeld(direct[p], b.direct);
      RegionOutside(segs, b.segs, direct[p], p);
      RegionOutside(segs, b.segs, direct[p], DirectEnd(direct[p]));
    }
  }

  lemma HeldFresh(h: Heap, b: Ledger, mapped: set<int>, r: Region)
    requires Accounted(h.segs, h.direct, b, mapped) && Aligned(r.base, r.size) && RegionPages(r) <= b.leaked
    requires forall p: Addr :: p in h.direct ==> h.direct[p].base <= p < DirectEnd(h.direct[p])
    ensures FreshRegion(h, r)
  {
    forall x: Addr {:trigger Inside(h.segs, x)} | r.base <= x < r.base + r.size
      ensures !Inside(h.segs, x)
    {
      RegionOutside(h.segs, b.segs, r, x);
    }
    forall p: Addr | p in h.direct
      ensures !(r.base <= p < r.base + r.size) && !(r.base <= DirectEnd(h.direct[p]) < r.base + r.size)
    {
      var d := h.direct[p];
      assert DirectHeld(d, b.direct) && RegionPages(d) !! RegionPages(r);
      PagesDisjoint(d.base, d.size, r.base, r.size);
    }
  }

  // ----- the segments change -----

  lemma GrownHeld(segs: seq<Seg>, mine: set<int>, size: nat)
    requires SegsHeld(segs, mine) && |segs| > 0 && Aligned(End(segs[0]), size) && Pages(End(segs[0]), size) !! mine
    ensures SegsHeld(ResizedSegs(segs, segs[0].size + size), mine + Pages(End(segs[0]), size))
  {
    hide Pages;
    var segs', more := ResizedSegs(segs, segs[0].size + size), Pages(End(segs[0]), size);
    assert SegHeld(segs[0], mine);
    PagesJoin(segs[0].base, segs[0].size, size);
    ReplacedHeld(segs, mine, 0, segs'[0], more);
  }

  lemma PrependedHeld(segs: seq<Seg>, mine: set<int>, j: nat, tbase: Addr, tsize: nat)
    requires SegsHeld(segs, mine) && j < |segs| && tbase + tsize == segs[j].base
    requires Aligned(tbase, tsize) && Pages(tbase, tsize) !! mine
    ensures SegsHeld(PrependedSegs(segs, j, tbase, tsize), mine + Pages(tbase, tsize))
  {
    hide Pages;
    var segs' := PrependedSegs(segs, j, tbase, tsize);
    assert SegHeld(segs[j], mine);
    PagesJoin(tbase, tsize, segs[j].size);
    ReplacedHeld(segs, mine, j, segs'[j], Pages(tbase, tsize));
  }

  /** A segment gets more pages. */
  lemma ReplacedHeld(segs: seq<Seg>, mine: set<int>, j: nat, s: Seg, more: set<int>)
    requires SegsHeld(segs, mine) && j < |segs| && Aligned(s.base, s.size) && SegPages(s) == SegPages(segs[j]) + more
             && more !! mine
    ensures SegsHeld(segs[j := s], mine + more)
  {
    hide Pages, Aligned;
    var segs' := segs[j := s];
    forall i: nat | i < |segs'|
      ensures SegHeld(segs'[i], mine + more)
    {
      assert SegHeld(segs[i], mine);
    }
    forall i: nat, k: nat | i < k < |segs'|
      ensures SegPages(segs'[i]) !! SegPages(segs'[k])
    {
      assert SegHeld(segs[i], mine) && SegHeld(segs[k], mine) && SegPages(segs[i]) !! SegPages(segs[k]);
    }
    forall k {:trigger InSomeSeg(segs', k)} | k in mine + more
      ensures InSomeSeg(segs', k)
    {
      assert k in mine ==> InSomeSeg(segs, k);
      if k in more {
        assert k in SegPages(segs'[j]);
      } else {
        var i: nat :| i < |segs| && k in SegPages(segs[i]);
        assert k in SegPages(segs'[i]);
      }
    }
  }

  lemma ShrunkHeld(segs: seq<Seg>, mine: set<int>, extra: nat)
    requires SegsHeld(segs, mine) && |segs| > 0 && extra < segs[0].size && extra % PAGE == 0
    ensures var s := segs[0].size - extra;
            SegsHeld(ResizedSegs(segs, s), mine - Pages(segs[0].base + s, extra))
                && Pages(segs[0].base + s, extra) <= mine
  {
    hide Pages;
    var s := segs[0].size - extra;
    var segs', less := ResizedSegs(segs, s), Pages(segs[0].base + s, extra);
    assert SegHeld(segs[0], mine);
    PagesJoin(segs[0].base, s, extra);
    forall i: nat | i < |segs'|
      ensures SegHeld(segs'[i], mine - less)
    {
      assert SegHeld(segs[i], mine);
      assert i > 0 ==> SegPages(segs[0]) !! SegPages(segs[i]);
    }
    forall i: nat, k: nat | i < k < |segs'|
      ensures SegPages(segs'[i]) !! SegPages(segs'[k])
    {
      assert SegPages(segs[i]) !! SegPages(segs[k]);
    }
    forall k {:trigger InSomeSeg(segs', k)} | k in mine - less
      ensures InSomeSeg(segs', k)
    {
      assert k in mine ==> InSomeSeg(segs, k);
      var i: nat :| i < |segs| && k in SegPages(segs[i]);
      assert k in SegPages(segs'[i]);
    }
  }

  lemma PushedHeld(segs: seq<Seg>, mine: set<int>, csp: Addr, tbase: Addr, tsize: nat)
    requires SegsHeld(segs, mine) && |segs| > 0 && Aligned(tbase, tsize) && Pages(tbase, tsize) !! mine
    ensures SegsHeld(PushedSegs(segs, csp, tbase, tsize), mine + Pages(tbase, tsize))
  {
    hide Pages, Aligned;
    var segs', more := PushedSegs(segs, csp, tbase, tsize), Pages(tbase, tsize);
    assert forall i: nat :: 0 < i < |segs'| ==> SegPages(segs'[i]) == SegPages(segs[i - 1])
                                                && segs'[i].base == segs[i - 1].base;
    forall i: nat | i < |segs'|
      ensures SegHeld(segs'[i], mine + more)
    {
      assert i > 0 ==> SegHeld(segs[i - 1], mine);
    }
    forall i: nat, k: nat | i < k < |segs'|
      ensures SegPages(segs'[i]) !! SegPages(segs'[k])
    {
      assert SegHeld(segs[k - 1], mine);
      assert i > 0 ==> SegPages(segs[i - 1]) !! SegPages(segs[k - 1]);
    }
    forall k {:trigger InSomeSeg(segs', k)} | k in mine + more
      ensures InSomeSeg(segs', k)
    {
      assert k in mine ==> InSomeSeg(segs, k);
      if k in more {
        assert k in SegPages(segs'[0]);
      } else {
        var i: nat :| i < |segs| && k in SegPages(segs[i]);
        assert k in SegPages(segs'[i + 1]);
      }
    }
  }

  lemma WithoutHeld(segs: seq<Seg>, mine: set<int>, j: nat)
    requires SegsHeld(segs, mine) && j < |segs|
    ensures SegsHeld(WithoutSeg(segs, j), mine - SegPages(segs[j])) && SegPages(segs[j]) <= mine
  {
    hide Pages, Aligned;
    var segs' := WithoutSeg(segs, j);
    assert forall i: nat :: i < |segs'| ==> segs'[i] == segs[if i < j then i else i + 1];
    assert SegHeld(segs[j], mine);
    forall i: nat | i < |segs'|
      ensures SegHeld(segs'[i], mine - SegPages(segs[j]))
    {
      var o := if i < j then i else i + 1;
      assert SegHeld(segs[o], mine) && SegPages(segs[o]) !! SegPages(segs[j]);
    }
    forall i: nat, k: nat | i < k < |segs'|
      ensures SegPages(segs'[i]) !! SegPages(segs'[k])
    {
      assert SegPages(segs[if i < j then i else i + 1]) !! SegPages(segs[if k < j then k else k + 1]);
    }
    forall k {:trigger InSomeSeg(segs', k)} | k in mine - SegPages(segs[j])
      ensures InSomeSeg(segs', k)
    {
      assert k in mine ==> InSomeSeg(segs, k);
      var i: nat :| i < |segs| && k in SegPages(segs[i]);
      assert segs'[if i < j then i else i - 1] == segs[i];
    }
  }

  // ----- the directly mapped regions change -----

  lemma AddedHeld(direct: map<Addr, Region>, mine: set<int>, p: Addr, r: Region)
    requires DirectsHeld(direct, mine) && p !in direct && Aligned(r.base, r.size) && RegionPages(r) !! mine
    ensures DirectsHeld(direct[p := r], mine + RegionPages(r))
  {
    hide Pages, Aligned;
    var direct' := direct[p := r];
    forall q: Addr | q in direct'
      ensures DirectHeld(direct'[q], mine + RegionPages(r))
    {
      assert q != p ==> DirectHeld(direct[q], mine);
    }
    forall q: Addr, q': Addr | q in direct' && q' in direct' && q != q'
      ensures RegionPages(direct'[q]) !! RegionPages(direct'[q'])
    {
      assert q != p ==> DirectHeld(direct[q], mine);
      assert q' != p ==> DirectHeld(direct[q'], mine);
    }
    forall k {:trigger InSomeRegion(direct', k)} | k in mine + RegionPages(r)
      ensures InSomeRegion(direct', k)
    {
      assert k in mine ==> InSomeRegion(direct, k);
      if k in RegionPages(r) {
        assert k in RegionPages(direct'[p]);
      } else {
        var q: Addr :| q in direct && k in RegionPages(direct[q]);
        assert k in RegionPages(direct'[q]);
      }
    }
  }

  lemma DroppedHeld(direct: map<Addr, Region>, mine: set<int>, p: Addr)
    requires DirectsHeld(direct, mine) && p in direct
    ensures DirectsHeld(direct - {p}, mine - RegionPages(direct[p]))
    ensures Aligned(direct[p].base, direct[p].size) && RegionPages(direct[p]) <= mine
  {
    hide Pages, Aligned;
    var direct' := direct - {p};
    assert DirectHeld(direct[p], mine);
    forall q: Addr | q in direct'
      ensures DirectHeld(direct'[q], mine - RegionPages(direct[p]))
    {
      assert DirectHeld(direct[q], mine) && RegionPages(direct[q]) !! RegionPages(direct[p]);
    }
    forall k {:trigger InSomeRegion(direct', k)} | k in mine - RegionPages(direct[p])
      ensures InSomeRegion(direct', k)
    {
      assert k in mine ==> InSomeRegion(direct, k);
      var q: Addr :| q in direct && k in RegionPages(direct[q]);
      assert q in direct' && k in RegionPages(direct'[q]);
    }
  }

  // ----- pages move between the accounts -----

  lemma MinusCardinality(a: set<int>, b: set<int>)
    requires b <= a
    ensures |a - b| == |a| - |b|
  {
    assert a == (a - b) + b;
  }

  /** Fresh pages are not in use at first. */
  lemma ObtainedHeld(segs: seq<Seg>, direct: map<Addr, Region>, b: Ledger, mapped: set<int>, more: set<int>)
    requires Accounted(segs, direct, b, mapped) && more !! mapped
    ensures Accounted(segs, direct, b.(leaked := b.leaked + more), Joined(mapped, more))
            && |Joined(mapped, more)| == |mapped| + |more|
    ensures more !! b.leaked
  {
    hide SegsHeld, DirectsHeld;
  }

  /** Pages that are not in use can go. */
  lemma ReturnedHeld(segs: seq<Seg>, direct: map<Addr, Region>, b: Ledger, mapped: set<int>, less: set<int>)
    requires Accounted(segs, direct, b, mapped) && less <= b.leaked
    ensures Accounted(segs, direct, b.(leaked := b.leaked - less), mapped - less)
            && |mapped - less| == |mapped| - |less|
  {
    hide SegsHeld, DirectsHeld;
    MinusCardinality(mapped, less);
  }

  /** Pages not in use become the region of a chunk. */
  lemma ToDirect(segs: seq<Seg>, direct: map<Addr, Region>, b: Ledger, mapped: set<int>, p: Addr, r: Region)
    requires Accounted(segs, direct, b, mapped) && p !in direct && Aligned(r.base, r.size) && RegionPages(r) <= b.leaked
    ensures Accounted(segs, direct[p := r], b.(direct := b.direct + RegionPages(r),
            leaked := b.leaked - RegionPages(r)), mapped)
  {
    hide SegsHeld, DirectsHeld, Aligned, RegionPages;
    AddedHeld(direct, b.direct, p, r);
  }

  lemma FromDirect(segs: seq<Seg>, direct: map<Addr, Region>, b: Ledger, mapped: set<int>, p: Addr)
    requires Accounted(segs, direct, b, mapped) && p in direct
    ensures var less := RegionPages(direct[p]);
            Accounted(segs, direct - {p}, b.(direct := b.direct - less, leaked := b.leaked + less), mapped)
    ensures Aligned(direct[p].base, direct[p].size)
  {
    hide SegsHeld, DirectsHeld, Aligned, RegionPages;
    DroppedHeld(direct, b.direct, p);
  }

  /** Pages not in use become part of a segment. */
  lemma ToSegs(segs: seq<Seg>, segs': seq<Seg>, direct: map<Addr, Region>, b: Ledger, mapped: set<int>, more: set<int>)
    requires Accounted(segs, direct, b, mapped) && more <= b.leaked && SegsHeld(segs', b.segs + more)
    ensures Accounted(segs', direct, b.(segs := b.segs + more, leaked := b.leaked - more), mapped)
  {
    hide SegsHeld, DirectsHeld;
  }

  // ----- what the footprint adds up to -----

  function SegBytes(segs: seq<Seg>): nat {
    if segs == [] then 0 else SegBytes(segs[..|segs| - 1]) + segs[|segs| - 1].size
  }

  ghost function DirectBytes(direct: map<Addr, Region>): nat
    decreases |direct.Keys|
  {
    if exists p: Addr :: p in direct then
      var p: Addr :| p in direct;
      assert (direct - {p}).Keys == direct.Keys - {p};
      direct[p].size + DirectBytes(direct - {p})
    else 0
  }

  lemma {:induction false} SegBytesHeld(segs: seq<Seg>, mine: set<int>)
    requires SegsHeld(segs, mine)
    ensures SegBytes(segs) == PAGE * |mine|
    decreases |segs|
  {
    if segs == [] {
      forall k
        ensures k !in mine
      {
        if k in mine {
          HeldBySeg(segs, mine, k);
        }
      }
    } else {
      var n := |segs| - 1;
      WithoutHeld(segs, mine, n);
      assert WithoutSeg(segs, n) == segs[..n];
      SegBytesHeld(segs[..n], mine - SegPages(segs[n]));
      assert SegHeld(segs[n], mine);
      PagesCardinality(segs[n].base, segs[n].size);
      MinusCardinality(mine, SegPages(segs[n]));
    }
  }

  lemma {:induction false} DirectBytesHeld(direct: map<Addr, Region>, mine: set<int>)
    requires DirectsHeld(direct, mine)
    ensures DirectBytes(direct) == PAGE * |mine|
    decreases |direct.Keys|
  {
    hide Pages, DirectsHeld;
    if forall p: Addr :: p !in direct {
      NoDirects(direct, mine);
    } else {
      var p: Addr :| p in direct && DirectBytes(direct) == direct[p].size + DirectBytes(direct - {p});
      assert (direct - {p}).Keys == direct.Keys - {p};
      DroppedHeld(direct, mine, p);
      DirectBytesHeld(direct - {p}, mine - RegionPages(direct[p]));
      PagesCardinality(direct[p].base, direct[p].size);
      MinusCardinality(mine, RegionPages(direct[p]));
    }
  }

  lemma NoDirects(direct: map<Addr, Region>, mine: set<int>)
    requires DirectsHeld(direct, mine) && forall p: Addr :: p !in direct
    ensures mine == {}
  {
    forall k
      ensures k !in mine
    {
      if k in mine {
        HeldByRegion(direct, mine, k);
      }
    }
  }

  lemma HeldByRegion(direct: map<Addr, Region>, mine: set<int>, k: int)
    requires DirectsHeld(direct, mine) && k in mine
    ensures InSomeRegion(direct, k)
  {
    assert InSomeRegion(direct, k);
  }

  lemma HeldBySeg(segs: seq<Seg>, mine: set<int>, k: int)
    requires SegsHeld(segs, mine) && k in mine
    ensures InSomeSeg(segs, k)
  {
    assert InSomeSeg(segs, k);
  }

  /** Mapped bytes are the bytes of the segments, of the directly mapped regions, and of the pages munmap refused. */
  lemma MappedBytes(segs: seq<Seg>, direct: map<Addr, Region>, b: Ledger, mapped: set<int>)
    requires Accounted(segs, direct, b, mapped)
    ensures PAGE * |mapped| == SegBytes(segs) + DirectBytes(direct) + PAGE * |b.leaked|
  {
    SegBytesHeld(segs, b.segs);
    DirectBytesHeld(direct, b.direct);
    assert |mapped| == |b.segs + b.direct| + |b.leaked|;
    assert |b.segs + b.direct| == |b.segs| + |b.direct|;
  }
}
