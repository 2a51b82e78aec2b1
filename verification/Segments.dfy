/** Where the chunks of an mspace lie: each chunk inside one segment, each segment tiled from its base. */
module Segments {
  import opened Sizes
  import opened Chunks
  import opened System

  const TOP_FOOT_SIZE: nat := 80
  const SEGMENT_CHUNK: nat := 48

  /** A segment record: base and size, and the address rec at which the record itself is kept. */
  datatype Seg = Seg(base: Addr, size: nat, rec: Addr)

  function End(s: Seg): Addr {
    s.base + s.size
  }

  /** The in-use chunk at the tail of an older segment that holds its record; a fencepost follows it. */
  function RecordChunk(s: Seg): Addr {
    s.rec - 16
  }

  function Fence(s: Seg): Addr {
    s.rec + 32
  }

  /** The address at which the chunks of segment i stop. */
  function Limit(segs: seq<Seg>, t: Tiling, i: nat): Addr
    requires i < |segs| && t.top in t.ck
  {
    if i == 0 then t.top + t.ck[t.top] else Fence(segs[i])
  }

  ghost predicate SegOk(segs: seq<Seg>, t: Tiling, i: nat)
    requires i < |segs|
  {
    var s := segs[i];
    && Aligned(s.base, s.size) && s.base in t.ck && t.top in t.ck
    && (i == 0 ==> s.base <= t.top && t.top + t.ck[t.top] + TOP_FOOT_SIZE == End(s))
    && (i > 0 ==>
          && s.base <= RecordChunk(s) && Fence(s) + 32 <= End(s) && Fence(s) in t.ends
          && RecordChunk(s) in t.ck && RecordChunk(s) in t.used && t.ck[RecordChunk(s)] == SEGMENT_CHUNK)
  }

  ghost predicate InSeg(segs: seq<Seg>, t: Tiling, p: Addr, i: nat)
    requires i < |segs|
  {
    p in t.ck && t.top in t.ck && segs[i].base <= p && Next(t, p) <= Limit(segs, t, i)
  }

  ghost predicate Placed(segs: seq<Seg>, t: Tiling, p: Addr) {
    exists i: nat :: i < |segs| && InSeg(segs, t, p, i)
  }

  ghost predicate FencePlaced(segs: seq<Seg>, e: Addr) {
    exists i: nat :: 0 < i < |segs| && Fence(segs[i]) == e
  }

  ghost predicate SegsApart(segs: seq<Seg>) {
    forall i: nat, j: nat :: i < j < |segs| ==> End(segs[i]) <= segs[j].base || End(segs[j]) <= segs[i].base
  }

  ghost predicate SegsOk(segs: seq<Seg>, t: Tiling) {
    && |segs| > 0 && SegsApart(segs)
    && (forall i: nat :: i < |segs| ==> SegOk(segs, t, i))
    && (forall p: Addr {:trigger Placed(segs, t, p)} :: p in t.ck ==> Placed(segs, t, p))
    && (forall e: Addr {:trigger FencePlaced(segs, e)} :: e in t.ends ==> FencePlaced(segs, e))
  }

  lemma LimitInside(segs: seq<Seg>, t: Tiling, i: nat)
    requires i < |segs| && SegOk(segs, t, i)
    ensures Limit(segs, t, i) + 16 <= End(segs[i])
  {
  }

  /** An address belongs to one segment at most. */
  lemma OneSeg(segs: seq<Seg>, i: nat, j: nat, x: Addr)
    requires SegsApart(segs) && i < |segs| && j < |segs|
    requires segs[i].base <= x < End(segs[i]) && segs[j].base <= x < End(segs[j])
    ensures i == j
  {
  }

  /** The chunk behind a chunk is in the same segment. */
  lemma NextInSeg(segs: seq<Seg>, t: Tiling, p: Addr, i: nat)
    requires SegsOk(segs, t) && i < |segs| && InSeg(segs, t, p, i) && Next(t, p) in t.ck && t.ck[p] > 0
             && t.ck[Next(t, p)] > 0
    ensures InSeg(segs, t, Next(t, p), i)
  {
    var n := Next(t, p);
    assert Placed(segs, t, n);
    var j: nat :| j < |segs| && InSeg(segs, t, n, j);
    LimitInside(segs, t, i);
    LimitInside(segs, t, j);
    OneSeg(segs, i, j, n);
  }

  /** What SegsOk says of all bases, records and of top, without SegOk. */
  lemma SegFacts(segs: seq<Seg>, t: Tiling)
    requires SegsOk(segs, t)
    ensures |segs| > 0 && t.top in t.ck && segs[0].base <= t.top < End(segs[0]) && InSeg(segs, t, t.top, 0)
    ensures forall j: nat :: j < |segs| ==> segs[j].base in t.ck
    ensures forall j: nat :: 0 < j < |segs| ==>
              var c := RecordChunk(segs[j]); c in t.ck && c in t.used && t.ck[c] == SEGMENT_CHUNK
  {
    assert SegOk(segs, t, 0);
    forall j: nat | j < |segs|
      ensures segs[j].base in t.ck
      ensures j > 0 ==> var c := RecordChunk(segs[j]); c in t.ck && c in t.used && t.ck[c] == SEGMENT_CHUNK
    {
      assert SegOk(segs, t, j);
    }
  }

  // ----- splitting and merging stay inside a segment -----

  /** Rearranging the chunks of segment i keeps the segments, if bases, records and the end of top stay. */
  lemma RearrangeKeepsSegs(segs: seq<Seg>, t: Tiling, t': Tiling, i: nat)
    requires SegsOk(segs, t) && i < |segs| && t'.ends == t.ends
    requires t.top in t.ck && t'.top in t'.ck && t'.top + t'.ck[t'.top] == t.top + t.ck[t.top] && segs[0].base <= t'.top
    requires forall j: nat :: j < |segs| ==> segs[j].base in t'.ck
    requires forall j: nat :: 0 < j < |segs| ==>
               var c := RecordChunk(segs[j]); c in t'.ck && c in t'.used && t'.ck[c] == SEGMENT_CHUNK
    requires forall q: Addr :: q in t'.ck ==>
               (q in t.ck && t'.ck[q] == t.ck[q]) || (segs[i].base <= q && q + t'.ck[q] <= Limit(segs, t, i))
    ensures SegsOk(segs, t')
  {
    forall q: Addr {:trigger Placed(segs, t', q)} | q in t'.ck
      ensures Placed(segs, t', q)
    {
      if q in t.ck && t'.ck[q] == t.ck[q] {
        assert Placed(segs, t, q);
        var j: nat :| j < |segs| && InSeg(segs, t, q, j);
        assert InSeg(segs, t', q, j);
      } else {
        assert InSeg(segs, t', q, i);
      }
    }
    forall j: nat | j < |segs|
      ensures SegOk(segs, t', j)
    {
      assert SegOk(segs, t, j);
    }
  }

  /** Taking a free chunk, whole or its front, keeps the segments. */
  lemma TakeKeepsSegs(segs: seq<Seg>, t: Tiling, p: Addr)
    requires SegsOk(segs, t) && p in t.ck
    ensures SegsOk(segs, t.(used := t.used + {p}))
  {
    assert Placed(segs, t, p);
    var i: nat :| i < |segs| && InSeg(segs, t, p, i);
    SegFacts(segs, t);
    RearrangeKeepsSegs(segs, t, t.(used := t.used + {p}), i);
  }

  lemma SplitKeepsSegs(segs: seq<Seg>, t: Tiling, p: Addr, nb: nat, rsize: nat)
    requires SegsOk(segs, t) && Apart(t.ck, t.top, t.ends) && CanSplit(t, p, nb, rsize)
    ensures p != t.top ==> SegsOk(segs, SplitTiling(t, p, nb, rsize))
    ensures p == t.top ==> SegsOk(segs, SplitTiling(t, p, nb, rsize).(top := p + nb))
  {
    assert Placed(segs, t, p);
    var i: nat :| i < |segs| && InSeg(segs, t, p, i);
    assert p + nb !in t.ck;
    SegFacts(segs, t);
    var t' := SplitTiling(t, p, nb, rsize);
    RearrangeKeepsSegs(segs, t, if p == t.top then t'.(top := p + nb) else t', i);
  }

  /** The chunks of a run that lies in segment i hold no base, so merging them keeps the segments. */
  lemma MergeKeepsSegs(segs: seq<Seg>, t: Tiling, a: Addr, b: Addr, dead: set<Addr>, i: nat)
    requires SegsOk(segs, t) && Run(t, a, b, dead) && i < |segs| && InSeg(segs, t, a, i) && b <= Limit(segs, t, i)
    requires forall j: nat :: 0 < j < |segs| ==> RecordChunk(segs[j]) != a && RecordChunk(segs[j]) !in dead
    ensures a != t.top && t.top !in dead ==> SegsOk(segs, MergeTiling(t, a, b, dead))
    ensures t.top in dead && b == t.top + t.ck[t.top] ==> SegsOk(segs, MergeTopTiling(t, a, b, dead))
  {
    SegFacts(segs, t);
    assert SegOk(segs, t, i);
    LimitInside(segs, t, i);
    forall j: nat | j < |segs|
      ensures segs[j].base !in dead
    {
      if segs[j].base in dead {
        OneSeg(segs, i, j, segs[j].base);
      }
    }
    if a != t.top && t.top !in dead {
      RearrangeKeepsSegs(segs, t, MergeTiling(t, a, b, dead), i);
    } else if t.top in dead && b == t.top + t.ck[t.top] {
      OneSeg(segs, i, 0, t.top);
      RearrangeKeepsSegs(segs, t, MergeTopTiling(t, a, b, dead), i);
    }
  }
}
