/** Segments when memory comes and goes. */
module SegmentGrowth {
  import opened Sizes
  import opened Chunks
  import opened ChunkGrowth
  import opened Segments
  import opened System

  /** Chunks have a size, and lie on one side of another one. */
  lemma ChunkFacts(w: Words, t: Tiling, p: Addr, q: Addr)
    requires Tagged(w, t) && p in t.ck && q in t.ck
    ensures p > 0 && p % 8 == 0 && t.ck[p] % 8 == 0 && t.ck[p] > 0 && t.ck[q] > 0
    ensures p == q || p + t.ck[p] <= q || q + t.ck[q] <= p
  {
    assert ChunkOk(w, t, p) && ChunkOk(w, t, q);
  }

  /** A chunk lies in the segment whose range holds it. */
  lemma ChunkSeg(segs: seq<Seg>, t: Tiling, q: Addr, j: nat)
    requires SegsOk(segs, t) && q in t.ck && t.ck[q] > 0 && j < |segs| && segs[j].base <= q < End(segs[j])
    ensures InSeg(segs, t, q, j)
  {
    assert Placed(segs, t, q);
    var i: nat :| i < |segs| && InSeg(segs, t, q, i);
    assert SegOk(segs, t, i);
    LimitInside(segs, t, i);
    OneSeg(segs, i, j, q);
  }

  /** A fencepost in the range of a segment is the one behind its record. */
  lemma FenceSeg(segs: seq<Seg>, t: Tiling, e: Addr, j: nat)
    requires SegsOk(segs, t) && e in t.ends && j < |segs| && segs[j].base <= e < End(segs[j])
    ensures j > 0 && e == Fence(segs[j])
  {
    assert FencePlaced(segs, e);
    var i: nat :| 0 < i < |segs| && Fence(segs[i]) == e;
    assert SegOk(segs, t, i);
    OneSeg(segs, i, j, e);
  }

  /** A chunk stays clear of any range that is apart from its segment. */
  lemma ChunkClear(segs: seq<Seg>, t: Tiling, q: Addr, lo: Addr, hi: Addr)
    requires SegsOk(segs, t) && q in t.ck && lo < hi
    requires forall i: nat :: i < |segs| ==> End(segs[i]) <= lo || hi <= segs[i].base
    ensures Next(t, q) < lo || hi <= q
  {
    assert Placed(segs, t, q);
    var i: nat :| i < |segs| && InSeg(segs, t, q, i);
    assert SegOk(segs, t, i);
    LimitInside(segs, t, i);
  }

  lemma FenceClear(segs: seq<Seg>, t: Tiling, e: Addr, lo: Addr, hi: Addr)
    requires SegsOk(segs, t) && e in t.ends && lo < hi
    requires forall i: nat :: i < |segs| ==> End(segs[i]) <= lo || hi <= segs[i].base
    ensures e < lo || hi <= e
  {
    assert FencePlaced(segs, e);
    var i: nat :| 0 < i < |segs| && Fence(segs[i]) == e;
    assert SegOk(segs, t, i);
  }

  // ----- cutting a chunk in use -----

  lemma CutKeepsSegs(segs: seq<Seg>, t: Tiling, p: Addr, lead: nat, rest: nat)
    requires SegsOk(segs, t) && Apart(t.ck, t.top, t.ends) && CanCut(t, p, lead, rest) && p != t.top
    requires forall j: nat :: 0 < j < |segs| ==> RecordChunk(segs[j]) != p
    ensures SegsOk(segs, CutTiling(t, p, lead, rest))
  {
    assert Placed(segs, t, p);
    var i: nat :| i < |segs| && InSeg(segs, t, p, i);
    assert p + lead !in t.ck;
    SegFacts(segs, t);
    RearrangeKeepsSegs(segs, t, CutTiling(t, p, lead, rest), i);
  }

  // ----- resizing top and its segment -----

  function ResizedSegs(segs: seq<Seg>, size: nat): seq<Seg>
    requires |segs| > 0
  {
    segs[0 := segs[0].(size := size)]
  }

  ghost predicate CanResize(segs: seq<Seg>, t: Tiling, s: nat, size: nat) {
    && |segs| > 0 && s > 0 && s % 8 == 0 && Aligned(segs[0].base, size)
       && segs[0].base + size == t.top + s + TOP_FOOT_SIZE
    && SegsApart(ResizedSegs(segs, size))
  }

  lemma ResizeClear(w: Words, segs: seq<Seg>, t: Tiling, s: nat, size: nat)
    requires Tagged(w, t) && SegsOk(segs, t) && CanResize(segs, t, s, size)
    ensures ClearAbove(t, t.top + s)
  {
    var segs' := ResizedSegs(segs, size);
    SegFacts(segs, t);
    assert ChunkOk(w, t, t.top);
    forall q: Addr | q in t.ck
      ensures q <= t.top || t.top + s < q
    {
      assert ChunkOk(w, t, q) && Placed(segs, t, q);
      var i: nat :| i < |segs| && InSeg(segs, t, q, i);
      assert SegOk(segs, t, i);
      LimitInside(segs, t, i);
      assert i > 0 ==> segs'[i] == segs[i];
      assert i > 0 ==> End(segs'[0]) <= segs'[i].base || End(segs'[i]) <= segs'[0].base;
    }
    forall e: Addr | e in t.ends
      ensures e < t.top || t.top + s < e
    {
      assert FencePlaced(segs, e);
      var i: nat :| 0 < i < |segs| && Fence(segs[i]) == e;
      assert SegOk(segs, t, i) && segs'[i] == segs[i];
      assert End(segs'[0]) <= segs'[i].base || End(segs'[i]) <= segs'[0].base;
    }
  }

  lemma ResizeKeepsSegs(w: Words, segs: seq<Seg>, t: Tiling, s: nat, size: nat)
    requires Tagged(w, t) && SegsOk(segs, t) && CanResize(segs, t, s, size)
    ensures SegsOk(ResizedSegs(segs, size), ResizeTopTiling(t, s))
  {
    var segs', t' := ResizedSegs(segs, size), ResizeTopTiling(t, s);
    SegFacts(segs, t);
    assert ChunkOk(w, t, t.top);
    forall q: Addr {:trigger Placed(segs', t', q)} | q in t'.ck
      ensures Placed(segs', t', q)
    {
      assert ChunkOk(w, t, q) && Placed(segs, t, q);
      var i: nat :| i < |segs| && InSeg(segs, t, q, i);
      assert i == 0 ==> q <= t.top;
      assert InSeg(segs', t', q, if q == t.top then 0 else i);
    }
    forall i: nat | i < |segs'|
      ensures SegOk(segs', t', i)
    {
      assert SegOk(segs, t, i);
      assert i > 0 ==> RecordChunk(segs[i]) != t.top;
    }
    forall e: Addr {:trigger FencePlaced(segs', e)} | e in t'.ends
      ensures FencePlaced(segs', e)
    {
      assert FencePlaced(segs, e);
      var i: nat :| 0 < i < |segs| && Fence(segs[i]) == e;
      assert Fence(segs'[i]) == e;
    }
  }

  // ----- memory in front of segment j -----

  function PrependedSegs(segs: seq<Seg>, j: nat, tbase: Addr, tsize: nat): seq<Seg>
    requires j < |segs|
  {
    segs[j := segs[j].(base := tbase, size := segs[j].size + tsize)]
  }

  ghost predicate CanPrependSeg(segs: seq<Seg>, j: nat, tbase: Addr, nb: nat, qsize: nat) {
    && j < |segs| && segs[j].base == tbase + nb + qsize && nb > 0 && qsize > 0
    && Aligned(tbase, segs[j].size + nb + qsize) && SegsApart(PrependedSegs(segs, j, tbase, nb + qsize))
  }

  /** No chunk in use or free lies before the first one of a segment, so its pinuse bit is set. */
  lemma BasePinuse(w: Words, segs: seq<Seg>, t: Tiling, j: nat)
    requires Tagged(w, t) && SegsOk(segs, t) && j < |segs|
    ensures segs[j].base in t.ck && segs[j].base in w.head && w.head[segs[j].base].pinuse
    ensures forall x: Addr :: x in t.ck ==> x + t.ck[x] != segs[j].base
  {
    SegFacts(segs, t);
    var b := segs[j].base;
    assert ChunkOk(w, t, b) && SegOk(segs, t, j);
    forall x: Addr | x in t.ck
      ensures x + t.ck[x] != b
    {
      assert ChunkOk(w, t, x) && Placed(segs, t, x);
      var i: nat :| i < |segs| && InSeg(segs, t, x, i);
      assert SegOk(segs, t, i);
      LimitInside(segs, t, i);
      if x + t.ck[x] == b {
        OneSeg(segs, i, j, b);
      }
    }
  }

  lemma PrependClear(w: Words, segs: seq<Seg>, t: Tiling, j: nat, tbase: Addr, nb: nat, qsize: nat)
    requires Tagged(w, t) && SegsOk(segs, t) && CanPrependSeg(segs, j, tbase, nb, qsize)
    requires nb % 8 == 0 && qsize % 8 == 0 && nb >= MIN_CHUNK_SIZE && qsize >= MIN_CHUNK_SIZE
    ensures CanPrepend(w, t, tbase, nb, qsize)
  {
    hide Tagged, SegsOk;
    BasePinuse(w, segs, t, j);
    BaseAligned(segs, t, j);
    PrependRoom(segs, j, tbase, nb, qsize);
    forall x: Addr | x in t.ck
      ensures tbase + nb + qsize <= x || x + t.ck[x] < tbase
    {
      ChunkClear(segs, t, x, tbase, segs[j].base);
    }
    forall e: Addr | e in t.ends
      ensures e < tbase || tbase + nb + qsize <= e
    {
      FenceClear(segs, t, e, tbase, segs[j].base);
    }
  }

  lemma BaseAligned(segs: seq<Seg>, t: Tiling, j: nat)
    requires SegsOk(segs, t) && j < |segs|
    ensures segs[j].base > 0 && segs[j].base % 8 == 0
  {
    hide Aligned;
    assert SegOk(segs, t, j);
    AlignedEight(segs[j].base, segs[j].size);
  }

  lemma PrependRoom(segs: seq<Seg>, j: nat, tbase: Addr, nb: nat, qsize: nat)
    requires CanPrependSeg(segs, j, tbase, nb, qsize)
    ensures forall i: nat :: i < |segs| ==> End(segs[i]) <= tbase || segs[j].base <= segs[i].base
    ensures tbase > 0 && tbase % 8 == 0
  {
    hide Aligned;
    AlignedEight(tbase, segs[j].size + nb + qsize);
    var segs' := PrependedSegs(segs, j, tbase, nb + qsize);
    forall i: nat | i < |segs|
      ensures End(segs[i]) <= tbase || segs[j].base <= segs[i].base
    {
      if i != j {
        assert segs'[i] == segs[i];
        assert End(segs'[i]) <= segs'[j].base || End(segs'[j]) <= segs'[i].base;
      }
    }
  }

  lemma PrependSegOk(w: Words, segs: seq<Seg>, t: Tiling, j: nat, tbase: Addr, nb: nat, qsize: nat, i: nat)
    requires CanPrependSeg(segs, j, tbase, nb, qsize) && CanPrepend(w, t, tbase, nb, qsize) && i < |segs|
             && SegOk(segs, t, i)
    ensures SegOk(PrependedSegs(segs, j, tbase, nb + qsize), PrependTiling(t, tbase, nb, qsize), i)
  {
  }

  lemma PrependPlaced(w: Words, segs: seq<Seg>, t: Tiling, j: nat, tbase: Addr, nb: nat, qsize: nat, q: Addr, i: nat)
    requires CanPrependSeg(segs, j, tbase, nb, qsize) && CanPrepend(w, t, tbase, nb, qsize)
    requires i < |segs| && q in t.ck && InSeg(segs, t, q, i)
    ensures InSeg(PrependedSegs(segs, j, tbase, nb + qsize), PrependTiling(t, tbase, nb, qsize), q, i)
    ensures q == segs[j].base && i == j && t.ck[q] > 0 ==>
              && InSeg(PrependedSegs(segs, j, tbase, nb + qsize), PrependTiling(t, tbase, nb, qsize), tbase, j)
              && InSeg(PrependedSegs(segs, j, tbase, nb + qsize), PrependTiling(t, tbase, nb, qsize), tbase + nb, j)
  {
  }

  lemma PrependKeepsSegs(w: Words, segs: seq<Seg>, t: Tiling, j: nat, tbase: Addr, nb: nat, qsize: nat)
    requires Tagged(w, t) && SegsOk(segs, t) && CanPrependSeg(segs, j, tbase, nb, qsize)
             && CanPrepend(w, t, tbase, nb, qsize)
    ensures SegsOk(PrependedSegs(segs, j, tbase, nb + qsize), PrependTiling(t, tbase, nb, qsize))
  {
    hide Tagged, CanPrepend, SegOk, InSeg;
    var segs', t' := PrependedSegs(segs, j, tbase, nb + qsize), PrependTiling(t, tbase, nb, qsize);
    forall i: nat | i < |segs'|
      ensures SegOk(segs', t', i)
    {
      PrependSegOk(w, segs, t, j, tbase, nb, qsize, i);
    }
    var b := segs[j].base;
    FirstChunk(w, segs, t, j);
    PrependPlaced(w, segs, t, j, tbase, nb, qsize, b, j);
    forall q: Addr {:trigger Placed(segs', t', q)} | q in t'.ck
      ensures Placed(segs', t', q)
    {
      if q != tbase && q != tbase + nb {
        assert Placed(segs, t, q);
        var i: nat :| i < |segs| && InSeg(segs, t, q, i);
        PrependPlaced(w, segs, t, j, tbase, nb, qsize, q, i);
      }
    }
    forall e: Addr {:trigger FencePlaced(segs', e)} | e in t'.ends
      ensures FencePlaced(segs', e)
    {
      assert FencePlaced(segs, e);
      var i: nat :| 0 < i < |segs| && Fence(segs[i]) == e;
      assert Fence(segs'[i]) == e;
    }
  }

  lemma FirstChunk(w: Words, segs: seq<Seg>, t: Tiling, j: nat)
    requires Tagged(w, t) && SegsOk(segs, t) && j < |segs|
    ensures segs[j].base in t.ck && t.ck[segs[j].base] > 0 && InSeg(segs, t, segs[j].base, j)
  {
    assert SegOk(segs, t, j);
    assert ChunkOk(w, t, segs[j].base);
    LimitInside(segs, t, j);
    ChunkSeg(segs, t, segs[j].base, j);
  }

  // ----- a new segment in front of the list; the old head keeps its record at csp -----

  function PushedSegs(segs: seq<Seg>, csp: Addr, tbase: Addr, tsize: nat): seq<Seg>
    requires |segs| > 0
  {
    [Seg(tbase, tsize, 0), segs[0].(rec := csp + 16)] + segs[1..]
  }

  ghost predicate CanPush(segs: seq<Seg>, t: Tiling, csp: Addr, tbase: Addr, tsize: nat) {
    && |segs| > 0 && t.top in t.ck && Aligned(tbase, tsize) && tsize > TOP_FOOT_SIZE + 16
    && (forall i: nat :: i < |segs| ==> End(segs[i]) <= tbase || tbase + tsize <= segs[i].base)
    && (csp == t.top || csp >= t.top + MIN_CHUNK_SIZE) && csp % 8 == 0 && csp + SEGMENT_CHUNK + 32 <= End(segs[0])
  }

  lemma PushClear(w: Words, segs: seq<Seg>, t: Tiling, csp: Addr, tbase: Addr, tsize: nat)
    requires Tagged(w, t) && SegsOk(segs, t) && CanPush(segs, t, csp, tbase, tsize)
    ensures CanRetire(t, csp, SEGMENT_CHUNK, End(segs[0]), tbase, tsize - TOP_FOOT_SIZE, tbase + tsize)
  {
    hide Tagged, SegsOk, InSeg, Aligned;
    SegFacts(segs, t);
    AlignedEight(tbase, tsize);
    assert End(segs[0]) <= tbase || tbase + tsize <= segs[0].base;
    forall x: Addr | x in t.ck
      ensures x <= t.top || End(segs[0]) <= x
      ensures x + t.ck[x] < tbase || tbase + tsize <= x
    {
      if t.top < x < End(segs[0]) {
        NoneAboveTop(w, segs, t, x);
      }
      ChunkClear(segs, t, x, tbase, tbase + tsize);
    }
    forall e: Addr | e in t.ends
      ensures e < t.top || End(segs[0]) <= e
      ensures e < tbase || tbase + tsize <= e
    {
      if t.top <= e < End(segs[0]) {
        FenceSeg(segs, t, e, 0);
      }
      FenceClear(segs, t, e, tbase, tbase + tsize);
    }
  }

  lemma AlignedEight(base: Addr, size: nat)
    requires Aligned(base, size)
    ensures base > 0 && base % 8 == 0 && size % 8 == 0 && (size >= TOP_FOOT_SIZE ==> (size - TOP_FOOT_SIZE) % 8 == 0)
  {
    assert base == 8 * (512 * (base / PAGE)) && size == 8 * (512 * (size / PAGE));
  }

  lemma NoneAboveTop(w: Words, segs: seq<Seg>, t: Tiling, x: Addr)
    requires Tagged(w, t) && SegsOk(segs, t) && x in t.ck && segs[0].base <= x < End(segs[0])
    ensures x <= t.top
  {
    SegFacts(segs, t);
    ChunkFacts(w, t, x, t.top);
    ChunkSeg(segs, t, x, 0);
  }

  lemma PushApart(segs: seq<Seg>, t: Tiling, csp: Addr, tbase: Addr, tsize: nat)
    requires SegsApart(segs) && CanPush(segs, t, csp, tbase, tsize)
    ensures SegsApart(PushedSegs(segs, csp, tbase, tsize))
  {
    var segs' := PushedSegs(segs, csp, tbase, tsize);
    forall i: nat, j: nat | i < j < |segs'|
      ensures End(segs'[i]) <= segs'[j].base || End(segs'[j]) <= segs'[i].base
    {
      assert segs[j - 1].base == segs'[j].base && End(segs[j - 1]) == End(segs'[j]);
      if i > 0 {
        assert segs[i - 1].base == segs'[i].base && End(segs[i - 1]) == End(segs'[i]);
      }
    }
  }

  lemma PushPlaced(w: Words, segs: seq<Seg>, t: Tiling, csp: Addr, tbase: Addr, tsize: nat, q: Addr, i: nat)
    requires CanPush(segs, t, csp, tbase, tsize) && q in t.ck && q != t.top && i < |segs| && InSeg(segs, t, q, i)
    requires CanRetire(t, csp, SEGMENT_CHUNK, End(segs[0]), tbase, tsize - TOP_FOOT_SIZE, tbase + tsize)
    requires q + t.ck[q] <= t.top || t.top + t.ck[t.top] <= q
    requires t.top + t.ck[t.top] + TOP_FOOT_SIZE == End(segs[0]) && t.ck[q] > 0
    ensures InSeg(PushedSegs(segs, csp, tbase, tsize), RetireTiling(t, csp, SEGMENT_CHUNK, tbase,
            tsize - TOP_FOOT_SIZE), q, i + 1)
  {
    var segs' := PushedSegs(segs, csp, tbase, tsize);
    assert i > 0 ==> segs'[i + 1] == segs[i];
  }

  lemma PushSegOk(segs: seq<Seg>, t: Tiling, csp: Addr, tbase: Addr, tsize: nat, i: nat)
    requires CanPush(segs, t, csp, tbase, tsize) && 0 < i < |segs| && SegOk(segs, t, i)
    requires CanRetire(t, csp, SEGMENT_CHUNK, End(segs[0]), tbase, tsize - TOP_FOOT_SIZE, tbase + tsize)
    requires t.top !in t.used
    ensures SegOk(PushedSegs(segs, csp, tbase, tsize), RetireTiling(t, csp, SEGMENT_CHUNK, tbase,
            tsize - TOP_FOOT_SIZE), i + 1)
  {
    var segs' := PushedSegs(segs, csp, tbase, tsize);
    assert segs'[i + 1] == segs[i];
  }

  lemma PushNew(segs: seq<Seg>, t: Tiling, csp: Addr, tbase: Addr, tsize: nat)
    requires CanPush(segs, t, csp, tbase, tsize) && |segs| > 0 && SegOk(segs, t, 0)
    requires CanRetire(t, csp, SEGMENT_CHUNK, End(segs[0]), tbase, tsize - TOP_FOOT_SIZE, tbase + tsize)
    ensures var segs', t' := PushedSegs(segs, csp, tbase, tsize),
            RetireTiling(t, csp, SEGMENT_CHUNK, tbase, tsize - TOP_FOOT_SIZE);
            && SegOk(segs', t', 0) && SegOk(segs', t', 1)
            && InSeg(segs', t', tbase, 0) && InSeg(segs', t', csp, 1) && InSeg(segs', t', t.top, 1)
  {
  }

  lemma PushKeepsSegs(w: Words, segs: seq<Seg>, t: Tiling, csp: Addr, tbase: Addr, tsize: nat)
    requires Tagged(w, t) && SegsOk(segs, t) && tsize >= TOP_FOOT_SIZE && CanPush(segs, t, csp, tbase, tsize)
    requires CanRetire(t, csp, SEGMENT_CHUNK, End(segs[0]), tbase, tsize - TOP_FOOT_SIZE, tbase + tsize)
    ensures SegsOk(PushedSegs(segs, csp, tbase, tsize), RetireTiling(t, csp, SEGMENT_CHUNK, tbase,
            tsize - TOP_FOOT_SIZE))
  {
    hide InSeg, SegsApart, CanRetire, CanPush, Tagged;
    var segs', t' := PushedSegs(segs, csp, tbase, tsize), RetireTiling(t, csp, SEGMENT_CHUNK, tbase,
        tsize - TOP_FOOT_SIZE);
    SegFacts(segs, t);
    PushApart(segs, t, csp, tbase, tsize);
    assert SegOk(segs, t, 0);
    PushNew(segs, t, csp, tbase, tsize);
    forall i: nat | i < |segs'|
      ensures SegOk(segs', t', i)
    {
      if i > 1 {
        assert SegOk(segs, t, i - 1);
        TopUnused(w, t);
        PushSegOk(segs, t, csp, tbase, tsize, i - 1);
      }
    }
    forall q: Addr {:trigger Placed(segs', t', q)} | q in t'.ck
      ensures Placed(segs', t', q)
    {
      if q != tbase && q != csp && q != t.top {
        assert Placed(segs, t, q);
        var i: nat :| i < |segs| && InSeg(segs, t, q, i);
        ChunkFacts(w, t, q, t.top);
        PushPlaced(w, segs, t, csp, tbase, tsize, q, i);
      }
    }
    forall e: Addr {:trigger FencePlaced(segs', e)} | e in t'.ends
      ensures FencePlaced(segs', e)
    {
      if e == csp + SEGMENT_CHUNK {
        assert Fence(segs'[1]) == e;
      } else {
        assert FencePlaced(segs, e);
        var i: nat :| 0 < i < |segs| && Fence(segs[i]) == e;
        assert segs'[i + 1] == segs[i];
      }
    }
  }

  lemma TopUnused(w: Words, t: Tiling)
    requires Tagged(w, t)
    ensures t.top in t.ck && t.top !in t.used
  {
    assert ChunkOk(w, t, t.top);
  }

  // ----- a segment leaves the list -----

  function WithoutSeg(segs: seq<Seg>, j: nat): seq<Seg>
    requires j < |segs|
  {
    segs[..j] + segs[j + 1..]
  }

  /** Segment j consists of a free chunk and its record. */
  ghost predicate CanDropSeg(segs: seq<Seg>, t: Tiling, j: nat) {
    && 0 < j < |segs| && segs[j].base in t.ck && segs[j].base !in t.used && segs[j].base != t.top
    && Next(t, segs[j].base) == RecordChunk(segs[j])
  }

  lemma DropClear(w: Words, segs: seq<Seg>, t: Tiling, j: nat)
    requires Tagged(w, t) && SegsOk(segs, t) && CanDropSeg(segs, t, j)
    ensures CanDrop(t, segs[j].base, RecordChunk(segs[j]), Fence(segs[j]))
    ensures forall q: Addr :: q in t.ck && segs[j].base <= q < End(segs[j]) ==> q == segs[j].base
                                                                                || q == RecordChunk(segs[j])
  {
    SegFacts(segs, t);
    assert SegOk(segs, t, j) && ChunkOk(w, t, t.top);
    BasePinuse(w, segs, t, j);
    forall q: Addr | q in t.ck && segs[j].base <= q < End(segs[j])
      ensures q == segs[j].base || q == RecordChunk(segs[j])
    {
      assert ChunkOk(w, t, q);
      ChunkSeg(segs, t, q, j);
    }
  }

  lemma DropSegOk(w: Words, segs: seq<Seg>, t: Tiling, j: nat, k: nat)
    requires CanDropSeg(segs, t, j) && SegsApart(segs) && SegOk(segs, t, j) && k < |segs| && k != j && SegOk(segs, t, k)
    requires segs[0].base <= t.top < End(segs[0])
    ensures SegOk(WithoutSeg(segs, j), DropTiling(t, segs[j].base, RecordChunk(segs[j]), Fence(segs[j])),
            if k < j then k else k - 1)
  {
    var i := if k < j then k else k - 1;
    assert WithoutSeg(segs, j)[i] == segs[k];
    assert End(segs[j]) <= segs[k].base || End(segs[k]) <= segs[j].base;
    assert k == 0 ==> i == 0;
    assert End(segs[j]) <= segs[0].base || End(segs[0]) <= segs[j].base;
  }

  lemma DropPlaced(w: Words, segs: seq<Seg>, t: Tiling, j: nat, k: nat, q: Addr)
    requires CanDropSeg(segs, t, j) && SegsApart(segs) && SegOk(segs, t, j) && k < |segs| && SegOk(segs, t, k)
    requires segs[0].base <= t.top < End(segs[0])
    requires q in t.ck && t.ck[q] > 0 && q != segs[j].base && q != RecordChunk(segs[j]) && InSeg(segs, t, q, k)
    requires segs[j].base <= q < End(segs[j]) ==> q == segs[j].base || q == RecordChunk(segs[j])
    ensures k != j
    ensures InSeg(WithoutSeg(segs, j), DropTiling(t, segs[j].base, RecordChunk(segs[j]), Fence(segs[j])), q,
            if k < j then k else k - 1)
  {
    LimitInside(segs, t, k);
    assert WithoutSeg(segs, j)[if k < j then k else k - 1] == segs[k];
    assert End(segs[j]) <= segs[0].base || End(segs[0]) <= segs[j].base;
  }

  lemma DropKeepsSegs(w: Words, segs: seq<Seg>, t: Tiling, j: nat)
    requires Tagged(w, t) && SegsOk(segs, t) && 0 < j < |segs| && CanDropSeg(segs, t, j)
    ensures SegsOk(WithoutSeg(segs, j), DropTiling(t, segs[j].base, RecordChunk(segs[j]), Fence(segs[j])))
  {
    hide InSeg, SegOk, CanDrop, CanDropSeg, Tagged;
    var segs', t' := WithoutSeg(segs, j), DropTiling(t, segs[j].base, RecordChunk(segs[j]), Fence(segs[j]));
    SegFacts(segs, t);
    DropClear(w, segs, t, j);
    assert SegOk(segs, t, j);
    forall i: nat | i < |segs'|
      ensures SegOk(segs', t', i)
    {
      assert SegOk(segs, t, if i < j then i else i + 1);
      DropSegOk(w, segs, t, j, if i < j then i else i + 1);
    }
    forall q: Addr {:trigger Placed(segs', t', q)} | q in t'.ck
      ensures Placed(segs', t', q)
    {
      assert Placed(segs, t, q);
      var k: nat :| k < |segs| && InSeg(segs, t, q, k);
      ChunkFacts(w, t, q, q);
      DropPlaced(w, segs, t, j, k, q);
    }
    forall e: Addr {:trigger FencePlaced(segs', e)} | e in t'.ends
      ensures FencePlaced(segs', e)
    {
      assert FencePlaced(segs, e);
      var k: nat :| 0 < k < |segs| && Fence(segs[k]) == e;
      assert segs'[if k < j then k else k - 1] == segs[k];
    }
  }
}
