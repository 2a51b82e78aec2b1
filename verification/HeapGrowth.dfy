/** The heap invariant when memory comes and goes, and for directly mapped chunks. */
module HeapGrowth {
  import opened Sizes
  import opened Chunks
  import opened ChunkGrowth
  import opened Segments
  import opened SegmentGrowth
  import opened System
  import opened Heaps

  // ----- a caller's chunk comes back into hand -----

  function LetGo(h: Heap, p: Addr): Heap {
    h.(held := h.held - {p}, loose := h.loose + {p})
  }

  lemma LetGoKeepsSound(h: Heap, p: Addr)
    requires Sound(h) && p in h.held
    ensures Sound(LetGo(h, p)) && p in h.t.ck && p in h.t.used && p != h.t.top && h.t.ck[p] == h.held[p]
    ensures ChunkOk(h.w, h.t, p) && Next(h.t, p) in h.w.foot && h.w.foot[Next(h.t, p)] == h.cookie && p !in h.loose
  {
    hide SegsOk, Directs;
    var h' := LetGo(h, p);
    assert OwnedAt(h, p) && ChunkOk(h.w, h.t, p);
    forall q: Addr {:trigger OwnedAt(h', q)}
      ensures OwnedAt(h', q)
    {
      assert OwnedAt(h, q);
      assert Reserved(h', q) == Reserved(h, q);
    }
    forall q: Addr {:trigger KeptAt(h', q)}
      ensures KeptAt(h', q)
    {
      assert KeptAt(h, q);
    }
    DirectsFrame(h, h');
  }

  // ----- a caller's chunk is cut in two -----

  function Cut(h: Heap, p: Addr, lead: nat): Heap
    requires p in h.held && lead <= h.held[p] && p in h.w.head && p + h.held[p] in h.w.head
  {
    var rest := h.held[p] - lead;
    h.(w := CutWords(h.w, p, lead, rest, h.cookie), t := CutTiling(h.t, p, lead, rest),
        held := h.held[p := lead][p + lead := rest])
  }

  lemma CutOwned(h: Heap, p: Addr, lead: nat)
    requires Owned(h) && Tagged(h.w, h.t) && p in h.held && lead <= h.held[p] && p in h.w.head
             && p + h.held[p] in h.w.head
    requires CanCut(h.t, p, lead, h.held[p] - lead) && p + lead !in h.t.ck && !Reserved(h, p) && !Reserved(h, p + lead)
    requires p !in h.loose && p + lead !in h.loose
    ensures Owned(Cut(h, p, lead))
  {
    var h' := Cut(h, p, lead);
    forall q: Addr {:trigger OwnedAt(h', q)}
      ensures OwnedAt(h', q)
    {
      assert OwnedAt(h, q);
      assert Reserved(h', q) == Reserved(h, q);
      assert q in h.t.ck ==> ChunkOk(h.w, h.t, q);
    }
  }

  lemma CutKept(h: Heap, p: Addr, lead: nat)
    requires Kept(h) && p in h.held && lead <= h.held[p] && p in h.w.head && p + h.held[p] in h.w.head
    requires p in h.t.ck && p in h.t.used && p + lead !in h.t.ck && p != h.t.top && h.t.top in h.t.ck && p + lead != p
    ensures Kept(Cut(h, p, lead))
  {
    var h' := Cut(h, p, lead);
    forall q: Addr {:trigger KeptAt(h', q)}
      ensures KeptAt(h', q)
    {
      assert KeptAt(h, q);
    }
  }

  lemma HeldFacts(h: Heap, p: Addr)
    requires Sound(h) && p in h.held
    ensures p in h.t.ck && p in h.t.used && h.t.ck[p] == h.held[p] && p != h.t.top && !Reserved(h, p) && p !in h.loose
    ensures ChunkOk(h.w, h.t, p) && Next(h.t, p) in h.w.foot && h.w.foot[Next(h.t, p)] == h.cookie
    ensures p !in h.small && p !in h.large && p !in h.victim
  {
    assert OwnedAt(h, p) && ChunkOk(h.w, h.t, p) && KeptAt(h, p);
  }

  lemma NotAChunk(h: Heap, q: Addr)
    requires Sound(h) && q !in h.t.ck
    ensures !Reserved(h, q) && q !in h.loose && q !in h.held
  {
    assert KeptAt(h, q) && OwnedAt(h, q);
    if Reserved(h, q) {
      ReservedIsUsed(h, q);
    }
  }

  lemma CutKeepsSound(h: Heap, p: Addr, lead: nat)
    requires Sound(h) && p in h.held && lead % 8 == 0 && MIN_CHUNK_SIZE <= lead <= h.held[p] - MIN_CHUNK_SIZE
    ensures p in h.w.head && p + h.held[p] in h.w.head && p + lead !in h.held && Sound(Cut(h, p, lead))
  {
    hide Kept, Owned, SegsOk, Directs, Reserved, Tagged;
    HeldFacts(h, p);
    var rest := h.held[p] - lead;
    TaggedFacts(h.w, h.t, p);
    CutKeepsTags(h.w, h.t, p, lead, rest, h.cookie);
    NotAChunk(h, p + lead);
    CutOwned(h, p, lead);
    CutKept(h, p, lead);
    NotARecord(h, p);
    CutKeepsSegs(h.segs, h.t, p, lead, rest);
    ChunkInside(h.segs, h.t, p, p);
    ChunkInside(h.segs, h.t, p, p + lead);
    ChunkInside(h.segs, h.t, p, p + lead + rest);
    DirectsFrame(h, Cut(h, p, lead));
  }

  lemma NotARecord(h: Heap, p: Addr)
    requires !Reserved(h, p)
    ensures forall j: nat :: 0 < j < |h.segs| ==> RecordChunk(h.segs[j]) != p
  {
  }

  // ----- directly mapped chunks and new segments -----

  function DirectEnd(r: Region): Addr {
    r.base + r.size - MMAP_FOOT_PAD
  }

  /** No directly mapped chunk lies in a segment. */
  ghost predicate Clear(segs: seq<Seg>, direct: map<Addr, Region>) {
    forall p: Addr :: p in direct ==>
      !Inside(segs, p) && !Inside(segs, DirectEnd(direct[p])) && !Inside(segs, DirectEnd(direct[p]) + 8)
  }

  lemma DirectsMove(h: Heap, h': Heap)
    requires Directs(h) && SameOutside(h'.segs, h.w, h'.w) && Clear(h'.segs, h.direct)
    requires h'.direct == h.direct && h'.cookie == h.cookie
    ensures Directs(h')
  {
    forall p: Addr {:trigger DirectAt(h', p)} | p in h'.direct
      ensures DirectAt(h', p)
    {
      assert DirectAt(h, p) && !Inside(h'.segs, DirectEnd(h.direct[p]) + 8);
    }
  }

  lemma SameReserved(h: Heap, h': Heap, q: Addr)
    requires h'.home == h.home && |h'.segs| == |h.segs| && forall j: nat :: j < |h.segs| ==>
                                                                            h'.segs[j].rec == h.segs[j].rec
    ensures Reserved(h', q) == Reserved(h, q)
  {
    if Reserved(h, q) && q != h.home {
      var j: nat :| 0 < j < |h.segs| && RecordChunk(h.segs[j]) == q;
      assert RecordChunk(h'.segs[j]) == q;
    }
  }

  // ----- top and its segment resized -----

  function Resize(h: Heap, s: nat, size: nat): Heap
    requires |h.segs| > 0
  {
    h.(w := ResizeTopWords(h.w, h.t.top, s), t := ResizeTopTiling(h.t, s), segs := ResizedSegs(h.segs, size))
  }

  lemma ResizeOwned(h: Heap, s: nat, size: nat)
    requires |h.segs| > 0 && Owned(h) && h.t.top !in h.t.used
    ensures Owned(Resize(h, s, size))
  {
    var h' := Resize(h, s, size);
    forall q: Addr {:trigger OwnedAt(h', q)}
      ensures OwnedAt(h', q)
    {
      assert OwnedAt(h, q);
      SameReserved(h, h', q);
    }
  }

  lemma ResizeKept(h: Heap, s: nat, size: nat)
    requires |h.segs| > 0 && Kept(h) && h.t.top in h.t.ck && h.t.top !in h.t.used
    ensures Kept(Resize(h, s, size))
  {
    var h' := Resize(h, s, size);
    forall q: Addr {:trigger KeptAt(h', q)}
      ensures KeptAt(h', q)
    {
      assert KeptAt(h, q);
    }
  }

  lemma ResizeKeepsSound(h: Heap, s: nat, size: nat)
    requires Sound(h) && CanResize(h.segs, h.t, s, size) && Clear(ResizedSegs(h.segs, size), h.direct)
    ensures Sound(Resize(h, s, size))
  {
    hide Kept, Owned, SegsOk, Directs, Reserved, Tagged;
    TopIsFree(h);
    ResizeClear(h.w, h.segs, h.t, s, size);
    ResizeTopKeepsTags(h.w, h.t, s);
    ResizeKeepsSegs(h.w, h.segs, h.t, s, size);
    ResizeOwned(h, s, size);
    ResizeKept(h, s, size);
    SegFacts(h.segs, h.t);
    var h' := Resize(h, s, size);
    assert Inside(h'.segs, h.t.top) && Inside(h'.segs, h.t.top + s) by {
      assert h'.segs[0].base <= h.t.top < h.t.top + s < End(h'.segs[0]);
    }
    DirectsMove(h, h');
  }

  // ----- memory in front of a segment: p for the caller, the rest in hand -----

  function Prepend(h: Heap, j: nat, p: Addr, nb: nat, qsize: nat): Heap
    requires j < |h.segs|
  {
    h.(w := PrependWords(h.w, p, nb, qsize, h.cookie), t := PrependTiling(h.t, p, nb, qsize),
       segs := PrependedSegs(h.segs, j, p, nb + qsize), held := h.held[p := nb], loose := h.loose + {p + nb})
  }

  lemma PrependOwned(h: Heap, j: nat, p: Addr, nb: nat, qsize: nat)
    requires Owned(h) && j < |h.segs| && CanPrepend(h.w, h.t, p, nb, qsize) && h.t.used <= h.t.ck.Keys
    requires !Reserved(h, p) && !Reserved(h, p + nb) && p !in h.loose && p !in h.t.ck && p + nb !in h.t.ck
    ensures Owned(Prepend(h, j, p, nb, qsize))
  {
    var h' := Prepend(h, j, p, nb, qsize);
    forall q: Addr {:trigger OwnedAt(h', q)}
      ensures OwnedAt(h', q)
    {
      assert OwnedAt(h, q);
      SameReserved(h, h', q);
    }
  }

  lemma PrependKept(h: Heap, j: nat, p: Addr, nb: nat, qsize: nat)
    requires Kept(h) && j < |h.segs| && h.t.top in h.t.ck && p !in h.t.ck && p + nb !in h.t.ck && nb > 0
    ensures Kept(Prepend(h, j, p, nb, qsize))
  {
    var h' := Prepend(h, j, p, nb, qsize);
    forall q: Addr {:trigger KeptAt(h', q)}
      ensures KeptAt(h', q)
    {
      assert KeptAt(h, q);
    }
  }

  lemma PrependKeepsSound(h: Heap, j: nat, p: Addr, nb: nat, qsize: nat)
    requires Sound(h) && CanPrependSeg(h.segs, j, p, nb, qsize)
    requires nb % 8 == 0 && qsize % 8 == 0 && nb >= MIN_CHUNK_SIZE && qsize >= MIN_CHUNK_SIZE
    requires Clear(PrependedSegs(h.segs, j, p, nb + qsize), h.direct)
    ensures Sound(Prepend(h, j, p, nb, qsize)) && CanPrepend(h.w, h.t, p, nb, qsize)
    ensures p !in h.t.ck && p + nb !in h.t.ck && p !in h.held && p !in h.loose
  {
    hide Kept, Owned, SegsOk, Directs, Reserved, Tagged;
    TopIsFree(h);
    TaggedFacts(h.w, h.t, h.t.top);
    PrependClear(h.w, h.segs, h.t, j, p, nb, qsize);
    assert p !in h.t.ck && p + nb !in h.t.ck;
    PrependKeepsTags(h.w, h.t, p, nb, qsize, h.cookie);
    PrependKeepsSegs(h.w, h.segs, h.t, j, p, nb, qsize);
    NotAChunk(h, p);
    NotAChunk(h, p + nb);
    PrependOwned(h, j, p, nb, qsize);
    PrependKept(h, j, p, nb, qsize);
    var h' := Prepend(h, j, p, nb, qsize);
    assert Inside(h'.segs, p) && Inside(h'.segs, p + nb) by {
      assert h'.segs[j].base <= p < p + nb < End(h'.segs[j]);
    }
    DirectsMove(h, h');
  }

  // ----- a new segment; the rest of the old top, if any, is in hand -----

  function Push(h: Heap, w: Words, csp: Addr, tbase: Addr, tsize: nat): Heap
    requires |h.segs| > 0 && tsize >= TOP_FOOT_SIZE
  {
    h.(w := w, t := RetireTiling(h.t, csp, SEGMENT_CHUNK, tbase, tsize - TOP_FOOT_SIZE),
       segs := PushedSegs(h.segs, csp, tbase, tsize), loose := if csp == h.t.top then h.loose else h.loose + {h.t.top})
  }

  lemma PushReserved(h: Heap, w: Words, csp: Addr, tbase: Addr, tsize: nat, q: Addr)
    requires |h.segs| > 0 && tsize >= TOP_FOOT_SIZE
    ensures Reserved(Push(h, w, csp, tbase, tsize), q) <==> Reserved(h, q) || q == csp
  {
    var h' := Push(h, w, csp, tbase, tsize);
    if Reserved(h, q) && q != h.home {
      var j: nat :| 0 < j < |h.segs| && RecordChunk(h.segs[j]) == q;
      assert h'.segs[j + 1] == h.segs[j];
    }
    if q == csp {
      assert RecordChunk(h'.segs[1]) == csp;
    }
    if Reserved(h', q) && q != h.home {
      var j: nat :| 0 < j < |h'.segs| && RecordChunk(h'.segs[j]) == q;
      assert j > 1 ==> h'.segs[j] == h.segs[j - 1];
    }
  }

  /** The words of Push as far as owners are concerned. */
  ghost predicate PushWords(h: Heap, w: Words, csp: Addr, tbase: Addr, tsize: nat)
    requires |h.segs| > 0 && tsize >= TOP_FOOT_SIZE
  {
    Retired(h.w, w, h.t, csp, SEGMENT_CHUNK, End(h.segs[0]), tbase, tsize - TOP_FOOT_SIZE, tbase + tsize)
  }

  lemma PushOwnedAt(h: Heap, w: Words, csp: Addr, tbase: Addr, tsize: nat, q: Addr)
    requires |h.segs| > 0 && tsize >= TOP_FOOT_SIZE && PushWords(h, w, csp, tbase, tsize)
    requires CanRetire(h.t, csp, SEGMENT_CHUNK, End(h.segs[0]), tbase, tsize - TOP_FOOT_SIZE, tbase + tsize)
    requires OwnedAt(h, q) && Apart(h.t.ck, h.t.top, h.t.ends) && h.t.used <= h.t.ck.Keys && h.t.top !in h.t.used
             && h.t.top !in h.held
    requires !Reserved(h, h.t.top) && h.t.top !in h.loose && csp !in h.loose && csp !in h.held
             && (q in h.t.ck ==> h.t.ck[q] > 0)
    requires Reserved(Push(h, w, csp, tbase, tsize), q) <==> Reserved(h, q) || q == csp
    ensures OwnedAt(Push(h, w, csp, tbase, tsize), q)
  {
    hide Reserved;
    if q in h.held {
      var n := Next(h.t, q);
      assert n != h.t.top ==> SameAt(h.w, w, n);
    }
  }

  lemma PushOwned(h: Heap, w: Words, csp: Addr, tbase: Addr, tsize: nat)
    requires Sound(h) && |h.segs| > 0 && tsize >= TOP_FOOT_SIZE && PushWords(h, w, csp, tbase, tsize)
    requires CanRetire(h.t, csp, SEGMENT_CHUNK, End(h.segs[0]), tbase, tsize - TOP_FOOT_SIZE, tbase + tsize)
    ensures Owned(Push(h, w, csp, tbase, tsize))
  {
    hide Tagged, SegsOk, Directs, Reserved, OwnedAt, Kept;
    var h' := Push(h, w, csp, tbase, tsize);
    TopIsFree(h);
    TaggedFacts(h.w, h.t, h.t.top);
    assert csp != h.t.top ==> csp !in h.t.ck;
    if csp != h.t.top {
      NotAChunk(h, csp);
    }
    forall q: Addr {:trigger OwnedAt(h', q)}
      ensures OwnedAt(h', q)
    {
      assert OwnedAt(h, q);
      if q in h.t.ck {
        ChunkFacts(h.w, h.t, q, q);
      }
      PushReserved(h, w, csp, tbase, tsize, q);
      PushOwnedAt(h, w, csp, tbase, tsize, q);
    }
    TaggedFacts(h.w, h.t, h.home);
  }

  lemma PushKept(h: Heap, w: Words, csp: Addr, tbase: Addr, tsize: nat)
    requires Kept(h) && |h.segs| > 0 && tsize >= TOP_FOOT_SIZE
    requires h.t.top in h.t.ck && (csp != h.t.top ==> csp !in h.t.ck) && csp >= h.t.top && tbase !in h.t.ck
             && tbase != csp && h.t.used <= h.t.ck.Keys
    ensures Kept(Push(h, w, csp, tbase, tsize))
  {
    var h' := Push(h, w, csp, tbase, tsize);
    forall q: Addr {:trigger KeptAt(h', q)}
      ensures KeptAt(h', q)
    {
      assert KeptAt(h, q);
    }
  }

  lemma PushSameOutside(h: Heap, w: Words, csp: Addr, tbase: Addr, tsize: nat)
    requires |h.segs| > 0 && tsize >= TOP_FOOT_SIZE && PushWords(h, w, csp, tbase, tsize) && h.segs[0].base <= h.t.top
    ensures SameOutside(PushedSegs(h.segs, csp, tbase, tsize), h.w, w)
  {
    var segs' := PushedSegs(h.segs, csp, tbase, tsize);
    forall x: Addr {:trigger Inside(segs', x)} | !Inside(segs', x)
      ensures SameAt(h.w, w, x)
    {
      assert !(segs'[0].base <= x < End(segs'[0])) && !(segs'[1].base <= x < End(segs'[1]));
    }
  }

  lemma PushKeepsSound(h: Heap, w: Words, csp: Addr, tbase: Addr, tsize: nat)
    requires Sound(h) && tsize >= TOP_FOOT_SIZE && CanPush(h.segs, h.t, csp, tbase, tsize)
             && PushWords(h, w, csp, tbase, tsize)
    requires Clear(PushedSegs(h.segs, csp, tbase, tsize), h.direct)
    ensures Sound(Push(h, w, csp, tbase, tsize))
  {
    hide Kept, Owned, SegsOk, Directs, Reserved, Tagged, Retired;
    TopIsFree(h);
    TaggedFacts(h.w, h.t, h.t.top);
    PushClear(h.w, h.segs, h.t, csp, tbase, tsize);
    RetireKeepsTags(h.w, w, h.t, csp, SEGMENT_CHUNK, End(h.segs[0]), tbase, tsize - TOP_FOOT_SIZE, tbase + tsize);
    PushKeepsSegs(h.w, h.segs, h.t, csp, tbase, tsize);
    PushOwned(h, w, csp, tbase, tsize);
    PushKept(h, w, csp, tbase, tsize);
    SegFacts(h.segs, h.t);
    PushSameOutside(h, w, csp, tbase, tsize);
    DirectsMove(h, Push(h, w, csp, tbase, tsize));
  }

  // ----- a segment is dropped with the free chunk in hand that fills it -----

  function DropSeg(h: Heap, j: nat): Heap
    requires 0 < j < |h.segs|
  {
    var s := h.segs[j];
    h.(t := DropTiling(h.t, s.base, RecordChunk(s), Fence(s)), segs := WithoutSeg(h.segs, j),
        loose := h.loose - {s.base})
  }

  lemma RecordsDiffer(segs: seq<Seg>, t: Tiling, i: nat, j: nat)
    requires SegsOk(segs, t) && 0 < i < |segs| && 0 < j < |segs| && i != j
    ensures RecordChunk(segs[i]) != RecordChunk(segs[j])
  {
    assert SegOk(segs, t, i) && SegOk(segs, t, j);
    if RecordChunk(segs[i]) == RecordChunk(segs[j]) {
      OneSeg(segs, i, j, RecordChunk(segs[i]));
    }
  }

  lemma DropReserved(h: Heap, j: nat, q: Addr)
    requires Sound(h) && CanDropSeg(h.segs, h.t, j)
    ensures Reserved(DropSeg(h, j), q) <==> Reserved(h, q) && q != RecordChunk(h.segs[j])
  {
    hide Tagged, Kept, Directs, Owned, SegsOk;
    var h' := DropSeg(h, j);
    HomeIsNoRecord(h, j);
    if Reserved(h, q) && q != h.home && q != RecordChunk(h.segs[j]) {
      var k: nat :| 0 < k < |h.segs| && RecordChunk(h.segs[k]) == q;
      assert h'.segs[if k < j then k else k - 1] == h.segs[k];
    }
    if Reserved(h', q) && q != h.home {
      var k: nat :| 0 < k < |h'.segs| && RecordChunk(h'.segs[k]) == q;
      var i := if k < j then k else k + 1;
      assert h'.segs[k] == h.segs[i];
      RecordsDiffer(h.segs, h.t, i, j);
    }
  }

  lemma DropSegOwned(h: Heap, j: nat)
    requires Sound(h) && CanDropSeg(h.segs, h.t, j) && h.segs[j].base in h.loose
    ensures Owned(DropSeg(h, j))
  {
    hide Tagged, SegsOk, Kept, Directs, Reserved;
    var h' := DropSeg(h, j);
    forall q: Addr {:trigger OwnedAt(h', q)}
      ensures OwnedAt(h', q)
    {
      assert OwnedAt(h, q);
      DropReserved(h, j, q);
      DropReserved(h, j, h.home);
      assert Reserved(h, RecordChunk(h.segs[j])) by {
        RecordIsReserved(h, j);
      }
      HomeIsNoRecord(h, j);
    }
    HomeIsNoRecord(h, j);
  }

  lemma RecordIsReserved(h: Heap, j: nat)
    requires 0 < j < |h.segs|
    ensures Reserved(h, RecordChunk(h.segs[j]))
  {
  }

  lemma HomeIsNoRecord(h: Heap, j: nat)
    requires Sound(h) && 0 < j < |h.segs|
    ensures RecordChunk(h.segs[j]) != h.home
  {
    SegFacts(h.segs, h.t);
  }

  lemma DropSegKept(h: Heap, j: nat)
    requires Kept(h) && CanDropSeg(h.segs, h.t, j) && RecordChunk(h.segs[j]) in h.t.used
             && RecordChunk(h.segs[j]) !in h.loose
    requires h.segs[j].base in h.loose
    ensures Kept(DropSeg(h, j))
  {
    var h' := DropSeg(h, j);
    forall q: Addr {:trigger KeptAt(h', q)}
      ensures KeptAt(h', q)
    {
      assert KeptAt(h, q);
      assert KeptAt(h, h.segs[j].base);
    }
  }

  lemma DropClearDirect(h: Heap, j: nat)
    requires Directs(h) && 0 < j < |h.segs|
    ensures Clear(WithoutSeg(h.segs, j), h.direct) && SameOutside(WithoutSeg(h.segs, j), h.w, h.w)
  {
    var segs' := WithoutSeg(h.segs, j);
    assert forall i: nat :: i < |segs'| ==> segs'[i] == h.segs[if i < j then i else i + 1];
    forall p: Addr | p in h.direct
      ensures !Inside(segs', p) && !Inside(segs', DirectEnd(h.direct[p])) && !Inside(segs', DirectEnd(h.direct[p]) + 8)
    {
      assert DirectAt(h, p);
    }
  }

  lemma DropSegKeepsSound(h: Heap, j: nat)
    requires Sound(h) && 0 < j < |h.segs| && CanDropSeg(h.segs, h.t, j) && h.segs[j].base in h.loose
    ensures Sound(DropSeg(h, j))
  {
    hide Kept, Owned, SegsOk, Directs, Reserved, Tagged, CanDropSeg;
    SegFacts(h.segs, h.t);
    DropClear(h.w, h.segs, h.t, j);
    DropKeepsTags(h.w, h.t, h.segs[j].base, RecordChunk(h.segs[j]), Fence(h.segs[j]));
    DropKeepsSegs(h.w, h.segs, h.t, j);
    DropSegOwned(h, j);
    RecordIsReserved(h, j);
    ReservedIsNotLoose(h, RecordChunk(h.segs[j]));
    DropSegKept(h, j);
    DropClearDirect(h, j);
    DirectsMove(h, DropSeg(h, j));
  }

  lemma ReservedIsNotLoose(h: Heap, p: Addr)
    requires Sound(h) && Reserved(h, p)
    ensures p !in h.loose
  {
    assert OwnedAt(h, p);
  }

  // ----- directly mapped chunks come and go -----

  /** The words of a directly mapped chunk at p in the region r: offset, size, footer and fencepost. */
  function DirectWords(w: Words, p: Addr, r: Region, cookie: int): Words
    requires p < DirectEnd(r)
  {
    var n := DirectEnd(r);
    Words(w.head[p := Head(n - p, false, false)][n := Head(8, true, true)][n + 8 := Head(0, false, false)],
          w.foot[p := p - r.base][n := cookie])
  }

  /** Only words of the region r have changed, and they describe a chunk at p. */
  ghost predicate DirectWritten(w: Words, w': Words, p: Addr, r: Region, cookie: int) {
    var n := DirectEnd(r);
    && r.base <= p && p + MIN_CHUNK_SIZE <= n
    && (forall x: Addr {:trigger SameAt(w, w', x)} :: !(r.base <= x < r.base + r.size) ==> SameAt(w, w', x))
    && p in w'.head && w'.head[p] == Head(n - p, false, false)
    && p in w'.foot && w'.foot[p] == p - r.base && n in w'.foot && w'.foot[n] == cookie
    && n in w'.head && w'.head[n] == Head(8, true, true) && n + 8 in w'.head && w'.head[n + 8] == Head(0, false, false)
  }

  lemma DirectWordsWritten(w: Words, p: Addr, r: Region, cookie: int)
    requires r.base <= p && p + MIN_CHUNK_SIZE <= DirectEnd(r)
    ensures DirectWritten(w, DirectWords(w, p, r, cookie), p, r, cookie)
  {
    var w' := DirectWords(w, p, r, cookie);
    forall x: Addr {:trigger SameAt(w, w', x)} | !(r.base <= x < r.base + r.size)
      ensures SameAt(w, w', x)
    {
    }
  }

  function AddDirect(h: Heap, w: Words, p: Addr, r: Region): Heap {
    h.(w := w, direct := h.direct[p := r])
  }

  /** The words of heap and old directly mapped chunks are elsewhere. */
  ghost predicate FreshRegion(h: Heap, r: Region) {
    && (forall x: Addr {:trigger Inside(h.segs, x)} :: r.base <= x < r.base + r.size ==> !Inside(h.segs, x))
    && (forall p: Addr :: p in h.direct ==>
          && !(r.base <= p < r.base + r.size) && !(r.base <= DirectEnd(h.direct[p]) < r.base + r.size)
          && !(r.base <= DirectEnd(h.direct[p]) + 8 < r.base + r.size))
  }

  lemma AddDirectTags(h: Heap, w: Words, p: Addr, r: Region)
    requires Tagged(h.w, h.t) && SegsOk(h.segs, h.t) && DirectWritten(h.w, w, p, r, h.cookie) && FreshRegion(h, r)
    ensures Tagged(w, h.t)
  {
    forall q: Addr | q in h.t.ck
      ensures SameAt(h.w, w, q) && SameAt(h.w, w, Next(h.t, q))
    {
      ChunkFacts(h.w, h.t, q, q);
      ChunkInside(h.segs, h.t, q, q);
      ChunkInside(h.segs, h.t, q, Next(h.t, q));
    }
    forall e: Addr | e in h.t.ends
      ensures SameAt(h.w, w, e)
    {
      assert FencePlaced(h.segs, e);
      var i: nat :| 0 < i < |h.segs| && Fence(h.segs[i]) == e;
      assert SegOk(h.segs, h.t, i);
      assert Inside(h.segs, e);
    }
    FrameKeepsTags(h.w, w, h.t);
  }

  lemma AddDirectOwned(h: Heap, w: Words, p: Addr, r: Region)
    requires Sound(h) && DirectWritten(h.w, w, p, r, h.cookie) && FreshRegion(h, r)
    ensures Owned(AddDirect(h, w, p, r))
  {
    hide Tagged, SegsOk, Kept, Directs;
    var h' := AddDirect(h, w, p, r);
    forall q: Addr {:trigger OwnedAt(h', q)}
      ensures OwnedAt(h', q)
    {
      assert OwnedAt(h, q);
      assert Reserved(h', q) == Reserved(h, q);
      if q in h.held {
        ChunkFacts(h.w, h.t, q, q);
        ChunkInside(h.segs, h.t, q, Next(h.t, q));
        assert SameAt(h.w, w, Next(h.t, q));
      }
    }
  }

  lemma AddDirectDirects(h: Heap, w: Words, p: Addr, r: Region)
    requires Directs(h) && Aligned(r.base, r.size) && p % 8 == 0 && DirectWritten(h.w, w, p, r, h.cookie)
             && FreshRegion(h, r)
    ensures Directs(AddDirect(h, w, p, r))
  {
    hide Aligned;
    var h' := AddDirect(h, w, p, r);
    forall q: Addr {:trigger DirectAt(h', q)} | q in h'.direct
      ensures DirectAt(h', q)
    {
      if q != p {
        assert DirectAt(h, q) && SameAt(h.w, w, q) && SameAt(h.w, w, DirectEnd(h.direct[q]))
            && SameAt(h.w, w, DirectEnd(h.direct[q]) + 8);
      }
    }
  }

  lemma AddDirectKeepsSound(h: Heap, w: Words, p: Addr, r: Region)
    requires Sound(h) && Aligned(r.base, r.size) && p % 8 == 0 && DirectWritten(h.w, w, p, r, h.cookie)
             && FreshRegion(h, r)
    ensures Sound(AddDirect(h, w, p, r)) && p !in h.held && p !in h.direct
  {
    hide Owned, SegsOk, Directs, Tagged, Aligned, FreshRegion, DirectWritten;
    var h' := AddDirect(h, w, p, r);
    AddDirectTags(h, w, p, r);
    AddDirectOwned(h, w, p, r);
    AddDirectDirects(h, w, p, r);
    forall q: Addr {:trigger KeptAt(h', q)}
      ensures KeptAt(h', q)
    {
      assert KeptAt(h, q);
    }
    NotInside(h, w, p, r);
    if p in h.held {
      HeldFacts(h, p);
      ChunkInside(h.segs, h.t, p, p);
    }
  }

  lemma NotInside(h: Heap, w: Words, p: Addr, r: Region)
    requires FreshRegion(h, r) && DirectWritten(h.w, w, p, r, h.cookie)
    ensures !Inside(h.segs, p) && p !in h.direct
  {
  }

  function DropDirect(h: Heap, p: Addr): Heap {
    h.(direct := h.direct - {p})
  }

  lemma DropDirectKeepsSound(h: Heap, p: Addr)
    requires Sound(h)
    ensures Sound(DropDirect(h, p))
  {
    hide SegsOk, Tagged;
    var h' := DropDirect(h, p);
    forall q: Addr {:trigger KeptAt(h', q)}
      ensures KeptAt(h', q)
    {
      assert KeptAt(h, q);
    }
    forall q: Addr {:trigger OwnedAt(h', q)}
      ensures OwnedAt(h', q)
    {
      assert OwnedAt(h, q);
      assert Reserved(h', q) == Reserved(h, q);
    }
    forall q: Addr {:trigger DirectAt(h', q)} | q in h'.direct
      ensures DirectAt(h', q)
    {
      assert DirectAt(h, q);
    }
  }

  // ----- a new mspace -----

  /** init_user_mstate: the malloc_state in the first chunk, top behind it. */
  function InitialWords(base: Addr, size: nat): Words
    requires size > MSTATE_CHUNK + TOP_FOOT_SIZE
  {
    var s := size - MSTATE_CHUNK - TOP_FOOT_SIZE;
    Words(map[base := Head(MSTATE_CHUNK, true, true), base + MSTATE_CHUNK := Head(s, false, true),
              base + MSTATE_CHUNK + s := Head(80, false, false)], map[])
  }

  function Initial(base: Addr, size: nat, cookie: int): Heap
    requires size > MSTATE_CHUNK + TOP_FOOT_SIZE
  {
    var top, s := base + MSTATE_CHUNK, size - MSTATE_CHUNK - TOP_FOOT_SIZE;
    Heap(InitialWords(base, size), Tiling(map[base := MSTATE_CHUNK, top := s], {base}, top, {}),
         [Seg(base, size, 0)], map[], map[], map[], map[], map[], {}, base, cookie)
  }

  lemma InitialTagged(base: Addr, size: nat, cookie: int)
    requires size > MSTATE_CHUNK + TOP_FOOT_SIZE && base > 0 && base % 8 == 0 && size % 8 == 0
    ensures var h := Initial(base, size, cookie); Tagged(h.w, h.t)
  {
    var h := Initial(base, size, cookie);
    assert (base + MSTATE_CHUNK) % 8 == 0 && (size - MSTATE_CHUNK - TOP_FOOT_SIZE) % 8 == 0;
    assert ChunkOk(h.w, h.t, base) && ChunkOk(h.w, h.t, h.t.top);
  }

  lemma InitialSegs(base: Addr, size: nat, cookie: int)
    requires Aligned(base, size) && size > MSTATE_CHUNK + TOP_FOOT_SIZE
    ensures var h := Initial(base, size, cookie); SegsOk(h.segs, h.t)
  {
    hide Aligned;
    var h := Initial(base, size, cookie);
    assert SegOk(h.segs, h.t, 0);
    assert InSeg(h.segs, h.t, base, 0) && InSeg(h.segs, h.t, h.t.top, 0);
  }

  lemma InitialSound(base: Addr, size: nat, cookie: int)
    requires Aligned(base, size) && size > MSTATE_CHUNK + TOP_FOOT_SIZE
    ensures Sound(Initial(base, size, cookie))
  {
    hide Tagged, SegsOk, Aligned;
    var h := Initial(base, size, cookie);
    AlignedEight(base, size);
    InitialTagged(base, size, cookie);
    InitialSegs(base, size, cookie);
    assert forall p: Addr :: KeptAt(h, p);
    assert forall p: Addr :: OwnedAt(h, p);
  }
}
