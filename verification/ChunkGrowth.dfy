/** Boundary tags when memory comes and goes: top resized, chunks put in front of a segment, top retired, a segment
    dropped. */
module ChunkGrowth {
  import opened Sizes
  import opened Chunks

  ghost predicate SameAt(w: Words, w': Words, x: Addr) {
    && (x in w.head ==> x in w'.head && w'.head[x] == w.head[x])
    && (x in w.foot ==> x in w'.foot && w'.foot[x] == w.foot[x])
  }

  // ----- a chunk in use is cut in two -----

  /** set_inuse on the back, then on the front; what the head of the back held before does not matter. */
  function CutWords(w: Words, p: Addr, lead: nat, rest: nat, cookie: int): Words
    requires p in w.head && p + lead + rest in w.head
  {
    var q := p + lead;
    Words(w.head[q + rest := w.head[q + rest].(pinuse := true)][p := Head(lead, true, w.head[p].pinuse)][q :=
        Head(rest, true, true)],
          w.foot[q + rest := cookie][q := cookie])
  }

  function CutTiling(t: Tiling, p: Addr, lead: nat, rest: nat): Tiling {
    t.(ck := t.ck[p := lead][p + lead := rest], used := t.used + {p + lead})
  }

  ghost predicate CanCut(t: Tiling, p: Addr, lead: nat, rest: nat) {
    && p in t.ck && p in t.used && t.ck[p] == lead + rest && lead % 8 == 0
    && lead >= MIN_CHUNK_SIZE && rest >= MIN_CHUNK_SIZE
  }

  lemma CutHere(w: Words, t: Tiling, p: Addr, lead: nat, rest: nat, cookie: int, q: Addr)
    requires Apart(t.ck, t.top, t.ends) && CanCut(t, p, lead, rest) && t.used <= t.ck.Keys && ChunkOk(w, t, p)
    requires p != t.top && (q == p || q == p + lead)
    ensures ChunkOk(CutWords(w, p, lead, rest, cookie), CutTiling(t, p, lead, rest), q)
  {
  }

  lemma CutElsewhere(w: Words, t: Tiling, p: Addr, lead: nat, rest: nat, cookie: int, q: Addr)
    requires Apart(t.ck, t.top, t.ends) && CanCut(t, p, lead, rest) && t.used <= t.ck.Keys && ChunkOk(w, t, p)
    requires p != t.top && q != p && q != p + lead && q in t.ck && ChunkOk(w, t, q)
    ensures ChunkOk(CutWords(w, p, lead, rest, cookie), CutTiling(t, p, lead, rest), q)
  {
  }

  lemma CutKeepsTags(w: Words, t: Tiling, p: Addr, lead: nat, rest: nat, cookie: int)
    requires Tagged(w, t) && CanCut(t, p, lead, rest)
    ensures p in w.head && p + lead + rest in w.head && p + lead !in t.ck
    ensures Tagged(CutWords(w, p, lead, rest, cookie), CutTiling(t, p, lead, rest))
  {
    assert ChunkOk(w, t, p) && ChunkOk(w, t, t.top);
    var w', t' := CutWords(w, p, lead, rest, cookie), CutTiling(t, p, lead, rest);
    forall q {:trigger ChunkOk(w', t', q)} | q in t'.ck
      ensures ChunkOk(w', t', q)
    {
      if q == p || q == p + lead {
        CutHere(w, t, p, lead, rest, cookie, q);
      } else {
        assert ChunkOk(w, t, q);
        CutElsewhere(w, t, p, lead, rest, cookie, q);
      }
    }
  }

  // ----- top grows or shrinks -----

  /** init_top at an unchanged top. */
  function ResizeTopWords(w: Words, top: Addr, s: nat): Words {
    Words(w.head[top := Head(s, false, true)][top + s := Head(80, false, false)], w.foot)
  }

  function ResizeTopTiling(t: Tiling, s: nat): Tiling {
    t.(ck := t.ck[t.top := s])
  }

  /** Nothing but top lies between top and x. */
  ghost predicate ClearAbove(t: Tiling, x: Addr) {
    && (forall q: Addr :: q in t.ck ==> q <= t.top || x < q)
    && (forall e: Addr :: e in t.ends ==> e < t.top || x < e)
  }

  lemma ResizeTopAt(w: Words, t: Tiling, s: nat, q: Addr)
    requires t.top in t.ck && Apart(t.ck, t.top, t.ends) && ClearAbove(t, t.top + s) && s > 0 && s % 8 == 0
    requires ChunkOk(w, t, t.top) && q in t.ck && ChunkOk(w, t, q)
    ensures ChunkOk(ResizeTopWords(w, t.top, s), ResizeTopTiling(t, s), q)
  {
  }

  lemma ResizeTopKeepsTags(w: Words, t: Tiling, s: nat)
    requires Tagged(w, t) && ClearAbove(t, t.top + s) && s > 0 && s % 8 == 0
    ensures Tagged(ResizeTopWords(w, t.top, s), ResizeTopTiling(t, s))
  {
    assert ChunkOk(w, t, t.top);
    var w', t' := ResizeTopWords(w, t.top, s), ResizeTopTiling(t, s);
    forall q {:trigger ChunkOk(w', t', q)} | q in t'.ck
      ensures ChunkOk(w', t', q)
    {
      assert ChunkOk(w, t, q);
      ResizeTopAt(w, t, s, q);
    }
  }

  // ----- two chunks in use in front of the chunk b -----

  function PrependWords(w: Words, p: Addr, nb: nat, qsize: nat, cookie: int): Words {
    Words(w.head[p := Head(nb, true, true)][p + nb := Head(qsize, true, true)], w.foot[p + nb := cookie])
  }

  function PrependTiling(t: Tiling, p: Addr, nb: nat, qsize: nat): Tiling {
    t.(ck := t.ck[p := nb][p + nb := qsize], used := t.used + {p, p + nb})
  }

  /** No chunk touches [p, b), and b starts a chunk whose pinuse bit is set. */
  ghost predicate CanPrepend(w: Words, t: Tiling, p: Addr, nb: nat, qsize: nat) {
    var b := p + nb + qsize;
    && p > 0 && p % 8 == 0 && nb % 8 == 0 && qsize % 8 == 0 && nb >= MIN_CHUNK_SIZE && qsize >= MIN_CHUNK_SIZE
    && b in t.ck && b in w.head && w.head[b].pinuse
    && (forall x: Addr :: x in t.ck ==> b <= x || x + t.ck[x] < p)
    && (forall e: Addr :: e in t.ends ==> e < p || b <= e)
  }

  lemma PrependAt(w: Words, t: Tiling, p: Addr, nb: nat, qsize: nat, cookie: int, x: Addr)
    requires CanPrepend(w, t, p, nb, qsize) && t.top in t.ck && t.used <= t.ck.Keys
    requires x == p || x == p + nb || (x in t.ck && ChunkOk(w, t, x))
    ensures ChunkOk(PrependWords(w, p, nb, qsize, cookie), PrependTiling(t, p, nb, qsize), x)
  {
  }

  lemma PrependApart(w: Words, t: Tiling, p: Addr, nb: nat, qsize: nat)
    requires CanPrepend(w, t, p, nb, qsize) && Apart(t.ck, t.top, t.ends)
    ensures Apart(PrependTiling(t, p, nb, qsize).ck, t.top, t.ends)
  {
  }

  lemma PrependKeepsTags(w: Words, t: Tiling, p: Addr, nb: nat, qsize: nat, cookie: int)
    requires Tagged(w, t) && CanPrepend(w, t, p, nb, qsize)
    ensures Tagged(PrependWords(w, p, nb, qsize, cookie), PrependTiling(t, p, nb, qsize))
  {
    var w', t' := PrependWords(w, p, nb, qsize, cookie), PrependTiling(t, p, nb, qsize);
    PrependApart(w, t, p, nb, qsize);
    forall x {:trigger ChunkOk(w', t', x)} | x in t'.ck
      ensures ChunkOk(w', t', x)
    {
      if x in t.ck {
        assert ChunkOk(w, t, x);
      }
      PrependAt(w, t, p, nb, qsize, cookie, x);
    }
  }

  // ----- top is retired: a record chunk and a fencepost take its end, and a new top starts elsewhere -----

  function RetireTiling(t: Tiling, csp: Addr, rsize: nat, tbase: Addr, tsize: nat): Tiling {
    var ck := if csp <= t.top then t.ck else t.ck[t.top := csp - t.top];
    t.(ck := ck[csp := rsize][tbase := tsize], used := t.used + {t.top, csp}, top := tbase,
        ends := t.ends + {csp + rsize})
  }

  /** The old space [top, end) and the new one [tbase, tend) are clear of other chunks and fenceposts. */
  ghost predicate CanRetire(t: Tiling, csp: Addr, rsize: nat, end: Addr, tbase: Addr, tsize: nat, tend: Addr) {
    && t.top in t.ck && (csp == t.top || csp >= t.top + MIN_CHUNK_SIZE) && csp % 8 == 0 && csp + rsize < end
    && rsize >= MIN_CHUNK_SIZE && rsize % 8 == 0
    && tbase > 0 && tbase % 8 == 0 && tsize > 0 && tsize % 8 == 0 && tbase + tsize < tend
    && (end <= tbase || tend <= t.top)
    && (forall x: Addr :: x in t.ck ==> x <= t.top || end <= x)
    && (forall e: Addr :: e in t.ends ==> e < t.top || end <= e)
    && (forall x: Addr :: x in t.ck ==> x + t.ck[x] < tbase || tend <= x)
    && (forall e: Addr :: e in t.ends ==> e < tbase || tend <= e)
  }

  /** The words after the retirement; outside the two spaces nothing has changed. */
  ghost predicate Retired(w: Words, w': Words, t: Tiling, csp: Addr, rsize: nat, end: Addr, tbase: Addr, tsize: nat,
      tend: Addr) {
    && (forall x: Addr {:trigger SameAt(w, w', x)} :: !(t.top <= x < end) && !(tbase <= x < tend) ==> SameAt(w, w', x))
    && (t.top in w.foot ==> t.top in w'.foot && w'.foot[t.top] == w.foot[t.top])
    && tbase in w'.head && w'.head[tbase] == Head(tsize, false, true)
    && tbase + tsize in w'.head && !w'.head[tbase + tsize].pinuse
    && csp in w'.head && w'.head[csp] == Head(rsize, true, true)
    && csp + rsize in w'.head && w'.head[csp + rsize].cinuse && w'.head[csp + rsize].pinuse
    && (csp > t.top ==> t.top in w'.head && w'.head[t.top] == Head(csp - t.top, true, true))
  }

  lemma RetireOld(w: Words, w': Words, t: Tiling, csp: Addr, rsize: nat, end: Addr, tbase: Addr, tsize: nat, tend: Addr,
      x: Addr)
    requires CanRetire(t, csp, rsize, end, tbase, tsize, tend) && Retired(w, w', t, csp, rsize, end, tbase, tsize, tend)
    requires Apart(t.ck, t.top, t.ends) && t.used <= t.ck.Keys && ChunkOk(w, t, t.top) && x in t.ck && x != t.top
             && ChunkOk(w, t, x)
    ensures ChunkOk(w', RetireTiling(t, csp, rsize, tbase, tsize), x)
  {
    var n := Next(t, x);
    assert SameAt(w, w', x) && (n != t.top ==> SameAt(w, w', n));
    assert w.head[t.top].pinuse && w'.head[t.top].pinuse;
  }

  lemma RetireNew(w: Words, w': Words, t: Tiling, csp: Addr, rsize: nat, end: Addr, tbase: Addr, tsize: nat, tend: Addr,
      x: Addr)
    requires CanRetire(t, csp, rsize, end, tbase, tsize, tend) && Retired(w, w', t, csp, rsize, end, tbase, tsize, tend)
    requires t.used <= t.ck.Keys && ChunkOk(w, t, t.top) && (x == t.top || x == csp || x == tbase)
    ensures ChunkOk(w', RetireTiling(t, csp, rsize, tbase, tsize), x)
  {
  }

  lemma RetireChunks(t: Tiling, csp: Addr, rsize: nat, end: Addr, tbase: Addr, tsize: nat, tend: Addr, p: Addr, q: Addr)
    requires CanRetire(t, csp, rsize, end, tbase, tsize, tend) && Apart(t.ck, t.top, t.ends)
    requires var t' := RetireTiling(t, csp, rsize, tbase, tsize); p in t'.ck && q in t'.ck && p < q
    ensures p + RetireTiling(t, csp, rsize, tbase, tsize).ck[p] <= q
  {
  }

  lemma RetireFences(t: Tiling, csp: Addr, rsize: nat, end: Addr, tbase: Addr, tsize: nat, tend: Addr, p: Addr, e: Addr)
    requires CanRetire(t, csp, rsize, end, tbase, tsize, tend) && Apart(t.ck, t.top, t.ends)
    requires var t' := RetireTiling(t, csp, rsize, tbase, tsize); p in t'.ck && e in t'.ends
    ensures e < p || p + RetireTiling(t, csp, rsize, tbase, tsize).ck[p] <= e
  {
  }

  lemma RetireApart(t: Tiling, csp: Addr, rsize: nat, end: Addr, tbase: Addr, tsize: nat, tend: Addr)
    requires CanRetire(t, csp, rsize, end, tbase, tsize, tend) && Apart(t.ck, t.top, t.ends)
    ensures var t' := RetireTiling(t, csp, rsize, tbase, tsize); Apart(t'.ck, t'.top, t'.ends)
  {
    var t' := RetireTiling(t, csp, rsize, tbase, tsize);
    forall p: Addr, q: Addr | p in t'.ck && q in t'.ck && p < q
      ensures p + t'.ck[p] <= q
    {
      RetireChunks(t, csp, rsize, end, tbase, tsize, tend, p, q);
    }
    forall p: Addr, e: Addr | p in t'.ck && e in t'.ends
      ensures e < p || p + t'.ck[p] <= e
    {
      RetireFences(t, csp, rsize, end, tbase, tsize, tend, p, e);
    }
  }

  lemma RetireKeepsTags(w: Words, w': Words, t: Tiling, csp: Addr, rsize: nat, end: Addr, tbase: Addr, tsize: nat,
      tend: Addr)
    requires Tagged(w, t)
    requires CanRetire(t, csp, rsize, end, tbase, tsize, tend) && Retired(w, w', t, csp, rsize, end, tbase, tsize, tend)
    ensures Tagged(w', RetireTiling(t, csp, rsize, tbase, tsize))
  {
    var t' := RetireTiling(t, csp, rsize, tbase, tsize);
    assert ChunkOk(w, t, t.top);
    forall x {:trigger ChunkOk(w', t', x)} | x in t'.ck
      ensures ChunkOk(w', t', x)
    {
      if x == t.top || x == csp || x == tbase {
        RetireNew(w, w', t, csp, rsize, end, tbase, tsize, tend, x);
      } else {
        assert ChunkOk(w, t, x);
        RetireOld(w, w', t, csp, rsize, end, tbase, tsize, tend, x);
      }
    }
    forall e | e in t'.ends
      ensures e in w'.head && w'.head[e].cinuse && w'.head[e].pinuse
    {
      assert e != csp + rsize ==> SameAt(w, w', e);
    }
    RetireApart(t, csp, rsize, end, tbase, tsize, tend);
  }

  // ----- a free chunk, the record behind it and the fencepost disappear with their segment -----

  function DropTiling(t: Tiling, c: Addr, r: Addr, e: Addr): Tiling {
    t.(ck := t.ck - {c, r}, used := t.used - {r}, ends := t.ends - {e})
  }

  ghost predicate CanDrop(t: Tiling, c: Addr, r: Addr, e: Addr) {
    && c in t.ck && c !in t.used && c != t.top && Next(t, c) == r
    && r in t.ck && r in t.used && r != t.top && Next(t, r) == e && e in t.ends
    && (forall x: Addr :: x in t.ck ==> x + t.ck[x] != c)
  }

  lemma DropAt(w: Words, t: Tiling, c: Addr, r: Addr, e: Addr, x: Addr)
    requires Apart(t.ck, t.top, t.ends) && CanDrop(t, c, r, e)
    requires x in t.ck && x != c && x != r && ChunkOk(w, t, x) && ChunkOk(w, t, c) && ChunkOk(w, t, r)
    ensures ChunkOk(w, DropTiling(t, c, r, e), x)
  {
    var n := Next(t, x);
    assert n != c && n != r && n != e;
  }

  lemma DropKeepsTags(w: Words, t: Tiling, c: Addr, r: Addr, e: Addr)
    requires Tagged(w, t) && CanDrop(t, c, r, e)
    ensures Tagged(w, DropTiling(t, c, r, e))
  {
    var t' := DropTiling(t, c, r, e);
    assert ChunkOk(w, t, c) && ChunkOk(w, t, r);
    forall x {:trigger ChunkOk(w, t', x)} | x in t'.ck
      ensures ChunkOk(w, t', x)
    {
      assert ChunkOk(w, t, x);
      DropAt(w, t, c, r, e, x);
    }
  }

  // ----- words that no chunk reads -----

  /** Writing elsewhere keeps the tags. */
  lemma FrameKeepsTags(w: Words, w': Words, t: Tiling)
    requires Tagged(w, t)
    requires forall p: Addr :: p in t.ck ==> SameAt(w, w', p)
    requires forall p: Addr :: p in t.ck ==> SameAt(w, w', Next(t, p))
    requires forall e: Addr :: e in t.ends ==> SameAt(w, w', e)
    ensures Tagged(w', t)
  {
    forall x {:trigger ChunkOk(w', t, x)} | x in t.ck
      ensures ChunkOk(w', t, x)
    {
      assert ChunkOk(w, t, x) && SameAt(w, w', x) && SameAt(w, w', Next(t, x));
    }
    assert forall e :: e in t.ends ==> SameAt(w, w', e);
  }
}
