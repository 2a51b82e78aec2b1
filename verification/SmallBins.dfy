/** The small bins of a malloc state: 32 rings of equal-sized free chunks, each threaded through a bin header. */
module SmallBins {
  import opened Sizes
  import opened Rings
  import BinMap

  const NSMALLBINS: nat := 32

  /** smallbin_at: the address of a bin header, kept apart from chunk addresses. */
  function Header(i: nat): Addr {
    -1 - i
  }

  /** The smallmap, and the link words of the headers and of every chunk stored in a small bin. */
  datatype State = State(smallmap: BinMap.Word, size: map<Addr, nat>, fd: Links, bk: Links)

  /** The rings as they are meant: the header of an unmarked bin is alone, whatever its words still say. */
  datatype Shadow = Shadow(cls: map<Addr, nat>, fd: Links, bk: Links, age: map<Addr, nat>, clock: nat)

  ghost predicate Storable(s: nat) {
    MIN_CHUNK_SIZE <= s < 256 && s % 8 == 0
  }

  predicate IsHeader(x: Addr) {
    -32 <= x < 0
  }

  function BinOf(x: Addr): nat
    requires IsHeader(x)
  {
    -1 - x
  }

  function Headers(): set<Addr> {
    set x: Addr | -32 <= x < 0 && IsHeader(x)
  }

  /** What the links of the empty bins say. */
  function EmptyLinks(): Links {
    map x: Addr | x in Headers() :: x
  }

  function HeaderClasses(): map<Addr, nat> {
    map x: Addr | x in Headers() :: 8 * BinOf(x)
  }

  predicate IsClass(c: nat) {
    c < 256 && c % 8 == 0
  }

  function HeaderOf(): map<nat, Addr> {
    map c: nat | c < 256 && IsClass(c) :: Header(c / 8)
  }

  /** The classes of the rings are the stored chunks and the headers. */
  ghost predicate Classed(n: State, g: Shadow) {
    && (forall x :: x in n.size ==> x > 0 && Storable(n.size[x]) && x in g.cls && g.cls[x] == n.size[x])
    && (forall i: nat :: i < NSMALLBINS ==> Header(i) in g.cls && g.cls[Header(i)] == 8 * i)
    && (forall x :: x in g.cls ==> x in n.size || x in Headers())
  }

  ghost predicate ChunkAgrees(n: State, g: Shadow, x: Addr) {
    x in n.fd && x in n.bk && x in g.fd && x in g.bk && n.fd[x] == g.fd[x] && n.bk[x] == g.bk[x]
  }

  ghost predicate HeaderAgrees(n: State, g: Shadow, i: nat)
    requires i < NSMALLBINS
  {
    var h := Header(i);
    && h in g.fd && h in g.bk
    && if BinMap.Has(n.smallmap, i) then h in n.fd && h in n.bk && n.fd[h] == g.fd[h] != h && n.bk[h] == g.bk[h]
       else g.fd[h] == h == g.bk[h]
  }

  /** The link words that the code may still read agree with the rings. */
  ghost predicate Agree(n: State, g: Shadow) {
    && (forall x :: x in n.size ==> ChunkAgrees(n, g, x))
    && (forall i: nat :: i < NSMALLBINS ==> HeaderAgrees(n, g, i))
  }

  ghost predicate Inv(n: State, g: Shadow) {
    && Classed(n, g)
    && Ring(g.cls, Headers(), g.fd, g.bk, g.age, HeaderOf())
    && Agree(n, g)
    && (forall x :: x in g.age ==> g.age[x] < g.clock)
  }

  /** A bin is marked exactly when it holds a chunk. */
  lemma MarkedIffHolds(n: State, g: Shadow, i: nat)
    requires Inv(n, g) && i < NSMALLBINS
    ensures BinMap.Has(n.smallmap, i) <==> exists x :: x in n.size && n.size[x] == 8 * i
  {
    var h := Header(i);
    assert h in Headers() && HeaderAgrees(n, g, i);
    if BinMap.Has(n.smallmap, i) {
      var x := g.fd[h];
      assert g.cls[x] == g.cls[h] && x in g.cls;
      if x in Headers() {
        OneHeader(g, x, i);
      }
    } else {
      forall x | x in n.size
        ensures n.size[x] != 8 * i
      {
        if n.size[x] == 8 * i {
          LoneHead(g.cls, Headers(), g.fd, g.bk, g.age, HeaderOf(), h, x);
        }
      }
    }
  }

  lemma StoredIsSmall(n: State, g: Shadow, x: Addr)
    requires Inv(n, g) && x in n.size
    ensures x > 0 && Storable(n.size[x])
  {
  }

  lemma OneHeader(g: Shadow, x: Addr, i: nat)
    requires i < NSMALLBINS && (forall i: nat :: i < NSMALLBINS ==> Header(i) in g.cls && g.cls[Header(i)] == 8 * i)
    requires x in Headers() && x in g.cls && g.cls[x] == 8 * i
    ensures x == Header(i)
  {
    assert x == Header(BinOf(x));
  }

  // ----- linking a chunk in and out -----

  function Inserted(n: State, x: Addr, s: nat): (n': State)
    requires s / 8 < NSMALLBINS && (BinMap.Has(n.smallmap, s / 8) ==> Header(s / 8) in n.fd)
    ensures n'.size == n.size[x := s]
  {
    var i := s / 8;
    var b := Header(i);
    var f := if BinMap.Has(n.smallmap, i) then n.fd[b] else b;
    State(if BinMap.Has(n.smallmap, i) then n.smallmap else BinMap.Mark(n.smallmap, i), n.size[x := s],
          n.fd[b := x][x := f], n.bk[f := x][x := b])
  }

  function InsertedShadow(g: Shadow, x: Addr, s: nat): Shadow
    requires Header(s / 8) in g.fd
  {
    var h := Header(s / 8);
    Shadow(g.cls[x := s], InsertFd(g.fd, h, x), InsertBk(g.fd, g.bk, h, x), g.age[x := g.clock], g.clock + 1)
  }

  lemma HeaderFacts(n: State, g: Shadow, i: nat)
    requires Inv(n, g) && i < NSMALLBINS
    ensures Header(i) in Headers() && Header(i) in g.cls && g.cls[Header(i)] == 8 * i
    ensures Header(i) in g.fd && Header(i) in g.bk && g.fd[Header(i)] in g.cls && g.cls[g.fd[Header(i)]] == 8 * i
    ensures HeaderAgrees(n, g, i)
    ensures BinMap.Has(n.smallmap, i) ==> Header(i) in n.fd && n.fd[Header(i)] == g.fd[Header(i)]
    ensures !BinMap.Has(n.smallmap, i) ==> g.fd[Header(i)] == Header(i)
  {
    assert HeaderAgrees(n, g, i);
  }

  lemma InsertRing(n: State, g: Shadow, x: Addr, s: nat)
    requires Inv(n, g) && x > 0 && x !in n.size && Storable(s)
    ensures var g' := InsertedShadow(g, x, s); Ring(g'.cls, Headers(), g'.fd, g'.bk, g'.age, HeaderOf())
  {
    hide BinMap.Has, Agree, Ring, InsertFd, InsertBk;
    HeaderFacts(n, g, s / 8);
    assert x !in Headers();
    InsertKeepsRing(g.cls, Headers(), g.fd, g.bk, g.age, HeaderOf(), Header(s / 8), x, g.clock);
  }

  lemma InsertClassed(n: State, g: Shadow, x: Addr, s: nat)
    requires Inv(n, g) && x > 0 && x !in n.size && Storable(s)
    requires HeaderAgrees(n, g, s / 8)
    ensures Classed(Inserted(n, x, s), InsertedShadow(g, x, s))
  {
  }

  lemma InsertHeaderAgrees(n: State, g: Shadow, x: Addr, s: nat, j: nat)
    requires Inv(n, g) && x > 0 && x !in n.size && Storable(s) && j < NSMALLBINS
    requires HeaderAgrees(n, g, s / 8)
    ensures HeaderAgrees(Inserted(n, x, s), InsertedShadow(g, x, s), j)
  {
    var i := s / 8;
    HeaderFacts(n, g, i);
    assert HeaderAgrees(n, g, j) && HeaderAgrees(n, g, i);
    var f := g.fd[Header(i)];
    if f in Headers() {
      OneHeader(g, f, i);
    }
  }

  lemma InsertAgree(n: State, g: Shadow, x: Addr, s: nat)
    requires Inv(n, g) && x > 0 && x !in n.size && Storable(s)
    requires HeaderAgrees(n, g, s / 8)
    ensures Agree(Inserted(n, x, s), InsertedShadow(g, x, s))
  {
    hide BinMap.Has, Ring, Classed;
    var n', g' := Inserted(n, x, s), InsertedShadow(g, x, s);
    forall j: nat | j < NSMALLBINS
      ensures HeaderAgrees(n', g', j)
    {
      InsertHeaderAgrees(n, g, x, s, j);
    }
    HeaderFacts(n, g, s / 8);
    forall y | y in n'.size
      ensures ChunkAgrees(n', g', y)
    {
      assert y != x ==> ChunkAgrees(n, g, y);
    }
  }

  lemma InsertKeepsInv(n: State, g: Shadow, x: Addr, s: nat)
    requires Inv(n, g) && x > 0 && x !in n.size && Storable(s)
    requires HeaderAgrees(n, g, s / 8)
    ensures Inv(Inserted(n, x, s), InsertedShadow(g, x, s))
  {
    hide Classed, Ring, Agree;
    InsertRing(n, g, x, s);
    InsertClassed(n, g, x, s);
    InsertAgree(n, g, x, s);
  }

  /** The words after x is taken out; when both neighbours are the header nothing but the map bit is written. */
  function Removed(n: State, x: Addr, i: nat): (n': State)
    requires i < NSMALLBINS && x in n.fd && x in n.bk
    ensures n'.size == n.size - {x}
  {
    var f, b := n.fd[x], n.bk[x];
    if f == b then n.(smallmap := BinMap.Clear(n.smallmap, i), size := n.size - {x})
    else n.(size := n.size - {x}, fd := n.fd[b := f], bk := n.bk[f := b])
  }

  function RemovedShadow(g: Shadow, x: Addr): Shadow
    requires x in g.fd && x in g.bk
  {
    g.(cls := g.cls - {x}, fd := RemoveFd(g.fd, g.bk, x), bk := RemoveBk(g.fd, g.bk, x))
  }

  lemma RemoveRing(n: State, g: Shadow, x: Addr)
    requires Inv(n, g) && x in n.size
    ensures ChunkAgrees(n, g, x)
    ensures var g' := RemovedShadow(g, x); Ring(g'.cls, Headers(), g'.fd, g'.bk, g'.age, HeaderOf())
  {
    assert ChunkAgrees(n, g, x) && x !in Headers();
    RemoveKeepsRing(g.cls, Headers(), g.fd, g.bk, g.age, HeaderOf(), x);
  }

  /** The neighbours of a stored chunk are chunks of its size or its header; equal neighbours are the header. */
  lemma Neighbours(n: State, g: Shadow, x: Addr)
    requires Inv(n, g) && x in n.size
    ensures ChunkAgrees(n, g, x) && n.size[x] / 8 < NSMALLBINS
    ensures var f, h := g.fd[x], Header(n.size[x] / 8); f == h || (f in n.size && f != x && n.size[f] == n.size[x])
    ensures var b, h := g.bk[x], Header(n.size[x] / 8); b == h || (b in n.size && b != x && n.size[b] == n.size[x])
    ensures g.fd[x] == g.bk[x] ==> g.fd[x] == Header(n.size[x] / 8)
    ensures g.fd[g.bk[x]] == x && g.bk[g.fd[x]] == x
  {
    assert ChunkAgrees(n, g, x) && x !in Headers();
    var f, b := g.fd[x], g.bk[x];
    assert g.cls[f] == g.cls[x] == g.cls[b] && g.fd[b] == x && g.bk[f] == x;
    if f in Headers() {
      OneHeader(g, f, n.size[x] / 8);
    }
    if b in Headers() {
      OneHeader(g, b, n.size[x] / 8);
    }
  }

  lemma RemoveHeaderAgrees(n: State, g: Shadow, x: Addr, j: nat)
    requires Inv(n, g) && x in n.size && j < NSMALLBINS && ChunkAgrees(n, g, x) && n.size[x] / 8 < NSMALLBINS
    ensures HeaderAgrees(Removed(n, x, n.size[x] / 8), RemovedShadow(g, x), j)
  {
    hide BinMap.Has, Ring, Classed, BinMap.Clear;
    Neighbours(n, g, x);
    assert HeaderAgrees(n, g, j) && HeaderAgrees(n, g, n.size[x] / 8);
  }

  lemma RemoveAgree(n: State, g: Shadow, x: Addr)
    requires Inv(n, g) && x in n.size && ChunkAgrees(n, g, x) && n.size[x] / 8 < NSMALLBINS
    ensures Agree(Removed(n, x, n.size[x] / 8), RemovedShadow(g, x))
  {
    hide BinMap.Has, Ring, Classed, BinMap.Clear, Removed, RemovedShadow;
    var n', g' := Removed(n, x, n.size[x] / 8), RemovedShadow(g, x);
    forall j: nat | j < NSMALLBINS
      ensures HeaderAgrees(n', g', j)
    {
      RemoveHeaderAgrees(n, g, x, j);
    }
    Neighbours(n, g, x);
    forall y | y in n'.size
      ensures ChunkAgrees(n', g', y)
    {
      assert ChunkAgrees(n, g, y);
      StoredIsSmall(n, g, y);
      RemoveChunkAgrees(n, g, x, y, n.size[x] / 8);
    }
  }

  lemma RemoveChunkAgrees(n: State, g: Shadow, x: Addr, y: Addr, i: nat)
    requires ChunkAgrees(n, g, x) && ChunkAgrees(n, g, y) && i < NSMALLBINS && (g.fd[x] == g.bk[x] ==> y != g.fd[x])
    ensures ChunkAgrees(Removed(n, x, i), RemovedShadow(g, x), y)
  {
    hide BinMap.Clear;
  }

  lemma RemoveKeepsInv(n: State, g: Shadow, x: Addr)
    requires Inv(n, g) && x in n.size
    ensures ChunkAgrees(n, g, x) && n.size[x] / 8 < NSMALLBINS
    ensures Inv(Removed(n, x, n.size[x] / 8), RemovedShadow(g, x))
  {
    hide Ring, Agree;
    Neighbours(n, g, x);
    RemoveRing(n, g, x);
    RemoveAgree(n, g, x);
  }

  lemma FirstIsStored(n: State, g: Shadow, i: nat)
    requires Inv(n, g) && i < NSMALLBINS && BinMap.Has(n.smallmap, i)
    ensures Header(i) in n.fd && n.fd[Header(i)] in n.size && n.size[n.fd[Header(i)]] == 8 * i
    ensures n.fd[Header(i)] in n.bk && n.bk[n.fd[Header(i)]] == Header(i)
  {
    HeaderFacts(n, g, i);
    assert HeaderAgrees(n, g, i);
    var x := g.fd[Header(i)];
    if x in Headers() {
      OneHeader(g, x, i);
    }
    assert g.bk[x] == Header(i);
    assert x in n.size ==> ChunkAgrees(n, g, x);
  }

  lemma EmptyInv()
    ensures Inv(State(0, map[], EmptyLinks(), EmptyLinks()),
            Shadow(HeaderClasses(), EmptyLinks(), EmptyLinks(), map[], 0))
  {
    var n, g := State(0, map[], EmptyLinks(), EmptyLinks()),
        Shadow(HeaderClasses(), EmptyLinks(), EmptyLinks(), map[], 0);
    BinMap.NonZero(0);
    assert forall i: nat :: i < NSMALLBINS ==> HeaderAgrees(n, g, i);
    assert Headed(g.cls, Headers(), HeaderOf()) by {
      EmptyHeaded();
    }
  }

  lemma EmptyHeaded()
    ensures Headed(HeaderClasses(), Headers(), HeaderOf())
  {
    forall h | h in Headers()
      ensures var c := HeaderClasses()[h]; c in HeaderOf() && HeaderOf()[c] == h
    {
      assert IsClass(8 * BinOf(h)) && 8 * BinOf(h) / 8 == BinOf(h);
    }
    forall c | c in HeaderOf()
      ensures var h := HeaderOf()[c]; h in Headers() && HeaderClasses()[h] == c
    {
      assert IsHeader(Header(c / 8)) && BinOf(Header(c / 8)) == c / 8;
    }
  }

  class SmallBins {
    var n: State
    ghost var g: Shadow

    ghost predicate Valid()
      reads this
    {
      Inv(n, g)
    }

    /** init_bins. */
    constructor ()
      ensures Valid() && n.size == map[]
    {
      n := State(0, map[], EmptyLinks(), EmptyLinks());
      g := Shadow(HeaderClasses(), EmptyLinks(), EmptyLinks(), map[], 0);
      new;
      EmptyInv();
    }

    /** insert_small_chunk. */
    method InsertSmallChunk(x: Addr, s: nat)
      requires Valid() && x > 0 && x !in n.size && Storable(s)
      modifies this
      ensures Valid() && n.size == old(n.size)[x := s]
    {
      hide Inv;
      HeaderFacts(n, g, s / 8);
      InsertKeepsInv(n, g, x, s);
      n, g := Inserted(n, x, s), InsertedShadow(g, x, s);
    }

    /** unlink_small_chunk. */
    method UnlinkSmallChunk(x: Addr, s: nat)
      requires Valid() && x in n.size && s == n.size[x]
      modifies this
      ensures Valid() && n.size == old(n.size) - {x}
    {
      hide Inv;
      RemoveKeepsInv(n, g, x);
      n, g := Removed(n, x, s / 8), RemovedShadow(g, x);
    }

    /** The first chunk of a marked bin, then unlink_first_small_chunk. */
    method TakeFirst(i: nat) returns (x: Addr)
      requires Valid() && i < NSMALLBINS && BinMap.Has(n.smallmap, i)
      modifies this
      ensures x in old(n.size) && old(n.size)[x] == 8 * i
      ensures Valid() && n.size == old(n.size) - {x}
    {
      hide Inv;
      HeaderFacts(n, g, i);
      x := n.fd[Header(i)];
      FirstIsStored(n, g, i);
      RemoveKeepsInv(n, g, x);
      n, g := Removed(n, x, i), RemovedShadow(g, x);
    }
  }
}
