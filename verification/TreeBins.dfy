/** The tree bins of a malloc state: 32 bitwise tries over the sizes of the large free chunks, with a ring of
    equal-sized chunks hanging off each tree node. */
module TreeBins {
  import opened Sizes
  import opened Bits
  import opened Rings
  import opened Tries
  import BinMap
  import TreeIndex
  import opened TreeSearch

  /** The treemap and treebins of the malloc state, and the words of every chunk stored in a tree bin. */
  datatype State = State(
    treemap: BinMap.Word,
    roots: seq<Addr>,
    size: map<Addr, nat>,
    index: map<Addr, nat>,
    left: Links,
    right: Links,
    parent: map<Addr, int>,
    fd: Links,
    bk: Links
  )

  /** What the proof remembers about the stored chunks: see Tries and Rings. */
  datatype Shadow = Shadow(bits: map<Addr, nat>, age: map<Addr, nat>, head: map<nat, Addr>, clock: nat)

  function View(n: State, g: Shadow): Trie {
    Trie(n.size, n.index, n.left, n.right, n.parent, n.roots, g.bits)
  }

  ghost predicate Storable(s: nat) {
    MIN_LARGE_SIZE <= s < WORD && s % 8 == 0
  }

  /** All link words of x can be read. */
  predicate Wired(n: State, x: Addr) {
    && x in n.fd && x in n.bk && x in n.parent && x in n.left && x in n.right
    && x in n.index && n.index[x] < BinMap.NBINS == |n.roots|
  }

  ghost predicate Element(n: State, g: Shadow, x: Addr)
    requires x in n.size
  {
    && x > 0 && x in n.index && x in n.left && x in n.right && x in n.parent
    && Storable(n.size[x]) && n.index[x] == TreeIndex.Index(n.size[x])
    && (x !in g.bits ==> n.parent[x] == 0 && n.left[x] == 0 && n.right[x] == 0)
  }

  ghost predicate Stored(n: State, g: Shadow) {
    forall x :: x in n.size ==> Element(n, g, x)
  }

  ghost predicate Mapped(treemap: BinMap.Word, roots: seq<Addr>) {
    && |roots| == NTREEBINS
    && forall i: nat | i < NTREEBINS :: BinMap.Has(treemap, i) <==> roots[i] != 0
  }

  ghost predicate Ringed(n: State, g: Shadow) {
    && Ring(n.size, g.bits.Keys, n.fd, n.bk, g.age, g.head)
    && (forall x :: x in g.age ==> g.age[x] < g.clock)
  }

  ghost predicate Inv(n: State, g: Shadow) {
    Tries.Valid(View(n, g)) && Stored(n, g) && Ringed(n, g) && Mapped(n.treemap, n.roots)
  }

  // ----- facts about a stored chunk -----

  lemma StoredAt(n: State, g: Shadow, x: Addr)
    requires Inv(n, g) && x in n.size
    ensures x > 0 && Wired(n, x) && Storable(n.size[x]) && n.index[x] == TreeIndex.Index(n.size[x])
    ensures n.fd[x] in n.size && n.bk[x] in n.size && n.size[n.fd[x]] == n.size[x] == n.size[n.bk[x]]
    ensures n.parent[x] != 0 <==> x in g.bits
  {
    if x in g.bits {
      assert Anchored(View(n, g), x);
    }
    var f, b := n.fd[x], n.bk[x];
    assert n.fd[b] == x;
  }

  lemma {:induction false} RootOf(t: Trie, a: Addr)
    requires Tries.Valid(t) && a in t.bits
    ensures t.bin[a] < NTREEBINS && t.roots[t.bin[a]] != 0
    decreases TreeIndex.RootBits(t.bin[a]) - t.bits[a]
  {
    assert Anchored(t, a);
    if t.parent[a] in t.bits {
      ParentOf(t, a);
      assert Anchored(t, t.parent[a]);
      RootOf(t, t.parent[a]);
    }
  }

  /** The root of a bin covers the bin. */
  lemma RootCovers(n: State, g: Shadow, i: nat, s: nat)
    requires Inv(n, g) && i < NTREEBINS && n.roots[i] != 0 && TreeIndex.Index(s) == i
    requires MIN_LARGE_SIZE <= s < WORD
    ensures var r := n.roots[i];
            r in g.bits && n.index[r] == i && g.bits[r] == TreeIndex.RootBits(i) <= 64 && InRange(View(n, g), r, s)
    ensures forall b :: b in g.bits && n.index[b] == i ==> Under(View(n, g), n.roots[i], b)
    ensures Covers(View(n, g), n.roots[i], s)
  {
    var t, r := View(n, g), n.roots[i];
    TreeIndex.SameBinSameRoot(s, t.size[r]);
    forall b | b in t.bits && t.bin[b] == i
      ensures Under(t, r, b)
    {
      assert Anchored(t, b);
      TreeIndex.SameBinSameRoot(t.size[b], t.size[r]);
    }
  }

  /** A bin is marked exactly when a chunk of one of its sizes is stored. */
  lemma MarkedIffHolds(n: State, g: Shadow, i: nat)
    requires Inv(n, g) && i < NTREEBINS
    ensures BinMap.Has(n.treemap, i) <==> exists x :: x in n.size && TreeIndex.Index(n.size[x]) == i
  {
    hide BinMap.Has;
    if BinMap.Has(n.treemap, i) {
      var r := n.roots[i];
      assert r in g.bits && n.index[r] == i;
      StoredAt(n, g, r);
    }
    if x :| x in n.size && TreeIndex.Index(n.size[x]) == i {
      var h := g.head[n.size[x]];
      assert h in g.bits && n.size[h] == n.size[x];
      StoredAt(n, g, h);
      RootOf(View(n, g), h);
    }
  }

  // ----- adding a chunk -----

  /** An empty bin holds no chunk of any of its sizes. */
  lemma NoSuchSize(n: State, g: Shadow, s: nat)
    requires Inv(n, g) && n.roots[TreeIndex.Index(s)] == 0
    ensures s !in g.head
  {
    forall h | h in g.bits.Keys
      ensures n.size[h] != s
    {
      RootOf(View(n, g), h);
    }
    NoHeadOfClass(n.size, g.bits.Keys, g.head, s);
  }

  function WithRoot(n: State, x: Addr, s: nat, i: nat): State
    requires i < BinMap.NBINS == |n.roots|
  {
    n.(size := n.size[x := s], index := n.index[x := i], left := n.left[x := 0], right := n.right[x := 0],
       parent := n.parent[x := BinHead(i)], roots := n.roots[i := x], treemap := BinMap.Mark(n.treemap, i),
       fd := n.fd[x := x], bk := n.bk[x := x])
  }

  lemma WithRootTrie(n: State, g: Shadow, x: Addr, s: nat, i: nat)
    requires Inv(n, g) && x > 0 && x !in n.size && Storable(s) && i == TreeIndex.Index(s) && n.roots[i] == 0
    ensures Tries.Valid(View(WithRoot(n, x, s, i), g.(bits := g.bits[x := TreeIndex.RootBits(i)],
            head := g.head[s := x])))
  {
    AddRootKeepsValid(View(n, g), x, s, i);
  }

  lemma WithRootRinged(n: State, g: Shadow, x: Addr, s: nat, i: nat)
    requires Inv(n, g) && x > 0 && x !in n.size && Storable(s) && i == TreeIndex.Index(s) && n.roots[i] == 0
    ensures Ringed(WithRoot(n, x, s, i), g.(bits := g.bits[x := TreeIndex.RootBits(i)], head := g.head[s := x]))
  {
    NoSuchSize(n, g, s);
    StartKeepsRing(n.size, g.bits.Keys, n.fd, n.bk, g.age, g.head, x, s);
    assert g.bits[x := TreeIndex.RootBits(i)].Keys == g.bits.Keys + {x};
  }

  lemma WithRootKeepsInv(n: State, g: Shadow, x: Addr, s: nat, i: nat)
    requires Inv(n, g) && x > 0 && x !in n.size && Storable(s) && i == TreeIndex.Index(s) && n.roots[i] == 0
    ensures Inv(WithRoot(n, x, s, i), g.(bits := g.bits[x := TreeIndex.RootBits(i)], head := g.head[s := x]))
  {
    hide Tries.Valid, Ringed;
    WithRootTrie(n, g, x, s, i);
    WithRootRinged(n, g, x, s, i);
  }

  function WithLeaf(n: State, x: Addr, s: nat, p: Addr, d: nat): State
    requires p in n.index
  {
    n.(size := n.size[x := s], index := n.index[x := n.index[p]],
       left := (if d == 0 then n.left[p := x] else n.left)[x := 0],
       right := (if d == 0 then n.right else n.right[p := x])[x := 0],
       parent := n.parent[x := p], fd := n.fd[x := x], bk := n.bk[x := x])
  }

  lemma WithLeafTrie(n: State, g: Shadow, x: Addr, s: nat, p: Addr, d: nat)
    requires Inv(n, g) && x > 0 && x !in n.size && Storable(s) && s !in g.head
    requires p in g.bits && n.index[p] == TreeIndex.Index(s) && g.bits[p] > 0
    requires InRange(View(n, g), p, s) && d == Side(View(n, g), p, s) && ChildAt(View(n, g), p, d) == 0
    ensures Tries.Valid(View(WithLeaf(n, x, s, p, d), g.(bits := g.bits[x := g.bits[p] - 1], head := g.head[s := x])))
  {
    AddLeafKeepsValid(View(n, g), x, s, p, d);
  }

  lemma WithLeafRinged(n: State, g: Shadow, x: Addr, s: nat, p: Addr, d: nat)
    requires Inv(n, g) && x !in n.size && s !in g.head && p in g.bits && g.bits[p] > 0
    ensures Ringed(WithLeaf(n, x, s, p, d), g.(bits := g.bits[x := g.bits[p] - 1], head := g.head[s := x]))
  {
    StartKeepsRing(n.size, g.bits.Keys, n.fd, n.bk, g.age, g.head, x, s);
    assert g.bits[x := g.bits[p] - 1].Keys == g.bits.Keys + {x};
  }

  lemma WithLeafStored(n: State, g: Shadow, x: Addr, s: nat, p: Addr, d: nat)
    requires Inv(n, g) && x > 0 && x !in n.size && Storable(s)
    requires p in g.bits && n.index[p] == TreeIndex.Index(s) && g.bits[p] > 0
    ensures Stored(WithLeaf(n, x, s, p, d), g.(bits := g.bits[x := g.bits[p] - 1], head := g.head[s := x]))
  {
  }

  lemma WithLeafKeepsInv(n: State, g: Shadow, x: Addr, s: nat, p: Addr, d: nat)
    requires Inv(n, g) && x > 0 && x !in n.size && Storable(s) && s !in g.head
    requires p in g.bits && n.index[p] == TreeIndex.Index(s) && g.bits[p] > 0
    requires InRange(View(n, g), p, s) && d == Side(View(n, g), p, s) && ChildAt(View(n, g), p, d) == 0
    ensures Inv(WithLeaf(n, x, s, p, d), g.(bits := g.bits[x := g.bits[p] - 1], head := g.head[s := x]))
  {
    hide Tries.Valid, Ringed, Stored;
    WithLeafTrie(n, g, x, s, p, d);
    WithLeafRinged(n, g, x, s, p, d);
    WithLeafStored(n, g, x, s, p, d);
  }

  function WithChained(n: State, x: Addr, s: nat, h: Addr): State
    requires h in n.index && h in n.fd
  {
    n.(size := n.size[x := s], index := n.index[x := n.index[h]], left := n.left[x := 0], right := n.right[x := 0],
       parent := n.parent[x := 0], fd := InsertFd(n.fd, h, x), bk := InsertBk(n.fd, n.bk, h, x))
  }

  /** A trie does not notice changes to chunks that are not its nodes. */
  lemma FrameTrie(t: Trie, t': Trie)
    requires Tries.Valid(t) && Typed(t') && t'.bits == t.bits && t'.roots == t.roots
    requires forall a :: a in t.bits ==>
               t'.size[a] == t.size[a] && t'.bin[a] == t.bin[a] && t'.left[a] == t.left[a] &&
               t'.right[a] == t.right[a] && t'.parent[a] == t.parent[a]
    ensures Tries.Valid(t')
  {
    forall a | a in t'.bits
      ensures KidsOf(t', a) && Anchored(t', a)
    {
      assert KidsOf(t, a) && Anchored(t, a);
    }
  }

  lemma WithChainedTrie(n: State, g: Shadow, x: Addr, s: nat, h: Addr)
    requires Inv(n, g) && x > 0 && x !in n.size && h in g.bits && n.size[h] == s
    ensures Tries.Valid(View(WithChained(n, x, s, h), g))
  {
    FrameTrie(View(n, g), View(WithChained(n, x, s, h), g));
  }

  lemma WithChainedRinged(n: State, g: Shadow, x: Addr, s: nat, h: Addr)
    requires Inv(n, g) && x !in n.size && h in g.bits && n.size[h] == s
    ensures Ringed(WithChained(n, x, s, h), g.(age := g.age[x := g.clock], clock := g.clock + 1))
  {
    InsertKeepsRing(n.size, g.bits.Keys, n.fd, n.bk, g.age, g.head, h, x, g.clock);
  }

  lemma WithChainedStored(n: State, g: Shadow, x: Addr, s: nat, h: Addr)
    requires Inv(n, g) && x > 0 && x !in n.size && Storable(s) && h in g.bits && n.size[h] == s
    ensures Stored(WithChained(n, x, s, h), g)
  {
  }

  lemma WithChainedKeepsInv(n: State, g: Shadow, x: Addr, s: nat, h: Addr)
    requires Inv(n, g) && x > 0 && x !in n.size && Storable(s) && h in g.bits && n.size[h] == s
    ensures Inv(WithChained(n, x, s, h), g.(age := g.age[x := g.clock], clock := g.clock + 1))
  {
    hide Tries.Valid, Ringed;
    WithChainedTrie(n, g, x, s, h);
    WithChainedRinged(n, g, x, s, h);
    WithChainedStored(n, g, x, s, h);
  }

  // ----- taking a chunk out -----

  /** Every reference to x from above now leads to r; a root slot that becomes empty clears its map bit. */
  function Redirected(n: State, x: Addr, r: Addr): (n': State)
    requires Wired(n, x)
    ensures n'.size == n.size && n'.index == n.index && n'.parent == n.parent && n'.fd == n.fd && n'.bk == n.bk
    ensures |n'.roots| == |n.roots| && n.left.Keys <= n'.left.Keys && n.right.Keys <= n'.right.Keys
  {
    var i, p := n.index[x], n.parent[x];
    if n.roots[i] == x then n.(roots := n.roots[i := r], treemap := if r == 0 then
                            BinMap.Clear(n.treemap, i) else n.treemap)
    else if p in n.left && n.left[p] == x then n.(left := n.left[p := r])
    else n.(right := n.right[p := r])
  }

  /** r takes over the parent and the children of x. */
  function Relinked(n: State, x: Addr, r: Addr): (n': State)
    requires Wired(n, x)
    ensures n'.size == n.size && n'.index == n.index && n'.fd == n.fd && n'.bk == n.bk
    ensures |n'.roots| == |n.roots| && n.left.Keys + {r} <= n'.left.Keys && n.right.Keys + {r} <= n'.right.Keys
    ensures n.parent.Keys + {r} <= n'.parent.Keys
  {
    var n1 := Redirected(n, x, r);
    var c0, c1 := n.left[x], n.right[x];
    var up := n.parent[r := n.parent[x]];
    var up0 := if c0 != 0 then up[c0 := r] else up;
    n1.(left := n1.left[r := c0], right := n1.right[r := c1], parent := if c1 != 0 then up0[c1 := r] else up0)
  }

  function OffRing(n: State, x: Addr): State
    requires x in n.fd && x in n.bk
  {
    n.(fd := RemoveFd(n.fd, n.bk, x), bk := RemoveBk(n.fd, n.bk, x))
  }

  function Dropped(n: State, x: Addr): State {
    n.(size := n.size - {x})
  }

  // A chunk that hangs off a tree node.

  lemma DropChainedKeepsInv(n: State, g: Shadow, x: Addr)
    requires Inv(n, g) && x in n.size && x !in g.bits
    ensures x in n.fd && x in n.bk && Inv(Dropped(OffRing(n, x), x), g)
  {
    StoredAt(n, g, x);
    FrameTrie(View(n, g), View(Dropped(OffRing(n, x), x), g));
    RemoveKeepsRing(n.size, g.bits.Keys, n.fd, n.bk, g.age, g.head, x);
  }

  // A tree node with other chunks of its size.

  function Promoted(g: Shadow, x: Addr, r: Addr, s: nat): Shadow
    requires x in g.bits
  {
    g.(bits := (g.bits - {x})[r := g.bits[x]], head := g.head[s := r])
  }

  function PromoteState(n: State, x: Addr, r: Addr): State
    requires Wired(n, x)
  {
    Dropped(Relinked(OffRing(n, x), x, r), x)
  }

  ghost predicate CanPromote(n: State, g: Shadow, x: Addr, r: Addr) {
    Inv(n, g) && x in n.size && x in g.bits && x in n.bk && r == n.bk[x] != x
  }

  lemma PromoteNeighbour(n: State, g: Shadow, x: Addr, r: Addr)
    requires CanPromote(n, g, x, r)
    ensures Wired(n, x)
    ensures r in n.size && r !in g.bits && r > 0 && r in n.index && n.index[r] == n.index[x] && n.size[r] == n.size[x]
  {
    StoredAt(n, g, x);
    StoredAt(n, g, r);
    assert g.head[n.size[x]] == x;
  }

  /** The relinking steps are the trie operation Replace. */
  lemma RelinkedIsReplace(n: State, g: Shadow, g': Shadow, x: Addr, r: Addr)
    requires Wired(n, x)
    requires x in g.bits && g'.bits == (g.bits - {x})[r := g.bits[x]]
    ensures View(Relinked(n, x, r), g') == Replace(View(n, g), x, r)
  {
  }

  lemma DropFromTrie(t: Trie, x: Addr)
    requires Tries.Valid(t) && x !in t.bits
    ensures Tries.Valid(t.(size := t.size - {x}))
  {
    FrameTrie(t, t.(size := t.size - {x}));
  }

  lemma PromoteTrie(n: State, g: Shadow, x: Addr, r: Addr)
    requires CanPromote(n, g, x, r)
    ensures Wired(n, x)
    ensures Tries.Valid(View(PromoteState(n, x, r), Promoted(g, x, r, n.size[x])))
  {
    PromoteNeighbour(n, g, x, r);
    ReplaceKeepsValid(View(n, g), x, r);
    RelinkedIsReplace(OffRing(n, x), g, Promoted(g, x, r, n.size[x]), x, r);
    DropFromTrie(Replace(View(n, g), x, r), x);
  }

  lemma PromoteRinged(n: State, g: Shadow, x: Addr, r: Addr)
    requires CanPromote(n, g, x, r)
    ensures Wired(n, x)
    ensures Ringed(PromoteState(n, x, r), Promoted(g, x, r, n.size[x]))
  {
    PromoteNeighbour(n, g, x, r);
    RemoveHeadKeepsRing(n.size, g.bits.Keys, n.fd, n.bk, g.age, g.head, x);
    assert (g.bits - {x})[r := g.bits[x]].Keys == g.bits.Keys - {x} + {r};
  }

  lemma RelinkedElement(n: State, g: Shadow, g': Shadow, x: Addr, r: Addr, y: Addr)
    requires Wired(n, x)
    requires x in g.bits && g'.bits == (g.bits - {x})[r := g.bits[x]]
    requires y in n.size && y != x && Element(n, g, y)
    requires Typed(View(n, g)) && Anchored(View(n, g), x) && KidsOf(View(n, g), x)
    ensures Element(Relinked(n, x, r), g', y)
  {
    if y !in g'.bits {
      var n' := Relinked(n, x, r);
      assert y != r && y != n.left[x] && y != n.right[x] && y != n.parent[x];
      assert n'.parent[y] == n.parent[y] && n'.left[y] == n.left[y] && n'.right[y] == n.right[y];
    }
  }

  lemma PromoteStored(n: State, g: Shadow, x: Addr, r: Addr)
    requires CanPromote(n, g, x, r)
    ensures Wired(n, x)
    ensures Stored(PromoteState(n, x, r), Promoted(g, x, r, n.size[x]))
  {
    PromoteNeighbour(n, g, x, r);
    assert KidsOf(View(n, g), x) && Anchored(View(n, g), x);
    var n0, g' := OffRing(n, x), Promoted(g, x, r, n.size[x]);
    forall y | y in n.size && y != x
      ensures Element(Relinked(n0, x, r), g', y)
    {
      assert Element(n, g, y);
      RelinkedElement(n0, g, g', x, r, y);
    }
  }

  lemma RelinkedMapped(n: State, x: Addr, r: Addr)
    requires Mapped(n.treemap, n.roots) && r > 0
    requires x > 0 && Wired(n, x)
    ensures Mapped(Relinked(n, x, r).treemap, Relinked(n, x, r).roots)
  {
  }

  lemma PromoteKeepsInv(n: State, g: Shadow, x: Addr, r: Addr)
    requires CanPromote(n, g, x, r)
    ensures Wired(n, x)
    ensures Inv(PromoteState(n, x, r), Promoted(g, x, r, n.size[x]))
  {
    hide Tries.Valid, Ringed, Stored, Mapped;
    PromoteTrie(n, g, x, r);
    PromoteRinged(n, g, x, r);
    PromoteStored(n, g, x, r);
    PromoteNeighbour(n, g, x, r);
    StoredAt(n, g, x);
    RelinkedMapped(OffRing(n, x), x, r);
  }

  // A tree node alone on its ring and without children.

  function Forgotten(g: Shadow, x: Addr, s: nat): Shadow {
    g.(bits := g.bits - {x}, head := g.head - {s})
  }

  ghost predicate CanDropLeaf(n: State, g: Shadow, x: Addr) {
    Inv(n, g) && x in n.size && x in g.bits && Wired(n, x) && n.bk[x] == x && n.left[x] == 0 && n.right[x] == 0
  }

  lemma RedirectedIsUnhook(n: State, g: Shadow, g': Shadow, x: Addr)
    requires Wired(n, x) && g'.bits == g.bits - {x}
    ensures View(Redirected(n, x, 0), g') == Unhook(View(n, g), x)
  {
  }

  lemma DropLeafTrie(n: State, g: Shadow, x: Addr)
    requires CanDropLeaf(n, g, x)
    ensures Tries.Valid(View(Dropped(Redirected(n, x, 0), x), Forgotten(g, x, n.size[x])))
  {
    UnhookKeepsValid(View(n, g), x);
    RedirectedIsUnhook(n, g, Forgotten(g, x, n.size[x]), x);
    DropFromTrie(Unhook(View(n, g), x), x);
  }

  lemma RedirectedElement(n: State, g: Shadow, g': Shadow, x: Addr, y: Addr)
    requires Wired(n, x) && x in g.bits && g'.bits == g.bits - {x}
    requires y in n.size && y != x && Element(n, g, y) && Typed(View(n, g)) && Anchored(View(n, g), x)
    ensures Element(Redirected(n, x, 0), g', y)
  {
  }

  lemma DropLeafStored(n: State, g: Shadow, x: Addr)
    requires CanDropLeaf(n, g, x)
    ensures Stored(Dropped(Redirected(n, x, 0), x), Forgotten(g, x, n.size[x]))
  {
    assert Anchored(View(n, g), x);
    var g' := Forgotten(g, x, n.size[x]);
    forall y | y in n.size && y != x
      ensures Element(Redirected(n, x, 0), g', y)
    {
      assert Element(n, g, y);
      RedirectedElement(n, g, g', x, y);
    }
  }

  lemma RedirectedMapped(n: State, x: Addr)
    requires Mapped(n.treemap, n.roots) && x > 0 && Wired(n, x)
    ensures Mapped(Redirected(n, x, 0).treemap, Redirected(n, x, 0).roots)
  {
  }

  lemma DropLeafKeepsInv(n: State, g: Shadow, x: Addr)
    requires CanDropLeaf(n, g, x)
    ensures Inv(Dropped(Redirected(n, x, 0), x), Forgotten(g, x, n.size[x]))
  {
    hide Tries.Valid, Stored, Mapped;
    DropLeafTrie(n, g, x);
    DropLeafStored(n, g, x);
    StoredAt(n, g, x);
    RedirectedMapped(n, x);
    RemoveLoneHeadKeepsRing(n.size, g.bits.Keys, n.fd, n.bk, g.age, g.head, x);
    assert (g.bits - {x}).Keys == g.bits.Keys - {x};
  }

  // A tree node alone on its ring: the leaf r below it takes its place.

  function Moved(g: Shadow, x: Addr, r: Addr, s: nat): Shadow
    requires x in g.bits
  {
    g.(bits := (g.bits - {r} - {x})[r := g.bits[x]], head := g.head - {s})
  }

  ghost predicate CanSwap(n: State, g: Shadow, x: Addr, r: Addr) {
    && Inv(n, g) && x in n.size && x in g.bits && Wired(n, x) && n.bk[x] == x
    && r in n.size && r in g.bits && Wired(n, r) && r != x && n.left[r] == 0 && n.right[r] == 0
    && n.index[r] == n.index[x] && InRange(View(n, g), x, n.size[r]) && n.roots[n.index[r]] != r
  }

  function SwapState(n: State, x: Addr, r: Addr): State
    requires Wired(n, x) && Wired(n, r)
  {
    Dropped(Relinked(Redirected(n, r, 0), x, r), x)
  }

  lemma SwapTrie(n: State, g: Shadow, x: Addr, r: Addr)
    requires CanSwap(n, g, x, r)
    ensures Tries.Valid(View(SwapState(n, x, r), Moved(g, x, r, n.size[x])))
  {
    var g1 := g.(bits := g.bits - {r});
    UnhookKeepsValid(View(n, g), r);
    RedirectedIsUnhook(n, g, g1, r);
    ReplaceKeepsValid(Unhook(View(n, g), r), x, r);
    RelinkedIsReplace(Redirected(n, r, 0), g1, Moved(g, x, r, n.size[x]), x, r);
    DropFromTrie(Replace(Unhook(View(n, g), r), x, r), x);
  }

  lemma SwapUnhooked(n: State, g: Shadow, x: Addr, r: Addr)
    requires CanSwap(n, g, x, r)
    ensures var n1, g1 := Redirected(n, r, 0), g.(bits := g.bits - {r});
            Tries.Valid(View(n1, g1)) && Anchored(View(n1, g1), x) && KidsOf(View(n1, g1), x) && Wired(n1, x)
    ensures Typed(View(n, g)) && Anchored(View(n, g), r)
  {
    UnhookKeepsValid(View(n, g), r);
    RedirectedIsUnhook(n, g, g.(bits := g.bits - {r}), r);
    assert Anchored(View(n, g), r);
  }

  lemma SwapElement(n: State, g: Shadow, x: Addr, r: Addr, y: Addr)
    requires CanSwap(n, g, x, r) && y in n.size && y != x && y != r && Element(n, g, y)
    ensures Element(Relinked(Redirected(n, r, 0), x, r), Moved(g, x, r, n.size[x]), y)
  {
    hide Inv, Redirected, Relinked;
    var n1, g1 := Redirected(n, r, 0), g.(bits := g.bits - {r});
    SwapUnhooked(n, g, x, r);
    RedirectedElement(n, g, g1, r, y);
    RelinkedElement(n1, g1, Moved(g, x, r, n.size[x]), x, r, y);
  }

  lemma SwapStored(n: State, g: Shadow, x: Addr, r: Addr)
    requires CanSwap(n, g, x, r)
    ensures Stored(SwapState(n, x, r), Moved(g, x, r, n.size[x]))
  {
    hide Tries.Valid, Ringed, Mapped, Redirected, Relinked;
    assert Element(n, g, r);
    forall y | y in n.size && y != x && y != r
      ensures Element(Relinked(Redirected(n, r, 0), x, r), Moved(g, x, r, n.size[x]), y)
    {
      assert Element(n, g, y);
      SwapElement(n, g, x, r, y);
    }
  }

  lemma SwapRinged(n: State, g: Shadow, x: Addr, r: Addr)
    requires CanSwap(n, g, x, r)
    ensures Ringed(SwapState(n, x, r), Moved(g, x, r, n.size[x]))
  {
    hide Tries.Valid, Stored, Mapped, Redirected, Relinked;
    RemoveLoneHeadKeepsRing(n.size, g.bits.Keys, n.fd, n.bk, g.age, g.head, x);
    assert (g.bits - {r} - {x})[r := g.bits[x]].Keys == g.bits.Keys - {x};
  }

  lemma SwapMapped(n: State, g: Shadow, x: Addr, r: Addr)
    requires CanSwap(n, g, x, r)
    ensures Mapped(SwapState(n, x, r).treemap, SwapState(n, x, r).roots)
  {
    hide Tries.Valid, Stored, Ringed, Redirected, Relinked;
    StoredAt(n, g, x);
    StoredAt(n, g, r);
    RedirectedMapped(n, r);
    RelinkedMapped(Redirected(n, r, 0), x, r);
  }

  lemma SwapKeepsInv(n: State, g: Shadow, x: Addr, r: Addr)
    requires CanSwap(n, g, x, r)
    ensures Inv(SwapState(n, x, r), Moved(g, x, r, n.size[x]))
  {
    hide Tries.Valid, Ringed, Stored, Mapped;
    SwapTrie(n, g, x, r);
    SwapRinged(n, g, x, r);
    SwapStored(n, g, x, r);
    SwapMapped(n, g, x, r);
  }

  /** A child of a descendant is a descendant. */
  lemma ChildUnder(n: State, g: Shadow, x: Addr, p: Addr, c: Addr)
    requires Inv(n, g) && x in g.bits && p in g.bits && Under(View(n, g), x, p) && c != 0
    requires p in n.left && p in n.right && (n.left[p] == c || n.right[p] == c)
    ensures c in g.bits && c in n.size && Wired(n, c) && n.parent[c] == p && g.bits[c] < g.bits[p]
    ensures Under(View(n, g), x, c)
  {
    var t := View(n, g);
    assert KidsOf(t, p);
    StoredAt(n, g, c);
    ParentOf(t, c);
    NarrowRange(t, x, p, c);
  }

  lemma LeafCanSwap(n: State, g: Shadow, x: Addr, r: Addr)
    requires Inv(n, g) && x in n.size && x in g.bits && Wired(n, x) && n.bk[x] == x
    requires r in g.bits && Under(View(n, g), x, r) && r != x && n.left[r] == 0 && n.right[r] == 0
    ensures CanSwap(n, g, x, r)
  {
    StoredAt(n, g, r);
    assert Anchored(View(n, g), r);
    if g.bits[r] == g.bits[x] {
      RangesDiffer(View(n, g), x, r);
    }
  }

  /** A chunk whose ring is just itself is a tree node. */
  lemma LoneIsNode(n: State, g: Shadow, x: Addr)
    requires Inv(n, g) && x in n.size && x in n.bk && n.bk[x] == x
    ensures x in g.bits
  {
    assert n.fd[x] == x;
    assert x !in g.bits.Keys ==> x in g.age;
  }

  // ----- searching -----

  ghost predicate Fits(size: map<Addr, nat>, nb: nat, x: Addr) {
    x in size && size[x] >= nb
  }

  /** v is a smallest stored chunk of at least nb bytes. */
  ghost predicate BestFit(size: map<Addr, nat>, nb: nat, v: Addr) {
    Fits(size, nb, v) && forall x :: Fits(size, nb, x) ==> size[v] <= size[x]
  }

  /** v, if any, is a fitting tree node and leaves rsize bytes; no v is the wrapped value -nb. */
  ghost predicate Candidate(n: State, g: Shadow, nb: nat, v: Addr, rsize: nat) {
    if v == 0 then rsize == WORD - nb
    else v in g.bits && v in n.size && n.size[v] >= nb && rsize == n.size[v] - nb
  }

  lemma InvIsFiled(n: State, g: Shadow)
    requires Inv(n, g)
    ensures Filed(View(n, g)) && Typed(View(n, g)) && 0 !in g.bits
  {
    forall a | a in g.bits
      ensures MIN_LARGE_SIZE <= n.size[a] < WORD && n.index[a] == TreeIndex.Index(n.size[a])
    {
      assert Element(n, g, a);
    }
  }

  /** Comparing wrapped remainders keeps exactly the better fit. */
  lemma WrappedRemainder(s: nat, nb: nat, rsize: nat)
    requires 0 < s < WORD && 0 < nb < WORD && rsize <= WORD - nb
    ensures Minus(s, nb) < rsize <==> s >= nb && s < nb + rsize
    ensures s >= nb ==> Minus(s, nb) == s - nb
  {
    if s < nb {
      assert Minus(s, nb) == s - nb + WORD;
    }
  }

  lemma FiledIsValid(t: Trie)
    requires Filed(t)
    ensures Tries.Valid(t)
  {
  }

  lemma KidsAt(t: Trie, a: Addr)
    requires Tries.Valid(t) && a in t.bits
    ensures KidsOf(t, a)
  {
  }

  lemma BinOfCandidate(n: State, g: Shadow, v: Addr)
    requires Inv(n, g) && (v != 0 ==> v in g.bits && v in n.size)
    ensures v != 0 ==> MIN_LARGE_SIZE <= n.size[v] && v in n.index && TreeIndex.Index(n.size[v]) == n.index[v]
  {
    if v != 0 {
      StoredAt(n, g, v);
    }
  }

  lemma SeekStarts(t: Trie, i: nat, nb: nat)
    requires Typed(t) && i < NTREEBINS && t.roots[i] in t.bits
    requires forall b :: b in t.bits && t.bin[b] == i ==> Under(t, t.roots[i], b)
    ensures RightOf(t, t.roots[i], 0) && Seeking(t, i, nb, t.roots[i], 0, WORD)
  {
  }

  lemma SeekCompare(t: Trie, i: nat, nb: nat, cur: Addr, rst: Addr, best: nat)
    requires Typed(t) && cur in t.bits && Seeking(t, i, nb, cur, rst, best)
    ensures t.size[cur] < best ==> Seeking(t, i, nb, cur, rst, t.size[cur])
  {
    if t.size[cur] < best {
      forall b | b in t.bits && t.bin[b] == i && t.size[b] >= nb
        ensures Sought(t, cur, rst, t.size[cur], b)
      {
        assert Sought(t, cur, rst, best, b);
      }
    }
  }

  lemma ExactFit(t: Trie, nb: nat, cur: Addr)
    requires Typed(t)
    ensures AllSettled(t, nb, cur, nb) && OnlyFits(t, nb, cur, nb)
  {
  }

  lemma InvIsMapped(n: State, g: Shadow)
    requires Inv(n, g)
    ensures Mapped(n.treemap, n.roots)
  {
  }

  lemma EmptyBin(n: State, g: Shadow, i: nat, nb: nat)
    requires Inv(n, g) && i < NTREEBINS && n.roots[i] == 0
    ensures Typed(View(n, g)) && Seeking(View(n, g), i, nb, 0, 0, WORD)
  {
    forall b | b in g.bits
      ensures n.index[b] != i
    {
      RootOf(View(n, g), b);
    }
  }

  /** j is the first non-empty bin above i. */
  lemma NextRoot(n: State, g: Shadow, i: nat, j: nat)
    requires Inv(n, g) && i < j < NTREEBINS && BinMap.Has(n.treemap, j)
    requires forall m: nat | m < NTREEBINS && m > i && BinMap.Has(n.treemap, m) :: j <= m
    ensures |n.roots| == NTREEBINS && n.roots[j] != 0 && n.roots[j] in g.bits && Typed(View(n, g))
    ensures forall b :: b in g.bits && n.index[b] > i ==> n.index[b] >= j
    ensures forall b :: b in g.bits && n.index[b] == j ==> Under(View(n, g), n.roots[j], b)
  {
    var r := n.roots[j];
    assert Element(n, g, r);
    RootCovers(n, g, j, n.size[r]);
    forall b | b in g.bits && n.index[b] > i
      ensures n.index[b] >= j
    {
      RootOf(View(n, g), b);
    }
  }

  lemma NoHigherBin(n: State, g: Shadow, i: nat, nb: nat)
    requires Inv(n, g) && MIN_LARGE_SIZE <= nb < WORD && i == TreeIndex.Index(nb)
    requires forall m: nat | m < NTREEBINS && m > i :: !BinMap.Has(n.treemap, m)
    requires Typed(View(n, g)) && Seeking(View(n, g), i, nb, 0, 0, WORD)
    ensures AllSettled(View(n, g), nb, 0, WORD) && OnlyFits(View(n, g), nb, 0, WORD)
  {
    InvIsFiled(n, g);
    forall b | b in g.bits && n.size[b] >= nb
      ensures Settled(View(n, g), 0, WORD, b)
    {
      RootOf(View(n, g), b);
      TreeIndex.IndexMono(nb, n.size[b]);
    }
  }

  /** i is the first non-empty bin of all. */
  lemma FirstRoot(n: State, g: Shadow, i: nat, nb: nat)
    requires Inv(n, g) && i < NTREEBINS && BinMap.Has(n.treemap, i) && 0 < nb < MIN_LARGE_SIZE
    requires forall m: nat | m < NTREEBINS && BinMap.Has(n.treemap, m) :: i <= m
    ensures |n.roots| == NTREEBINS && Typed(View(n, g))
    ensures var r := n.roots[i]; r != 0 && r in g.bits && r in n.size && nb <= n.size[r]
    ensures AllSettled(View(n, g), nb, n.roots[i], n.size[n.roots[i]])
            && OnlyFits(View(n, g), nb, n.roots[i], n.size[n.roots[i]])
  {
    var r := n.roots[i];
    InvIsFiled(n, g);
    RootCovers(n, g, i, n.size[r]);
    forall b | b in g.bits
      ensures Settled(View(n, g), r, n.size[r], b) && n.size[b] >= nb
    {
      RootOf(View(n, g), b);
      if n.index[b] > i {
        HigherBinIsLarger(n.size[r], n.size[b]);
      }
    }
  }

  lemma AllFit(n: State, g: Shadow, nb: nat)
    requires Inv(n, g) && nb < MIN_LARGE_SIZE
    ensures forall x :: x in n.size ==> Fits(n.size, nb, x)
  {
    forall x | x in n.size
      ensures Fits(n.size, nb, x)
    {
      assert Element(n, g, x);
    }
  }

  /** What the tree nodes say about all stored chunks. */
  lemma SettledIsBest(n: State, g: Shadow, nb: nat, v: Addr, rsize: nat)
    requires Inv(n, g) && 0 < nb < WORD && Candidate(n, g, nb, v, rsize) && AllSettled(View(n, g), nb, 0, nb + rsize)
    ensures v == 0 ==> forall x :: !Fits(n.size, nb, x)
    ensures v != 0 ==> BestFit(n.size, nb, v)
  {
    InvIsFiled(n, g);
    forall x | Fits(n.size, nb, x)
      ensures v != 0 && n.size[v] <= n.size[x]
    {
      var h := g.head[n.size[x]];
      assert h in g.bits && n.size[h] == n.size[x];
      assert Element(n, g, x);
      assert Settled(View(n, g), 0, nb + rsize, h);
    }
  }

  class TreeBins {
    var n: State
    ghost var g: Shadow

    ghost predicate Valid()
      reads this
    {
      Inv(n, g)
    }

    constructor ()
      ensures Valid() && n.size == map[]
    {
      n := State(0, seq(NTREEBINS, i => 0), map[], map[], map[], map[], map[], map[], map[]);
      g := Shadow(map[], map[], map[], 0);
      new;
      BinMap.NonZero(0);
    }

    /** Where a chunk of size s belongs in the tree of bin i: at a node of the same size, or at an empty child. */
    method FindSlot(s: nat, i: nat) returns (t: Addr, d: nat)
      requires Valid() && i < NTREEBINS && n.roots[i] != 0 && TreeIndex.Index(s) == i
      requires MIN_LARGE_SIZE <= s < WORD
      ensures t in g.bits && t in n.size && t in n.index && t in n.fd && n.index[t] == i
      ensures n.size[t] != s ==>
                g.bits[t] > 0 && InRange(View(n, g), t, s) && d == Side(View(n, g), t, s)
                    && ChildAt(View(n, g), t, d) == 0
      ensures n.size[t] != s ==> s !in g.head
    {
      ghost var v := View(n, g);
      t, d := n.roots[i], 0;
      var k := Register(s, TreeIndex.RootBits(i));
      RootCovers(n, g, i, s);
      while n.size[t] != s
        invariant t in g.bits && n.index[t] == i && InRange(v, t, s) && g.bits[t] <= 64
        invariant k == Register(s, g.bits[t])
        invariant Covers(v, t, s)
        decreases g.bits[t]
      {
        NextDigit(v, t, s);
        d := SignBit(k);
        var c := if d == 0 then n.left[t] else n.right[t];
        k := 2 * k % WORD;
        NextCovers(v, t, s, c);
        if c == 0 {
          NoHeadOfClass(n.size, g.bits.Keys, g.head, s);
          return;
        }
        assert KidsOf(v, t);
        NextInRange(v, t, s, c);
        t := c;
      }
    }

    /** insert_large_chunk. */
    method InsertLargeChunk(x: Addr, s: nat)
      requires Valid() && x > 0 && x !in n.size && Storable(s)
      modifies this
      ensures Valid() && n.size == old(n.size)[x := s]
    {
      hide Inv;
      var i := TreeIndex.ComputeIndex(s);
      var marked := IsMarked(i);
      if !marked {
        WithRootKeepsInv(n, g, x, s, i);
        n := WithRoot(n, x, s, i);
        g := g.(bits := g.bits[x := TreeIndex.RootBits(i)], head := g.head[s := x]);
      } else {
        var t, d := FindSlot(s, i);
        if n.size[t] != s {
          WithLeafKeepsInv(n, g, x, s, t, d);
          n := WithLeaf(n, x, s, t, d);
          g := g.(bits := g.bits[x := g.bits[t] - 1], head := g.head[s := x]);
        } else {
          WithChainedKeepsInv(n, g, x, s, t);
          n := WithChained(n, x, s, t);
          g := g.(age := g.age[x := g.clock], clock := g.clock + 1);
        }
      }
    }

    method IsMarked(i: nat) returns (marked: bool)
      requires Valid() && i < NTREEBINS
      ensures |n.roots| == NTREEBINS
      ensures marked <==> n.roots[i] != 0
    {
      marked := BinMap.Has(n.treemap, i);
    }

    /** The rightmost leaf below x, with the child slot (p, d) that holds it. */
    method RightmostLeaf(x: Addr) returns (r: Addr, p: Addr, d: nat)
      requires Valid() && x in g.bits && Wired(n, x) && (n.left[x] != 0 || n.right[x] != 0)
      ensures r in g.bits && r in n.size && Wired(n, r) && Under(View(n, g), x, r) && r != x
      ensures n.left[r] == 0 && n.right[r] == 0
      ensures p in n.left && p in n.right && n.parent[r] == p && (if d == 0 then n.left[p] == r else n.right[p] == r)
      ensures d == 0 || n.left[p] != r
    {
      ghost var v := View(n, g);
      p := x;
      d := if n.right[p] != 0 then 1 else 0;
      r := if n.right[p] != 0 then n.right[p] else n.left[p];
      ChildUnder(n, g, x, p, r);
      while n.right[r] != 0 || n.left[r] != 0
        invariant r in g.bits && r in n.size && Wired(n, r) && Under(v, x, r) && g.bits[r] < g.bits[x]
        invariant p in g.bits && Wired(n, p) && n.parent[r] == p && (if d == 0 then n.left[p] == r else n.right[p] == r)
        decreases g.bits[r]
      {
        p := r;
        d := if n.right[p] != 0 then 1 else 0;
        r := if n.right[p] != 0 then n.right[p] else n.left[p];
        ChildUnder(n, g, x, p, r);
      }
      assert KidsOf(v, p);
    }

    /** unlink_large_chunk. */
    method UnlinkLargeChunk(x: Addr)
      requires Valid() && x in n.size
      modifies this
      ensures Valid() && n.size == old(n.size) - {x}
    {
      hide Inv, Under, InRange, Redirected, Relinked, Promoted, Moved, Forgotten;
      StoredAt(n, g, x);
      var xp := n.parent[x];
      ghost var s := n.size[x];
      if n.bk[x] != x {
        var r := n.bk[x];
        if xp == 0 {
          DropChainedKeepsInv(n, g, x);
          n := OffRing(n, x);
        } else {
          PromoteKeepsInv(n, g, x, r);
          g := Promoted(g, x, r, s);
          n := Relinked(OffRing(n, x), x, r);
        }
      } else {
        LoneIsNode(n, g, x);
        if n.right[x] != 0 || n.left[x] != 0 {
          var r, p, d := RightmostLeaf(x);
          LeafCanSwap(n, g, x, r);
          SwapKeepsInv(n, g, x, r);
          g := Moved(g, x, r, s);
          n := Relinked(Redirected(n, r, 0), x, r);
        } else {
          DropLeafKeepsInv(n, g, x);
          g := Forgotten(g, x, s);
          n := Redirected(n, x, 0);
        }
      }
      n := Dropped(n, x);
    }

    /** The walk that ends both searches: down the leftmost path from t, keeping the smallest fit. */
    method WalkLeftmost(t0: Addr, v0: Addr, rsize0: nat, nb: nat) returns (v: Addr, rsize: nat)
      requires Valid() && 0 < nb < WORD && Candidate(n, g, nb, v0, rsize0)
      requires t0 != 0 ==> t0 in g.bits
      requires AllSettled(View(n, g), nb, t0, nb + rsize0) && OnlyFits(View(n, g), nb, t0, nb + rsize0)
      ensures Candidate(n, g, nb, v, rsize)
      ensures v == 0 ==> forall x :: !Fits(n.size, nb, x)
      ensures v != 0 ==> BestFit(n.size, nb, v)
    {
      hide Inv, AllSettled, OnlyFits, Minus, Tries.Valid, Storable;
      ghost var w, best := View(n, g), nb + rsize0;
      InvIsFiled(n, g);
      var t := t0;
      v, rsize := v0, rsize0;
      while t != 0
        invariant t != 0 ==> t in g.bits
        invariant Candidate(n, g, nb, v, rsize) && best == nb + rsize
        invariant AllSettled(w, nb, t, best) && OnlyFits(w, nb, t, best)
        decreases if t in g.bits then g.bits[t] + 1 else 0
      {
        var next := WalkOne(t);
        ghost var best' := if nb <= n.size[t] < best then n.size[t] else best;
        WrappedRemainder(n.size[t], nb, rsize);
        WalkAll(w, nb, t, best, best');
        var trem := Minus(n.size[t], nb);
        if trem < rsize {
          v, rsize := t, trem;
        }
        t, best := next, best';
      }
      SettledIsBest(n, g, nb, v, rsize);
    }

    method WalkOne(t: Addr) returns (next: Addr)
      requires Valid() && t in g.bits
      ensures t in n.size && 0 < n.size[t] < WORD && t in n.left && t in n.right && next == Leftmost(View(n, g), t)
      ensures next != 0 ==> next in g.bits && g.bits[next] < g.bits[t]
    {
      assert KidsOf(View(n, g), t);
      StoredAt(n, g, t);
      next := if n.left[t] != 0 then n.left[t] else n.right[t];
    }

    /** The first loop of tmalloc_large: towards a node of size nb, remembering the deepest untaken right subtree. */
    method SeekSize(nb: nat, i: nat) returns (t: Addr, v: Addr, rsize: nat)
      requires Valid() && MIN_LARGE_SIZE <= nb < WORD && i == TreeIndex.Index(nb)
      requires |n.roots| == NTREEBINS && n.roots[i] != 0
      ensures Candidate(n, g, nb, v, rsize) && (t != 0 ==> t in g.bits) && Typed(View(n, g))
      ensures t != 0 || v != 0 ==> AllSettled(View(n, g), nb, t, nb + rsize) && OnlyFits(View(n, g), nb, t, nb + rsize)
      ensures t == 0 && v == 0 ==> Seeking(View(n, g), i, nb, 0, 0, WORD)
    {
      hide Inv, AllSettled, OnlyFits, Seeking, RightOf, Minus, Tries.Valid, Filed;
      ghost var w, best := View(n, g), WORD;
      InvIsFiled(n, g);
      FiledIsValid(w);
      t, v, rsize := n.roots[i], 0, WORD - nb;
      var rst: Addr := 0;
      var k := Register(nb, TreeIndex.RootBits(i));
      RootCovers(n, g, i, nb);
      SeekStarts(w, i, nb);
      while true
        invariant t in g.bits && t in n.index && n.index[t] == i && InRange(w, t, nb) && g.bits[t] <= 64
        invariant k == Register(nb, g.bits[t])
        invariant Candidate(n, g, nb, v, rsize) && best == nb + rsize && rsize > 0
        invariant v != 0 ==> v in n.index && n.index[v] == i
        invariant RightOf(w, t, rst) && Seeking(w, i, nb, t, rst, best)
        decreases g.bits[t]
      {
        var right, left := ReadNode(t);
        WrappedRemainder(n.size[t], nb, rsize);
        SeekCompare(w, i, nb, t, rst, best);
        var trem := Minus(n.size[t], nb);
        if trem < rsize {
          v, rsize, best := t, trem, n.size[t];
          if rsize == 0 {
            ExactFit(w, nb, t);
            return;
          }
        }
        NextDigit(w, t, nb);
        var c := if SignBit(k) == 0 then left else right;
        var rst' := if right != 0 && right != c then right else rst;
        SeekStep(w, i, nb, t, rst, best, c, rst');
        SeekRightOf(w, t, rst, nb, c, rst');
        RestOnlyFits(w, nb, t, rst, c, rst', best);
        if c == 0 {
          t := rst';
          if t != 0 || v != 0 {
            BinOfCandidate(n, g, v);
            SeekEndsAll(w, i, nb, t, best);
          }
          return;
        }
        KidsAt(w, t);
        NextInRange(w, t, nb, c);
        k := 2 * k % WORD;
        t, rst := c, rst';
      }
    }

    method ReadNode(t: Addr) returns (right: Addr, left: Addr)
      requires Valid() && t in g.bits
      ensures t in n.size && 0 < n.size[t] < WORD && Wired(n, t) && right == n.right[t] && left == n.left[t]
    {
      StoredAt(n, g, t);
      right, left := n.right[t], n.left[t];
    }

    /** The search of tmalloc_large: a best fit over all tree bins. */
    method FindLarge(nb: nat) returns (v: Addr, rsize: nat)
      requires Valid() && MIN_LARGE_SIZE <= nb < WORD
      ensures Candidate(n, g, nb, v, rsize)
      ensures v == 0 ==> forall x :: !Fits(n.size, nb, x)
      ensures v != 0 ==> BestFit(n.size, nb, v)
    {
      hide Inv, AllSettled, OnlyFits, Seeking, Fits, BestFit, Filed, BinMap.LeftOf, BinMap.LeastIndex, BinMap.Has;
      ghost var w := View(n, g);
      InvIsFiled(n, g);
      InvIsMapped(n, g);
      var i := TreeIndex.ComputeIndex(nb);
      var t: Addr := 0;
      v, rsize := 0, WORD - nb;
      if n.roots[i] != 0 {
        t, v, rsize := SeekSize(nb, i);
      } else {
        EmptyBin(n, g, i, nb);
      }
      if t == 0 && v == 0 {
        var leftbits := BinMap.LeftOf(n.treemap, i);
        BinMap.NonZero(leftbits);
        if leftbits != 0 {
          var j := BinMap.LeastIndex(leftbits);
          t := n.roots[j];
          NextRoot(n, g, i, j);
          NextBinAll(w, nb, i, j);
        } else {
          NoHigherBin(n, g, i, nb);
        }
      }
      v, rsize := WalkLeftmost(t, v, rsize, nb);
    }

    /** The search of tmalloc_small: the smallest chunk of all, by one leftmost walk from the first non-empty bin. */
    method FindSmall(nb: nat) returns (v: Addr, rsize: nat)
      requires Valid() && n.treemap != 0 && 0 < nb < MIN_LARGE_SIZE
      ensures v != 0 && Candidate(n, g, nb, v, rsize)
      ensures BestFit(n.size, nb, v)
      ensures forall x :: x in n.size ==> n.size[v] <= n.size[x]
    {
      hide Inv, AllSettled, OnlyFits, Filed, BinMap.LeastIndex, BinMap.Has;
      InvIsFiled(n, g);
      InvIsMapped(n, g);
      var i := BinMap.LeastIndex(n.treemap);
      var t := n.roots[i];
      FirstRoot(n, g, i, nb);
      v, rsize := t, n.size[t] - nb;
      v, rsize := WalkLeftmost(t, v, rsize, nb);
      AllFit(n, g, nb);
    }
  }
}
