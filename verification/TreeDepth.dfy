/** How deep a tree bin can be: the bound on every descent loop. */
module TreeDepth {
  import opened Sizes
  import opened Bits
  import opened Rings
  import opened Tries
  import opened TreeBins
  import TreeIndex

  /** Sizes are multiples of 8, so no node is left with fewer than three open digits. */
  lemma {:induction false} NodeBits(n: State, g: Shadow, a: Addr)
    requires Inv(n, g) && a in g.bits
    ensures a in n.index && 3 <= g.bits[a] <= TreeIndex.RootBits(n.index[a])
  {
    var t := View(n, g);
    assert Anchored(t, a) && Element(n, g, a);
    if g.bits[a] < 3 {
      var p := t.parent[a];
      ParentOf(t, a);
      assert Element(n, g, p);
      assert Pre(t.size[a], t.bits[p]) == Digits(t, p);
      PreAgree(t.size[a], t.size[p], t.bits[p], 3);
      EqualEighths(t.size[a], t.size[p]);
      SameSizeSameNode(n, g, a, p);
    }
  }

  lemma EqualEighths(x: nat, y: nat)
    requires Pre(x, 3) == Pre(y, 3) && x % 8 == 0 && y % 8 == 0
    ensures x == y
  {
    assert Pre(x, 3) == Pre(x, 1) / 2 / 2 && Pre(y, 3) == Pre(y, 1) / 2 / 2;
  }

  lemma SameSizeSameNode(n: State, g: Shadow, a: Addr, b: Addr)
    requires Inv(n, g) && a in g.bits && b in g.bits && n.size[a] == n.size[b]
    ensures a == b
  {
    assert g.head[n.size[a]] == a && g.head[n.size[b]] == b;
  }

  /** A path from a node downwards, child by child. */
  ghost predicate Path(n: State, g: Shadow, path: seq<Addr>) {
    && |path| > 0
    && (forall k :: 0 <= k < |path| ==> path[k] in g.bits && path[k] in n.left && path[k] in n.right)
    && (forall k :: 0 < k < |path| ==> n.left[path[k - 1]] == path[k] || n.right[path[k - 1]] == path[k])
  }

  lemma ChildBits(n: State, g: Shadow, a: Addr, c: Addr)
    requires Inv(n, g) && a in g.bits && c in g.bits && a in n.left && a in n.right
             && (n.left[a] == c || n.right[a] == c)
    ensures a in n.index && c in n.index && n.index[c] == n.index[a] && g.bits[c] == g.bits[a] - 1
  {
    assert KidsOf(View(n, g), a) && Element(n, g, c);
  }

  lemma {:induction false} PathBits(n: State, g: Shadow, path: seq<Addr>, k: nat)
    requires Inv(n, g) && Path(n, g, path) && k < |path|
    ensures path[0] in n.index && path[k] in n.index && n.index[path[k]] == n.index[path[0]]
    ensures g.bits[path[k]] == g.bits[path[0]] - k
  {
    hide Inv;
    if k > 0 {
      PathBits(n, g, path, k - 1);
      ChildBits(n, g, path[k - 1], path[k]);
    } else {
      NodeBits(n, g, path[0]);
    }
  }

  /** A path in bin i has at most one node more than the bits from bit_for_tree_index(i) down to bit 3. */
  lemma PathLength(n: State, g: Shadow, path: seq<Addr>)
    requires Inv(n, g) && Path(n, g, path)
    ensures path[0] in n.index && |path| <= 1 + (BitForIndex(n.index[path[0]]) - 3 + 1)
  {
    hide Inv;
    PathBits(n, g, path, |path| - 1);
    NodeBits(n, g, path[|path| - 1]);
    NodeBits(n, g, path[0]);
  }

  /** bit_for_tree_index. */
  function BitForIndex(i: nat): int {
    if i == NTREEBINS - 1 then 63 else i / 2 + 8 - 2
  }
}
