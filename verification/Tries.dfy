/** The bitwise tries that hold large free chunks, as flat maps from chunk addresses to link words.

    A tree node stands for all sizes that agree above its lowest `bits` digits; its two children split that
    range by the next digit. The node itself holds any one size of its range. */
module Tries {
  import opened Sizes
  import opened Bits
  import opened Rings
  import TreeIndex

  const NTREEBINS := TreeIndex.NTREEBINS

  /** The parent word of a tree root is the address of its bin, kept apart from chunk addresses. */
  function BinHead(i: nat): int {
    -1 - i
  }

  datatype Trie = Trie(
    size: map<Addr, nat>,     // sizes of all stored chunks
    bin: map<Addr, nat>,      // the index word
    left: Links,              // child[0]
    right: Links,             // child[1]
    parent: map<Addr, int>,
    roots: seq<Addr>,
    bits: map<Addr, nat>      // for the chunks that are tree nodes: the digits still open below them
  )

  ghost predicate Typed(t: Trie) {
    && |t.roots| == NTREEBINS
    && t.bits.Keys <= t.size.Keys
    && t.bits.Keys <= t.bin.Keys
    && t.bits.Keys <= t.left.Keys
    && t.bits.Keys <= t.right.Keys
    && t.bits.Keys <= t.parent.Keys
    && (forall a :: a in t.bits ==> a > 0)
  }

  function Digits(t: Trie, a: Addr): nat
    requires a in t.size && a in t.bits
  {
    Pre(t.size[a], t.bits[a])
  }

  ghost predicate IsChild(t: Trie, a: Addr, c: Addr, d: nat)
    requires Typed(t) && a in t.bits
  {
    && c in t.bits
    && t.parent[c] == a
    && t.bin[c] == t.bin[a]
    && t.bits[c] + 1 == t.bits[a]
    && Digits(t, c) == 2 * Digits(t, a) + d
  }

  ghost predicate KidsOf(t: Trie, a: Addr)
    requires Typed(t) && a in t.bits
  {
    && (t.left[a] != 0 ==> IsChild(t, a, t.left[a], 0))
    && (t.right[a] != 0 ==> IsChild(t, a, t.right[a], 1))
  }

  ghost predicate Kids(t: Trie)
    requires Typed(t)
  {
    forall a :: a in t.bits ==> KidsOf(t, a)
  }

  /** Each node is the root of its bin or a child of its parent. */
  ghost predicate Anchored(t: Trie, a: Addr)
    requires Typed(t) && a in t.bits
  {
    var p := t.parent[a];
    && t.bin[a] < NTREEBINS
    && t.bits[a] <= TreeIndex.RootBits(t.bin[a])
    && if p == BinHead(t.bin[a]) then t.roots[t.bin[a]] == a
       else p in t.bits && t.roots[t.bin[a]] != a && (t.left[p] == a || t.right[p] == a)
  }

  ghost predicate Up(t: Trie)
    requires Typed(t)
  {
    forall a :: a in t.bits ==> Anchored(t, a)
  }

  ghost predicate Roots(t: Trie)
    requires Typed(t)
  {
    forall i: nat :: i < NTREEBINS && t.roots[i] != 0 ==>
      var r := t.roots[i];
      r in t.bits && t.bin[r] == i && t.bits[r] == TreeIndex.RootBits(i) && t.parent[r] == BinHead(i)
  }

  ghost predicate Valid(t: Trie) {
    Typed(t) && Kids(t) && Up(t) && Roots(t)
  }

  // ----- what the local conditions imply -----

  /** Two nodes of one bin never stand for the same range. */
  lemma {:induction false} RangesDiffer(t: Trie, a: Addr, b: Addr)
    requires Valid(t) && a in t.bits && b in t.bits
    requires t.bin[a] == t.bin[b] && t.bits[a] == t.bits[b] && Digits(t, a) == Digits(t, b)
    ensures a == b
    decreases TreeIndex.RootBits(t.bin[a]) - t.bits[a]
  {
    assert Anchored(t, a) && Anchored(t, b);
    var p, q := t.parent[a], t.parent[b];
    if p in t.bits && q in t.bits {
      ParentOf(t, a);
      ParentOf(t, b);
      RangesDiffer(t, p, q);
    }
  }

  /** A node that is not a root is one of the two children of its parent. */
  lemma {:induction false} ParentOf(t: Trie, a: Addr)
    requires Valid(t) && a in t.bits && t.parent[a] in t.bits
    ensures var p := t.parent[a];
            t.bin[p] == t.bin[a] && t.bits[p] == t.bits[a] + 1 && Digits(t, p) == Digits(t, a) / 2
    ensures var p := t.parent[a];
            (Digits(t, a) % 2 == 0 && t.left[p] == a) || (Digits(t, a) % 2 == 1 && t.right[p] == a)
  {
    var p := t.parent[a];
    assert Anchored(t, a) && KidsOf(t, p);
  }

  /** The digit by which node a sends size s left (0) or right (1). */
  function Side(t: Trie, a: Addr, s: nat): nat
    requires a in t.bits && t.bits[a] > 0
  {
    Pre(s, t.bits[a] - 1) % 2
  }

  function ChildAt(t: Trie, a: Addr, d: nat): Addr
    requires a in t.left && a in t.right
  {
    if d == 0 then t.left[a] else t.right[a]
  }

  /** Size s lies in the range of node a. */
  ghost predicate InRange(t: Trie, a: Addr, s: nat)
    requires Typed(t) && a in t.bits
  {
    Pre(s, t.bits[a]) == Digits(t, a)
  }

  /** Node b is a or one of its descendants. */
  ghost predicate Under(t: Trie, a: Addr, b: Addr)
    requires Typed(t) && a in t.bits
  {
    b in t.bits && t.bin[b] == t.bin[a] && t.bits[b] <= t.bits[a] && InRange(t, a, t.size[b])
  }

  /** A node narrower than another one of its bin is not a root. */
  lemma {:induction false} NarrowHasParent(t: Trie, a: Addr, b: Addr)
    requires Valid(t) && a in t.bits && b in t.bits && t.bin[a] == t.bin[b] && t.bits[b] < t.bits[a]
    ensures t.parent[b] in t.bits
  {
    assert Anchored(t, a) && Anchored(t, b);
  }

  /** The range of a parent contains the range of its child, and nothing is in between. */
  lemma {:induction false} WidenRange(t: Trie, a: Addr, p: Addr, b: Addr)
    requires Typed(t) && a in t.bits && p in t.bits && Under(t, a, b) && t.bits[b] < t.bits[a]
    requires t.bin[p] == t.bin[b] && t.bits[p] == t.bits[b] + 1 && Digits(t, p) == Digits(t, b) / 2
    ensures Under(t, a, p) && t.bits[b] < t.bits[p]
    ensures t.bits[p] < t.bits[a] ==> Side(t, a, t.size[p]) == Side(t, a, t.size[b])
  {
    assert Pre(t.size[b], t.bits[p]) == Digits(t, p);
    PreAgree(t.size[b], t.size[p], t.bits[p], t.bits[a]);
    if t.bits[p] < t.bits[a] {
      PreAgree(t.size[b], t.size[p], t.bits[p], t.bits[a] - 1);
    }
  }

  lemma {:induction false} NarrowRange(t: Trie, c: Addr, p: Addr, b: Addr)
    requires Typed(t) && c in t.bits && p in t.bits && b in t.bits && Under(t, c, p)
    requires t.bin[p] == t.bin[b] && t.bits[p] == t.bits[b] + 1 && Digits(t, p) == Digits(t, b) / 2
    ensures Under(t, c, b)
  {
    assert Pre(t.size[b], t.bits[p]) == Digits(t, p);
    PreAgree(t.size[b], t.size[p], t.bits[p], t.bits[c]);
  }

  /** A proper descendant is under the child on its side. */
  lemma {:induction false} Descend(t: Trie, a: Addr, b: Addr)
    requires Valid(t) && a in t.bits && Under(t, a, b) && b != a
    ensures t.bits[a] > 0
    ensures var c := ChildAt(t, a, Side(t, a, t.size[b]));
            c in t.bits && IsChild(t, a, c, Side(t, a, t.size[b])) && Under(t, c, b)
    decreases t.bits[a] - t.bits[b]
  {
    if t.bits[a] == t.bits[b] {
      RangesDiffer(t, a, b);
    } else {
      NarrowHasParent(t, a, b);
      ParentOf(t, b);
      var p := t.parent[b];
      WidenRange(t, a, p, b);
      if p == a {
        DescendOne(t, a, b);
      } else {
        Descend(t, a, p);
        NarrowRange(t, ChildAt(t, a, Side(t, a, t.size[p])), p, b);
      }
    }
  }

  lemma {:induction false} DescendOne(t: Trie, a: Addr, b: Addr)
    requires Valid(t) && a in t.bits && b in t.bits && t.parent[b] == a
    ensures t.bits[a] > 0
    ensures var c := ChildAt(t, a, Side(t, a, t.size[b]));
            c == b && IsChild(t, a, c, Side(t, a, t.size[b])) && Under(t, c, b)
  {
    ParentOf(t, b);
  }

  // ----- adding a node -----

  function AddRoot(t: Trie, x: Addr, s: nat, i: nat): Trie
    requires i < |t.roots|
  {
    t.(size := t.size[x := s], bin := t.bin[x := i], left := t.left[x := 0], right := t.right[x := 0],
       parent := t.parent[x := BinHead(i)], roots := t.roots[i := x], bits := t.bits[x := TreeIndex.RootBits(i)])
  }

  lemma {:induction false} AddRootKeepsValid(t: Trie, x: Addr, s: nat, i: nat)
    requires Valid(t) && x > 0 && x !in t.size && i < NTREEBINS && t.roots[i] == 0
    ensures Valid(AddRoot(t, x, s, i))
  {
    var t' := AddRoot(t, x, s, i);
    forall a | a in t'.bits
      ensures KidsOf(t', a) && Anchored(t', a)
    {
      assert a in t.bits ==> KidsOf(t, a) && Anchored(t, a);
    }
  }

  function AddLeaf(t: Trie, x: Addr, s: nat, p: Addr, d: nat): Trie
    requires p in t.bits && t.bits[p] > 0 && p in t.bin
  {
    t.(size := t.size[x := s], bin := t.bin[x := t.bin[p]],
       left := (if d == 0 then t.left[p := x] else t.left)[x := 0],
       right := (if d == 0 then t.right else t.right[p := x])[x := 0],
       parent := t.parent[x := p], bits := t.bits[x := t.bits[p] - 1])
  }

  lemma {:induction false} AddLeafKids(t: Trie, x: Addr, s: nat, p: Addr, d: nat, a: Addr)
    requires Typed(t) && x > 0 && x !in t.size && p in t.bits && t.bits[p] > 0
    requires InRange(t, p, s) && d == Side(t, p, s) && ChildAt(t, p, d) == 0
    requires Typed(AddLeaf(t, x, s, p, d)) && (a == x || (a in t.bits && KidsOf(t, a)))
    ensures KidsOf(AddLeaf(t, x, s, p, d), a)
  {
    assert Pre(s, t.bits[p]) == Pre(s, t.bits[p] - 1) / 2;
  }

  lemma {:induction false} AddLeafAnchored(t: Trie, x: Addr, s: nat, p: Addr, d: nat, a: Addr)
    requires Typed(t) && x > 0 && x !in t.size && p in t.bits && t.bits[p] > 0 && ChildAt(t, p, d) == 0
    requires t.bin[p] < NTREEBINS && t.roots[t.bin[p]] != x
    requires Typed(AddLeaf(t, x, s, p, d)) && Anchored(t, p) && (a == x || (a in t.bits && Anchored(t, a)))
    ensures Anchored(AddLeaf(t, x, s, p, d), a)
  {
  }

  lemma {:induction false} AddLeafKeepsValid(t: Trie, x: Addr, s: nat, p: Addr, d: nat)
    requires Valid(t) && x > 0 && x !in t.size && p in t.bits && t.bits[p] > 0
    requires InRange(t, p, s) && d == Side(t, p, s) && ChildAt(t, p, d) == 0
    ensures Valid(AddLeaf(t, x, s, p, d))
  {
    var t' := AddLeaf(t, x, s, p, d);
    forall a | a in t'.bits
      ensures KidsOf(t', a) && Anchored(t', a)
    {
      AddLeafKids(t, x, s, p, d, a);
      AddLeafAnchored(t, x, s, p, d, a);
    }
  }

  // ----- taking a leaf out of the tree -----

  /** The links after every reference to x from above now leads to r: the root slot or the parent's child slot. */
  function Redirect(t: Trie, x: Addr, r: Addr): Trie
    requires x in t.parent && x in t.bin && t.bin[x] < |t.roots|
  {
    var p := t.parent[x];
    if t.roots[t.bin[x]] == x then t.(roots := t.roots[t.bin[x] := r])
    else if p in t.left && t.left[p] == x then t.(left := t.left[p := r])
    else t.(right := t.right[p := r])
  }

  function Unhook(t: Trie, r: Addr): Trie
    requires r in t.parent && r in t.bin && t.bin[r] < |t.roots|
  {
    Redirect(t, r, 0).(bits := t.bits - {r})
  }

  lemma {:induction false} UnhookKids(t: Trie, r: Addr, a: Addr)
    requires Typed(t) && r in t.bits && t.bin[r] < NTREEBINS && Typed(Unhook(t, r)) && Anchored(t, r)
    requires a in t.bits && a != r && KidsOf(t, a)
    ensures KidsOf(Unhook(t, r), a)
  {
  }

  lemma {:induction false} UnhookAnchored(t: Trie, r: Addr, a: Addr)
    requires Typed(t) && r in t.bits && t.bin[r] < NTREEBINS && t.left[r] == 0 && t.right[r] == 0
    requires Typed(Unhook(t, r)) && Anchored(t, r) && (t.parent[r] in t.bits ==> KidsOf(t, t.parent[r]))
    requires a in t.bits && a != r && Anchored(t, a)
    ensures Anchored(Unhook(t, r), a)
  {
  }

  lemma {:induction false} UnhookKeepsValid(t: Trie, r: Addr)
    requires Valid(t) && r in t.bits && t.bin[r] < NTREEBINS && t.left[r] == 0 && t.right[r] == 0
    ensures Valid(Unhook(t, r))
  {
    var t' := Unhook(t, r);
    assert Anchored(t, r);
    forall a | a in t'.bits
      ensures KidsOf(t', a) && Anchored(t', a)
    {
      UnhookKids(t, r, a);
      UnhookAnchored(t, r, a);
    }
  }

  // ----- putting r in the place of x -----

  function Replace(t: Trie, x: Addr, r: Addr): Trie
    requires x in t.parent && x in t.left && x in t.right && x in t.bits && x in t.bin && t.bin[x] < |t.roots|
  {
    var t1 := Redirect(t, x, r);
    var c0, c1 := t.left[x], t.right[x];
    var up := t.parent[r := t.parent[x]];
    var up0 := if c0 != 0 then up[c0 := r] else up;
    t1.(left := t1.left[r := c0], right := t1.right[r := c1],
        parent := if c1 != 0 then up0[c1 := r] else up0,
        bits := (t.bits - {x})[r := t.bits[x]])
  }

  lemma {:induction false} ReplaceOwnKids(t: Trie, x: Addr, r: Addr)
    requires Typed(t) && x in t.bits && t.bin[x] < NTREEBINS && r > 0 && r in t.size && r in t.bin && r !in t.bits
    requires t.bin[r] == t.bin[x] && InRange(t, x, t.size[r])
    requires Typed(Replace(t, x, r)) && Anchored(t, x) && KidsOf(t, x)
    ensures KidsOf(Replace(t, x, r), r)
  {
  }

  lemma {:induction false} ReplaceKeepsChild(t: Trie, x: Addr, r: Addr, a: Addr, c: Addr, d: nat)
    requires Typed(t) && x in t.bits && t.bin[x] < NTREEBINS && r !in t.bits
    requires Typed(Replace(t, x, r)) && a in t.bits && a != x && c != x && IsChild(t, a, c, d)
    requires t.left[x] != 0 ==> t.left[x] in t.bits && t.parent[t.left[x]] == x
    requires t.right[x] != 0 ==> t.right[x] in t.bits && t.parent[t.right[x]] == x
    ensures IsChild(Replace(t, x, r), a, c, d)
  {
  }

  lemma {:induction false} ReplaceMakesChild(t: Trie, x: Addr, r: Addr, a: Addr, d: nat)
    requires Typed(t) && x in t.bits && t.bin[x] < NTREEBINS && r > 0 && r in t.size && r in t.bin && r !in t.bits
    requires t.bin[r] == t.bin[x] && InRange(t, x, t.size[r])
    requires Typed(Replace(t, x, r)) && a in t.bits && a != x && IsChild(t, a, x, d)
    requires t.left[x] != r && t.right[x] != r
    ensures IsChild(Replace(t, x, r), a, r, d)
  {
  }

  lemma {:induction false} ReplaceKids(t: Trie, x: Addr, r: Addr, a: Addr)
    requires Typed(t) && x in t.bits && t.bin[x] < NTREEBINS && r > 0 && r in t.size && r in t.bin && r !in t.bits
    requires t.bin[r] == t.bin[x] && InRange(t, x, t.size[r])
    requires Typed(Replace(t, x, r)) && Anchored(t, x) && a in t.bits && a != x && KidsOf(t, a)
    requires t.left[x] != 0 ==> t.left[x] in t.bits && t.parent[t.left[x]] == x
    requires t.right[x] != 0 ==> t.right[x] in t.bits && t.parent[t.right[x]] == x
    ensures KidsOf(Replace(t, x, r), a)
  {
    hide IsChild;
    var c0, c1 := t.left[a], t.right[a];
    if c0 == x {
      ReplaceMakesChild(t, x, r, a, 0);
    } else if c0 != 0 {
      ReplaceKeepsChild(t, x, r, a, c0, 0);
    }
    if c1 == x {
      ReplaceMakesChild(t, x, r, a, 1);
    } else if c1 != 0 {
      ReplaceKeepsChild(t, x, r, a, c1, 1);
    }
  }

  lemma {:induction false} ReplaceAnchored(t: Trie, x: Addr, r: Addr, a: Addr)
    requires Typed(t) && x in t.bits && t.bin[x] < NTREEBINS && r > 0 && r in t.bin && r !in t.bits
             && t.bin[r] == t.bin[x]
    requires t.roots[t.bin[r]] != r && Typed(Replace(t, x, r)) && Anchored(t, x) && KidsOf(t, x)
    requires a == r || (a in t.bits && a != x && Anchored(t, a))
    ensures Anchored(Replace(t, x, r), a)
  {
  }

  lemma {:induction false} ReplaceRoots(t: Trie, x: Addr, r: Addr)
    requires Valid(t) && x in t.bits && t.bin[x] < NTREEBINS && r > 0 && r in t.size && r in t.bin && r !in t.bits
    requires t.bin[r] == t.bin[x]
    ensures Typed(Replace(t, x, r)) && Roots(Replace(t, x, r))
  {
    hide KidsOf, Anchored, Typed, Replace;
    assert Anchored(t, x) && KidsOf(t, x);
    ReplaceTyped(t, x, r);
    ReplaceRootsOnly(t, x, r);
  }

  lemma {:induction false} ReplaceTyped(t: Trie, x: Addr, r: Addr)
    requires Typed(t) && x in t.bits && t.bin[x] < NTREEBINS && r > 0 && r in t.size && r in t.bin
    ensures Typed(Replace(t, x, r))
  {
  }

  lemma {:induction false} ReplaceRootsOnly(t: Trie, x: Addr, r: Addr)
    requires Typed(t) && x in t.bits && t.bin[x] < NTREEBINS && r > 0 && r in t.size && r in t.bin && r !in t.bits
    requires t.bin[r] == t.bin[x] && Anchored(t, x) && KidsOf(t, x) && Roots(t) && Typed(Replace(t, x, r))
    ensures Roots(Replace(t, x, r))
  {
  }

  lemma {:induction false} ReplaceKeepsValid(t: Trie, x: Addr, r: Addr)
    requires Valid(t) && x in t.bits && t.bin[x] < NTREEBINS && r > 0 && r in t.size && r in t.bin && r !in t.bits
    requires t.bin[r] == t.bin[x] && InRange(t, x, t.size[r])
    ensures Valid(Replace(t, x, r))
  {
    ReplaceRoots(t, x, r);
    ReplaceAllKids(t, x, r);
    ReplaceAllAnchored(t, x, r);
  }

  lemma {:induction false} ReplaceAllKids(t: Trie, x: Addr, r: Addr)
    requires Valid(t) && x in t.bits && t.bin[x] < NTREEBINS && r > 0 && r in t.size && r in t.bin && r !in t.bits
    requires t.bin[r] == t.bin[x] && InRange(t, x, t.size[r]) && Typed(Replace(t, x, r))
    ensures Kids(Replace(t, x, r))
  {
    var t' := Replace(t, x, r);
    assert Anchored(t, x) && KidsOf(t, x);
    ReplaceOwnKids(t, x, r);
    forall a | a in t'.bits
      ensures KidsOf(t', a)
    {
      if a != r {
        ReplaceKids(t, x, r, a);
      }
    }
  }

  lemma {:induction false} ReplaceAllAnchored(t: Trie, x: Addr, r: Addr)
    requires Valid(t) && x in t.bits && t.bin[x] < NTREEBINS && r > 0 && r in t.size && r in t.bin && r !in t.bits
    requires t.bin[r] == t.bin[x] && Typed(Replace(t, x, r))
    ensures Up(Replace(t, x, r))
  {
    var t' := Replace(t, x, r);
    assert Anchored(t, x) && KidsOf(t, x);
    forall a | a in t'.bits
      ensures Anchored(t', a)
    {
      ReplaceAnchored(t, x, r, a);
    }
  }

  // ----- searching for a size -----

  /** Every node that holds size s is under a. */
  ghost predicate Covers(t: Trie, a: Addr, s: nat)
    requires Typed(t) && a in t.bits
  {
    forall b :: b in t.bits && t.size[b] == s ==> Under(t, a, b)
  }

  lemma {:induction false} NextInRange(t: Trie, a: Addr, s: nat, c: Addr)
    requires Typed(t) && a in t.bits && t.bits[a] > 0 && InRange(t, a, s) && KidsOf(t, a)
    requires c == ChildAt(t, a, Side(t, a, s)) && c != 0
    ensures c in t.bits && t.bin[c] == t.bin[a] && t.bits[c] + 1 == t.bits[a] && InRange(t, c, s)
  {
    assert Pre(s, t.bits[a]) == Pre(s, t.bits[a] - 1) / 2;
  }

  /** Stepping to the child on the side of s loses no node of size s. */
  lemma {:induction false} NextCovers(t: Trie, a: Addr, s: nat, c: Addr)
    requires Valid(t) && a in t.bits && t.bits[a] > 0 && InRange(t, a, s) && t.size[a] != s && Covers(t, a, s)
    requires c == ChildAt(t, a, Side(t, a, s))
    ensures c == 0 ==> forall b :: b in t.bits ==> t.size[b] != s
    ensures c != 0 ==> c in t.bits && Covers(t, c, s)
  {
    assert KidsOf(t, a);
    forall b | b in t.bits && t.size[b] == s
      ensures c in t.bits && Under(t, c, b)
    {
      Descend(t, a, b);
    }
  }

  /** The register and the next step of a descent towards size s. */
  lemma {:induction false} NextDigit(t: Trie, a: Addr, s: nat)
    requires Typed(t) && a in t.bits && InRange(t, a, s) && t.size[a] != s && t.bits[a] <= 64
    ensures t.bits[a] > 0
    ensures SignBit(Register(s, t.bits[a])) == Side(t, a, s)
    ensures 2 * Register(s, t.bits[a]) % WORD == Register(s, t.bits[a] - 1)
  {
    RegisterSign(s, t.bits[a]);
    RegisterStep(s, t.bits[a]);
  }
}
