/** Why the two descents of tmalloc_large and the leftmost walk find a best fit. */
module TreeSearch {
  import opened Sizes
  import opened Bits
  import opened Rings
  import opened Tries
  import TreeIndex

  /** The tree nodes are filed by size. */
  ghost predicate Filed(t: Trie) {
    && Valid(t)
    && forall a :: a in t.bits ==>
         MIN_LARGE_SIZE <= t.size[a] < WORD && t.bin[a] == TreeIndex.Index(t.size[a])
  }

  // ----- the leftmost walk -----

  function Leftmost(t: Trie, a: Addr): Addr
    requires a in t.left && a in t.right
  {
    if t.left[a] != 0 then t.left[a] else t.right[a]
  }

  /** Node b cannot beat `best`, or the walk that stands at cur will still meet something as small. */
  ghost predicate Settled(t: Trie, cur: Addr, best: nat, b: Addr)
    requires Typed(t) && b in t.bits
  {
    best <= t.size[b] || (cur in t.bits && (Under(t, cur, b) || t.size[cur] <= t.size[b]))
  }

  lemma {:induction false} LeftIsSmaller(t: Trie, a: Addr, c: Addr, b: Addr)
    requires Typed(t) && a in t.bits && t.bits[a] > 0 && IsChild(t, a, c, 0)
    requires Under(t, a, b) && Side(t, a, t.size[b]) == 1
    ensures t.size[c] < t.size[b]
  {
    var k := t.bits[a] - 1;
    assert Pre(t.size[b], t.bits[a]) == Pre(t.size[b], k) / 2;
    if t.size[b] <= t.size[c] {
      PreMono(t.size[b], t.size[c], k);
    }
  }

  lemma {:induction false} WalkStep(t: Trie, cur: Addr, best: nat, b: Addr)
    requires Valid(t) && cur in t.bits && b in t.bits && Settled(t, cur, best, b)
    ensures Settled(t, Leftmost(t, cur), if t.size[cur] < best then t.size[cur] else best, b)
  {
    if best > t.size[b] && t.size[cur] > t.size[b] {
      Descend(t, cur, b);
      assert KidsOf(t, cur);
      if t.left[cur] != 0 && Side(t, cur, t.size[b]) == 1 {
        LeftIsSmaller(t, cur, t.left[cur], b);
      }
    }
  }

  /** No fitting node is lost: each one is settled. */
  ghost predicate AllSettled(t: Trie, nb: nat, cur: Addr, best: nat)
    requires Typed(t)
  {
    forall b :: b in t.bits && t.size[b] >= nb ==> Settled(t, cur, best, b)
  }

  /** Everything the walk can still meet fits, or an exact fit is in hand. */
  ghost predicate OnlyFits(t: Trie, nb: nat, cur: Addr, best: nat)
    requires Typed(t)
  {
    best == nb || (cur in t.bits ==> forall b :: Under(t, cur, b) ==> t.size[b] >= nb)
  }

  lemma {:induction false} WalkAll(t: Trie, nb: nat, cur: Addr, best: nat, best': nat)
    requires Valid(t) && cur in t.bits && AllSettled(t, nb, cur, best) && OnlyFits(t, nb, cur, best) && nb <= best
    requires best' == if nb <= t.size[cur] < best then t.size[cur] else best
    ensures AllSettled(t, nb, Leftmost(t, cur), best')
    ensures OnlyFits(t, nb, Leftmost(t, cur), best')
  {
    assert Under(t, cur, cur);
    forall b | b in t.bits && t.size[b] >= nb
      ensures Settled(t, Leftmost(t, cur), best', b)
    {
      WalkStep(t, cur, best, b);
    }
    var c := Leftmost(t, cur);
    if c != 0 && best != nb {
      assert KidsOf(t, cur);
      forall b | Under(t, c, b)
        ensures t.size[b] >= nb
      {
        UnderChild(t, cur, c, b);
      }
    }
  }

  lemma {:induction false} UnderChild(t: Trie, a: Addr, c: Addr, b: Addr)
    requires Typed(t) && a in t.bits && (IsChild(t, a, c, 0) || IsChild(t, a, c, 1)) && Under(t, c, b)
    ensures Under(t, a, b)
  {
    assert Pre(t.size[b], t.bits[a]) == Pre(t.size[b], t.bits[c]) / 2;
  }

  // ----- the descent towards a size -----

  function Low(t: Trie, a: Addr): nat
    requires a in t.size && a in t.bits
  {
    Digits(t, a) * Pow2(t.bits[a])
  }

  function Top(t: Trie, a: Addr): nat
    requires a in t.size && a in t.bits
  {
    (Digits(t, a) + 1) * Pow2(t.bits[a])
  }

  lemma {:induction false} UnderBounds(t: Trie, a: Addr, s: nat)
    requires Typed(t) && a in t.bits && InRange(t, a, s)
    ensures Low(t, a) <= s < Top(t, a)
  {
    PreBounds(s, t.bits[a]);
  }

  lemma {:induction false} ChildBounds(t: Trie, a: Addr, c: Addr, d: nat)
    requires Typed(t) && a in t.bits && d < 2 && IsChild(t, a, c, d)
    ensures d == 0 ==> Low(t, c) == Low(t, a) && Top(t, c) <= Top(t, a)
    ensures d == 1 ==> Low(t, a) <= Low(t, c) && Top(t, c) == Top(t, a)
  {
    var q, p := Digits(t, a), Pow2(t.bits[c]);
    assert Pow2(t.bits[a]) == 2 * p;
    assert q * (2 * p) == (2 * q) * p;
    assert (q + 1) * (2 * p) == (2 * q + 2) * p;
    assert (2 * q + 2) * p == (2 * q + 1) * p + p;
    assert (2 * q + 1) * p == (2 * q) * p + p;
  }

  lemma {:induction false} SiblingBounds(t: Trie, a: Addr, l: Addr, r: Addr)
    requires Typed(t) && a in t.bits && IsChild(t, a, l, 0) && IsChild(t, a, r, 1)
    ensures Top(t, l) == Low(t, r)
  {
  }

  /** Node b is in the untaken subtree rst or to the right of it. */
  ghost predicate Beyond(t: Trie, rst: Addr, b: Addr)
    requires Typed(t) && rst in t.bits && b in t.bits
  {
    Under(t, rst, b) || t.size[b] >= Top(t, rst)
  }

  /** Where a fitting node b can be while the descent towards nb stands at cur. */
  ghost predicate Sought(t: Trie, cur: Addr, rst: Addr, best: nat, b: Addr)
    requires Typed(t) && b in t.bits
  {
    best <= t.size[b] || (cur in t.bits && Under(t, cur, b)) || (rst in t.bits && Beyond(t, rst, b))
  }

  /** The untaken subtree lies to the right of where the descent stands. */
  ghost predicate RightOf(t: Trie, cur: Addr, rst: Addr)
    requires Typed(t)
  {
    rst != 0 ==> rst in t.bits && cur in t.bits && t.bin[rst] == t.bin[cur] && Top(t, cur) <= Low(t, rst)
  }

  lemma {:induction false} BeyondIsAbove(t: Trie, rst: Addr, b: Addr)
    requires Typed(t) && rst in t.bits && b in t.bits && Beyond(t, rst, b)
    ensures t.size[b] >= Low(t, rst)
  {
    if Under(t, rst, b) {
      UnderBounds(t, rst, t.size[b]);
    } else {
      assert Top(t, rst) == Low(t, rst) + Pow2(t.bits[rst]);
    }
  }

  /** Taking the left child: the right child becomes the untaken subtree, if there is one. */
  lemma {:induction false} GoLeft(t: Trie, cur: Addr, rst: Addr, best: nat, nb: nat, b: Addr)
    requires Valid(t) && cur in t.bits && t.bits[cur] > 0 && InRange(t, cur, nb) && Side(t, cur, nb) == 0
    requires RightOf(t, cur, rst) && (best <= t.size[cur] || t.size[cur] < nb) && b in t.bits && t.size[b] >= nb
    requires Sought(t, cur, rst, best, b)
    ensures Sought(t, t.left[cur], if t.right[cur] != 0 then t.right[cur] else rst, best, b)
  {
    assert KidsOf(t, cur);
    var r := t.right[cur];
    if best > t.size[b] && Under(t, cur, b) {
      Descend(t, cur, b);
    } else if best > t.size[b] && r != 0 {
      BeyondIsAbove(t, rst, b);
      ChildBounds(t, cur, r, 1);
    }
  }

  /** Of two sizes in the range of a node the smaller one is not on the right of the larger one. */
  lemma {:induction false} SideMono(t: Trie, a: Addr, r: nat, s: nat)
    requires Typed(t) && a in t.bits && t.bits[a] > 0 && InRange(t, a, r) && InRange(t, a, s) && r <= s
    ensures Side(t, a, r) <= Side(t, a, s)
  {
    PreMono(r, s, t.bits[a] - 1);
    assert Pre(r, t.bits[a]) == Pre(r, t.bits[a] - 1) / 2;
    assert Pre(s, t.bits[a]) == Pre(s, t.bits[a] - 1) / 2;
  }

  /** Taking the right child: what was on the left is too small. */
  lemma {:induction false} GoRight(t: Trie, cur: Addr, rst: Addr, best: nat, nb: nat, b: Addr)
    requires Valid(t) && cur in t.bits && t.bits[cur] > 0 && InRange(t, cur, nb) && Side(t, cur, nb) == 1
    requires best <= t.size[cur] || t.size[cur] < nb
    requires b in t.bits && t.size[b] >= nb && Sought(t, cur, rst, best, b)
    ensures Sought(t, t.right[cur], rst, best, b)
  {
    if best > t.size[b] && Under(t, cur, b) && b != cur {
      Descend(t, cur, b);
      SideMono(t, cur, nb, t.size[b]);
    }
  }

  /** One step of the descent towards nb. */
  ghost predicate Seeking(t: Trie, i: nat, nb: nat, cur: Addr, rst: Addr, best: nat)
    requires Typed(t)
  {
    forall b :: b in t.bits && t.bin[b] == i && t.size[b] >= nb ==> Sought(t, cur, rst, best, b)
  }

  lemma {:induction false} SeekStep(t: Trie, i: nat, nb: nat, cur: Addr, rst: Addr, best: nat, next: Addr, rst': Addr)
    requires Valid(t) && cur in t.bits && t.bits[cur] > 0 && InRange(t, cur, nb) && RightOf(t, cur, rst)
    requires Seeking(t, i, nb, cur, rst, best) && (best <= t.size[cur] || t.size[cur] < nb)
    requires next == ChildAt(t, cur, Side(t, cur, nb))
    requires rst' == if t.right[cur] != 0 && t.right[cur] != next then t.right[cur] else rst
    ensures Seeking(t, i, nb, next, rst', best)
  {
    assert KidsOf(t, cur);
    forall b | b in t.bits && t.bin[b] == i && t.size[b] >= nb
      ensures Sought(t, next, rst', best, b)
    {
      if Side(t, cur, nb) == 0 {
        GoLeft(t, cur, rst, best, nb, b);
      } else {
        GoRight(t, cur, rst, best, nb, b);
      }
    }
  }

  lemma {:induction false} SeekRightOf(t: Trie, cur: Addr, rst: Addr, nb: nat, next: Addr, rst': Addr)
    requires Valid(t) && cur in t.bits && t.bits[cur] > 0 && RightOf(t, cur, rst)
    requires next == ChildAt(t, cur, Side(t, cur, nb))
    requires rst' == if t.right[cur] != 0 && t.right[cur] != next then t.right[cur] else rst
    ensures next != 0 ==> RightOf(t, next, rst')
    ensures rst' != 0 ==> rst' in t.bits && t.bin[rst'] == t.bin[cur]
  {
    assert KidsOf(t, cur);
    if next != 0 {
      ChildBounds(t, cur, next, Side(t, cur, nb));
      if rst' == t.right[cur] && rst' != 0 && next == t.left[cur] {
        SiblingBounds(t, cur, next, rst');
      }
    }
  }

  // ----- all bins together -----

  /** The descent ends at the untaken subtree: from here on the leftmost walk suffices. */
  lemma {:induction false} SeekEnds(t: Trie, i: nat, nb: nat, rst: Addr, best: nat, b: Addr)
    requires Filed(t) && MIN_LARGE_SIZE <= nb && i == TreeIndex.Index(nb)
    requires Seeking(t, i, nb, 0, rst, best) && 0 !in t.bits && b in t.bits && t.size[b] >= nb
    requires rst != 0 ==> rst in t.bits && t.bin[rst] == i
    requires best < WORD ==> best >= MIN_LARGE_SIZE && TreeIndex.Index(best) <= i
    requires rst != 0 || best < WORD
    ensures Settled(t, rst, best, b)
  {
    TreeIndex.IndexMono(nb, t.size[b]);
    if t.bin[b] > i {
      if best < WORD {
        HigherBinIsLarger(best, t.size[b]);
      } else {
        HigherBinIsLarger(t.size[rst], t.size[b]);
      }
    } else if rst != 0 {
      UnderBounds(t, rst, t.size[rst]);
    }
  }

  lemma HigherBinIsLarger(s: nat, s': nat)
    requires MIN_LARGE_SIZE <= s && MIN_LARGE_SIZE <= s' && TreeIndex.Index(s) < TreeIndex.Index(s')
    ensures s < s'
  {
    if s' <= s {
      TreeIndex.IndexMono(s', s);
    }
  }

  /** When the bin of nb holds nothing that fits, the next non-empty bin holds the best fit. */
  lemma {:induction false} NextBin(t: Trie, nb: nat, i: nat, j: nat, b: Addr)
    requires Filed(t) && MIN_LARGE_SIZE <= nb && i == TreeIndex.Index(nb)
    requires Seeking(t, i, nb, 0, 0, WORD) && 0 !in t.bits && b in t.bits && t.size[b] >= nb
    requires j < NTREEBINS && t.roots[j] != 0 && t.bin[b] >= j
    requires forall c :: c in t.bits && t.bin[c] == j ==> Under(t, t.roots[j], c)
    ensures Settled(t, t.roots[j], WORD, b)
  {
    TreeIndex.IndexMono(nb, t.size[b]);
    if t.bin[b] > j {
      HigherBinIsLarger(t.size[t.roots[j]], t.size[b]);
    }
  }

  lemma {:induction false} SeekEndsAll(t: Trie, i: nat, nb: nat, rst: Addr, best: nat)
    requires Filed(t) && MIN_LARGE_SIZE <= nb && i == TreeIndex.Index(nb)
    requires Seeking(t, i, nb, 0, rst, best) && 0 !in t.bits
    requires rst != 0 ==> rst in t.bits && t.bin[rst] == i
    requires best < WORD ==> best >= MIN_LARGE_SIZE && TreeIndex.Index(best) <= i
    requires rst != 0 || best < WORD
    ensures AllSettled(t, nb, rst, best)
  {
    forall b | b in t.bits && t.size[b] >= nb
      ensures Settled(t, rst, best, b)
    {
      SeekEnds(t, i, nb, rst, best, b);
    }
  }

  lemma {:induction false} NextBinAll(t: Trie, nb: nat, i: nat, j: nat)
    requires Filed(t) && MIN_LARGE_SIZE <= nb && i == TreeIndex.Index(nb) < j < NTREEBINS
    requires Seeking(t, i, nb, 0, 0, WORD) && 0 !in t.bits && t.roots[j] != 0
    requires forall b :: b in t.bits && t.bin[b] > i ==> t.bin[b] >= j
    requires forall c :: c in t.bits && t.bin[c] == j ==> Under(t, t.roots[j], c)
    ensures AllSettled(t, nb, t.roots[j], WORD) && OnlyFits(t, nb, t.roots[j], WORD)
  {
    forall b | b in t.bits && t.size[b] >= nb
      ensures Settled(t, t.roots[j], WORD, b)
    {
      TreeIndex.IndexMono(nb, t.size[b]);
      NextBin(t, nb, i, j, b);
    }
    forall b | Under(t, t.roots[j], b)
      ensures t.size[b] >= nb
    {
      HigherBinIsLarger(nb, t.size[b]);
    }
  }

  lemma {:induction false} RightIsLarger(t: Trie, a: Addr, c: Addr, nb: nat, b: Addr)
    requires Typed(t) && a in t.bits && t.bits[a] > 0 && IsChild(t, a, c, 1) && Under(t, c, b)
    requires InRange(t, a, nb) && Side(t, a, nb) == 0
    ensures t.size[b] >= nb
  {
    assert Pre(nb, t.bits[a]) == Pre(nb, t.bits[a] - 1) / 2;
    if t.size[b] < nb {
      PreMono(t.size[b], nb, t.bits[a] - 1);
    }
  }

  /** Everything in the untaken subtree is larger than nb. */
  lemma {:induction false} RestFits(t: Trie, nb: nat, cur: Addr, rst: Addr, next: Addr, rst': Addr, b: Addr)
    requires Valid(t) && cur in t.bits && t.bits[cur] > 0 && InRange(t, cur, nb) && RightOf(t, cur, rst)
    requires next == ChildAt(t, cur, Side(t, cur, nb))
    requires rst' == if t.right[cur] != 0 && t.right[cur] != next then t.right[cur] else rst
    requires rst' in t.bits && Under(t, rst', b)
    ensures t.size[b] >= nb
  {
    hide Low, Top;
    UnderBounds(t, cur, nb);
    assert KidsOf(t, cur);
    if rst' == t.right[cur] && rst' != next && rst' != 0 {
      RightIsLarger(t, cur, rst', nb, b);
    } else {
      UnderBounds(t, rst, t.size[b]);
    }
  }

  lemma {:induction false} RestOnlyFits(t: Trie, nb: nat, cur: Addr, rst: Addr, next: Addr, rst': Addr, best: nat)
    requires Valid(t) && cur in t.bits && t.bits[cur] > 0 && InRange(t, cur, nb) && RightOf(t, cur, rst) && 0 !in t.bits
    requires next == ChildAt(t, cur, Side(t, cur, nb))
    requires rst' == if t.right[cur] != 0 && t.right[cur] != next then t.right[cur] else rst
    ensures OnlyFits(t, nb, rst', best)
  {
    if rst' in t.bits {
      forall b | Under(t, rst', b)
        ensures t.size[b] >= nb
      {
        RestFits(t, nb, cur, rst, next, rst', b);
      }
    }
  }
}
