/** Circular doubly linked lists threaded through chunks by their fd and bk words.

    A ring joins all members of one class (one chunk size) and has exactly one head: a bin header for a
    small bin, the tree node for a ring of equal-sized large chunks. `age` orders the other members from
    the newest, right behind the head, to the oldest. */
module Rings {
  import opened Sizes

  type Links = map<Addr, Addr>

  /** Following a link stays inside the class. */
  ghost predicate Closed(cls: map<Addr, nat>, link: Links) {
    && cls.Keys <= link.Keys
    && forall x {:trigger link[x]} :: x in cls ==> link[x] in cls && cls[link[x]] == cls[x]
  }

  ghost predicate Inverse(cls: map<Addr, nat>, fd: Links, bk: Links)
    requires Closed(cls, fd) && Closed(cls, bk)
  {
    forall x {:trigger bk[x]} :: x in cls ==> fd[bk[x]] == x
  }

  /** fd and bk are mutually inverse and stay inside one class. */
  ghost predicate Linked(cls: map<Addr, nat>, fd: Links, bk: Links) {
    Closed(cls, fd) && Closed(cls, bk) && Inverse(cls, fd, bk) && Inverse(cls, bk, fd)
  }

  /** Going forward from a member that is not a head leads to an older member or back to a head. */
  ghost predicate Aged(cls: map<Addr, nat>, heads: set<Addr>, fd: Links, age: map<Addr, nat>) {
    forall x :: x in cls && x !in heads ==>
      x in age && x in fd && (fd[x] in heads || (fd[x] in age && age[fd[x]] < age[x]))
  }

  /** head[c] is the one head of class c. */
  ghost predicate Headed(cls: map<Addr, nat>, heads: set<Addr>, head: map<nat, Addr>) {
    && (forall h :: h in heads ==> h in cls && cls[h] in head && head[cls[h]] == h)
    && (forall x :: x in cls ==> cls[x] in head && head[cls[x]] in heads)
    && (forall c :: c in head ==> head[c] in heads && cls[head[c]] == c)
  }

  ghost predicate Ring(cls: map<Addr, nat>, heads: set<Addr>, fd: Links, bk: Links, age: map<Addr, nat>, head: map<nat,
      Addr>) {
    Linked(cls, fd, bk) && Aged(cls, heads, fd, age) && Headed(cls, heads, head)
  }

  /** A head that is alone on its ring is the only member of its class. */
  lemma {:induction false} LoneHead(cls: map<Addr, nat>, heads: set<Addr>, fd: Links, bk: Links, age: map<Addr, nat>,
                                    head: map<nat, Addr>, h: Addr, x: Addr)
    requires Ring(cls, heads, fd, bk, age, head)
    requires h in heads && bk[h] == h && x in cls && cls[x] == cls[h]
    ensures x == h
    decreases if x in age then age[x] else 0
  {
    var f := fd[x];
    assert bk[f] == x && cls[f] == cls[x];
    assert f in heads ==> head[cls[f]] == f;
    assert x in heads ==> head[cls[x]] == x;
    if x !in heads && f !in heads {
      LoneHead(cls, heads, fd, bk, age, head, h, f);
    }
  }

  // ----- linking a chunk in right behind its head -----

  function InsertFd(fd: Links, h: Addr, x: Addr): Links
    requires h in fd
  {
    fd[h := x][x := fd[h]]
  }

  function InsertBk(fd: Links, bk: Links, h: Addr, x: Addr): Links
    requires h in fd
  {
    bk[fd[h] := x][x := h]
  }

  lemma InsertKeepsRing(cls: map<Addr, nat>, heads: set<Addr>, fd: Links, bk: Links, age: map<Addr, nat>,
                        head: map<nat, Addr>, h: Addr, x: Addr, a: nat)
    requires Ring(cls, heads, fd, bk, age, head)
    requires h in heads && x !in cls
    requires forall y :: y in cls && y in age ==> age[y] < a
    ensures Ring(cls[x := cls[h]], heads, InsertFd(fd, h, x), InsertBk(fd, bk, h, x), age[x := a], head)
  {
    assert Linked(cls[x := cls[h]], InsertFd(fd, h, x), InsertBk(fd, bk, h, x));
    var f := fd[h];
    assert f in cls && (f in heads || f in age);
    assert Aged(cls[x := cls[h]], heads, InsertFd(fd, h, x), age[x := a]);
    assert Headed(cls[x := cls[h]], heads, head);
  }

  // ----- taking a chunk out -----

  function RemoveFd(fd: Links, bk: Links, x: Addr): Links
    requires x in fd && x in bk
  {
    fd[bk[x] := fd[x]]
  }

  function RemoveBk(fd: Links, bk: Links, x: Addr): Links
    requires x in fd && x in bk
  {
    bk[fd[x] := bk[x]]
  }

  lemma RemoveKeepsRing(cls: map<Addr, nat>, heads: set<Addr>, fd: Links, bk: Links, age: map<Addr, nat>,
                        head: map<nat, Addr>, x: Addr)
    requires Ring(cls, heads, fd, bk, age, head)
    requires x in cls && x !in heads
    ensures Ring(cls - {x}, heads, RemoveFd(fd, bk, x), RemoveBk(fd, bk, x), age, head)
  {
  }

  /** Taking the head out promotes its bk neighbour. */
  lemma RemoveHeadKeepsRing(cls: map<Addr, nat>, heads: set<Addr>, fd: Links, bk: Links, age: map<Addr, nat>,
                            head: map<nat, Addr>, h: Addr)
    requires Ring(cls, heads, fd, bk, age, head)
    requires h in heads && bk[h] != h
    ensures Ring(cls - {h}, heads - {h} + {bk[h]}, RemoveFd(fd, bk, h), RemoveBk(fd, bk, h), age, head[cls[h] := bk[h]])
  {
    assert Linked(cls - {h}, RemoveFd(fd, bk, h), RemoveBk(fd, bk, h));
    assert Aged(cls - {h}, heads - {h} + {bk[h]}, RemoveFd(fd, bk, h), age);
    PromoteKeepsHeaded(cls, heads, head, h, bk[h]);
  }

  lemma PromoteKeepsHeaded(cls: map<Addr, nat>, heads: set<Addr>, head: map<nat, Addr>, h: Addr, b: Addr)
    requires Headed(cls, heads, head)
    requires h in heads && b in cls && b != h && cls[b] == cls[h]
    ensures Headed(cls - {h}, heads - {h} + {b}, head[cls[h] := b])
  {
    var c := cls[h];
    assert head[c] == h;
    forall g | g in heads && g != h
      ensures cls[g] != c
    {
      assert head[cls[g]] == g;
    }
  }

  /** Taking out a head that is alone ends its class. */
  lemma RemoveLoneHeadKeepsRing(cls: map<Addr, nat>, heads: set<Addr>, fd: Links, bk: Links, age: map<Addr, nat>,
                                head: map<nat, Addr>, h: Addr)
    requires Ring(cls, heads, fd, bk, age, head)
    requires h in heads && bk[h] == h
    ensures Ring(cls - {h}, heads - {h}, fd, bk, age, head - {cls[h]})
  {
    forall x | x in cls && cls[x] == cls[h]
      ensures x == h
    {
      LoneHead(cls, heads, fd, bk, age, head, h, x);
    }
  }

  /** A chunk of a new class starts a ring of its own. */
  lemma StartKeepsRing(cls: map<Addr, nat>, heads: set<Addr>, fd: Links, bk: Links, age: map<Addr, nat>,
                       head: map<nat, Addr>, x: Addr, c: nat)
    requires Ring(cls, heads, fd, bk, age, head)
    requires x !in cls && c !in head
    ensures Ring(cls[x := c], heads + {x}, fd[x := x], bk[x := x], age, head[c := x])
  {
  }

  lemma NoHeadOfClass(cls: map<Addr, nat>, heads: set<Addr>, head: map<nat, Addr>, c: nat)
    requires Headed(cls, heads, head) && forall h :: h in heads ==> cls[h] != c
    ensures c !in head
  {
    assert forall k :: k in head ==> var h := head[k]; h in heads && cls[h] == k;
  }
}
