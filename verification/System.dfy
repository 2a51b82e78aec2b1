/** The operating system as the allocator sees it: mmap, munmap and mremap over whole pages.

    Which calls succeed and where new memory appears is decided by a script that can hold anything, so a
    statement proved for every script holds for every behaviour of the system. */
module System {
  import opened Sizes

  const PAGE: nat := 4096
  const ADDRESS_LIMIT: int := 0x1_0000_0000_0000_0000

  function Range(a: int, n: nat): (r: set<int>)
    ensures |r| == n && forall k :: k in r <==> a <= k < a + n
  {
    if n == 0 then {} else Range(a, n - 1) + {a + n - 1}
  }

  function Joined(pages: set<int>, more: set<int>): set<int> {
    pages + more
  }

  /** Some pages go and others come. */
  function Swap(pages: set<int>, less: set<int>, more: set<int>): set<int> {
    pages - less + more
  }

  /** The pages of a region that starts and ends on page boundaries. */
  function Pages(base: Addr, size: nat): set<int> {
    Range(base / PAGE, size / PAGE)
  }

  ghost predicate Aligned(base: Addr, size: nat) {
    base > 0 && base % PAGE == 0 && size > 0 && size % PAGE == 0 && base + size < ADDRESS_LIMIT
  }

  /** A region of size bytes has size / PAGE pages. */
  lemma PagesCardinality(base: Addr, size: nat)
    requires Aligned(base, size)
    ensures |Pages(base, size)| * PAGE == size
  {
  }

  /** Disjoint regions have no page in common, and the other way round. */
  lemma PagesDisjoint(a: Addr, m: nat, b: Addr, n: nat)
    requires Aligned(a, m) && Aligned(b, n)
    ensures Pages(a, m) !! Pages(b, n) <==> a + m <= b || b + n <= a
  {
    if a <= b < a + m {
      assert b / PAGE in Pages(a, m) && b / PAGE in Pages(b, n);
    } else if b <= a < b + n {
      assert a / PAGE in Pages(a, m) && a / PAGE in Pages(b, n);
    }
  }

  class System {
    var mapped: set<int>
    var script: seq<Addr>

    /** How often mmap has refused memory. */
    ghost var refusals: nat

    /** How often munmap or mremap has failed. */
    ghost var denials: nat

    constructor (script: seq<Addr>)
      ensures mapped == {} && this.script == script
    {
      mapped := {};
      this.script := script;
      refusals := 0;
      denials := 0;
    }

    method Answer() returns (a: Addr)
      modifies this`script
      ensures a == if |old(script)| == 0 then -1 else old(script)[0]
    {
      if |script| == 0 {
        return -1;
      }
      a := script[0];
      script := script[1..];
    }

    /** mmap would map size bytes. */
    ghost predicate Offers(size: nat)
      reads this
    {
      |script| > 0 && Aligned(script[0], size) && Pages(script[0], size) !! mapped
    }

    /** mmap: fails with -1, as it must for no bytes at all, or maps fresh pages. */
    method Mmap(size: nat) returns (base: Addr)
      requires size % PAGE == 0
      modifies this
      ensures base != -1 <==> old(Offers(size))
      ensures refusals == old(refusals) + (if base == -1 then 1 else 0) && denials == old(denials)
      ensures base == -1 ==> mapped == old(mapped)
      ensures base != -1 ==> Aligned(base, size) && Pages(base, size) !! old(mapped)
      ensures base != -1 ==> mapped == Joined(old(mapped), Pages(base, size))
    {
      var a := Answer();
      base := -1;
      if size > 0 && a > 0 && a % PAGE == 0 && a + size < ADDRESS_LIMIT && Pages(a, size) !! mapped {
        base := a;
        mapped := mapped + Pages(base, size);
      } else {
        refusals := refusals + 1;
      }
    }

    /** munmap: may fail; on success the pages are gone. */
    method Munmap(base: Addr, size: nat) returns (ok: bool)
      modifies this
      ensures mapped == if ok then old(mapped) - Pages(base, size) else old(mapped)
      ensures denials == old(denials) + if ok then 0 else 1
    {
      var a := Answer();
      ok := a != -1;
      if ok {
        mapped := mapped - Pages(base, size);
      } else {
        denials := denials + 1;
      }
    }

    /** mremap: fails, or the region has its new size, at the same place unless it may move. */
    method Mremap(base: Addr, size: nat, newSize: nat, mayMove: bool) returns (r: Addr)
      requires newSize % PAGE == 0
      modifies this
      ensures denials == old(denials) + if r == -1 then 1 else 0
      ensures r == -1 ==> mapped == old(mapped)
      ensures r != -1 ==> Aligned(r, newSize) && (r == base || mayMove)
      ensures r != -1 ==> Pages(r, newSize) !! (old(mapped) - Pages(base, size))
      ensures r != -1 ==> mapped == Swap(old(mapped), Pages(base, size), Pages(r, newSize))
    {
      var a := Answer();
      r := -1;
      var others := mapped - Pages(base, size);
      if newSize > 0 && a > 0 && a % PAGE == 0 && a + newSize < ADDRESS_LIMIT && (a == base || mayMove)
          && Pages(a, newSize) !! others {
        r := a;
        mapped := others + Pages(r, newSize);
      } else {
        denials := denials + 1;
      }
    }
  }
}
