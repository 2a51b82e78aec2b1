/** Bin indices of the thread cache: which bin a request probes and which bin a freed block goes to. */
module CacheSizes {
  import opened Bits
  import TreeIndex
  import Mspaces

  const THREADCACHEMAX: nat := 8192
  const THREADCACHEMAXBINS: nat := 9
  const THREADCACHEMAXFREESPACE: nat := 0x8_0000
  const CHUNK_OVERHEAD: nat := 16

  /** The size of the links a cached block holds, and so the least size that is handed out. */
  const BLOCK: nat := 32

  /** size2binidx: the place of the top bit of size >> 4. */
  function SizeToBin(size: nat): nat
    requires size >= 16
  {
    TreeIndex.HighBit(size / 16)
  }

  function BinSize(i: nat): nat {
    Pow2(i + 4)
  }

  /** Bin i is for the sizes from BinSize(i) up to, but not including, the next one. */
  lemma BinBounds(size: nat, i: nat)
    requires size >= 16
    ensures SizeToBin(size) == i <==> BinSize(i) <= size < BinSize(i + 1)
  {
    var x := size / 16;
    var h := TreeIndex.HighBit(x);
    Sixteen(h);
    PreBounds(x, h);
    if i < h {
      Sixteen(i);
      Pow2Mono(i + 1, h);
    } else if i > h {
      Sixteen(i);
      Pow2Mono(h + 1, i);
    }
  }

  lemma Sixteen(i: nat)
    ensures BinSize(i) == 16 * Pow2(i) && BinSize(i + 1) == 16 * Pow2(i + 1) && Pow2(i + 1) == 2 * Pow2(i)
  {
    Pow2Add(i, 4);
    Pow2Add(i + 1, 4);
    assert Pow2(4) == 16;
  }

  lemma BinSizes()
    ensures BinSize(0) == 16 && BinSize(1) == 32 && BinSize(8) == 4096 && BinSize(9) == 8192 && BinSize(10) == 16384
  {
    Sixteen(0);
    Sixteen(7);
    Sixteen(8);
    Sixteen(9);
    assert Pow2(7) == 128;
  }

  lemma BinMono(i: nat, j: nat)
    requires i <= j
    ensures BinSize(i) <= BinSize(j)
  {
    Pow2Mono(i + 4, j + 4);
  }

  lemma BinSizeInjective(i: nat, j: nat)
    requires BinSize(i) == BinSize(j)
    ensures i == j
  {
    Sixteen(i);
    Sixteen(j);
    if i < j {
      BinMono(i + 1, j);
    } else if j < i {
      BinMono(j + 1, i);
    }
  }

  /** The bin that threadcache_malloc probes first: requests are rounded up to a bin size. */
  function FirstBin(size: nat): nat
    requires size >= 16
  {
    var i := SizeToBin(size);
    if size > BinSize(i) then i + 1 else i
  }

  /** The rounded size is the least bin size that holds the request. */
  lemma FirstBinIsLeast(size: nat)
    requires BLOCK <= size <= THREADCACHEMAX
    ensures var i := FirstBin(size); 1 <= i <= THREADCACHEMAXBINS && BLOCK <= BinSize(i) <= THREADCACHEMAX
                                     && size <= BinSize(i)
    ensures var i := FirstBin(size); BinSize(i - 1) < size
  {
    var i := SizeToBin(size);
    BinBounds(size, i);
    BinSizes();
    if i > 9 {
      BinMono(10, i);
    }
    if i == 9 {
      assert size == BinSize(9);
    }
    var f := FirstBin(size);
    BinMono(1, f);
    BinMono(f, 9);
    if f == i && i > 0 {
      Sixteen(i - 1);
    }
  }

  /** Blocks of bin i as dlmalloc hands them out: up to 31 bytes more than asked for. */
  lemma GrantedUsable(size: nat, chunk: nat)
    requires size % 8 == 0 && size >= BLOCK
    requires Mspaces.RequestSize(size) <= chunk < Mspaces.RequestSize(size) + 32
    ensures size <= chunk - CHUNK_OVERHEAD < size + 32
  {
  }

  /** A block that was allocated for a request, on a cache miss, goes to the bin that the same request probes first,
      exactly when threadcache_free takes it at all. */
  lemma SameBin(request: nat, chunk: nat)
    requires BLOCK <= request <= THREADCACHEMAX
    requires var n := Mspaces.RequestSize(BinSize(FirstBin(request))); n <= chunk < n + 32
    ensures chunk - CHUNK_OVERHEAD >= BLOCK && SizeToBin(chunk - CHUNK_OVERHEAD) == FirstBin(request)
    ensures request <= 4096 ==> chunk - CHUNK_OVERHEAD <= THREADCACHEMAX + CHUNK_OVERHEAD
  {
    hide BinSize, FirstBin, Mspaces.RequestSize, SizeToBin;
    var i := FirstBin(request);
    FirstBinIsLeast(request);
    BinSizes();
    BinDoubles(i);
    GrantedUsable(BinSize(i), chunk);
    BinBounds(chunk - CHUNK_OVERHEAD, i);
    if i <= 8 {
      BinMono(i, 8);
    }
  }

  lemma BinDoubles(i: nat)
    ensures BinSize(i) % 8 == 0 && BinSize(i + 1) == 2 * BinSize(i)
  {
    Sixteen(i);
  }
}
