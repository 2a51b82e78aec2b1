/** The three modes of section 6 of NIST SP 800-38A over byte buffers, as relations between plain and cipher text. */
module CipherModes {
  import opened Blowfish

  const ECB := 0
  const CBC := 1
  const CFB := 2

  // ----- blocks in a buffer -----

  /** Four bytes as a word, the first byte being the most significant one. */
  function Word(a: bv8, b: bv8, c: bv8, d: bv8): bv32 {
    ((a as bv32) << 24) | ((b as bv32) << 16) | ((c as bv32) << 8) | (d as bv32)
  }

  function WordBytes(x: bv32): (s: seq<bv8>)
    ensures |s| == 4
  {
    [Byte(x >> 24), Byte(x >> 16), Byte(x >> 8), Byte(x)]
  }

  lemma WordOfBytes(x: bv32)
    ensures var s := WordBytes(x); Word(s[0], s[1], s[2], s[3]) == x
  {
  }

  lemma ShiftedBytes(a: bv8, b: bv8, c: bv8, d: bv8)
    ensures var x := Word(a, b, c, d); Byte(x >> 24) == a && Byte(x >> 16) == b && Byte(x >> 8) == c && Byte(x) == d
  {
  }

  lemma BytesOfWord(a: bv8, b: bv8, c: bv8, d: bv8)
    ensures WordBytes(Word(a, b, c, d)) == [a, b, c, d]
  {
    hide Word, Byte;
    ShiftedBytes(a, b, c, d);
  }

  /** The block at offset o of a buffer. */
  function BlockAt(s: seq<bv8>, o: nat): Block
    requires o + 8 <= |s|
  {
    Block(Word(s[o], s[o + 1], s[o + 2], s[o + 3]), Word(s[o + 4], s[o + 5], s[o + 6], s[o + 7]))
  }

  function BytesOf(b: Block): (s: seq<bv8>)
    ensures |s| == 8
  {
    WordBytes(b.l) + WordBytes(b.r)
  }

  /** The buffer with block b written at offset o. */
  function Put(s: seq<bv8>, o: nat, b: Block): (s': seq<bv8>)
    requires o + 8 <= |s|
    ensures |s'| == |s|
    ensures forall i :: 0 <= i < |s| && !(o <= i < o + 8) ==> s'[i] == s[i]
  {
    s[..o] + BytesOf(b) + s[o + 8..]
  }

  /** Reading back what was written gives the block, and a block written where it was read changes nothing. */
  lemma PutGet(s: seq<bv8>, o: nat, b: Block)
    requires o + 8 <= |s|
    ensures BlockAt(Put(s, o, b), o) == b
    ensures Put(s, o, BlockAt(s, o)) == s
  {
    hide Word, WordBytes;
    WordOfBytes(b.l);
    WordOfBytes(b.r);
    BytesAt(s, o);
    assert s == s[..o] + s[o..o + 8] + s[o + 8..];
  }

  lemma BytesAt(s: seq<bv8>, o: nat)
    requires o + 8 <= |s|
    ensures BytesOf(BlockAt(s, o)) == s[o..o + 8]
  {
    hide Word, WordBytes;
    BytesOfWord(s[o], s[o + 1], s[o + 2], s[o + 3]);
    BytesOfWord(s[o + 4], s[o + 5], s[o + 6], s[o + 7]);
  }

  /** Equal blocks are equal bytes. */
  lemma BlockInjective(s: seq<bv8>, s': seq<bv8>, o: nat)
    requires o + 8 <= |s| && o + 8 <= |s'| && BlockAt(s, o) == BlockAt(s', o)
    ensures s[o..o + 8] == s'[o..o + 8]
  {
    hide BlockAt, BytesOf;
    BytesAt(s, o);
    BytesAt(s', o);
  }

  // ----- the modes -----

  /** What block j is chained to: the cipher text block before it, or the initial chain. */
  function Prev(iv: Block, c: seq<bv8>, j: nat): Block
    requires 8 * j <= |c|
  {
    if j == 0 then iv else BlockAt(c, 8 * (j - 1))
  }

  ghost predicate EncryptsAt(t: Tables, mode: int, iv: Block, p: seq<bv8>, c: seq<bv8>, j: nat)
    requires Shaped(t) && 8 * j + 8 <= |p| && 8 * j + 8 <= |c|
  {
    BlockAt(c, 8 * j) ==
    if mode == CBC then Encipher(t, Xor(BlockAt(p, 8 * j), Prev(iv, c, j)))
    else if mode == CFB then Xor(BlockAt(p, 8 * j), Encipher(t, Prev(iv, c, j)))
    else Encipher(t, BlockAt(p, 8 * j))
  }

  ghost predicate DecryptsAt(t: Tables, mode: int, iv: Block, c: seq<bv8>, p: seq<bv8>, j: nat)
    requires Shaped(t) && 8 * j + 8 <= |p| && 8 * j + 8 <= |c|
  {
    BlockAt(p, 8 * j) ==
    if mode == CBC then Xor(Decipher(t, BlockAt(c, 8 * j)), Prev(iv, c, j))
    else if mode == CFB then Xor(BlockAt(c, 8 * j), Encipher(t, Prev(iv, c, j)))
    else Decipher(t, BlockAt(c, 8 * j))
  }

  ghost predicate Encrypts(t: Tables, mode: int, iv: Block, p: seq<bv8>, c: seq<bv8>, n: nat)
    requires Shaped(t) && 8 * n <= |p| && 8 * n <= |c|
  {
    forall j: nat :: j < n ==> EncryptsAt(t, mode, iv, p, c, j)
  }

  ghost predicate Decrypts(t: Tables, mode: int, iv: Block, c: seq<bv8>, p: seq<bv8>, n: nat)
    requires Shaped(t) && 8 * n <= |p| && 8 * n <= |c|
  {
    forall j: nat :: j < n ==> DecryptsAt(t, mode, iv, c, p, j)
  }

  lemma EncryptsIffDecryptsAt(t: Tables, mode: int, iv: Block, p: seq<bv8>, c: seq<bv8>, j: nat)
    requires Shaped(t) && 8 * j + 8 <= |p| && 8 * j + 8 <= |c|
    ensures EncryptsAt(t, mode, iv, p, c, j) <==> DecryptsAt(t, mode, iv, c, p, j)
  {
    hide Encipher, Decipher, Shaped, Xor, BlockAt;
    var x, y, z := BlockAt(p, 8 * j), BlockAt(c, 8 * j), Prev(iv, c, j);
    CipherInverts(t, x);
    CipherInverts(t, y);
    CipherInverts(t, Xor(x, z));
    XorTwice(x, z);
    XorTwice(Decipher(t, y), z);
    XorTwice(x, Encipher(t, z));
    XorTwice(y, Encipher(t, z));
  }

  /** In each mode and for all tables, chains and buffers, decrypting is exactly the converse of encrypting. */
  lemma EncryptsIffDecrypts(t: Tables, mode: int, iv: Block, p: seq<bv8>, c: seq<bv8>, n: nat)
    requires Shaped(t) && 8 * n <= |p| && 8 * n <= |c|
    ensures Encrypts(t, mode, iv, p, c, n) <==> Decrypts(t, mode, iv, c, p, n)
  {
    hide EncryptsAt, DecryptsAt, Shaped;
    forall j: nat | j < n
      ensures EncryptsAt(t, mode, iv, p, c, j) <==> DecryptsAt(t, mode, iv, c, p, j)
    {
      EncryptsIffDecryptsAt(t, mode, iv, p, c, j);
    }
  }

  lemma {:induction false} SameBlocks(s: seq<bv8>, s': seq<bv8>, n: nat)
    requires 8 * n <= |s| && 8 * n <= |s'|
    requires forall j: nat :: j < n ==> BlockAt(s, 8 * j) == BlockAt(s', 8 * j)
    ensures s[..8 * n] == s'[..8 * n]
  {
    hide BlockAt;
    if n > 0 {
      var o := 8 * (n - 1);
      SameBlocks(s, s', n - 1);
      BlockInjective(s, s', o);
      assert s[..8 * n] == s[..o] + s[o..o + 8];
      assert s'[..8 * n] == s'[..o] + s'[o..o + 8];
    }
  }

  /** Decrypting determines the plain text. */
  lemma DecryptsUnique(t: Tables, mode: int, iv: Block, c: seq<bv8>, p: seq<bv8>, p': seq<bv8>, n: nat)
    requires Shaped(t) && 8 * n <= |c| && 8 * n <= |p| && 8 * n <= |p'|
    requires Decrypts(t, mode, iv, c, p, n) && Decrypts(t, mode, iv, c, p', n)
    ensures p[..8 * n] == p'[..8 * n]
  {
    hide Encipher, Decipher, Shaped, Xor, BlockAt;
    forall j: nat | j < n
      ensures BlockAt(p, 8 * j) == BlockAt(p', 8 * j)
    {
      assert DecryptsAt(t, mode, iv, c, p, j) && DecryptsAt(t, mode, iv, c, p', j);
    }
    SameBlocks(p, p', n);
  }

  /** Encrypting determines the cipher text, chained block by chained block. */
  lemma {:induction false} EncryptsUnique(t: Tables, mode: int, iv: Block, p: seq<bv8>, c: seq<bv8>, c': seq<bv8>,
      n: nat)
    requires Shaped(t) && 8 * n <= |p| && 8 * n <= |c| && 8 * n <= |c'|
    requires Encrypts(t, mode, iv, p, c, n) && Encrypts(t, mode, iv, p, c', n)
    ensures c[..8 * n] == c'[..8 * n]
  {
    hide Encipher, Decipher, Shaped, Xor, BlockAt;
    if n > 0 {
      var o := 8 * (n - 1);
      EncryptsUnique(t, mode, iv, p, c, c', n - 1);
      PrevFrame(iv, c, c', n - 1);
      assert EncryptsAt(t, mode, iv, p, c, n - 1) && EncryptsAt(t, mode, iv, p, c', n - 1);
      BlockInjective(c, c', o);
      assert c[..8 * n] == c[..o] + c[o..o + 8];
      assert c'[..8 * n] == c'[..o] + c'[o..o + 8];
    }
  }

  /** Decrypting what was encrypted gives the plain text back, in each mode and for all tables, chains and buffers. */
  lemma RoundTrip(t: Tables, mode: int, iv: Block, p: seq<bv8>, c: seq<bv8>, p': seq<bv8>, n: nat)
    requires Shaped(t) && 8 * n <= |c| && 8 * n <= |p| && 8 * n <= |p'|
    requires Encrypts(t, mode, iv, p, c, n) && Decrypts(t, mode, iv, c, p', n)
    ensures p[..8 * n] == p'[..8 * n]
  {
    hide Encrypts, Decrypts, Shaped;
    EncryptsIffDecrypts(t, mode, iv, p, c, n);
    DecryptsUnique(t, mode, iv, c, p, p', n);
  }

  /** Leaving the cipher text as it is decrypts it in CFB mode exactly if each block is chained to the one that
      enciphers to zero. */
  lemma CfbUntouchedIff(t: Tables, iv: Block, c: seq<bv8>, n: nat)
    requires Shaped(t) && 8 * n <= |c|
    ensures Decrypts(t, CFB, iv, c, c, n) <==> forall j: nat :: j < n ==> Prev(iv, c, j) == Decipher(t, ZERO)
  {
    hide Encipher, Decipher, Shaped, BlockAt;
    forall j: nat | j < n
      ensures DecryptsAt(t, CFB, iv, c, c, j) <==> Prev(iv, c, j) == Decipher(t, ZERO)
    {
      CipherInverts(t, Prev(iv, c, j));
      CipherInverts(t, ZERO);
      XorFixed(BlockAt(c, 8 * j), Encipher(t, Prev(iv, c, j)));
    }
  }

  /** For all tables there is a chain with which no non-empty buffer is decrypted by leaving it as it is. */
  lemma CfbUntouchedFails(t: Tables, c: seq<bv8>, n: nat)
    requires Shaped(t) && 0 < n && 8 * n <= |c|
    ensures !Decrypts(t, CFB, Decipher(t, Block(1, 0)), c, c, n)
  {
    hide Encipher, Decipher, Shaped, BlockAt;
    var iv := Decipher(t, Block(1, 0));
    CfbUntouchedIff(t, iv, c, n);
    CipherInverts(t, Block(1, 0));
    CipherInverts(t, ZERO);
    assert Prev(iv, c, 0) == iv;
  }

  lemma XorFixed(a: Block, b: Block)
    ensures Xor(a, b) == a <==> b == ZERO
  {
    hide Add;
    AddLaws(a.l, a.l, b.l);
    AddLaws(a.r, a.r, b.r);
    AddLaws(b.l, 0, 0);
    AddLaws(b.r, 0, 0);
    AddLaws(0, b.l, 0);
    AddLaws(0, b.r, 0);
    AddLaws(a.l, 0, 0);
    AddLaws(a.r, 0, 0);
  }

  // ----- what the loops need -----

  lemma PrevFrame(iv: Block, c: seq<bv8>, c': seq<bv8>, j: nat)
    requires 8 * j <= |c| && 8 * j <= |c'| && c[..8 * j] == c'[..8 * j]
    ensures Prev(iv, c, j) == Prev(iv, c', j)
  {
    if j > 0 {
      BlockFrame(c, c', j - 1, j);
    }
  }

  lemma BlockFrame(c: seq<bv8>, c': seq<bv8>, j: nat, n: nat)
    requires j < n && 8 * n <= |c| && 8 * n <= |c'| && c[..8 * n] == c'[..8 * n]
    ensures BlockAt(c, 8 * j) == BlockAt(c', 8 * j)
  {
    hide Word;
    forall i | 8 * j <= i < 8 * j + 8
      ensures c[i] == c'[i]
    {
      assert c[..8 * n][i] == c'[..8 * n][i];
    }
  }

  /** A block written behind the first n blocks of the cipher text adds one to them. */
  lemma EncryptsOneMore(t: Tables, mode: int, iv: Block, p: seq<bv8>, c: seq<bv8>, n: nat, b: Block)
    requires Shaped(t) && 8 * n + 8 <= |p| && 8 * n + 8 <= |c| && Encrypts(t, mode, iv, p, c, n)
    requires b == if mode == CBC then Encipher(t, Xor(BlockAt(p, 8 * n), Prev(iv, c, n)))
                  else if mode == CFB then Xor(BlockAt(p, 8 * n), Encipher(t, Prev(iv, c, n)))
                  else Encipher(t, BlockAt(p, 8 * n))
    ensures var c' := Put(c, 8 * n, b);
            Encrypts(t, mode, iv, p, c', n + 1) && Prev(iv, c', n + 1) == b
  {
    hide Encipher, Shaped, Xor, BlockAt;
    var c' := Put(c, 8 * n, b);
    PutGet(c, 8 * n, b);
    assert c'[..8 * n] == c[..8 * n];
    PrevFrame(iv, c, c', n);
    forall j: nat | j < n
      ensures EncryptsAt(t, mode, iv, p, c', j)
    {
      assert EncryptsAt(t, mode, iv, p, c, j);
      BlockFrame(c, c', j, n);
      assert c'[..8 * j] == c[..8 * j];
      PrevFrame(iv, c, c', j);
    }
  }

  lemma DecryptsOneMore(t: Tables, mode: int, iv: Block, c: seq<bv8>, p: seq<bv8>, n: nat, b: Block)
    requires Shaped(t) && 8 * n + 8 <= |p| && 8 * n + 8 <= |c| && Decrypts(t, mode, iv, c, p, n)
    requires b == if mode == CBC then Xor(Decipher(t, BlockAt(c, 8 * n)), Prev(iv, c, n))
                  else if mode == CFB then Xor(BlockAt(c, 8 * n), Encipher(t, Prev(iv, c, n)))
                  else Decipher(t, BlockAt(c, 8 * n))
    ensures Decrypts(t, mode, iv, c, Put(p, 8 * n, b), n + 1)
  {
    hide Encipher, Decipher, Shaped, Xor, BlockAt;
    var p' := Put(p, 8 * n, b);
    PutGet(p, 8 * n, b);
    assert p'[..8 * n] == p[..8 * n];
    forall j: nat | j < n
      ensures DecryptsAt(t, mode, iv, c, p', j)
    {
      assert DecryptsAt(t, mode, iv, c, p, j);
      BlockFrame(p, p', j, n);
    }
  }

  lemma SameBlock(s: seq<bv8>, s': seq<bv8>, o: nat)
    requires |s| == |s'| && o + 8 <= |s| && s[o..] == s'[o..]
    ensures BlockAt(s, o) == BlockAt(s', o)
  {
    hide Word;
    forall i | o <= i < |s|
      ensures s[i] == s'[i]
    {
      assert s[o..][i - o] == s'[o..][i - o];
    }
  }

  /** Every mode but CBC and CFB is ECB. */
  lemma SameMode(t: Tables, mode: int, iv: Block, p: seq<bv8>, c: seq<bv8>, n: nat)
    requires Shaped(t) && 8 * n <= |p| && 8 * n <= |c| && mode != CBC && mode != CFB
    ensures Encrypts(t, ECB, iv, p, c, n) ==> Encrypts(t, mode, iv, p, c, n)
    ensures Decrypts(t, ECB, iv, c, p, n) ==> Decrypts(t, mode, iv, c, p, n)
  {
    hide Encipher, Decipher, Shaped, BlockAt;
    forall j: nat | j < n
      ensures EncryptsAt(t, ECB, iv, p, c, j) == EncryptsAt(t, mode, iv, p, c, j)
      ensures DecryptsAt(t, ECB, iv, c, p, j) == DecryptsAt(t, mode, iv, c, p, j)
    {
    }
  }

  /** The cipher text is the plain text exactly if leaving the cipher text as it is decrypts it. */
  lemma UntouchedRoundTrip(t: Tables, iv: Block, p: seq<bv8>, c: seq<bv8>, n: nat)
    requires Shaped(t) && 8 * n <= |p| && 8 * n <= |c| && Encrypts(t, CFB, iv, p, c, n)
    ensures p[..8 * n] == c[..8 * n] <==> forall j: nat :: j < n ==> Prev(iv, c, j) == Decipher(t, ZERO)
  {
    hide Encipher, Decipher, Shaped, BlockAt, Encrypts, Prev;
    CfbUntouchedIff(t, iv, c, n);
    EncryptsIffDecrypts(t, CFB, iv, p, c, n);
    if Decrypts(t, CFB, iv, c, c, n) {
      DecryptsUnique(t, CFB, iv, c, p, c, n);
    } else if p[..8 * n] == c[..8 * n] {
      forall j: nat | j < n
        ensures DecryptsAt(t, CFB, iv, c, c, j)
      {
        assert DecryptsAt(t, CFB, iv, c, p, j);
        BlockFrame(p, c, j, n);
      }
    }
  }
}
