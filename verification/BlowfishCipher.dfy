/** The cipher object: key schedule, block operations and the buffer operations in the three modes. */
module BlowfishCipher {
  import opened Blowfish
  import opened CipherModes
  import opened KeySchedule

  method BytesToBlock(buf: array<bv8>, at: nat) returns (b: Block)
    requires at + 8 <= buf.Length
    ensures b == BlockAt(buf[..], at)
  {
    hide Word;
    var l := Word(buf[at], buf[at + 1], buf[at + 2], buf[at + 3]);
    var r := Word(buf[at + 4], buf[at + 5], buf[at + 6], buf[at + 7]);
    b := Block(l, r);
  }

  method BlockToBytes(b: Block, buf: array<bv8>, end: nat)
    requires 8 <= end <= buf.Length
    modifies buf
    ensures buf[..] == Put(old(buf[..]), end - 8, b)
  {
    hide WordBytes;
    var right, left := WordBytes(b.r), WordBytes(b.l);
    buf[end - 1] := right[3];
    buf[end - 2] := right[2];
    buf[end - 3] := right[1];
    buf[end - 4] := right[0];
    buf[end - 5] := left[3];
    buf[end - 6] := left[2];
    buf[end - 7] := left[1];
    buf[end - 8] := left[0];
  }

  /** The next four bytes of the repeated key, with count the position in the key. */
  method NextWord(local: seq<bv8>, from: nat, ghost a: nat) returns (x: bv32, count: nat)
    requires |local| > 0 && from == a % |local|
    ensures x == Shifted(local, a, 4) && count == (a + 4) % |local|
  {
    hide ShiftIn;
    x, count := 0, from;
    var n := 4;
    while n > 0
      invariant 0 <= n <= 4 && x == Shifted(local, a, 4 - n) && count == (a + (4 - n)) % |local|
    {
      NextCyclic(a + (4 - n), |local|);
      x := ShiftIn(x, local[count]);
      count := count + 1;
      if count == |local| {
        count := 0;
      }
      n := n - 1;
    }
  }

  class Cipher {
    var t: Tables
    var chain0: Block
    var chain: Block

    ghost predicate Valid()
      reads this
    {
      Shaped(t)
    }

    /** The tables that the key, cut to its first 56 bytes, makes of the initial ones. */
    constructor (key: seq<bv8>, initial: Tables, start: Block)
      requires |key| > 0 && Shaped(initial)
      ensures Valid() && chain0 == start && chain == start
      ensures Scheduled(initial, key[..if |key| > KEY_LIMIT then KEY_LIMIT else |key|], t)
    {
      hide Add, Encipher, Chained, Overlaid, Boxes, KeyWord;
      t, chain0, chain := initial, start, start;
      new;
      var size := if |key| > KEY_LIMIT then KEY_LIMIT else |key|;
      var local := key[..size];
      LoadKey(initial, local);
      ghost var keyed := t;
      ghost var bs: seq<Block> := [];
      NothingOverlaid(keyed);
      assert Chained(keyed, bs) by { EmptyChain(keyed); }
      var block := ZERO;
      var i := 0;
      while i < 18
        invariant i <= 18 && i == 2 * |bs| && Shaped(t) && block == Last(bs)
        invariant Chained(keyed, bs) && t == Overlaid(keyed, bs)
        invariant chain0 == start && chain == start
      {
        ChainOneMore(keyed, bs);
        block := Encrypt4(block);
        OverlayP(keyed, bs, block, i);
        t := t.(p := t.p[i := block.l][i + 1 := block.r]);
        bs := bs + [block];
        i := i + 2;
      }
      bs := FillBoxes(keyed, bs, block);
    }

    /** Adds the key to the subkeys, starting over whenever all its bytes are used. */
    method LoadKey(ghost initial: Tables, local: seq<bv8>)
      requires Shaped(initial) && t == initial && |local| > 0
      modifies `t
      ensures t == Keyed(initial, local)
    {
      hide Add, Boxes, KeyWord, Shifted;
      var count := 0;
      for i := 0 to 18
        invariant Shaped(t) && t.s == initial.s && count == (4 * i) % |local|
        invariant forall k: nat :: k < 18 ==> t.p[k] == if k < i then Add(initial.p[k], KeyWord(local, k))
                                                                      else initial.p[k]
      {
        var x;
        x, count := NextWord(local, count, 4 * i);
        ShiftedIsWord(local, i);
        t := t.(p := t.p[i := Add(t.p[i], x)]);
      }
      assert t.p == Keyed(initial, local).p;
    }

    method FillBoxes(ghost keyed: Tables, ghost before: seq<Block>, first: Block) returns (ghost bs: seq<Block>)
      requires Shaped(keyed) && |before| == 9 && first == Last(before) && Chained(keyed, before)
               && t == Overlaid(keyed, before)
      modifies `t
      ensures |bs| == STEPS && Chained(keyed, bs) && t == Overlaid(keyed, bs)
    {
      hide Add, Encipher, Chained, Overlaid;
      bs := before;
      var block := first;
      for j := 0 to 4
        invariant |bs| == 9 + 128 * j && Shaped(t) && block == Last(bs)
        invariant Chained(keyed, bs) && t == Overlaid(keyed, bs)
      {
        var k := 0;
        while k < 256
          invariant 0 <= k <= 256 && 18 + 256 * j + k == 2 * |bs| && Shaped(t) && block == Last(bs)
          invariant Chained(keyed, bs) && t == Overlaid(keyed, bs)
        {
          ChainOneMore(keyed, bs);
          block := Encrypt4(block);
          OverlayS(keyed, bs, block, j, k);
          t := t.(s := t.s[j := t.s[j][k := block.l][k + 1 := block.r]]);
          bs := bs + [block];
          k := k + 2;
        }
      }
    }

    method Encrypt4(b: Block) returns (r: Block)
      requires Valid()
      ensures r == Encipher(t, b)
    {
      hide Add, F, At, Boxes, Network, Reversed;
      var left, right := b.l, b.r;
      left := Add(left, t.p[0]);
      AtStart(t, b);
      Advance(t, b, 0, left, right);
      right := Add(right, Add(F(t.s, left), t.p[1]));
      Advance(t, b, 1, right, left);
      left := Add(left, Add(F(t.s, right), t.p[2]));
      Advance(t, b, 2, left, right);
      right := Add(right, Add(F(t.s, left), t.p[3]));
      Advance(t, b, 3, right, left);
      left := Add(left, Add(F(t.s, right), t.p[4]));
      Advance(t, b, 4, left, right);
      right := Add(right, Add(F(t.s, left), t.p[5]));
      Advance(t, b, 5, right, left);
      left := Add(left, Add(F(t.s, right), t.p[6]));
      Advance(t, b, 6, left, right);
      right := Add(right, Add(F(t.s, left), t.p[7]));
      Advance(t, b, 7, right, left);
      left := Add(left, Add(F(t.s, right), t.p[8]));
      Advance(t, b, 8, left, right);
      right := Add(right, Add(F(t.s, left), t.p[9]));
      Advance(t, b, 9, right, left);
      left := Add(left, Add(F(t.s, right), t.p[10]));
      Advance(t, b, 10, left, right);
      right := Add(right, Add(F(t.s, left), t.p[11]));
      Advance(t, b, 11, right, left);
      left := Add(left, Add(F(t.s, right), t.p[12]));
      Advance(t, b, 12, left, right);
      right := Add(right, Add(F(t.s, left), t.p[13]));
      Advance(t, b, 13, right, left);
      left := Add(left, Add(F(t.s, right), t.p[14]));
      Advance(t, b, 14, left, right);
      right := Add(right, Add(F(t.s, left), t.p[15]));
      Advance(t, b, 15, right, left);
      left := Add(left, Add(F(t.s, right), t.p[16]));
      AtEnd(t, b, left, right);
      right := Add(right, t.p[17]);
      r := Block(right, left);
    }

    method Decrypt4(b: Block) returns (r: Block)
      requires Valid()
      ensures r == Decipher(t, b)
    {
      hide Add, F, At, Boxes, Network, Reversed;
      var left, right := b.l, b.r;
      left := Add(left, t.p[17]);
      AtStart(Mirrored(t), b);
      Advance(Mirrored(t), b, 0, left, right);
      right := Add(right, Add(F(t.s, left), t.p[16]));
      Advance(Mirrored(t), b, 1, right, left);
      left := Add(left, Add(F(t.s, right), t.p[15]));
      Advance(Mirrored(t), b, 2, left, right);
      right := Add(right, Add(F(t.s, left), t.p[14]));
      Advance(Mirrored(t), b, 3, right, left);
      left := Add(left, Add(F(t.s, right), t.p[13]));
      Advance(Mirrored(t), b, 4, left, right);
      right := Add(right, Add(F(t.s, left), t.p[12]));
      Advance(Mirrored(t), b, 5, right, left);
      left := Add(left, Add(F(t.s, right), t.p[11]));
      Advance(Mirrored(t), b, 6, left, right);
      right := Add(right, Add(F(t.s, left), t.p[10]));
      Advance(Mirrored(t), b, 7, right, left);
      left := Add(left, Add(F(t.s, right), t.p[9]));
      Advance(Mirrored(t), b, 8, left, right);
      right := Add(right, Add(F(t.s, left), t.p[8]));
      Advance(Mirrored(t), b, 9, right, left);
      left := Add(left, Add(F(t.s, right), t.p[7]));
      Advance(Mirrored(t), b, 10, left, right);
      right := Add(right, Add(F(t.s, left), t.p[6]));
      Advance(Mirrored(t), b, 11, right, left);
      left := Add(left, Add(F(t.s, right), t.p[5]));
      Advance(Mirrored(t), b, 12, left, right);
      right := Add(right, Add(F(t.s, left), t.p[4]));
      Advance(Mirrored(t), b, 13, right, left);
      left := Add(left, Add(F(t.s, right), t.p[3]));
      Advance(Mirrored(t), b, 14, left, right);
      right := Add(right, Add(F(t.s, left), t.p[2]));
      Advance(Mirrored(t), b, 15, right, left);
      left := Add(left, Add(F(t.s, right), t.p[1]));
      AtEnd(Mirrored(t), b, left, right);
      right := Add(right, t.p[0]);
      r := Block(right, left);
    }

    method EncryptEcb(input: array<bv8>, out: array<bv8>, n: nat)
      requires Valid() && n % 8 == 0 && n <= input.Length && n <= out.Length
      modifies out
      ensures Encrypts(t, ECB, chain, old(input[..]), out[..], n / 8) && out[n..] == old(out[n..])
    {
      hide Encipher, Decipher, Boxes, Xor, BlockAt;
      ghost var was, rest := input[..], out[n..];
      var at := 0;
      while n - at >= 8
        invariant at % 8 == 0 && at <= n && Shaped(t)
        invariant input[at..] == was[at..] && out[n..] == rest
        invariant Encrypts(t, ECB, chain, was, out[..], at / 8)
      {
        ghost var c := out[..];
        var work := BytesToBlock(input, at);
        work := Encrypt4(work);
        SameBlock(was, input[..], at);
        EncryptsOneMore(t, ECB, chain, was, c, at / 8, work);
        BlockToBytes(work, out, at + 8);
        assert out[..][n..] == c[n..];
        at := at + 8;
      }
    }

    method EncryptCbc(input: array<bv8>, out: array<bv8>, n: nat)
      requires Valid() && n % 8 == 0 && n <= input.Length && n <= out.Length
      modifies out
      ensures Encrypts(t, CBC, chain, old(input[..]), out[..], n / 8) && out[n..] == old(out[n..])
    {
      hide Encipher, Decipher, Boxes, Xor, BlockAt;
      ghost var was, rest := input[..], out[n..];
      var at := 0;
      var link := chain;
      while n - at >= 8
        invariant at % 8 == 0 && at <= n && Shaped(t)
        invariant input[at..] == was[at..] && out[n..] == rest
        invariant Encrypts(t, CBC, chain, was, out[..], at / 8)
        invariant link == Prev(chain, out[..], at / 8)
      {
        ghost var c := out[..];
        var work := BytesToBlock(input, at);
        work := Xor(work, link);
        work := Encrypt4(work);
        link := work;
        SameBlock(was, input[..], at);
        EncryptsOneMore(t, CBC, chain, was, c, at / 8, work);
        BlockToBytes(work, out, at + 8);
        assert out[..][n..] == c[n..];
        at := at + 8;
      }
    }

    method EncryptCfb(input: array<bv8>, out: array<bv8>, n: nat)
      requires Valid() && n % 8 == 0 && n <= input.Length && n <= out.Length
      modifies out
      ensures Encrypts(t, CFB, chain, old(input[..]), out[..], n / 8) && out[n..] == old(out[n..])
    {
      hide Encipher, Decipher, Boxes, Xor, BlockAt;
      ghost var was, rest := input[..], out[n..];
      var at := 0;
      var link := chain;
      while n - at >= 8
        invariant at % 8 == 0 && at <= n && Shaped(t)
        invariant input[at..] == was[at..] && out[n..] == rest
        invariant Encrypts(t, CFB, chain, was, out[..], at / 8)
        invariant link == Prev(chain, out[..], at / 8)
      {
        ghost var c := out[..];
        link := Encrypt4(link);
        var work := BytesToBlock(input, at);
        work := Xor(work, link);
        link := work;
        SameBlock(was, input[..], at);
        EncryptsOneMore(t, CFB, chain, was, c, at / 8, work);
        BlockToBytes(work, out, at + 8);
        assert out[..][n..] == c[n..];
        at := at + 8;
      }
    }

    method DecryptEcb(input: array<bv8>, out: array<bv8>, n: nat)
      requires Valid() && n % 8 == 0 && n <= input.Length && n <= out.Length
      modifies out
      ensures Decrypts(t, ECB, chain, old(input[..]), out[..], n / 8) && out[n..] == old(out[n..])
    {
      hide Encipher, Decipher, Boxes, Xor, BlockAt;
      ghost var was, rest := input[..], out[n..];
      var at := 0;
      while n - at >= 8
        invariant at % 8 == 0 && at <= n && Shaped(t)
        invariant input[at..] == was[at..] && out[n..] == rest
        invariant Decrypts(t, ECB, chain, was, out[..], at / 8)
      {
        ghost var c := out[..];
        var work := BytesToBlock(input, at);
        work := Decrypt4(work);
        SameBlock(was, input[..], at);
        DecryptsOneMore(t, ECB, chain, was, c, at / 8, work);
        BlockToBytes(work, out, at + 8);
        assert out[..][n..] == c[n..];
        at := at + 8;
      }
    }

    method DecryptCbc(input: array<bv8>, out: array<bv8>, n: nat)
      requires Valid() && n % 8 == 0 && n <= input.Length && n <= out.Length
      modifies out
      ensures Decrypts(t, CBC, chain, old(input[..]), out[..], n / 8) && out[n..] == old(out[n..])
    {
      hide Encipher, Decipher, Boxes, Xor, BlockAt;
      ghost var was, rest := input[..], out[n..];
      var at := 0;
      var link := chain;
      while n - at >= 8
        invariant at % 8 == 0 && at <= n && Shaped(t)
        invariant input[at..] == was[at..] && out[n..] == rest
        invariant Decrypts(t, CBC, chain, was, out[..], at / 8)
        invariant link == Prev(chain, was, at / 8)
      {
        ghost var c := out[..];
        var work := BytesToBlock(input, at);
        var crypt := work;
        work := Decrypt4(work);
        work := Xor(work, link);
        link := crypt;
        SameBlock(was, input[..], at);
        DecryptsOneMore(t, CBC, chain, was, c, at / 8, work);
        BlockToBytes(work, out, at + 8);
        assert out[..][n..] == c[n..];
        at := at + 8;
      }
    }

    method DecryptCfb(input: array<bv8>, out: array<bv8>, n: nat)
      requires Valid() && n % 8 == 0 && n <= input.Length && n <= out.Length
      modifies out
      ensures Decrypts(t, CFB, chain, old(input[..]), out[..], n / 8) && out[n..] == old(out[n..])
    {
      hide Encipher, Decipher, Boxes, Xor, BlockAt;
      ghost var was, rest := input[..], out[n..];
      var at := 0;
      var link := chain;
      while n - at >= 8
        invariant at % 8 == 0 && at <= n && Shaped(t)
        invariant input[at..] == was[at..] && out[n..] == rest
        invariant Decrypts(t, CFB, chain, was, out[..], at / 8)
        invariant link == Prev(chain, was, at / 8)
      {
        ghost var c := out[..];
        var work := BytesToBlock(input, at);
        link := Encrypt4(link);
        var crypt := work;
        work := Xor(work, link);
        link := crypt;
        SameBlock(was, input[..], at);
        DecryptsOneMore(t, CFB, chain, was, c, at / 8, work);
        BlockToBytes(work, out, at + 8);
        assert out[..][n..] == c[n..];
        at := at + 8;
      }
    }

    /** Encrypts from one buffer to another one, or to itself. */
    method Encrypt3(input: array<bv8>, out: array<bv8>, n: nat, mode: int)
      requires Valid() && n <= input.Length && n <= out.Length
      modifies out
      ensures n % 8 == 0 ==> Encrypts(t, mode, chain, old(input[..]), out[..], n / 8)
      ensures n % 8 != 0 ==> out[..] == old(out[..])
      ensures out[n..] == old(out[n..])
    {
      if n == 0 || n % 8 != 0 {
        return;
      }
      if mode == CBC {
        EncryptCbc(input, out, n);
      } else if mode == CFB {
        EncryptCfb(input, out, n);
      } else {
        EncryptEcb(input, out, n);
        SameMode(t, mode, chain, old(input[..]), out[..], n / 8);
      }
    }

    method Decrypt3(input: array<bv8>, out: array<bv8>, n: nat, mode: int)
      requires Valid() && n <= input.Length && n <= out.Length
      modifies out
      ensures n % 8 == 0 ==> Decrypts(t, mode, chain, old(input[..]), out[..], n / 8)
      ensures n % 8 != 0 ==> out[..] == old(out[..])
      ensures out[n..] == old(out[n..])
    {
      if n == 0 || n % 8 != 0 {
        return;
      }
      if mode == CBC {
        DecryptCbc(input, out, n);
      } else if mode == CFB {
        DecryptCfb(input, out, n);
      } else {
        DecryptEcb(input, out, n);
        SameMode(t, mode, chain, out[..], old(input[..]), n / 8);
      }
    }

    /** Encrypts a buffer in place: each block is read before it is overwritten. */
    method Encrypt2(buf: array<bv8>, n: nat, mode: int)
      requires Valid() && n <= buf.Length
      modifies buf
      ensures n % 8 == 0 ==> Encrypts(t, mode, chain, old(buf[..]), buf[..], n / 8)
      ensures n % 8 != 0 ==> buf[..] == old(buf[..])
      ensures buf[n..] == old(buf[n..])
    {
      if n == 0 || n % 8 != 0 {
        return;
      }
      if mode == CBC {
        EncryptCbc(buf, buf, n);
      } else if mode == CFB {
        EncryptCfb(buf, buf, n);
      } else {
        EncryptEcb(buf, buf, n);
        SameMode(t, mode, chain, old(buf[..]), buf[..], n / 8);
      }
    }

    /** Decrypts a buffer in place, except in CFB mode, where the decrypted blocks are never written back. */
    method Decrypt2(buf: array<bv8>, n: nat, mode: int)
      requires Valid() && n <= buf.Length
      modifies buf
      ensures n % 8 == 0 && mode != CFB ==> Decrypts(t, mode, chain, old(buf[..]), buf[..], n / 8)
      ensures n % 8 != 0 || mode == CFB ==> buf[..] == old(buf[..])
      ensures buf[n..] == old(buf[n..])
    {
      if n == 0 || n % 8 != 0 {
        return;
      }
      if mode == CBC {
        DecryptCbc(buf, buf, n);
      } else if mode == CFB {
        var link, left := chain, n;
        while left >= 8
          invariant left <= n && buf[..] == old(buf[..])
        {
          var work := BytesToBlock(buf, 0);
          link := Encrypt4(link);
          var crypt := work;
          work := Xor(work, link);
          link := crypt;
          left := left - 8;
        }
      } else {
        DecryptEcb(buf, buf, n);
        SameMode(t, mode, chain, buf[..], old(buf[..]), n / 8);
      }
    }

    /** The in-place form of either operation leaves the bytes that the other form writes elsewhere. */
    method InPlaceAgrees(buf: array<bv8>, input: array<bv8>, out: array<bv8>, n: nat, mode: int, encrypt: bool)
      requires Valid() && n <= buf.Length && n <= input.Length && n <= out.Length && n % 8 == 0
      requires buf != out && buf[..] == input[..] && (encrypt || mode != CFB)
      modifies buf, out
      ensures buf[..n] == out[..n]
    {
      hide Encrypts, Decrypts, Shaped;
      ghost var was := input[..];
      if encrypt {
        Encrypt3(input, out, n, mode);
        Encrypt2(buf, n, mode);
        EncryptsUnique(t, mode, chain, was, buf[..], out[..], n / 8);
      } else {
        Decrypt3(input, out, n, mode);
        Decrypt2(buf, n, mode);
        DecryptsUnique(t, mode, chain, was, buf[..], out[..], n / 8);
      }
    }

    /**
     * Encrypting and then decrypting a buffer in place gives it back, except in CFB mode, where it is given back
     * exactly if each block of the cipher text is chained to the block that enciphers to zero.
     */
    method InPlaceRoundTrip(buf: array<bv8>, n: nat, mode: int) returns (ghost c: seq<bv8>)
      requires Valid() && n <= buf.Length && n % 8 == 0
      modifies buf
      ensures |c| == buf.Length && Encrypts(t, mode, chain, old(buf[..]), c, n / 8)
      ensures mode != CFB ==> buf[..] == old(buf[..])
      ensures mode == CFB ==>
                (buf[..] == old(buf[..]) <==> forall j: nat :: j < n / 8 ==> Prev(chain, c, j) == Decipher(t, ZERO))
    {
      hide Decipher, Encrypts, Decrypts, Prev, Shaped;
      ghost var was := buf[..];
      Encrypt2(buf, n, mode);
      c := buf[..];
      Decrypt2(buf, n, mode);
      if mode != CFB {
        RoundTrip(t, mode, chain, was, c, buf[..], n / 8);
        assert was == was[..n] + was[n..] && buf[..] == buf[..n] + buf[n..];
      } else {
        UntouchedRoundTrip(t, chain, was, c, n / 8);
        assert was == was[..n] + was[n..] && c == c[..n] + c[n..];
      }
    }
  }
}
