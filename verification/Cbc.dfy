// Cipher block chaining (section 6.2 of NIST SP 800-38A) over whole buffers, as
// Experiment3/report/code/sm4_portable.h does it, and its round trip for any block cipher.
module Cbc {
  import opened Words
  import opened Sm4Cipher

  type Cipher = Block -> Block

  // The last ciphertext block, or the IV before the first.
  function LastBlock(c: seq<Block>, iv: Block): Block {
    if c == [] then iv else c[|c| - 1]
  }

  function CbcEncrypt(E: Cipher, iv: Block, p: seq<Block>): (c: seq<Block>)
    ensures |c| == |p|
  {
    if p == [] then []
    else
      var n := |p| - 1;
      var c := CbcEncrypt(E, iv, p[..n]);
      c + [E(XorBlock(p[n], LastBlock(c, iv)))]
  }

  function CbcDecrypt(D: Cipher, iv: Block, c: seq<Block>): (p: seq<Block>)
    ensures |p| == |c|
  {
    if c == [] then []
    else
      var n := |c| - 1;
      CbcDecrypt(D, iv, c[..n]) + [XorBlock(D(c[n]), LastBlock(c[..n], iv))]
  }

  // ---------- what the mode promises ----------

  lemma {:induction false} CbcRoundTrip(E: Cipher, D: Cipher, iv: Block, p: seq<Block>)
    requires forall b: Block :: D(E(b)) == b
    ensures CbcDecrypt(D, iv, CbcEncrypt(E, iv, p)) == p
  {
    if p != [] {
      var n := |p| - 1;
      CbcRoundTrip(E, D, iv, p[..n]);
      XorBlockCancel(p[n], LastBlock(CbcEncrypt(E, iv, p[..n]), iv));
      assert CbcEncrypt(E, iv, p)[..n] == CbcEncrypt(E, iv, p[..n]);
    }
  }

  lemma {:induction false} CbcRoundTripBack(E: Cipher, D: Cipher, iv: Block, c: seq<Block>)
    requires forall b: Block :: E(D(b)) == b
    ensures CbcEncrypt(E, iv, CbcDecrypt(D, iv, c)) == c
  {
    if c != [] {
      var n := |c| - 1;
      CbcRoundTripBack(E, D, iv, c[..n]);
      XorBlockCancel(D(c[n]), LastBlock(c[..n], iv));
      assert CbcDecrypt(D, iv, c)[..n] == CbcDecrypt(D, iv, c[..n]);
    }
  }

  // SM4 in CBC mode, with any round function and any round keys.
  lemma Sm4CbcRoundTrip(T: Word -> Word, rk: seq<Word>, iv: Block, p: seq<Block>)
    ensures CbcDecrypt(Decrypt(T, rk), iv, CbcEncrypt(Encrypt(T, rk), iv, p)) == p
    ensures CbcEncrypt(Encrypt(T, rk), iv, CbcDecrypt(Decrypt(T, rk), iv, p)) == p
  {
    forall b: Block
      ensures Decrypt(T, rk)(Encrypt(T, rk)(b)) == b && Encrypt(T, rk)(Decrypt(T, rk)(b)) == b
    {
      DecryptUndoesEncrypt(T, rk, b);
      EncryptUndoesDecrypt(T, rk, b);
    }
    CbcRoundTrip(Encrypt(T, rk), Decrypt(T, rk), iv, p);
    CbcRoundTripBack(Encrypt(T, rk), Decrypt(T, rk), iv, p);
  }

  // Two calls that carry the IV along encrypt the concatenation.
  lemma {:induction false} CbcStream(E: Cipher, iv: Block, p: seq<Block>, q: seq<Block>)
    ensures CbcEncrypt(E, iv, p + q) == CbcEncrypt(E, iv, p) + CbcEncrypt(E, LastBlock(CbcEncrypt(E, iv, p), iv), q)
  {
    if q == [] {
      assert p + q == p;
    } else {
      var n := |q| - 1;
      assert (p + q)[..|p| + n] == p + q[..n];
      CbcStream(E, iv, p, q[..n]);
    }
  }

  // The ciphertext block before block i.
  function Before(c: seq<Block>, iv: Block, i: nat): Block
    requires i < |c|
  {
    if i == 0 then iv else c[i - 1]
  }

  // Block i of a decryption depends on ciphertext blocks i-1 and i only.
  lemma {:induction false} DecryptedBlock(D: Cipher, iv: Block, c: seq<Block>, i: nat)
    requires i < |c|
    ensures CbcDecrypt(D, iv, c)[i] == XorBlock(D(c[i]), Before(c, iv, i))
  {
    var n := |c| - 1;
    if i < n {
      DecryptedBlock(D, iv, c[..n], i);
      assert Before(c[..n], iv, i) == Before(c, iv, i);
    }
  }

  lemma EncryptStep(E: Cipher, iv: Block, p: seq<Block>, i: nat)
    requires i < |p|
    ensures CbcEncrypt(E, iv, p[..i + 1])
            == CbcEncrypt(E, iv, p[..i]) + [E(XorBlock(p[i], LastBlock(CbcEncrypt(E, iv, p[..i]), iv)))]
  {
    assert p[..i + 1][..i] == p[..i];
  }

  lemma DecryptStep(D: Cipher, iv: Block, c: seq<Block>, i: nat)
    requires i < |c|
    ensures CbcDecrypt(D, iv, c[..i + 1]) == CbcDecrypt(D, iv, c[..i]) + [XorBlock(D(c[i]), LastBlock(c[..i], iv))]
  {
    assert c[..i + 1][..i] == c[..i];
  }

  lemma {:induction false} PrefixOfEncryption(E: Cipher, iv: Block, p: seq<Block>, k: nat)
    requires k <= |p|
    ensures CbcEncrypt(E, iv, p)[..k] == CbcEncrypt(E, iv, p[..k])
  {
    if k == |p| {
      assert p[..k] == p;
    } else {
      var n := |p| - 1;
      assert p[..n][..k] == p[..k];
      PrefixOfEncryption(E, iv, p[..n], k);
    }
  }

  // Ciphertext block i is the encryption of plaintext block i XORed with ciphertext block i - 1.
  lemma EncryptedBlock(E: Cipher, iv: Block, p: seq<Block>, i: nat)
    requires i < |p|
    ensures var c := CbcEncrypt(E, iv, p); c[i] == E(XorBlock(p[i], if i == 0 then iv else c[i - 1]))
  {
    var c := CbcEncrypt(E, iv, p);
    PrefixOfEncryption(E, iv, p, i);
    PrefixOfEncryption(E, iv, p, i + 1);
    EncryptStep(E, iv, p, i);
    assert c[i] == c[..i + 1][i];
  }

  // ---------- buffers as blocks ----------

  function BlockAt(s: seq<Byte>, k: nat): Block
    requires 16 * k + 16 <= |s|
  {
    s[16 * k..16 * k + 16]
  }

  function Blocks(s: seq<Byte>, n: nat): (r: seq<Block>)
    requires 16 * n <= |s|
    ensures |r| == n && forall k {:trigger r[k]} :: 0 <= k < n ==> r[k] == BlockAt(s, k)
  {
    seq(n, k requires 0 <= k < n => BlockAt(s, k))
  }

  function Put(s: seq<Byte>, k: nat, b: Block): (r: seq<Byte>)
    requires 16 * k + 16 <= |s|
    ensures |r| == |s|
  {
    s[..16 * k] + b + s[16 * k + 16..]
  }

  lemma PutBlock(s: seq<Byte>, k: nat, b: Block, j: nat)
    requires 16 * k + 16 <= |s| && 16 * j + 16 <= |s|
    ensures BlockAt(Put(s, k, b), j) == if j == k then b else BlockAt(s, j)
  {
  }

  lemma PutBlocks(s: seq<Byte>, k: nat, b: Block, n: nat)
    requires k < n && 16 * n <= |s|
    ensures Blocks(Put(s, k, b), n) == Blocks(s, n)[k := b]
    ensures Put(s, k, b)[16 * n..] == s[16 * n..]
  {
    forall j | 0 <= j < n
      ensures BlockAt(Put(s, k, b), j) == Blocks(s, n)[k := b][j]
    {
      PutBlock(s, k, b, j);
    }
  }

  // A buffer of whole blocks is its blocks.
  lemma SameBlocks(s: seq<Byte>, t: seq<Byte>, n: nat)
    requires |s| == |t| == 16 * n && Blocks(s, n) == Blocks(t, n)
    ensures s == t
  {
    forall i | 0 <= i < |s|
      ensures s[i] == t[i]
    {
      var k, j := i / 16, i % 16;
      assert Blocks(s, n)[k] == Blocks(t, n)[k];
      assert s[i] == BlockAt(s, k)[j] && t[i] == BlockAt(t, k)[j];
    }
  }

  ghost predicate IsXorBlock(a: seq<Byte>, b: seq<Byte>, x: Block)
    requires |a| == |b| == 16
  {
    forall j, i {:trigger x[j][i]} :: 0 <= j < 16 && 0 <= i < 8 ==> x[j][i] == (a[j][i] != b[j][i])
  }

  lemma XorBlockIs(a: Block, b: Block, x: Block)
    requires IsXorBlock(a, b, x)
    ensures x == XorBlock(a, b)
  {
    forall j | 0 <= j < 16
      ensures x[j] == XorBits(a[j], b[j])
    {
      assert forall i :: 0 <= i < 8 ==> x[j][i] == XorBits(a[j], b[j])[i];
    }
  }

  // The chaining equations of both directions, on the bytes of the two buffers.
  lemma EncryptedBytes(E: Cipher, iv: Block, s: seq<Byte>, t: seq<Byte>, n: nat, k: nat, x: Block)
    requires k < n && 16 * n <= |s| && 16 * n <= |t| && Blocks(t, n) == CbcEncrypt(E, iv, Blocks(s, n))
    requires IsXorBlock(s[16 * k..16 * k + 16], if k == 0 then iv else t[16 * k - 16..16 * k], x)
    ensures t[16 * k..16 * k + 16] == E(x)
  {
    EncryptedBlock(E, iv, Blocks(s, n), k);
    assert Blocks(t, n)[k] == t[16 * k..16 * k + 16] && Blocks(s, n)[k] == s[16 * k..16 * k + 16];
    assert k > 0 ==> Blocks(t, n)[k - 1] == t[16 * k - 16..16 * k];
    XorBlockIs(s[16 * k..16 * k + 16], if k == 0 then iv else t[16 * k - 16..16 * k], x);
  }

  lemma DecryptedBytes(D: Cipher, iv: Block, s: seq<Byte>, t: seq<Byte>, n: nat, k: nat)
    requires k < n && 16 * n <= |s| && 16 * n <= |t| && Blocks(t, n) == CbcDecrypt(D, iv, Blocks(s, n))
    ensures IsXorBlock(D(s[16 * k..16 * k + 16]), if k == 0 then iv else s[16 * k - 16..16 * k],
                       t[16 * k..16 * k + 16])
  {
    DecryptedBlock(D, iv, Blocks(s, n), k);
    assert Blocks(t, n)[k] == t[16 * k..16 * k + 16] && Blocks(s, n)[k] == s[16 * k..16 * k + 16];
    assert k > 0 ==> Blocks(s, n)[k - 1] == s[16 * k - 16..16 * k];
  }

  // `sm4_xor_block`, to block k of the destination.
  method XorInto(dst: array<Byte>, k: nat, a: Block, b: Block)
    requires 16 * k + 16 <= dst.Length
    modifies dst
    ensures dst[..] == Put(old(dst[..]), k, XorBlock(a, b))
  {
    var at := 16 * k;
    for i := 0 to 16
      invariant forall j :: 0 <= j < dst.Length ==>
                  dst[j] == if at <= j < at + i then XorBlock(a, b)[j - at] else old(dst[j])
    {
      dst[at + i] := XorBits(a[i], b[i]);
    }
  }

  // memcpy of one block
  method CopyInto(dst: array<Byte>, k: nat, b: Block)
    requires 16 * k + 16 <= dst.Length
    modifies dst
    ensures dst[..] == Put(old(dst[..]), k, b)
  {
    var at := 16 * k;
    for i := 0 to 16
      invariant forall j :: 0 <= j < dst.Length ==> dst[j] == if at <= j < at + i then b[j - at] else old(dst[j])
    {
      dst[at + i] := b[i];
    }
  }

  // `sm4_crypt_block`, from block k of the source to block m of the destination.
  method CryptAt(T: Word -> Word, src: array<Byte>, k: nat, dst: array<Byte>, m: nat, rk: seq<Word>, decrypt: bool)
    requires 16 * k + 16 <= src.Length && 16 * m + 16 <= dst.Length && |rk| == 32
    modifies dst
    ensures dst[..]
            == Put(old(dst[..]), m, (if decrypt then Decrypt(T, rk) else Encrypt(T, rk))(old(BlockAt(src[..], k))))
  {
    assert src[16 * k..16 * k + 16] == BlockAt(src[..], k);
    CryptBlock(T, src, 16 * k, dst, 16 * m, rk, decrypt);
  }

  lemma OneBlock(s: seq<Byte>, b: Block)
    requires |s| == 16
    ensures Put(s, 0, b) == b && BlockAt(s, 0) == s
  {
  }

  // ---------- the two loops ----------

  // After k turns the first k output blocks are the ciphertext, and the input blocks not yet
  // read are as they were, also when the output overwrites the input.
  ghost predicate EncryptedSoFar(E: Cipher, iv: Block, p: seq<Block>, out: seq<Block>, inp: seq<Block>, k: nat) {
    && k <= |p| == |out| == |inp|
    && out[..k] == CbcEncrypt(E, iv, p[..k])
    && forall j :: k <= j < |p| ==> inp[j] == p[j]
  }

  lemma EncryptedMore(E: Cipher, iv: Block, p: seq<Block>, out: seq<Block>, inp: seq<Block>, inp': seq<Block>, k: nat,
                      x: Block)
    requires EncryptedSoFar(E, iv, p, out, inp, k) && k < |p|
    requires x == E(XorBlock(inp[k], LastBlock(out[..k], iv)))
    requires inp' == inp || inp' == inp[k := x]
    ensures EncryptedSoFar(E, iv, p, out[k := x], inp', k + 1)
    ensures LastBlock(out[k := x][..k + 1], iv) == x
  {
    EncryptStep(E, iv, p, k);
    assert out[k := x][..k + 1] == out[..k] + [x];
  }

  ghost predicate DecryptedSoFar(D: Cipher, iv: Block, c: seq<Block>, out: seq<Block>, inp: seq<Block>, k: nat) {
    && k <= |c| == |out| == |inp|
    && out[..k] == CbcDecrypt(D, iv, c[..k])
    && forall j :: k <= j < |c| ==> inp[j] == c[j]
  }

  lemma DecryptedMore(D: Cipher, iv: Block, c: seq<Block>, out: seq<Block>, inp: seq<Block>, inp': seq<Block>, k: nat,
                      x: Block)
    requires DecryptedSoFar(D, iv, c, out, inp, k) && k < |c|
    requires x == XorBlock(D(inp[k]), LastBlock(c[..k], iv))
    requires inp' == inp || inp' == inp[k := x]
    ensures DecryptedSoFar(D, iv, c, out[k := x], inp', k + 1)
    ensures LastBlock(c[..k + 1], iv) == inp[k]
  {
    DecryptStep(D, iv, c, k);
    assert out[k := x][..k + 1] == out[..k] + [x];
  }

  // One turn of the loop of `sm4_cbc_encrypt`.
  method EncryptTurn(T: Word -> Word, input: array<Byte>, output: array<Byte>, k: nat, ghost n: nat, rk: seq<Word>,
                     iv: array<Byte>, block: array<Byte>)
    requires k < n && 16 * n <= input.Length && 16 * n <= output.Length
    requires iv.Length == 16 && block.Length == 16 && |rk| == 32
    requires iv != input && iv != output && block != input && block != output && block != iv
    modifies output, iv, block
    ensures iv[..] == Encrypt(T, rk)(XorBlock(old(BlockAt(input[..], k)), old(iv[..])))
    ensures Blocks(output[..], n) == old(Blocks(output[..], n))[k := iv[..]]
    ensures output[16 * n..] == old(output[16 * n..])
  {
    ghost var was := output[..];
    OneBlock(block[..], XorBlock(BlockAt(input[..], k), iv[..]));
    XorInto(block, 0, BlockAt(input[..], k), iv[..]);
    OneBlock(block[..], block[..]);
    ghost var c := Encrypt(T, rk)(block[..]);
    PutBlocks(was, k, c, n);
    PutBlock(was, k, c, k);
    CryptAt(T, block, 0, output, k, rk, false);
    OneBlock(iv[..], c);
    CopyInto(iv, 0, BlockAt(output[..], k));
  }

  // `sm4_cbc_encrypt`. Input and output may be the same buffer.
  method CbcEncryptBuffer(T: Word -> Word, input: array<Byte>, output: array<Byte>, len: nat, rk: seq<Word>,
                          iv: array<Byte>)
    returns (ok: bool)
    requires len <= input.Length && len <= output.Length && iv.Length == 16 && |rk| == 32
    requires iv != input && iv != output
    modifies output, iv
    ensures ok <==> len % 16 == 0
    ensures !ok ==> output[..] == old(output[..]) && iv[..] == old(iv[..])
    ensures ok ==> Blocks(output[..], len / 16)
                   == CbcEncrypt(Encrypt(T, rk), old(iv[..]), old(Blocks(input[..], len / 16)))
    ensures ok ==> iv[..] == LastBlock(Blocks(output[..], len / 16), old(iv[..]))
    ensures output[len..] == old(output[len..])
  {
    if len % 16 != 0 {
      return false;
    }
    EncryptBlocks(T, input, output, len / 16, rk, iv);
    return true;
  }

  method EncryptBlocks(T: Word -> Word, input: array<Byte>, output: array<Byte>, n: nat, rk: seq<Word>, iv: array<Byte>)
    requires 16 * n <= input.Length && 16 * n <= output.Length && iv.Length == 16 && |rk| == 32
    requires iv != input && iv != output
    modifies output, iv
    ensures Blocks(output[..], n) == CbcEncrypt(Encrypt(T, rk), old(iv[..]), old(Blocks(input[..], n)))
    ensures iv[..] == LastBlock(Blocks(output[..], n), old(iv[..]))
    ensures output[16 * n..] == old(output[16 * n..])
  {
    var block := new Byte[16](_ => Zeros(8));
    ghost var iv0: Block, p, E, out := iv[..], Blocks(input[..], n), Encrypt(T, rk), Blocks(output[..], n);
    for k := 0 to n
      invariant out == Blocks(output[..], n) && EncryptedSoFar(E, iv0, p, out, Blocks(input[..], n), k)
      invariant iv[..] == LastBlock(out[..k], iv0)
      invariant output[16 * n..] == old(output[16 * n..])
    {
      ghost var inp := Blocks(input[..], n);
      assert BlockAt(input[..], k) == inp[k];
      EncryptTurn(T, input, output, k, n, rk, iv, block);
      EncryptedMore(E, iv0, p, out, inp, Blocks(input[..], n), k, iv[..]);
      out := out[k := iv[..]];
    }
    assert p[..n] == p && out[..n] == out;
  }

  // One turn of the loop of `sm4_cbc_decrypt`.
  method DecryptTurn(T: Word -> Word, input: array<Byte>, output: array<Byte>, k: nat, ghost n: nat, rk: seq<Word>,
                     iv: array<Byte>, block: array<Byte>)
    requires k < n && 16 * n <= input.Length && 16 * n <= output.Length
    requires iv.Length == 16 && block.Length == 16 && |rk| == 32
    requires iv != input && iv != output && block != input && block != output && block != iv
    modifies output, iv, block
    ensures iv[..] == old(BlockAt(input[..], k))
    ensures Blocks(output[..], n)
            == old(Blocks(output[..], n))[k := XorBlock(Decrypt(T, rk)(old(BlockAt(input[..], k))), old(iv[..]))]
    ensures output[16 * n..] == old(output[16 * n..])
  {
    var prev := BlockAt(input[..], k);
    ghost var d := Decrypt(T, rk)(prev);
    OneBlock(block[..], d);
    CryptAt(T, input, k, block, 0, rk, true);
    PutBlocks(output[..], k, XorBlock(d, iv[..]), n);
    XorInto(output, k, block[..], iv[..]);
    OneBlock(iv[..], prev);
    CopyInto(iv, 0, prev);
  }

  // `sm4_cbc_decrypt`. Input and output may be the same buffer.
  method CbcDecryptBuffer(T: Word -> Word, input: array<Byte>, output: array<Byte>, len: nat, rk: seq<Word>,
                          iv: array<Byte>)
    returns (ok: bool)
    requires len <= input.Length && len <= output.Length && iv.Length == 16 && |rk| == 32
    requires iv != input && iv != output
    modifies output, iv
    ensures ok <==> len % 16 == 0
    ensures !ok ==> output[..] == old(output[..]) && iv[..] == old(iv[..])
    ensures ok ==> Blocks(output[..], len / 16)
                   == CbcDecrypt(Decrypt(T, rk), old(iv[..]), old(Blocks(input[..], len / 16)))
    ensures ok ==> iv[..] == LastBlock(old(Blocks(input[..], len / 16)), old(iv[..]))
    ensures output[len..] == old(output[len..])
  {
    if len % 16 != 0 {
      return false;
    }
    DecryptBlocks(T, input, output, len / 16, rk, iv);
    return true;
  }

  method DecryptBlocks(T: Word -> Word, input: array<Byte>, output: array<Byte>, n: nat, rk: seq<Word>, iv: array<Byte>)
    requires 16 * n <= input.Length && 16 * n <= output.Length && iv.Length == 16 && |rk| == 32
    requires iv != input && iv != output
    modifies output, iv
    ensures Blocks(output[..], n) == CbcDecrypt(Decrypt(T, rk), old(iv[..]), old(Blocks(input[..], n)))
    ensures iv[..] == LastBlock(old(Blocks(input[..], n)), old(iv[..]))
    ensures output[16 * n..] == old(output[16 * n..])
  {
    var block := new Byte[16](_ => Zeros(8));
    ghost var iv0: Block, c, D, out := iv[..], Blocks(input[..], n), Decrypt(T, rk), Blocks(output[..], n);
    for k := 0 to n
      invariant out == Blocks(output[..], n) && DecryptedSoFar(D, iv0, c, out, Blocks(input[..], n), k)
      invariant iv[..] == LastBlock(c[..k], iv0)
      invariant output[16 * n..] == old(output[16 * n..])
    {
      ghost var inp := Blocks(input[..], n);
      assert BlockAt(input[..], k) == inp[k];
      ghost var x := XorBlock(D(inp[k]), iv[..]);
      DecryptTurn(T, input, output, k, n, rk, iv, block);
      DecryptedMore(D, iv0, c, out, inp, Blocks(input[..], n), k, x);
      out := out[k := x];
    }
    assert c[..n] == c && out[..n] == out;
  }

  // Encrypting a buffer in place and decrypting it in place from the same IV gives the buffer back.
  method EncryptThenDecrypt(T: Word -> Word, buffer: array<Byte>, rk: seq<Word>, iv1: array<Byte>, iv2: array<Byte>)
    requires buffer.Length % 16 == 0 && iv1.Length == iv2.Length == 16 && |rk| == 32
    requires iv1[..] == iv2[..] && iv1 != iv2 && iv1 != buffer && iv2 != buffer
    modifies buffer, iv1, iv2
    ensures buffer[..] == old(buffer[..])
  {
    var n := buffer.Length / 16;
    Sm4CbcRoundTrip(T, rk, iv1[..], Blocks(buffer[..], n));
    var _ := CbcEncryptBuffer(T, buffer, buffer, buffer.Length, rk, iv1);
    var _ := CbcDecryptBuffer(T, buffer, buffer, buffer.Length, rk, iv2);
    SameBlocks(buffer[..], old(buffer[..]), n);
  }
}
