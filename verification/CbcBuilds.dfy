// Experiment3/report/code/sm4_portable.h is built with round tables or without: both builds have
// the same CBC functions, on inputs of every length.
module CbcBuilds {
  import opened Words
  import opened Sm4Cipher
  import opened Cbc

  lemma {:induction false} SameEncryption(E: Cipher, F: Cipher, iv: Block, p: seq<Block>)
    requires forall b: Block :: E(b) == F(b)
    ensures CbcEncrypt(E, iv, p) == CbcEncrypt(F, iv, p)
  {
    if p != [] {
      SameEncryption(E, F, iv, p[..|p| - 1]);
    }
  }

  lemma {:induction false} SameDecryption(D: Cipher, F: Cipher, iv: Block, c: seq<Block>)
    requires forall b: Block :: D(b) == F(b)
    ensures CbcDecrypt(D, iv, c) == CbcDecrypt(F, iv, c)
  {
    if c != [] {
      SameDecryption(D, F, iv, c[..|c| - 1]);
    }
  }

  lemma TablesSameCbc(S: Sbox, t0: seq<Word>, t1: seq<Word>, t2: seq<Word>, t3: seq<Word>, rk: seq<Word>, iv: Block,
                      p: seq<Block>)
    requires IsTable(S, t0, 24) && IsTable(S, t1, 16) && IsTable(S, t2, 8) && IsTable(S, t3, 0)
    ensures CbcEncrypt(Encrypt(TableT(t0, t1, t2, t3), rk), iv, p) == CbcEncrypt(Encrypt(RoundT(S), rk), iv, p)
    ensures CbcDecrypt(Decrypt(TableT(t0, t1, t2, t3), rk), iv, p) == CbcDecrypt(Decrypt(RoundT(S), rk), iv, p)
  {
    var T := TableT(t0, t1, t2, t3);
    forall b: Block
      ensures Encrypt(T, rk)(b) == Encrypt(RoundT(S), rk)(b) && Decrypt(T, rk)(b) == Decrypt(RoundT(S), rk)(b)
    {
      TablesSameCipher(S, t0, t1, t2, t3, rk, b);
    }
    SameEncryption(Encrypt(T, rk), Encrypt(RoundT(S), rk), iv, p);
    SameDecryption(Decrypt(T, rk), Decrypt(RoundT(S), rk), iv, p);
  }

  lemma BuildsSameCbc(S: Sbox, tables: Tables?, rk: seq<Word>, iv: Block, p: seq<Block>)
    requires tables != null ==> tables.Valid(S) && tables.Filled(S)
    ensures CbcEncrypt(Encrypt(BuildT(S, tables), rk), iv, p) == CbcEncrypt(Encrypt(RoundT(S), rk), iv, p)
    ensures CbcDecrypt(Decrypt(BuildT(S, tables), rk), iv, p) == CbcDecrypt(Decrypt(RoundT(S), rk), iv, p)
  {
    if tables != null {
      TablesSameCbc(S, tables.t0[..], tables.t1[..], tables.t2[..], tables.t3[..], rk, iv, p);
    }
  }

  // `sm4_set_key` and `sm4_cbc_encrypt`: the output is the same whichever build it is.
  method SetKeyAndEncrypt(S: Sbox, tables: Tables?, key: Block, fk: Quad, ck: seq<Word>,
                       input: array<Byte>, output: array<Byte>, len: nat, iv: array<Byte>) returns (ok: bool)
    requires |ck| == 32 && len <= input.Length && len <= output.Length && iv.Length == 16
    requires iv != input && iv != output
    requires tables != null ==> tables.Valid(S) && tables.Parts() !! {input, output, iv}
    modifies output, iv, if tables == null then {} else tables.Parts()
    ensures ok <==> len % 16 == 0
    ensures ok ==> Blocks(output[..], len / 16)
                   == CbcEncrypt(Encrypt(RoundT(S), RoundKeys(S, key, fk, ck)), old(iv[..]),
                                 old(Blocks(input[..], len / 16)))
    ensures ok ==> iv[..] == LastBlock(Blocks(output[..], len / 16), old(iv[..]))
    ensures !ok ==> output[..] == old(output[..]) && iv[..] == old(iv[..])
    ensures output[len..] == old(output[len..])
  {
    var rk := SetKey(S, tables, key, fk, ck);
    BuildsSameCbc(S, tables, rk[..], iv[..], Blocks(input[..], len / 16));
    ok := CbcEncryptBuffer(BuildT(S, tables), input, output, len, rk[..], iv);
  }

  // `sm4_set_key` and `sm4_cbc_decrypt`.
  method SetKeyAndDecrypt(S: Sbox, tables: Tables?, key: Block, fk: Quad, ck: seq<Word>,
                       input: array<Byte>, output: array<Byte>, len: nat, iv: array<Byte>) returns (ok: bool)
    requires |ck| == 32 && len <= input.Length && len <= output.Length && iv.Length == 16
    requires iv != input && iv != output
    requires tables != null ==> tables.Valid(S) && tables.Parts() !! {input, output, iv}
    modifies output, iv, if tables == null then {} else tables.Parts()
    ensures ok <==> len % 16 == 0
    ensures ok ==> Blocks(output[..], len / 16)
                   == CbcDecrypt(Decrypt(RoundT(S), RoundKeys(S, key, fk, ck)), old(iv[..]),
                                 old(Blocks(input[..], len / 16)))
    ensures ok ==> iv[..] == LastBlock(old(Blocks(input[..], len / 16)), old(iv[..]))
    ensures !ok ==> output[..] == old(output[..]) && iv[..] == old(iv[..])
    ensures output[len..] == old(output[len..])
  {
    var rk := SetKey(S, tables, key, fk, ck);
    BuildsSameCbc(S, tables, rk[..], iv[..], Blocks(input[..], len / 16));
    ok := CbcDecryptBuffer(BuildT(S, tables), input, output, len, rk[..], iv);
  }
}
