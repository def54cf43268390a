// The SM4 block cipher (GB/T 32907-2016, sections 6 and 7) of Experiment3/report/code: the
// shift-register form, the unrolled four-register form, the table form of the round function,
// and the inverse. The S-box and the key-schedule constants stay parameters.
module Sm4Cipher {
  import opened Anf
  import opened Words

  type Sbox = Byte -> Byte

  // ---------- the round function and its tables ----------

  function SboxWord(S: Sbox, x: Word): Word {
    Or(Or(Or(Shl(Widen(S(LowByte(Shr(x, 24)))), 24),
             Shl(Widen(S(LowByte(Shr(x, 16)))), 16)),
          Shl(Widen(S(LowByte(Shr(x, 8)))), 8)),
       Widen(S(LowByte(x))))
  }

  lemma SboxWordIsLoad(S: Sbox, x: Word)
    ensures SboxWord(S, x) == LoadBe([S(ByteOf(x, 3)), S(ByteOf(x, 2)), S(ByteOf(x, 1)), S(ByteOf(x, 0))])
  {
    ShiftedByte(x, 3);
    ShiftedByte(x, 2);
    ShiftedByte(x, 1);
    assert LowByte(x) == ByteOf(x, 0);
  }

  // The S-box works on each byte of the word by itself.
  lemma SboxWordBit(S: Sbox, x: Word, i: nat)
    requires i < 32
    ensures SboxWord(S, x)[i] == S(ByteOf(x, i / 8))[i % 8]
  {
    SboxWordIsLoad(S, x);
    LoadBits([S(ByteOf(x, 3)), S(ByteOf(x, 2)), S(ByteOf(x, 1)), S(ByteOf(x, 0))], i);
  }

  function Linear(x: Word): Word {
    Xor(Xor(Xor(Xor(x, Rotl(x, 2)), Rotl(x, 10)), Rotl(x, 18)), Rotl(x, 24))
  }

  function KeyLinear(x: Word): Word {
    Xor(Xor(x, Rotl(x, 13)), Rotl(x, 23))
  }

  function RoundOf(S: Sbox, x: Word): Word {
    Linear(SboxWord(S, x))
  }

  function KeyRoundOf(S: Sbox, x: Word): Word {
    KeyLinear(SboxWord(S, x))
  }

  function RoundT(S: Sbox): Word -> Word {
    (x: Word) => RoundOf(S, x)
  }

  function KeyT(S: Sbox): Word -> Word {
    (x: Word) => KeyRoundOf(S, x)
  }

  // Section 6 of GB/T 32907-2016, bit by bit: a left rotation by n brings bit i - n to bit i.
  lemma LinearBit(x: Word, i: nat)
    requires i < 32
    ensures Linear(x)[i]
         == ((((x[i] != x[(i + 30) % 32]) != x[(i + 22) % 32]) != x[(i + 14) % 32]) != x[(i + 8) % 32])
  {
  }

  lemma KeyLinearBit(x: Word, i: nat)
    requires i < 32
    ensures KeyLinear(x)[i] == ((x[i] != x[(i + 19) % 32]) != x[(i + 9) % 32])
  {
  }

  lemma LinearOfXor(a: Word, b: Word)
    ensures Linear(Xor(a, b)) == Xor(Linear(a), Linear(b))
  {
    RotlOfXor(a, b, 2);
    RotlOfXor(a, b, 10);
    RotlOfXor(a, b, 18);
    RotlOfXor(a, b, 24);
  }

  lemma RotlOfXor(a: Word, b: Word, n: nat)
    requires 0 < n < 32
    ensures Rotl(Xor(a, b), n) == Xor(Rotl(a, n), Rotl(b, n))
  {
  }

  function TableEntry(S: Sbox, i: nat, shift: nat): Word {
    Linear(Shl(Widen(S(ToByte(i))), shift))
  }

  ghost predicate IsTable(S: Sbox, t: seq<Word>, shift: nat) {
    |t| == 256 && forall i :: 0 <= i < 256 ==> t[i] == TableEntry(S, i, shift)
  }

  // A table index: a byte used as an integer.
  function Index(b: Byte): (i: nat)
    ensures i < 256
  {
    ByteRange();
    Pack(b)
  }

  lemma ByteRange()
    ensures Pow2(8) == 256
  {
    assert Pow2(4) == 16;
  }

  function TableRound(t0: seq<Word>, t1: seq<Word>, t2: seq<Word>, t3: seq<Word>, x: Word): Word
    requires |t0| == |t1| == |t2| == |t3| == 256
  {
    Xor(Xor(Xor(t0[Index(LowByte(Shr(x, 24)))],
                t1[Index(LowByte(Shr(x, 16)))]),
            t2[Index(LowByte(Shr(x, 8)))]),
        t3[Index(LowByte(x))])
  }

  // `sm4_round_t` of the build with tables, on these four.
  function TableT(t0: seq<Word>, t1: seq<Word>, t2: seq<Word>, t3: seq<Word>): Word -> Word
    requires |t0| == |t1| == |t2| == |t3| == 256
  {
    (x: Word) => TableRound(t0, t1, t2, t3, x)
  }

  lemma SboxWordIsXor(S: Sbox, x: Word)
    ensures SboxWord(S, x)
            == Xor(Xor(Xor(Shl(Widen(S(LowByte(Shr(x, 24)))), 24),
                           Shl(Widen(S(LowByte(Shr(x, 16)))), 16)),
                       Shl(Widen(S(LowByte(Shr(x, 8)))), 8)),
                   Shl(Widen(S(LowByte(x))), 0))
  {
  }

  // With the tables filled, four look-ups are the round function.
  lemma TableRoundIsRound(S: Sbox, t0: seq<Word>, t1: seq<Word>, t2: seq<Word>, t3: seq<Word>, x: Word)
    requires IsTable(S, t0, 24) && IsTable(S, t1, 16) && IsTable(S, t2, 8) && IsTable(S, t3, 0)
    ensures TableRound(t0, t1, t2, t3, x) == RoundT(S)(x)
  {
    var b0, b1, b2, b3 := LowByte(Shr(x, 24)), LowByte(Shr(x, 16)), LowByte(Shr(x, 8)), LowByte(x);
    ToBytePack(b0);
    ToBytePack(b1);
    ToBytePack(b2);
    ToBytePack(b3);
    var s0, s1, s2, s3 := Shl(Widen(S(b0)), 24), Shl(Widen(S(b1)), 16), Shl(Widen(S(b2)), 8), Shl(Widen(S(b3)), 0);
    SboxWordIsXor(S, x);
    LinearOfXor(Xor(Xor(s0, s1), s2), s3);
    LinearOfXor(Xor(s0, s1), s2);
    LinearOfXor(s0, s1);
  }

  // `sm4_prepare_tables`
  class Tables {
    var ready: bool
    const t0: array<Word>
    const t1: array<Word>
    const t2: array<Word>
    const t3: array<Word>

    ghost predicate Valid(S: Sbox)
      reads this, t0, t1, t2, t3
    {
      && t0.Length == t1.Length == t2.Length == t3.Length == 256
      && t0 != t1 && t0 != t2 && t0 != t3 && t1 != t2 && t1 != t3 && t2 != t3
      && (ready ==> Filled(S))
    }

    ghost predicate Filled(S: Sbox)
      reads t0, t1, t2, t3
    {
      IsTable(S, t0[..], 24) && IsTable(S, t1[..], 16) && IsTable(S, t2[..], 8) && IsTable(S, t3[..], 0)
    }

    // `sm4_round_t`, once the tables are filled
    function T(): Word -> Word
      requires t0.Length == t1.Length == t2.Length == t3.Length == 256
      reads t0, t1, t2, t3
    {
      TableT(t0[..], t1[..], t2[..], t3[..])
    }

    ghost function Parts(): set<object> {
      {this, t0, t1, t2, t3}
    }

    constructor (S: Sbox)
      ensures Valid(S) && !ready && fresh(t0) && fresh(t1) && fresh(t2) && fresh(t3)
    {
      ready := false;
      t0 := new Word[256](_ => Zeros(32));
      t1 := new Word[256](_ => Zeros(32));
      t2 := new Word[256](_ => Zeros(32));
      t3 := new Word[256](_ => Zeros(32));
    }

    method Prepare(S: Sbox)
      requires Valid(S)
      modifies Parts()
      ensures Valid(S) && ready && Filled(S)
    {
      if ready {
        return;
      }
      for i := 0 to 256
        invariant forall k :: 0 <= k < i ==> t0[k] == TableEntry(S, k, 24) && t1[k] == TableEntry(S, k, 16)
                                             && t2[k] == TableEntry(S, k, 8) && t3[k] == TableEntry(S, k, 0)
      {
        var s := Widen(S(ToByte(i)));
        t0[i] := Linear(Shl(s, 24));
        t1[i] := Linear(Shl(s, 16));
        t2[i] := Linear(Shl(s, 8));
        assert Shl(s, 0) == s;
        t3[i] := Linear(s);
      }
      ready := true;
    }
  }

  // ---------- rounds ----------

  datatype Quad = Quad(x0: Word, x1: Word, x2: Word, x3: Word)

  // One round of the shift register, for any round function.
  function ShiftRound(T: Word -> Word, q: Quad, k: Word): Quad {
    Quad(q.x1, q.x2, q.x3, Xor(q.x0, T(Xor(Xor(Xor(q.x1, q.x2), q.x3), k))))
  }

  function Rounds(T: Word -> Word, q: Quad, ks: seq<Word>): Quad {
    if ks == [] then q
    else ShiftRound(T, Rounds(T, q, ks[..|ks| - 1]), ks[|ks| - 1])
  }

  lemma {:induction false} RoundsAppend(T: Word -> Word, q: Quad, ks: seq<Word>, ls: seq<Word>)
    ensures Rounds(T, q, ks + ls) == Rounds(T, Rounds(T, q, ks), ls)
  {
    if ls == [] {
      assert ks + ls == ks;
    } else {
      var n := |ls| - 1;
      assert (ks + ls)[..|ks| + n] == ks + ls[..n];
      RoundsAppend(T, q, ks, ls[..n]);
    }
  }

  function Flip(q: Quad): Quad {
    Quad(q.x3, q.x2, q.x1, q.x0)
  }

  function Backwards<A>(s: seq<A>): (r: seq<A>)
    ensures |r| == |s| && forall i :: 0 <= i < |s| ==> r[i] == s[|s| - 1 - i]
  {
    seq(|s|, i requires 0 <= i < |s| => s[|s| - 1 - i])
  }

  // A round, flipped, undoes itself.
  lemma RoundUndone(T: Word -> Word, q: Quad, k: Word)
    ensures ShiftRound(T, Flip(ShiftRound(T, q, k)), k) == Flip(q)
  {
    var t := T(Xor(Xor(Xor(q.x1, q.x2), q.x3), k));
    XorOrder(q.x1, q.x2, q.x3, k);
    XorCancel(q.x0, t);
  }

  // Running the flipped result with the keys in reverse order gives the start, flipped.
  lemma {:induction false} RoundsUndone(T: Word -> Word, q: Quad, ks: seq<Word>)
    ensures Rounds(T, Flip(Rounds(T, q, ks)), Backwards(ks)) == Flip(q)
  {
    if ks != [] {
      var n := |ks| - 1;
      var r := Rounds(T, q, ks[..n]);
      assert Backwards(ks) == [ks[n]] + Backwards(ks[..n]);
      RoundsAppend(T, Flip(ShiftRound(T, r, ks[n])), [ks[n]], Backwards(ks[..n]));
      OneRound(T, Flip(ShiftRound(T, r, ks[n])), ks[n]);
      RoundUndone(T, r, ks[n]);
      RoundsUndone(T, q, ks[..n]);
    }
  }

  lemma OneRound(T: Word -> Word, q: Quad, k: Word)
    ensures Rounds(T, q, [k]) == ShiftRound(T, q, k)
  {
    assert Rounds(T, q, [k][..0]) == q;
  }

  // ---------- blocks ----------

  function LoadQuad(b: Block): Quad {
    Quad(LoadBe(b[0..4]), LoadBe(b[4..8]), LoadBe(b[8..12]), LoadBe(b[12..16]))
  }

  function StoreQuad(q: Quad): Block {
    StoreBe(q.x0) + StoreBe(q.x1) + StoreBe(q.x2) + StoreBe(q.x3)
  }

  lemma LoadStoreQuad(q: Quad)
    ensures LoadQuad(StoreQuad(q)) == q
  {
    var b := StoreQuad(q);
    assert b[0..4] == StoreBe(q.x0) && b[4..8] == StoreBe(q.x1) && b[8..12] == StoreBe(q.x2)
           && b[12..16] == StoreBe(q.x3);
    StoreLoad(q.x0);
    StoreLoad(q.x1);
    StoreLoad(q.x2);
    StoreLoad(q.x3);
  }

  lemma StoreLoadQuad(b: Block)
    ensures StoreQuad(LoadQuad(b)) == b
  {
    LoadStore(b[0..4]);
    LoadStore(b[4..8]);
    LoadStore(b[8..12]);
    LoadStore(b[12..16]);
    assert b == b[0..4] + b[4..8] + b[8..12] + b[12..16];
  }

  // The cipher: rounds on the four words, written out in reverse order.
  function Crypt(T: Word -> Word, rk: seq<Word>, b: Block): Block {
    StoreQuad(Flip(Rounds(T, LoadQuad(b), rk)))
  }

  function Encrypt(T: Word -> Word, rk: seq<Word>): Block -> Block {
    (b: Block) => Crypt(T, rk, b)
  }

  function Decrypt(T: Word -> Word, rk: seq<Word>): Block -> Block {
    (b: Block) => Crypt(T, Backwards(rk), b)
  }

  // Decryption undoes encryption, for any round function and any round keys.
  lemma DecryptUndoesEncrypt(T: Word -> Word, rk: seq<Word>, b: Block)
    ensures Decrypt(T, rk)(Encrypt(T, rk)(b)) == b
  {
    var q := LoadQuad(b);
    LoadStoreQuad(Flip(Rounds(T, q, rk)));
    RoundsUndone(T, q, rk);
    StoreLoadQuad(b);
  }

  lemma EncryptUndoesDecrypt(T: Word -> Word, rk: seq<Word>, b: Block)
    ensures Encrypt(T, rk)(Decrypt(T, rk)(b)) == b
  {
    assert Backwards(Backwards(rk)) == rk;
    DecryptUndoesEncrypt(T, Backwards(rk), b);
  }

  // ---------- the two builds ----------

  lemma {:induction false} SameRounds(T: Word -> Word, U: Word -> Word, q: Quad, ks: seq<Word>)
    requires forall x: Word :: T(x) == U(x)
    ensures Rounds(T, q, ks) == Rounds(U, q, ks)
  {
    if ks != [] {
      SameRounds(T, U, q, ks[..|ks| - 1]);
    }
  }

  // With the tables filled both builds are the same cipher, in both directions.
  lemma TablesSameCipher(S: Sbox, t0: seq<Word>, t1: seq<Word>, t2: seq<Word>, t3: seq<Word>, rk: seq<Word>, b: Block)
    requires IsTable(S, t0, 24) && IsTable(S, t1, 16) && IsTable(S, t2, 8) && IsTable(S, t3, 0)
    ensures Encrypt(TableT(t0, t1, t2, t3), rk)(b) == Encrypt(RoundT(S), rk)(b)
    ensures Decrypt(TableT(t0, t1, t2, t3), rk)(b) == Decrypt(RoundT(S), rk)(b)
  {
    var T, U := TableT(t0, t1, t2, t3), RoundT(S);
    forall x: Word
      ensures T(x) == U(x)
    {
      TableRoundIsRound(S, t0, t1, t2, t3, x);
    }
    SameRounds(T, U, LoadQuad(b), rk);
    SameRounds(T, U, LoadQuad(b), Backwards(rk));
  }

  // The round function of a build: with tables, or without.
  function BuildT(S: Sbox, tables: Tables?): Word -> Word
    requires tables != null ==> tables.Valid(S)
    reads tables, if tables == null then {} else {tables.t0, tables.t1, tables.t2, tables.t3}
  {
    if tables == null then RoundT(S) else tables.T()
  }

  // SM4_RNDS: four rounds in place, without moving the registers.
  method Rnds(T: Word -> Word, b0: Word, b1: Word, b2: Word, b3: Word, k0: Word, k1: Word, k2: Word, k3: Word)
    returns (c0: Word, c1: Word, c2: Word, c3: Word)
    ensures Quad(c0, c1, c2, c3) == Rounds(T, Quad(b0, b1, b2, b3), [k0, k1, k2, k3])
  {
    c0 := Xor(b0, T(Xor(Xor(Xor(b1, b2), b3), k0)));
    XorOrder(b2, b3, c0, k1);
    c1 := Xor(b1, T(Xor(Xor(Xor(c0, b2), b3), k1)));
    XorOrder(b3, c0, c1, k2);
    c2 := Xor(b2, T(Xor(Xor(Xor(c0, c1), b3), k2)));
    c3 := Xor(b3, T(Xor(Xor(Xor(c0, c1), c2), k3)));
    FourRounds(T, Quad(b0, b1, b2, b3), [k0, k1, k2, k3]);
  }

  lemma FourRounds(T: Word -> Word, q: Quad, ks: seq<Word>)
    requires |ks| == 4
    ensures Rounds(T, q, ks)
            == ShiftRound(T, ShiftRound(T, ShiftRound(T, ShiftRound(T, q, ks[0]), ks[1]), ks[2]), ks[3])
  {
    assert ks[..3][..2] == ks[..2] && ks[..2][..1] == ks[..1] && ks[..1][..0] == [];
    assert Rounds(T, q, ks[..1]) == ShiftRound(T, q, ks[0]);
    assert Rounds(T, q, ks[..2]) == ShiftRound(T, Rounds(T, q, ks[..1]), ks[1]);
    assert Rounds(T, q, ks[..3]) == ShiftRound(T, Rounds(T, q, ks[..2]), ks[2]);
  }

  // Eight times SM4_RNDS is the shift register over 32 keys.
  method AllRounds(T: Word -> Word, q: Quad, rk: array<Word>) returns (r: Quad)
    requires rk.Length == 32
    ensures r == Rounds(T, q, rk[..])
  {
    var b0, b1, b2, b3 := q.x0, q.x1, q.x2, q.x3;
    for i := 0 to 8
      invariant Quad(b0, b1, b2, b3) == Rounds(T, q, rk[..4 * i])
    {
      ghost var ks := [rk[4 * i], rk[4 * i + 1], rk[4 * i + 2], rk[4 * i + 3]];
      assert rk[..4 * (i + 1)] == rk[..4 * i] + ks;
      RoundsAppend(T, q, rk[..4 * i], ks);
      b0, b1, b2, b3 := Rnds(T, b0, b1, b2, b3, rk[4 * i], rk[4 * i + 1], rk[4 * i + 2], rk[4 * i + 3]);
    }
    assert rk[..32] == rk[..];
    r := Quad(b0, b1, b2, b3);
  }

  method LoadBeAt(src: array<Byte>, at: nat) returns (w: Word)
    requires at + 4 <= src.Length
    ensures w == LoadBe(src[at..at + 4])
  {
    w := LoadBe([src[at], src[at + 1], src[at + 2], src[at + 3]]);
    assert src[at..at + 4] == [src[at], src[at + 1], src[at + 2], src[at + 3]];
  }

  method LoadQuadAt(src: array<Byte>, from: nat) returns (q: Quad)
    requires from + 16 <= src.Length
    ensures q == LoadQuad(src[from..from + 16])
  {
    ghost var b := src[from..from + 16];
    var b0 := LoadBeAt(src, from);
    assert b[0..4] == src[from..from + 4];
    var b1 := LoadBeAt(src, from + 4);
    assert b[4..8] == src[from + 4..from + 4 + 4];
    var b2 := LoadBeAt(src, from + 8);
    assert b[8..12] == src[from + 8..from + 8 + 4];
    var b3 := LoadBeAt(src, from + 12);
    assert b[12..16] == src[from + 12..from + 12 + 4];
    q := Quad(b0, b1, b2, b3);
  }

  method StoreQuadAt(q: Quad, dst: array<Byte>, at: nat)
    requires at + 16 <= dst.Length
    modifies dst
    ensures dst[..] == old(dst[..at]) + StoreQuad(q) + old(dst[at + 16..])
  {
    ghost var d := dst[..];
    var w0, w1, w2, w3 := StoreBe(q.x0), StoreBe(q.x1), StoreBe(q.x2), StoreBe(q.x3);
    WriteFour(w0, dst, at);
    WriteFour(w1, dst, at + 4);
    WriteFour(w2, dst, at + 8);
    WriteFour(w3, dst, at + 12);
    assert dst[..] == d[..at] + w0 + w1 + w2 + w3 + d[at + 16..];
  }

  method WriteFour(b: seq<Byte>, dst: array<Byte>, at: nat)
    requires |b| == 4 && at + 4 <= dst.Length
    modifies dst
    ensures forall i :: 0 <= i < dst.Length ==> dst[i] == if at <= i < at + 4 then b[i - at] else old(dst[i])
  {
    dst[at], dst[at + 1], dst[at + 2], dst[at + 3] := b[0], b[1], b[2], b[3];
  }

  method ScheduleFor(rk: seq<Word>, decrypt: bool) returns (ks: array<Word>)
    requires |rk| == 32
    ensures fresh(ks) && ks.Length == 32 && ks[..] == if decrypt then Backwards(rk) else rk
  {
    ks := new Word[32](_ => Zeros(32));
    for i := 0 to 32
      invariant fresh(ks)
      invariant forall j :: 0 <= j < i ==> ks[j] == (if decrypt then Backwards(rk) else rk)[j]
    {
      ks[i] := if decrypt then rk[31 - i] else rk[i];
    }
  }

  // `sm4_crypt_block`. The source and the destination may be the same buffer.
  method CryptBlock(T: Word -> Word, src: array<Byte>, from: nat, dst: array<Byte>, to_: nat, rk: seq<Word>,
                    decrypt: bool)
    requires |rk| == 32 && from + 16 <= src.Length && to_ + 16 <= dst.Length
    modifies dst
    ensures dst[..] == old(dst[..to_])
                       + (if decrypt then Decrypt(T, rk) else Encrypt(T, rk))(old(src[from..from + 16]))
                       + old(dst[to_ + 16..])
  {
    var q := LoadQuadAt(src, from);
    var ks := ScheduleFor(rk, decrypt);
    q := AllRounds(T, q, ks);
    StoreQuadAt(Flip(q), dst, to_);
  }

  // The round loop of `sm4_encrypt_block_scalar`: the shift register itself.
  method ScalarRounds(S: Sbox, q: Quad, rk: seq<Word>) returns (x: Quad)
    ensures x == Rounds(RoundT(S), q, rk)
  {
    x := q;
    for i := 0 to |rk|
      invariant x == Rounds(RoundT(S), q, rk[..i])
    {
      RoundsSnoc(RoundT(S), q, rk, i);
      var t := Xor(Xor(Xor(x.x1, x.x2), x.x3), rk[i]);
      var y := RoundOf(S, t);
      x := Quad(x.x1, x.x2, x.x3, Xor(x.x0, y));
    }
    assert rk[..|rk|] == rk;
  }

  lemma RoundsSnoc(T: Word -> Word, q: Quad, ks: seq<Word>, i: nat)
    requires i < |ks|
    ensures Rounds(T, q, ks[..i + 1]) == ShiftRound(T, Rounds(T, q, ks[..i]), ks[i])
  {
    assert ks[..i + 1][..i] == ks[..i];
  }

  // `sm4_encrypt_block_scalar`
  method EncryptBlockScalar(S: Sbox, input: Block, rk: seq<Word>) returns (output: Block)
    ensures output == Encrypt(RoundT(S), rk)(input)
  {
    var x := ScalarRounds(S, LoadQuad(input), rk);
    output := StoreQuad(Flip(x));
  }

  // ---------- the key schedule ----------

  function KeyStart(key: Block, fk: Quad): Quad {
    var k := LoadQuad(key);
    Quad(Xor(k.x0, fk.x0), Xor(k.x1, fk.x1), Xor(k.x2, fk.x2), Xor(k.x3, fk.x3))
  }

  // The words the shift register takes in, round by round.
  function TakenIn(T: Word -> Word, q: Quad, ck: seq<Word>): (rk: seq<Word>)
    ensures |rk| == |ck|
  {
    seq(|ck|, i requires 0 <= i < |ck| => Rounds(T, q, ck[..i + 1]).x3)
  }

  function RoundKeys(S: Sbox, key: Block, fk: Quad, ck: seq<Word>): seq<Word> {
    TakenIn(KeyT(S), KeyStart(key, fk), ck)
  }

  // The loop of `sm4_set_key`: four round keys in each turn, in place.
  method UnrolledKeys(T: Word -> Word, q: Quad, ck: seq<Word>) returns (rk: array<Word>)
    requires |ck| == 32
    ensures rk[..] == TakenIn(T, q, ck)
  {
    ghost var want := TakenIn(T, q, ck);
    var k0, k1, k2, k3 := q.x0, q.x1, q.x2, q.x3;
    rk := new Word[32](_ => Zeros(32));
    for m := 0 to 8
      invariant Quad(k0, k1, k2, k3) == Rounds(T, q, ck[..4 * m])
      invariant forall j :: 0 <= j < 4 * m ==> rk[j] == want[j]
    {
      var i := 4 * m;
      k0, k1, k2, k3 := KeyTurn(T, k0, k1, k2, k3, ck[i], ck[i + 1], ck[i + 2], ck[i + 3], q, ck, i);
      WriteKeys([k0, k1, k2, k3], rk, i, want);
    }
  }

  method WriteKeys(ks: seq<Word>, rk: array<Word>, i: nat, ghost want: seq<Word>)
    requires |ks| == 4 && i + 4 <= rk.Length == |want| && ks == want[i..i + 4]
    requires forall j :: 0 <= j < i ==> rk[j] == want[j]
    modifies rk
    ensures forall j :: 0 <= j < i + 4 ==> rk[j] == want[j]
  {
    rk[i], rk[i + 1], rk[i + 2], rk[i + 3] := ks[0], ks[1], ks[2], ks[3];
    assert want[i] == ks[0] && want[i + 1] == ks[1] && want[i + 2] == ks[2] && want[i + 3] == ks[3];
  }

  // One turn of that loop.
  method KeyTurn(T: Word -> Word, k0: Word, k1: Word, k2: Word, k3: Word, c0: Word, c1: Word, c2: Word, c3: Word,
                 ghost q: Quad, ghost ck: seq<Word>, ghost i: nat)
    returns (r0: Word, r1: Word, r2: Word, r3: Word)
    requires i + 4 <= |ck| && ck[i] == c0 && ck[i + 1] == c1 && ck[i + 2] == c2 && ck[i + 3] == c3
    requires Quad(k0, k1, k2, k3) == Rounds(T, q, ck[..i])
    ensures Quad(r0, r1, r2, r3) == Rounds(T, q, ck[..i + 4])
    ensures [r0, r1, r2, r3] == TakenIn(T, q, ck)[i..i + 4]
  {
    r0 := Xor(k0, T(Xor(Xor(Xor(k1, k2), k3), c0)));
    r1 := Xor(k1, T(Xor(Xor(Xor(k2, k3), r0), c1)));
    r2 := Xor(k2, T(Xor(Xor(Xor(k3, r0), r1), c2)));
    r3 := Xor(k3, T(Xor(Xor(Xor(r0, r1), r2), c3)));
    RoundsSnoc(T, q, ck, i);
    RoundsSnoc(T, q, ck, i + 1);
    RoundsSnoc(T, q, ck, i + 2);
    RoundsSnoc(T, q, ck, i + 3);
    assert TakenIn(T, q, ck)[i..i + 4] == [Rounds(T, q, ck[..i + 1]).x3, Rounds(T, q, ck[..i + 2]).x3,
                                          Rounds(T, q, ck[..i + 3]).x3, Rounds(T, q, ck[..i + 4]).x3];
  }

  // `sm4_set_key`, in either build: it leaves the tables filled.
  method SetKey(S: Sbox, tables: Tables?, key: Block, fk: Quad, ck: seq<Word>) returns (rk: array<Word>)
    requires |ck| == 32 && (tables != null ==> tables.Valid(S))
    modifies if tables == null then {} else tables.Parts()
    ensures tables != null ==> tables.Valid(S) && tables.Filled(S)
    ensures rk[..] == RoundKeys(S, key, fk, ck)
  {
    if tables != null {
      tables.Prepare(S);
    }
    rk := UnrolledKeys(KeyT(S), KeyStart(key, fk), ck);
  }

  // The loop of `sm4_set_key_scalar`: one round key in each turn.
  method ShiftedKeys(S: Sbox, q: Quad, ck: seq<Word>) returns (rk: array<Word>)
    requires |ck| == 32
    ensures rk[..] == TakenIn(KeyT(S), q, ck)
  {
    ghost var want := TakenIn(KeyT(S), q, ck);
    var k := q;
    rk := new Word[32](_ => Zeros(32));
    for i := 0 to 32
      invariant k == Rounds(KeyT(S), q, ck[..i])
      invariant forall j :: 0 <= j < i ==> rk[j] == want[j]
    {
      RoundsSnoc(KeyT(S), q, ck, i);
      var t := Xor(Xor(Xor(k.x1, k.x2), k.x3), ck[i]);
      var next := NextKey(S, k.x0, t);
      rk[i] := next;
      k := Quad(k.x1, k.x2, k.x3, next);
    }
  }

  // k[0] ^ s ^ rotl32(s, 13) ^ rotl32(s, 23)
  method NextKey(S: Sbox, k0: Word, t: Word) returns (next: Word)
    ensures next == Xor(k0, KeyRoundOf(S, t))
  {
    var s := SboxWord(S, t);
    next := Xor(Xor(Xor(k0, s), Rotl(s, 13)), Rotl(s, 23));
    assert next == Xor(k0, KeyLinear(s));
  }

  // `sm4_set_key_scalar`: the same round keys as `sm4_set_key`.
  method SetKeyScalar(S: Sbox, key: Block, fk: Quad, ck: seq<Word>) returns (rk: array<Word>)
    requires |ck| == 32
    ensures rk[..] == RoundKeys(S, key, fk, ck)
  {
    rk := ShiftedKeys(S, KeyStart(key, fk), ck);
  }
}
