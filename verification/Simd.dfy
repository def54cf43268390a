// The 8-block engine of Experiment3/report/code/sm4_multibuffer_simd.c. A 256-bit register is
// eight 32-bit words in two halves of four; the unpack instructions work in each half by itself.
module Simd {
  import opened Words
  import opened Sm4Cipher

  type Vec = v: seq<Word> | |v| == 8 witness seq(8, i => seq(32, j => false))

  // _mm256_unpacklo_epi32, _mm256_unpackhi_epi32, _mm256_unpacklo_epi64, _mm256_unpackhi_epi64
  function UnpackLo32(a: Vec, b: Vec): Vec {
    [a[0], b[0], a[1], b[1], a[4], b[4], a[5], b[5]]
  }

  function UnpackHi32(a: Vec, b: Vec): Vec {
    [a[2], b[2], a[3], b[3], a[6], b[6], a[7], b[7]]
  }

  function UnpackLo64(a: Vec, b: Vec): Vec {
    [a[0], a[1], b[0], b[1], a[4], a[5], b[4], b[5]]
  }

  function UnpackHi64(a: Vec, b: Vec): Vec {
    [a[2], a[3], b[2], b[3], a[6], a[7], b[6], b[7]]
  }

  // The four registers X[0] .. X[3]
  datatype Registers = Registers(x0: Vec, x1: Vec, x2: Vec, x3: Vec)

  function Pick(x: Registers, i: nat): Vec
    requires i < 4
  {
    if i == 0 then x.x0 else if i == 1 then x.x1 else if i == 2 then x.x2 else x.x3
  }

  // MM256_PACK0_EPI32 .. MM256_PACK3_EPI32
  function Packed(x: Registers, i: nat): Vec
    requires i < 4
  {
    if i == 0 then UnpackLo64(UnpackLo32(x.x0, x.x1), UnpackLo32(x.x2, x.x3))
    else if i == 1 then UnpackHi64(UnpackLo32(x.x0, x.x1), UnpackLo32(x.x2, x.x3))
    else if i == 2 then UnpackLo64(UnpackHi32(x.x0, x.x1), UnpackHi32(x.x2, x.x3))
    else UnpackHi64(UnpackHi32(x.x0, x.x1), UnpackHi32(x.x2, x.x3))
  }

  // The four packs transpose the 4 x 4 words of each half.
  lemma PackTransposes(x: Registers, h: nat, t: nat, w: nat)
    requires h < 2 && t < 4 && w < 4
    ensures Packed(x, w)[4 * h + t] == Pick(x, t)[4 * h + w]
  {
    if h == 0 {
      PackTransposesLow(x, t, w);
    } else {
      PackTransposesHigh(x, t, w);
    }
  }

  lemma PackTransposesLow(x: Registers, t: nat, w: nat)
    requires t < 4 && w < 4
    ensures Packed(x, w)[t] == Pick(x, t)[w]
  {
  }

  lemma PackTransposesHigh(x: Registers, t: nat, w: nat)
    requires t < 4 && w < 4
    ensures Packed(x, w)[4 + t] == Pick(x, t)[4 + w]
  {
  }

  // ---------- bytes ----------

  // A word as it lies in memory, lowest byte first.
  function LoadLe(b: seq<Byte>): Word
    requires |b| == 4
  {
    Join(b[0], b[1], b[2], b[3])
  }

  function Join(a: seq<bool>, b: seq<bool>, c: seq<bool>, d: seq<bool>): seq<bool> {
    a + b + c + d
  }

  function StoreLe(v: Word): (r: seq<Byte>)
    ensures |r| == 4
  {
    [ByteOf(v, 0), ByteOf(v, 1), ByteOf(v, 2), ByteOf(v, 3)]
  }

  // _mm256_shuffle_epi8 with the index vector that turns the bytes of each word around
  function Swap(v: Word): Word {
    Join(ByteOf(v, 3), ByteOf(v, 2), ByteOf(v, 1), ByteOf(v, 0))
  }

  function SwapVec(v: Vec): (r: Vec)
    ensures forall p {:trigger r[p]} :: 0 <= p < 8 ==> r[p] == Swap(v[p])
  {
    seq(8, p requires 0 <= p < 8 => Swap(v[p]))
  }

  lemma SwapByte(v: Word, k: nat)
    requires k < 4
    ensures ByteOf(Swap(v), k) == ByteOf(v, 3 - k)
  {
  }

  lemma LoadLeByte(b: seq<Byte>, k: nat)
    requires |b| == 4 && k < 4
    ensures ByteOf(LoadLe(b), k) == b[k]
  {
  }

  lemma SwapOfLoad(b: seq<Byte>)
    requires |b| == 4
    ensures Swap(LoadLe(b)) == LoadBe(b)
  {
    forall k: nat | k < 4
      ensures ByteOf(Swap(LoadLe(b)), k) == ByteOf(LoadBe(b), k)
    {
      LoadBytes(b, k);
      SwapByte(LoadLe(b), k);
      LoadLeByte(b, 3 - k);
    }
    SameBytes(Swap(LoadLe(b)), LoadBe(b));
  }

  lemma StoreOfSwap(v: Word)
    ensures StoreLe(Swap(v)) == StoreBe(v)
  {
    forall k | 0 <= k < 4
      ensures StoreLe(Swap(v))[k] == StoreBe(v)[k]
    {
      StoreBytes(v, 3 - k);
      SwapByte(v, k);
    }
  }

  function Word32At(b: Block, w: nat): Word
    requires w < 4
  {
    LoadLe(b[4 * w..4 * w + 4])
  }

  // _mm256_loadu_si256: two blocks side by side
  function Load(b0: Block, b1: Block): Vec {
    [Word32At(b0, 0), Word32At(b0, 1), Word32At(b0, 2), Word32At(b0, 3),
     Word32At(b1, 0), Word32At(b1, 1), Word32At(b1, 2), Word32At(b1, 3)]
  }

  // _mm256_storeu_si256, one half
  function StoreHalf(v: Vec, h: nat): Block
    requires h < 2
  {
    StoreLe(v[4 * h]) + StoreLe(v[4 * h + 1]) + StoreLe(v[4 * h + 2]) + StoreLe(v[4 * h + 3])
  }

  // ---------- rounds ----------

  function XorVec(a: Vec, b: Vec): (r: Vec)
    ensures forall p {:trigger r[p]} :: 0 <= p < 8 ==> r[p] == Xor(a[p], b[p])
  {
    seq(8, p requires 0 <= p < 8 => Xor(a[p], b[p]))
  }

  // _mm256_set1_epi32
  function Set1(k: Word): (r: Vec)
    ensures forall p {:trigger r[p]} :: 0 <= p < 8 ==> r[p] == k
  {
    seq(8, _ => k)
  }

  // _mm256_srli_epi32(v, 8)
  function ShrVec8(v: Vec): (r: Vec)
    ensures forall p {:trigger r[p]} :: 0 <= p < 8 ==> r[p] == Shr(v[p], 8)
  {
    seq(8, p requires 0 <= p < 8 => Shr(v[p], 8))
  }

  // _mm256_i32gather_epi32 at the low byte of each word
  function GatherLow(box: seq<Word>, v: Vec): (r: Vec)
    requires |box| == 256
    ensures forall p {:trigger r[p]} :: 0 <= p < 8 ==> r[p] == box[Index(LowByte(v[p]))]
  {
    seq(8, p requires 0 <= p < 8 => box[Index(LowByte(v[p]))])
  }

  datatype Boxes = Boxes(box0: seq<Word>, box1: seq<Word>, box2: seq<Word>, box3: seq<Word>)

  ghost predicate AreBoxes(S: Sbox, x: Boxes) {
    IsTable(S, x.box0, 0) && IsTable(S, x.box1, 8) && IsTable(S, x.box2, 16) && IsTable(S, x.box3, 24)
  }

  function QuadAt(x: Registers, p: nat): Quad
    requires p < 8
  {
    Quad(x.x0[p], x.x1[p], x.x2[p], x.x3[p])
  }

  lemma LookUp(S: Sbox, boxes: Boxes, x0: Word, t: Word)
    requires AreBoxes(S, boxes)
    ensures Xor(Xor(Xor(Xor(x0, boxes.box0[Index(LowByte(t))]), boxes.box1[Index(LowByte(Shr(t, 8)))]),
                    boxes.box2[Index(LowByte(Shr(Shr(t, 8), 8)))]),
                boxes.box3[Index(LowByte(Shr(Shr(Shr(t, 8), 8), 8)))])
         == Xor(x0, RoundT(S)(t))
  {
    assert Shr(Shr(t, 8), 8) == Shr(t, 16) && Shr(Shr(t, 16), 8) == Shr(t, 24);
    TableRoundIsRound(S, boxes.box3, boxes.box2, boxes.box1, boxes.box0, t);
    XorInTurn(x0, boxes.box0[Index(LowByte(t))], boxes.box1[Index(LowByte(Shr(t, 8)))],
              boxes.box2[Index(LowByte(Shr(t, 16)))], boxes.box3[Index(LowByte(Shr(t, 24)))]);
  }

  lemma XorInTurn(x: Word, a: Word, b: Word, c: Word, d: Word)
    ensures Xor(Xor(Xor(Xor(x, a), b), c), d) == Xor(x, Xor(Xor(Xor(d, c), b), a))
  {
  }

  lemma XorPairs(a: Word, b: Word, c: Word, d: Word)
    ensures Xor(Xor(a, b), Xor(c, d)) == Xor(Xor(Xor(a, b), c), d)
  {
  }

  ghost predicate IsNewWord(S: Sbox, x: Registers, key: Word, y: Vec) {
    forall p: nat {:trigger y[p]} :: p < 8 ==>
      y[p] == Xor(x.x0[p], RoundT(S)(Xor(Xor(Xor(x.x1[p], x.x2[p]), x.x3[p]), key)))
  }

  // The 4-table look-up for the new word of each lane.
  method NewWord(ghost S: Sbox, boxes: Boxes, x: Registers, key: Word) returns (y: Vec)
    requires AreBoxes(S, boxes)
    ensures IsNewWord(S, x, key, y)
  {
    var k := Set1(key);
    var t := XorVec(XorVec(x.x1, x.x2), XorVec(x.x3, k));
    ghost var t0 := t;
    y := XorVec(x.x0, GatherLow(boxes.box0, t));
    t := ShrVec8(t);
    y := XorVec(y, GatherLow(boxes.box1, t));
    t := ShrVec8(t);
    y := XorVec(y, GatherLow(boxes.box2, t));
    t := ShrVec8(t);
    y := XorVec(y, GatherLow(boxes.box3, t));
    forall p | 0 <= p < 8
      ensures y[p] == Xor(x.x0[p], RoundT(S)(Xor(Xor(Xor(x.x1[p], x.x2[p]), x.x3[p]), key)))
    {
      XorPairs(x.x1[p], x.x2[p], x.x3[p], key);
      LookUp(S, boxes, x.x0[p], t0[p]);
    }
  }

  // Each lane has been through the rounds with these keys.
  ghost predicate Through(S: Sbox, x: Registers, ks: seq<Word>, y: Registers) {
    forall p: nat :: p < 8 ==> QuadAt(y, p) == Rounds(RoundT(S), QuadAt(x, p), ks)
  }

  lemma OneRoundMore(S: Sbox, x: Registers, ks: seq<Word>, i: nat, y: Registers, z: Vec)
    requires i < |ks| && Through(S, x, ks[..i], y) && IsNewWord(S, y, ks[i], z)
    ensures Through(S, x, ks[..i + 1], Registers(y.x1, y.x2, y.x3, z))
  {
    forall p: nat | p < 8
      ensures QuadAt(Registers(y.x1, y.x2, y.x3, z), p) == Rounds(RoundT(S), QuadAt(x, p), ks[..i + 1])
    {
      RoundsSnoc(RoundT(S), QuadAt(x, p), ks, i);
      assert QuadAt(y, p) == Rounds(RoundT(S), QuadAt(x, p), ks[..i]);
    }
  }

  method Round(ghost S: Sbox, boxes: Boxes, y: Registers, key: Word, ghost x: Registers, ghost ks: seq<Word>,
               ghost i: nat)
    returns (y': Registers)
    requires AreBoxes(S, boxes) && i < |ks| && key == ks[i] && Through(S, x, ks[..i], y)
    ensures Through(S, x, ks[..i + 1], y')
  {
    var z := NewWord(S, boxes, y, key);
    OneRoundMore(S, x, ks, i, y, z);
    y' := Registers(y.x1, y.x2, y.x3, z);
  }

  lemma ThroughNone(S: Sbox, x: Registers, ks: seq<Word>)
    ensures Through(S, x, ks[..0], x)
  {
  }

  function KeysFor(rk: seq<Word>, enc: int): (ks: seq<Word>)
    ensures |ks| == |rk|
  {
    if enc == 0 then rk else Backwards(rk)
  }

  // The 32 rounds of `sm4_simd_do`: each lane goes through the rounds of the cipher.
  method RoundLoop(ghost S: Sbox, boxes: Boxes, x: Registers, rk: seq<Word>, enc: int) returns (y: Registers)
    requires AreBoxes(S, boxes) && |rk| == 32
    ensures Through(S, x, KeysFor(rk, enc), y)
  {
    ghost var ks := KeysFor(rk, enc);
    y := x;
    ThroughNone(S, x, ks);
    for i := 0 to 32
      invariant Through(S, x, ks[..i], y)
    {
      y := Round(S, boxes, y, if enc == 0 then rk[i] else rk[31 - i], x, ks, i);
    }
    assert ks[..32] == ks;
  }

  // ---------- eight blocks at once ----------

  // The lane in which block l travels.
  function LaneOf(l: nat): (p: nat)
    requires l < 8
    ensures p < 8
  {
    4 * (l % 2) + l / 2
  }

  function LoadAll(input: seq<Block>): Registers
    requires |input| == 8
  {
    Registers(Load(input[0], input[1]), Load(input[2], input[3]), Load(input[4], input[5]), Load(input[6], input[7]))
  }

  // Pack, then turn the bytes of each word around.
  function Transposed(t: Registers): Registers {
    Registers(SwapVec(Packed(t, 0)), SwapVec(Packed(t, 1)), SwapVec(Packed(t, 2)), SwapVec(Packed(t, 3)))
  }

  lemma LoadWord(b0: Block, b1: Block, h: nat, w: nat)
    requires h < 2 && w < 4
    ensures Load(b0, b1)[4 * h + w] == Word32At(if h == 0 then b0 else b1, w)
  {
  }

  lemma PickLoaded(input: seq<Block>, t: nat)
    requires |input| == 8 && t < 4
    ensures Pick(LoadAll(input), t) == Load(input[2 * t], input[2 * t + 1])
  {
    if t == 0 {
    } else if t == 1 {
    } else if t == 2 {
    } else {
    }
  }

  lemma LoadedFrom(input: seq<Block>, h: nat, t: nat, w: nat)
    requires |input| == 8 && h < 2 && t < 4 && w < 4
    ensures Pick(LoadAll(input), t)[4 * h + w] == Word32At(input[2 * t + h], w)
  {
    PickLoaded(input, t);
    LoadWord(input[2 * t], input[2 * t + 1], h, w);
  }

  lemma TransposedIs(x: Registers, w: nat, p: nat)
    requires w < 4 && p < 8
    ensures Pick(Transposed(x), w)[p] == Swap(Packed(x, w)[p])
  {
  }

  function BlockWord(b: Block, w: nat): Word
    requires w < 4
  {
    LoadBe(b[4 * w..4 * w + 4])
  }

  lemma LoadedWord(input: seq<Block>, h: nat, t: nat, w: nat)
    requires |input| == 8 && h < 2 && t < 4 && w < 4
    ensures Pick(Transposed(LoadAll(input)), w)[4 * h + t] == BlockWord(input[2 * t + h], w)
  {
    TransposedIs(LoadAll(input), w, 4 * h + t);
    PackTransposes(LoadAll(input), h, t, w);
    LoadedFrom(input, h, t, w);
    SwapOfLoad(input[2 * t + h][4 * w..4 * w + 4]);
  }

  lemma QuadByWords(b: Block, x: Registers, p: nat)
    requires p < 8 && forall w: nat :: w < 4 ==> Pick(x, w)[p] == BlockWord(b, w)
    ensures QuadAt(x, p) == LoadQuad(b)
  {
    assert Pick(x, 0)[p] == BlockWord(b, 0) && Pick(x, 1)[p] == BlockWord(b, 1);
    assert Pick(x, 2)[p] == BlockWord(b, 2) && Pick(x, 3)[p] == BlockWord(b, 3);
  }

  lemma LoadedLane(input: seq<Block>, h: nat, t: nat)
    requires |input| == 8 && h < 2 && t < 4
    ensures QuadAt(Transposed(LoadAll(input)), 4 * h + t) == LoadQuad(input[2 * t + h])
  {
    forall w: nat | w < 4
      ensures Pick(Transposed(LoadAll(input)), w)[4 * h + t] == BlockWord(input[2 * t + h], w)
    {
      LoadedWord(input, h, t, w);
    }
    QuadByWords(input[2 * t + h], Transposed(LoadAll(input)), 4 * h + t);
  }

  // The registers as they are packed for the stores: bytes turned around, last register first.
  function Reversed(x: Registers): Registers {
    Registers(SwapVec(x.x3), SwapVec(x.x2), SwapVec(x.x1), SwapVec(x.x0))
  }

  lemma ReversedAt(x: Registers, w: nat, p: nat)
    requires w < 4 && p < 8
    ensures Pick(Reversed(x), w)[p] == Swap(Pick(x, 3 - w)[p])
  {
  }

  // What is stored for word w of a block.
  lemma StoredWord(x: Registers, h: nat, t: nat, w: nat)
    requires h < 2 && t < 4 && w < 4
    ensures StoreLe(Packed(Reversed(x), t)[4 * h + w]) == StoreBe(Pick(x, 3 - w)[4 * h + t])
  {
    PackTransposes(Reversed(x), h, w, t);
    ReversedAt(x, w, 4 * h + t);
    StoreOfSwap(Pick(x, 3 - w)[4 * h + t]);
  }

  lemma StoredLane(x: Registers, l: nat)
    requires l < 8
    ensures StoreHalf(Packed(Reversed(x), l / 2), l % 2) == StoreQuad(Flip(QuadAt(x, LaneOf(l))))
  {
    var h, t: nat := l % 2, l / 2;
    StoredWord(x, h, t, 0);
    StoredWord(x, h, t, 1);
    StoredWord(x, h, t, 2);
    StoredWord(x, h, t, 3);
  }

  function StoreAll(o: Registers): (output: seq<Block>)
    ensures |output| == 8
  {
    [StoreHalf(o.x0, 0), StoreHalf(o.x0, 1), StoreHalf(o.x1, 0), StoreHalf(o.x1, 1),
     StoreHalf(o.x2, 0), StoreHalf(o.x2, 1), StoreHalf(o.x3, 0), StoreHalf(o.x3, 1)]
  }

  lemma StoreAllAt(o: Registers, l: nat)
    requires l < 8
    ensures StoreAll(o)[l] == StoreHalf(Pick(o, l / 2), l % 2)
  {
  }

  function Pack4(z: Registers): Registers {
    Registers(Packed(z, 0), Packed(z, 1), Packed(z, 2), Packed(z, 3))
  }

  lemma StoredBlock(x: Registers, l: nat)
    requires l < 8
    ensures StoreAll(Pack4(Reversed(x)))[l] == StoreQuad(Flip(QuadAt(x, LaneOf(l))))
  {
    StoreAllAt(Pack4(Reversed(x)), l);
    StoredLane(x, l);
  }

  lemma LaneDone(S: Sbox, x: Registers, ks: seq<Word>, y: Registers, l: nat, b: Block)
    requires l < 8 && Through(S, x, ks, y) && QuadAt(x, LaneOf(l)) == LoadQuad(b)
    ensures StoreQuad(Flip(QuadAt(y, LaneOf(l)))) == Crypt(RoundT(S), ks, b)
  {
  }

  lemma CipherIsCrypt(S: Sbox, rk: seq<Word>, enc: int, b: Block)
    ensures (if enc == 0 then Encrypt(RoundT(S), rk) else Decrypt(RoundT(S), rk))(b)
            == Crypt(RoundT(S), KeysFor(rk, enc), b)
  {
  }

  // Each block is in its lane.
  ghost predicate Loaded(input: seq<Block>, x: Registers)
    requires |input| == 8
  {
    forall l: nat :: l < 8 ==> QuadAt(x, LaneOf(l)) == LoadQuad(input[l])
  }

  // The loads, the packs and the byte shuffles before the rounds.
  method LoadRegisters(input: seq<Block>) returns (x: Registers)
    requires |input| == 8
    ensures Loaded(input, x)
  {
    x := Transposed(LoadAll(input));
    forall l: nat | l < 8
      ensures QuadAt(x, LaneOf(l)) == LoadQuad(input[l])
    {
      var h: nat, t: nat := l % 2, l / 2;
      assert 2 * t + h == l && 4 * h + t == LaneOf(l);
      LoadedLane(input, h, t);
    }
  }

  // The byte shuffles, the packs and the stores after them.
  method StoreRegisters(x: Registers) returns (output: seq<Block>)
    ensures |output| == 8 && forall l: nat :: l < 8 ==> output[l] == StoreQuad(Flip(QuadAt(x, LaneOf(l))))
  {
    output := StoreAll(Pack4(Reversed(x)));
    forall l: nat | l < 8
      ensures output[l] == StoreQuad(Flip(QuadAt(x, LaneOf(l))))
    {
      StoredBlock(x, l);
    }
  }

  // `sm4_simd_do`: block l of the output is the cipher applied to block l of the input.
  method SimdDo(ghost S: Sbox, boxes: Boxes, input: seq<Block>, rk: seq<Word>, enc: int) returns (output: seq<Block>)
    requires AreBoxes(S, boxes) && |input| == 8 && |rk| == 32
    ensures |output| == 8
    ensures forall l: nat :: l < 8 ==>
              output[l] == (if enc == 0 then Encrypt(RoundT(S), rk) else Decrypt(RoundT(S), rk))(input[l])
  {
    var x := LoadRegisters(input);
    var y := RoundLoop(S, boxes, x, rk, enc);
    output := StoreRegisters(y);
    forall l: nat | l < 8
      ensures output[l] == (if enc == 0 then Encrypt(RoundT(S), rk) else Decrypt(RoundT(S), rk))(input[l])
    {
      LaneDone(S, x, KeysFor(rk, enc), y, l, input[l]);
      CipherIsCrypt(S, rk, enc, input[l]);
    }
  }
}
