// Machine words as their bits, lowest bit first: uint8_t is Byte, uint32_t is Word. Shifts drop
// the bits that leave the word, as they do in C.
module Words {
  import opened Anf

  type Byte = b: seq<bool> | |b| == 8 witness seq(8, i => false)
  type Word = w: seq<bool> | |w| == 32 witness seq(32, i => false)
  type Block = b: seq<Byte> | |b| == 16 witness seq(16, i => seq(8, j => false))

  function Zeros(n: nat): (r: seq<bool>)
    ensures |r| == n
  {
    seq(n, i => false)
  }

  function XorBits(a: seq<bool>, b: seq<bool>): (r: seq<bool>)
    requires |a| == |b|
    ensures |r| == |a| && forall i {:trigger r[i]} :: 0 <= i < |r| ==> r[i] == (a[i] != b[i])
  {
    seq(|a|, i requires 0 <= i < |a| => a[i] != b[i])
  }

  function Xor(a: Word, b: Word): (r: Word) {
    XorBits(a, b)
  }

  function Or(a: Word, b: Word): (r: Word)
    ensures forall i {:trigger r[i]} :: 0 <= i < 32 ==> r[i] == (a[i] || b[i])
  {
    seq(32, i requires 0 <= i < 32 => a[i] || b[i])
  }

  function Shl(a: Word, n: nat): (r: Word)
    ensures forall i {:trigger r[i]} :: 0 <= i < 32 ==> r[i] == (n <= i && a[i - n])
  {
    seq(32, i requires 0 <= i < 32 => n <= i && a[i - n])
  }

  function Shr(a: Word, n: nat): (r: Word)
    ensures forall i {:trigger r[i]} :: 0 <= i < 32 ==> r[i] == (i + n < 32 && a[i + n])
  {
    seq(32, i requires 0 <= i < 32 => i + n < 32 && a[i + n])
  }

  // (uint8_t)x and (uint32_t)b
  function LowByte(x: Word): Byte {
    x[..8]
  }

  function Widen(b: Byte): Word {
    b + Zeros(24)
  }

  // (x << n) | (x >> (32 - n)), for the shift counts the cipher uses: bit i moves to (i + n) mod 32.
  function Rotl(x: Word, n: nat): (r: Word)
    requires 0 < n < 32
    ensures forall i {:trigger r[i]} :: 0 <= i < 32 ==> r[i] == x[if n <= i then i - n else i + 32 - n]
  {
    Or(Shl(x, n), Shr(x, 32 - n))
  }

  // Four bytes, most significant first, as a word; and back.
  function LoadBe(b: seq<Byte>): Word
    requires |b| == 4
  {
    Or(Or(Or(Shl(Widen(b[0]), 24), Shl(Widen(b[1]), 16)), Shl(Widen(b[2]), 8)), Widen(b[3]))
  }

  function StoreBe(v: Word): (r: seq<Byte>)
    ensures |r| == 4
  {
    [LowByte(Shr(v, 24)), LowByte(Shr(v, 16)), LowByte(Shr(v, 8)), LowByte(v)]
  }

  // The byte at bits 8k .. 8k+7 of a word.
  function ByteOf(x: Word, k: nat): Byte
    requires k < 4
  {
    x[8 * k..8 * k + 8]
  }

  lemma LoadBits(b: seq<Byte>, i: nat)
    requires |b| == 4 && i < 32
    ensures LoadBe(b)[i] == b[3 - i / 8][i % 8]
  {
  }

  lemma LoadBytes(b: seq<Byte>, k: nat)
    requires |b| == 4 && k < 4
    ensures ByteOf(LoadBe(b), k) == b[3 - k]
  {
    forall j | 0 <= j < 8
      ensures ByteOf(LoadBe(b), k)[j] == b[3 - k][j]
    {
      LoadBits(b, 8 * k + j);
    }
  }

  lemma SameBytes(x: Word, y: Word)
    requires forall k :: 0 <= k < 4 ==> ByteOf(x, k) == ByteOf(y, k)
    ensures x == y
  {
    forall i | 0 <= i < 32
      ensures x[i] == y[i]
    {
      var k, j := i / 8, i % 8;
      assert ByteOf(x, k) == ByteOf(y, k);
      assert ByteOf(x, k)[j] == x[8 * k + j] && ByteOf(y, k)[j] == y[8 * k + j];
    }
  }

  lemma ShiftedByte(v: Word, k: nat)
    requires k < 4
    ensures LowByte(Shr(v, 8 * k)) == ByteOf(v, k)
  {
  }

  lemma StoreBytes(v: Word, k: nat)
    requires k < 4
    ensures StoreBe(v)[3 - k] == ByteOf(v, k)
  {
    ShiftedByte(v, k);
    assert Shr(v, 0) == v;
  }

  lemma StoreLoad(v: Word)
    ensures LoadBe(StoreBe(v)) == v
  {
    forall k | 0 <= k < 4
      ensures ByteOf(LoadBe(StoreBe(v)), k) == ByteOf(v, k)
    {
      LoadBytes(StoreBe(v), k);
      StoreBytes(v, k);
    }
    SameBytes(LoadBe(StoreBe(v)), v);
  }

  lemma LoadStore(b: seq<Byte>)
    requires |b| == 4
    ensures StoreBe(LoadBe(b)) == b
  {
    forall k | 0 <= k < 4
      ensures StoreBe(LoadBe(b))[k] == b[k]
    {
      LoadBytes(b, 3 - k);
      StoreBytes(LoadBe(b), 3 - k);
    }
  }

  // ---------- bytes and the integers 0 .. 255 ----------

  function Pack(bits: seq<bool>): (x: nat)
    ensures x < Pow2(|bits|)
  {
    if bits == [] then 0 else (if bits[0] then 1 else 0) + 2 * Pack(bits[1..])
  }

  // (uint8_t)x
  function ToByte(x: nat): Byte {
    seq(8, j requires 0 <= j => Bit(x, j))
  }

  lemma {:induction false} PackBit(bits: seq<bool>, j: nat)
    ensures Bit(Pack(bits), j) <==> j < |bits| && bits[j]
  {
    if bits == [] {
      HighBits(0, 0, j);
    } else if j > 0 {
      PackBit(bits[1..], j - 1);
      assert Pack(bits) / 2 == Pack(bits[1..]);
    }
  }

  lemma ToBytePack(b: Byte)
    ensures ToByte(Pack(b)) == b && Pack(b) < Pow2(8)
  {
    forall j | 0 <= j < 8
      ensures ToByte(Pack(b))[j] == b[j]
    {
      PackBit(b, j);
    }
  }

  // ---------- XOR laws ----------

  lemma XorCancel(a: seq<bool>, b: seq<bool>)
    requires |a| == |b|
    ensures XorBits(XorBits(a, b), b) == a
  {
  }

  lemma XorOrder(a: Word, b: Word, c: Word, d: Word)
    ensures Xor(Xor(Xor(a, b), c), d) == Xor(Xor(Xor(b, c), a), d)
    ensures Xor(Xor(Xor(a, b), c), d) == Xor(Xor(Xor(c, a), b), d)
    ensures Xor(Xor(Xor(a, b), c), d) == Xor(Xor(Xor(c, b), a), d)
  {
  }

  function XorBlock(a: Block, b: Block): (r: Block)
    ensures forall i {:trigger r[i]} :: 0 <= i < 16 ==> r[i] == XorBits(a[i], b[i])
  {
    seq(16, i requires 0 <= i < 16 => XorBits(a[i], b[i]))
  }

  lemma XorInjective(a: seq<bool>, b: seq<bool>, c: seq<bool>)
    requires |a| == |b| == |c| && XorBits(a, b) == XorBits(a, c)
    ensures b == c
  {
    forall j | 0 <= j < |a|
      ensures b[j] == c[j]
    {
      assert XorBits(a, b)[j] == XorBits(a, c)[j];
    }
  }

  lemma XorBlockInjective(a: Block, b: Block, c: Block)
    requires XorBlock(a, b) == XorBlock(a, c)
    ensures b == c
  {
    forall i | 0 <= i < 16
      ensures b[i] == c[i]
    {
      assert XorBlock(a, b)[i] == XorBlock(a, c)[i];
      XorInjective(a[i], b[i], c[i]);
    }
  }

  lemma XorBlockCancel(a: Block, b: Block)
    ensures XorBlock(XorBlock(a, b), b) == a
  {
    forall i | 0 <= i < 16
      ensures XorBlock(XorBlock(a, b), b)[i] == a[i]
    {
      XorCancel(a[i], b[i]);
    }
  }
}
