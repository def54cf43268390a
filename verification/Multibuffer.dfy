// The lockstep multibuffer CBC encryption of Experiment3/report/code/sm4_multibuffer_bitslice.c
// and sm4_multibuffer_simd.c, which differ in the engine that encrypts a batch: every stream gets
// exactly the single-stream CBC encryption of its whole blocks.
module Multibuffer {
  import opened Anf
  import opened Words
  import opened Sm4Cipher
  import opened Cbc
  import opened Bitslice
  import opened Simd

  // Block k of the stream that starts at byte `at`.
  function StreamBlock(s: seq<Byte>, at: nat, k: nat): Block
    requires at + 16 * k + 16 <= |s|
  {
    s[at + 16 * k..at + 16 * k + 16]
  }

  function Stream(s: seq<Byte>, at: nat, n: nat): (r: seq<Block>)
    requires at + 16 * n <= |s|
    ensures |r| == n && forall k {:trigger r[k]} :: 0 <= k < n ==> r[k] == StreamBlock(s, at, k)
  {
    seq(n, k requires 0 <= k < n => StreamBlock(s, at, k))
  }

  // A stream is the blocks of the bytes from `at` on.
  lemma StreamIsBlocks(s: seq<Byte>, at: nat, n: nat)
    requires at + 16 * n <= |s|
    ensures Stream(s, at, n) == Blocks(s[at..], n)
  {
    forall k | 0 <= k < n
      ensures Stream(s, at, n)[k] == s[at..][16 * k..16 * k + 16]
    {
      assert s[at..][16 * k..16 * k + 16] == s[at + 16 * k..at + 16 * k + 16];
    }
  }

  // base_iv with its last byte XORed by the number of the lane
  function LaneIv(base: Block, lane: nat): Block {
    base[15 := XorBits(base[15], ToByte(lane))]
  }

  // iv is base but for the bits of its last byte that are set in the number of the lane.
  ghost predicate IsLaneIv(base: Block, lane: nat, iv: Block) {
    && (forall j :: 0 <= j < 15 ==> iv[j] == base[j])
    && forall i: nat {:trigger iv[15][i]} :: i < 8 ==> (iv[15][i] != base[15][i] <==> Bit(lane, i))
  }

  lemma LaneIvIs(base: Block, lane: nat)
    ensures IsLaneIv(base, lane, LaneIv(base, lane))
  {
  }

  // The first 256 lanes have IVs of their own, whatever the base is.
  lemma LaneIvsDiffer(base: Block, l: nat, m: nat)
    requires l < 256 && m < 256 && LaneIv(base, l) == LaneIv(base, m)
    ensures l == m
  {
    LaneIvIs(base, l);
    LaneIvIs(base, m);
    forall i: nat
      ensures Bit(l, i) == Bit(m, i)
    {
      if i < 8 {
        assert LaneIv(base, l)[15][i] == LaneIv(base, m)[15][i];
      } else {
        ByteRange();
        HighBits(l, 8, i);
        HighBits(m, 8, i);
      }
    }
    SameBits(l, m);
  }

  // Streams that start with the same block do not have the same ciphertext.
  lemma EqualStreamsDiffer(T: Word -> Word, rk: seq<Word>, base: Block, p: seq<Block>, q: seq<Block>, l: nat, m: nat)
    requires l < m < 256 && p != [] && q != [] && p[0] == q[0]
    ensures CbcEncrypt(Encrypt(T, rk), LaneIv(base, l), p)[0] != CbcEncrypt(Encrypt(T, rk), LaneIv(base, m), q)[0]
  {
    var E, x, y := Encrypt(T, rk), XorBlock(p[0], LaneIv(base, l)), XorBlock(q[0], LaneIv(base, m));
    EncryptedBlock(E, LaneIv(base, l), p, 0);
    EncryptedBlock(E, LaneIv(base, m), q, 0);
    if E(x) == E(y) {
      DecryptUndoesEncrypt(T, rk, x);
      DecryptUndoesEncrypt(T, rk, y);
      XorBlockInjective(p[0], LaneIv(base, l), LaneIv(base, m));
      LaneIvsDiffer(base, l, m);
    }
  }

  // Streams of n whole blocks each, none overlapping another.
  ghost predicate Apart(ats: seq<nat>, n: nat, size: nat) {
    && (forall l :: 0 <= l < |ats| ==> ats[l] + 16 * n <= size)
    && (forall l, m :: 0 <= l < m < |ats| ==> ats[l] + 16 * n <= ats[m])
  }

  ghost predicate InStream(ats: seq<nat>, n: nat, p: nat) {
    exists l :: 0 <= l < |ats| && ats[l] <= p < ats[l] + 16 * n
  }

  // Ciphertext block k of stream l, encrypted on its own.
  ghost predicate IsWanted(E: Cipher, base: Block, plain: seq<Byte>, ats: seq<nat>, n: nat, want: seq<seq<Block>>)
    requires Apart(ats, n, |plain|)
  {
    |want| == |ats|
    && forall l :: 0 <= l < |ats| ==> want[l] == CbcEncrypt(E, LaneIv(base, l), Stream(plain, ats[l], n))
  }

  // Stream l is encrypted up to block cnt[l].
  ghost predicate Encrypted(want: seq<seq<Block>>, ats: seq<nat>, n: nat, cnt: seq<nat>, cipher: seq<Byte>)
    requires Apart(ats, n, |cipher|) && |cnt| == |ats| == |want|
  {
    && (forall l :: 0 <= l < |ats| ==> cnt[l] <= n == |want[l]|)
    && forall l, k :: 0 <= l < |ats| && 0 <= k < cnt[l] ==> StreamBlock(cipher, ats[l], k) == want[l][k]
  }

  // The input of stream l is still there from block cnt[l] on.
  ghost predicate Unread(plain0: seq<Byte>, ats: seq<nat>, n: nat, cnt: seq<nat>, plain: seq<Byte>)
    requires Apart(ats, n, |plain|) && |plain0| == |plain| && |cnt| == |ats|
  {
    forall l, k :: 0 <= l < |ats| && cnt[l] <= k < n ==> StreamBlock(plain, ats[l], k) == StreamBlock(plain0, ats[l], k)
  }

  // No byte outside the streams has changed.
  ghost predicate Untouched(cipher0: seq<Byte>, ats: seq<nat>, n: nat, cipher: seq<Byte>)
    requires |cipher0| == |cipher|
  {
    forall p :: 0 <= p < |cipher| && !InStream(ats, n, p) ==> cipher[p] == cipher0[p]
  }

  ghost predicate Lockstep(want: seq<seq<Block>>, plain0: seq<Byte>, cipher0: seq<Byte>, ats: seq<nat>, n: nat,
                           cnt: seq<nat>, plain: seq<Byte>, cipher: seq<Byte>)
  {
    && Apart(ats, n, |plain0|) && Apart(ats, n, |cipher0|) && |plain| == |plain0| && |cipher| == |cipher0|
    && |cnt| == |ats| == |want|
    && Encrypted(want, ats, n, cnt, cipher) && Unread(plain0, ats, n, cnt, plain) && Untouched(cipher0, ats, n, cipher)
  }

  // Every stream at the same block.
  function Level(lanes: nat, blk: nat): (r: seq<nat>)
    ensures |r| == lanes && forall l {:trigger r[l]} :: 0 <= l < lanes ==> r[l] == blk
  {
    seq(lanes, _ => blk)
  }

  lemma LockstepStart(want: seq<seq<Block>>, ats: seq<nat>, n: nat, plain: seq<Byte>, cipher: seq<Byte>)
    requires Apart(ats, n, |plain|) && Apart(ats, n, |cipher|) && |want| == |ats|
    requires forall l :: 0 <= l < |ats| ==> |want[l]| == n
    ensures Lockstep(want, plain, cipher, ats, n, Level(|ats|, 0), plain, cipher)
  {
  }

  lemma LockstepEnd(want: seq<seq<Block>>, plain0: seq<Byte>, cipher0: seq<Byte>, ats: seq<nat>, n: nat,
                    plain: seq<Byte>, cipher: seq<Byte>, l: nat)
    requires Lockstep(want, plain0, cipher0, ats, n, Level(|ats|, n), plain, cipher) && l < |ats|
    ensures Stream(cipher, ats[l], n) == want[l]
  {
    forall k | 0 <= k < n
      ensures StreamBlock(cipher, ats[l], k) == want[l][k]
    {
      assert k < Level(|ats|, n)[l];
    }
  }

  function Write(s: seq<Byte>, at: nat, b: Block): (r: seq<Byte>)
    requires at + 16 <= |s|
    ensures |r| == |s|
  {
    s[..at] + b + s[at + 16..]
  }

  lemma WriteBlock(s: seq<Byte>, ats: seq<nat>, n: nat, l: nat, k: nat, x: Block, m: nat, j: nat)
    requires Apart(ats, n, |s|) && l < |ats| && k < n && m < |ats| && j < n
    ensures StreamBlock(Write(s, ats[l] + 16 * k, x), ats[m], j)
            == if m == l && j == k then x else StreamBlock(s, ats[m], j)
  {
    var s' := Write(s, ats[l] + 16 * k, x);
    var from := ats[m] + 16 * j;
    if m == l && j == k {
      assert s'[from..from + 16] == x;
    } else {
      assert from + 16 <= ats[l] + 16 * k || ats[l] + 16 * k + 16 <= from;
      assert s'[from..from + 16] == s[from..from + 16];
    }
  }

  lemma EncryptedWrite(want: seq<seq<Block>>, ats: seq<nat>, n: nat, cnt: seq<nat>, cipher: seq<Byte>, l: nat, x: Block)
    requires Apart(ats, n, |cipher|) && |cnt| == |ats| == |want| && Encrypted(want, ats, n, cnt, cipher)
    requires l < |ats| && cnt[l] < n && x == want[l][cnt[l]]
    ensures Encrypted(want, ats, n, cnt[l := cnt[l] + 1], Write(cipher, ats[l] + 16 * cnt[l], x))
  {
    var cipher' := Write(cipher, ats[l] + 16 * cnt[l], x);
    forall m, k | 0 <= m < |ats| && 0 <= k < cnt[l := cnt[l] + 1][m]
      ensures StreamBlock(cipher', ats[m], k) == want[m][k]
    {
      WriteBlock(cipher, ats, n, l, cnt[l], x, m, k);
    }
  }

  lemma UnreadWrite(plain0: seq<Byte>, ats: seq<nat>, n: nat, cnt: seq<nat>, plain: seq<Byte>, l: nat, x: Block)
    requires Apart(ats, n, |plain|) && |plain0| == |plain| && |cnt| == |ats| && Unread(plain0, ats, n, cnt, plain)
    requires l < |ats| && cnt[l] < n
    ensures Unread(plain0, ats, n, cnt[l := cnt[l] + 1], plain)
    ensures Unread(plain0, ats, n, cnt[l := cnt[l] + 1], Write(plain, ats[l] + 16 * cnt[l], x))
  {
    var plain' := Write(plain, ats[l] + 16 * cnt[l], x);
    forall m, k | 0 <= m < |ats| && cnt[l := cnt[l] + 1][m] <= k < n
      ensures StreamBlock(plain', ats[m], k) == StreamBlock(plain0, ats[m], k)
    {
      WriteBlock(plain, ats, n, l, cnt[l], x, m, k);
    }
  }

  lemma UntouchedWrite(cipher0: seq<Byte>, ats: seq<nat>, n: nat, cipher: seq<Byte>, l: nat, k: nat, x: Block)
    requires |cipher0| == |cipher| && Apart(ats, n, |cipher|) && Untouched(cipher0, ats, n, cipher) && l < |ats|
             && k < n
    ensures Untouched(cipher0, ats, n, Write(cipher, ats[l] + 16 * k, x))
  {
    forall p | 0 <= p < |cipher| && !InStream(ats, n, p)
      ensures Write(cipher, ats[l] + 16 * k, x)[p] == cipher0[p]
    {
      assert !(ats[l] <= p < ats[l] + 16 * n);
    }
  }

  // The next block of stream l, written.
  lemma LockstepWrite(want: seq<seq<Block>>, plain0: seq<Byte>, cipher0: seq<Byte>, ats: seq<nat>, n: nat,
                      cnt: seq<nat>, plain: seq<Byte>, cipher: seq<Byte>, plain': seq<Byte>, l: nat, x: Block)
    requires Lockstep(want, plain0, cipher0, ats, n, cnt, plain, cipher)
    requires l < |ats| && cnt[l] < n && |want[l]| == n && x == want[l][cnt[l]]
    requires plain' == plain || (plain == cipher && plain' == Write(cipher, ats[l] + 16 * cnt[l], x))
    ensures Lockstep(want, plain0, cipher0, ats, n, cnt[l := cnt[l] + 1], plain',
                     Write(cipher, ats[l] + 16 * cnt[l], x))
  {
    EncryptedWrite(want, ats, n, cnt, cipher, l, x);
    UnreadWrite(plain0, ats, n, cnt, plain, l, x);
    UntouchedWrite(cipher0, ats, n, cipher, l, cnt[l], x);
  }

  // The next block of a stream is the encryption of its input block XORed with its running IV.
  lemma NextWanted(E: Cipher, iv: Block, p: seq<Block>, k: nat)
    requires k < |p|
    ensures CbcEncrypt(E, iv, p)[k] == E(XorBlock(p[k], LastBlock(CbcEncrypt(E, iv, p)[..k], iv)))
    ensures LastBlock(CbcEncrypt(E, iv, p)[..k + 1], iv) == CbcEncrypt(E, iv, p)[k]
  {
    PrefixOfEncryption(E, iv, p, k);
    PrefixOfEncryption(E, iv, p, k + 1);
    EncryptStep(E, iv, p, k);
    var c := CbcEncrypt(E, iv, p);
    assert c[k] == c[..k + 1][k];
  }

  lemma StreamsApart(len: nat, l: nat, m: nat)
    requires l < m
    ensures l * len + len <= m * len
  {
    assert m * len == l * len + (m - l) * len;
    assert (m - l) * len == (m - l - 1) * len + len;
  }

  ghost function Ats(len: nat, lanes: nat): (r: seq<nat>)
    ensures |r| == lanes && forall l {:trigger r[l]} :: 0 <= l < lanes ==> r[l] == l * len
  {
    seq(lanes, l requires 0 <= l => l * len)
  }

  lemma AtsApart(len: nat, lanes: nat, size: nat)
    requires lanes * len <= size
    ensures Apart(Ats(len, lanes), len / 16, size)
  {
    forall l, m | 0 <= l < m < lanes
      ensures Ats(len, lanes)[l] + 16 * (len / 16) <= Ats(len, lanes)[m]
    {
      StreamsApart(len, l, m);
    }
    forall l | 0 <= l < lanes
      ensures Ats(len, lanes)[l] + 16 * (len / 16) <= size
    {
      StreamsApart(len, l, lanes);
    }
  }

  method WriteAt(dst: array<Byte>, at: nat, b: Block)
    requires at + 16 <= dst.Length
    modifies dst
    ensures dst[..] == Write(old(dst[..]), at, b)
  {
    for i := 0 to 16
      invariant forall j :: 0 <= j < dst.Length ==> dst[j] == if at <= j < at + i then b[j - at] else old(dst[j])
    {
      dst[at + i] := b[i];
    }
  }

  // ---------- the two engines ----------

  datatype Engine = Bitsliced(terms: seq<seq<nat>>) | EightLanes(boxes: Boxes)

  ghost predicate Ready(S: Sbox, engine: Engine, lanes: nat, rk: seq<Word>) {
    match engine
    case Bitsliced(terms) => AreSboxTerms(S, terms)
    case EightLanes(boxes) => AreBoxes(S, boxes) && lanes == 8 && |rk| == 32
  }

  method EncryptBatch(S: Sbox, engine: Engine, batch: seq<Block>, rk: seq<Word>) returns (output: seq<Block>)
    requires Ready(S, engine, |batch|, rk)
    ensures |output| == |batch|
    ensures forall l :: 0 <= l < |batch| ==> output[l] == Encrypt(RoundT(S), rk)(batch[l])
  {
    match engine
    case Bitsliced(terms) =>
      output := EncryptBitsliced(S, terms, batch, rk);
    case EightLanes(boxes) =>
      output := SimdDo(S, boxes, batch, rk, 0);
  }

  // The gather loop: one input block of every stream, XORed with the stream's running IV.
  method Gather(plain: array<Byte>, offsets: seq<nat>, ivs: seq<Block>) returns (batch: seq<Block>)
    requires |ivs| == |offsets| && forall l :: 0 <= l < |offsets| ==> offsets[l] + 16 <= plain.Length
    ensures |batch| == |offsets|
    ensures forall l :: 0 <= l < |offsets| ==> batch[l] == XorBlock(StreamBlock(plain[..], offsets[l], 0), ivs[l])
  {
    batch := [];
    for lane := 0 to |offsets|
      invariant |batch| == lane
      invariant forall l :: 0 <= l < lane ==> batch[l] == XorBlock(StreamBlock(plain[..], offsets[l], 0), ivs[l])
    {
      var b: Block := plain[offsets[lane]..offsets[lane] + 16];
      assert b == StreamBlock(plain[..], offsets[lane], 0);
      batch := batch + [seq(16, j requires 0 <= j < 16 => XorBits(b[j], ivs[lane][j]))];
      assert batch[lane] == XorBlock(b, ivs[lane]);
    }
  }

  // The number of blocks written of each stream while the scatter loop is at `lane`.
  ghost predicate AtLane(cnt: seq<nat>, lanes: nat, lane: nat, blk: nat) {
    |cnt| == lanes && forall l :: 0 <= l < lanes ==> cnt[l] == if l < lane then blk + 1 else blk
  }

  method ScatterOne(plain: array<Byte>, cipher: array<Byte>, at: nat, b: Block, ghost want: seq<seq<Block>>,
                    ghost plain0: seq<Byte>, ghost cipher0: seq<Byte>, ghost ats: seq<nat>, ghost n: nat,
                    ghost cnt: seq<nat>, ghost l: nat)
    requires Lockstep(want, plain0, cipher0, ats, n, cnt, plain[..], cipher[..])
    requires l < |ats| && cnt[l] < n && |want[l]| == n && b == want[l][cnt[l]] && at == ats[l] + 16 * cnt[l]
    modifies cipher
    ensures Lockstep(want, plain0, cipher0, ats, n, cnt[l := cnt[l] + 1], plain[..], cipher[..])
  {
    ghost var p, c := plain[..], cipher[..];
    WriteAt(cipher, at, b);
    assert plain[..] == p || (p == c && plain[..] == Write(c, at, b));
    LockstepWrite(want, plain0, cipher0, ats, n, cnt, p, c, plain[..], l, b);
  }

  // The scatter loop: the batch goes to the streams, each at its block `blk`.
  method Scatter(plain: array<Byte>, cipher: array<Byte>, offsets: seq<nat>, batch: seq<Block>,
                 ghost want: seq<seq<Block>>, ghost plain0: seq<Byte>, ghost cipher0: seq<Byte>, ghost ats: seq<nat>,
                 ghost n: nat, ghost blk: nat)
    requires |batch| == |offsets| == |ats| && blk < n
    requires Lockstep(want, plain0, cipher0, ats, n, Level(|ats|, blk), plain[..], cipher[..])
    requires forall l :: 0 <= l < |ats| ==>
               |want[l]| == n && offsets[l] == ats[l] + 16 * blk && batch[l] == want[l][blk]
    modifies cipher
    ensures Lockstep(want, plain0, cipher0, ats, n, Level(|ats|, blk + 1), plain[..], cipher[..])
  {
    ghost var cnt := Level(|ats|, blk);
    for lane := 0 to |offsets|
      invariant AtLane(cnt, |ats|, lane, blk)
      invariant Lockstep(want, plain0, cipher0, ats, n, cnt, plain[..], cipher[..])
    {
      ScatterOne(plain, cipher, offsets[lane], batch[lane], want, plain0, cipher0, ats, n, cnt, lane);
      cnt := cnt[lane := cnt[lane] + 1];
    }
    assert cnt == Level(|ats|, blk + 1);
  }

  // The running IV and the position of every stream before its block `blk`.
  ghost predicate InStep(want: seq<seq<Block>>, base: Block, ats: seq<nat>, n: nat, blk: nat, offsets: seq<nat>,
                         ivs: seq<Block>)
  {
    && |ivs| == |offsets| == |ats| == |want| && blk <= n
    && (forall l :: 0 <= l < |ats| ==> offsets[l] == ats[l] + 16 * blk)
    && (forall l :: 0 <= l < |ats| ==> |want[l]| == n && ivs[l] == LastBlock(want[l][..blk], LaneIv(base, l)))
  }

  // One turn of the block loop.
  method LockstepTurn(S: Sbox, engine: Engine, plain: array<Byte>, cipher: array<Byte>, rk: seq<Word>,
                      offsets: seq<nat>, ivs: seq<Block>, ghost base: Block, ghost want: seq<seq<Block>>,
                      ghost plain0: seq<Byte>, ghost cipher0: seq<Byte>, ghost ats: seq<nat>, ghost n: nat,
                      ghost blk: nat)
    returns (batch: seq<Block>, next: seq<nat>)
    requires Ready(S, engine, |ats|, rk) && blk < n
    requires Lockstep(want, plain0, cipher0, ats, n, Level(|ats|, blk), plain[..], cipher[..])
    requires IsWanted(Encrypt(RoundT(S), rk), base, plain0, ats, n, want)
    requires InStep(want, base, ats, n, blk, offsets, ivs)
    modifies cipher
    ensures Lockstep(want, plain0, cipher0, ats, n, Level(|ats|, blk + 1), plain[..], cipher[..])
    ensures InStep(want, base, ats, n, blk + 1, next, batch)
  {
    var batchIn := Gather(plain, offsets, ivs);
    batch := EncryptBatch(S, engine, batchIn, rk);
    forall l | 0 <= l < |ats|
      ensures batch[l] == want[l][blk] == LastBlock(want[l][..blk + 1], LaneIv(base, l))
    {
      assert StreamBlock(plain[..], offsets[l], 0) == StreamBlock(plain[..], ats[l], blk)
             == StreamBlock(plain0, ats[l], blk);
      NextWanted(Encrypt(RoundT(S), rk), LaneIv(base, l), Stream(plain0, ats[l], n), blk);
    }
    Scatter(plain, cipher, offsets, batch, want, plain0, cipher0, ats, n, blk);
    next := seq(|offsets|, l requires 0 <= l < |offsets| => offsets[l] + 16);
  }

  // `bitslice_multibuffer_cbc_encrypt`, for any number of lanes, and `simd_cbc_encrypt_multibuffer`,
  // for 8; for any length of the streams.
  // Plaintext and ciphertext may be the same buffer.
  method MultibufferCbcEncrypt(S: Sbox, engine: Engine, plain: array<Byte>, cipher: array<Byte>, len: nat, lanes: nat,
                               rk: seq<Word>, base: Block)
    requires Ready(S, engine, lanes, rk) && lanes * len <= plain.Length && lanes * len <= cipher.Length
    modifies cipher
    ensures Apart(Ats(len, lanes), len / 16, plain.Length) && Apart(Ats(len, lanes), len / 16, cipher.Length)
    ensures forall l :: 0 <= l < lanes ==> IsLaneIv(base, l, LaneIv(base, l))
    ensures forall l :: 0 <= l < lanes ==>
              Stream(cipher[..], Ats(len, lanes)[l], len / 16)
              == CbcEncrypt(Encrypt(RoundT(S), rk), LaneIv(base, l),
                            old(Stream(plain[..], Ats(len, lanes)[l], len / 16)))
    ensures forall p :: 0 <= p < cipher.Length && !InStream(Ats(len, lanes), len / 16, p) ==>
              cipher[p] == old(cipher[p])
  {
    AtsApart(len, lanes, plain.Length);
    AtsApart(len, lanes, cipher.Length);
    forall l | 0 <= l < lanes
      ensures IsLaneIv(base, l, LaneIv(base, l))
    {
      LaneIvIs(base, l);
    }
    var offsets: seq<nat> := seq(lanes, l requires 0 <= l => l * len);
    EncryptStreams(S, engine, plain, cipher, offsets, len / 16, rk, base);
  }

  method EncryptStreams(S: Sbox, engine: Engine, plain: array<Byte>, cipher: array<Byte>, ats: seq<nat>, n: nat,
                        rk: seq<Word>, base: Block)
    requires Ready(S, engine, |ats|, rk) && Apart(ats, n, plain.Length) && Apart(ats, n, cipher.Length)
    modifies cipher
    ensures forall l :: 0 <= l < |ats| ==>
              Stream(cipher[..], ats[l], n)
              == CbcEncrypt(Encrypt(RoundT(S), rk), LaneIv(base, l), old(Stream(plain[..], ats[l], n)))
    ensures forall p :: 0 <= p < cipher.Length && !InStream(ats, n, p) ==> cipher[p] == old(cipher[p])
  {
    ghost var plain0, cipher0 := plain[..], cipher[..];
    ghost var want := seq(|ats|, l requires 0 <= l < |ats| =>
      CbcEncrypt(Encrypt(RoundT(S), rk), LaneIv(base, l), Stream(plain0, ats[l], n)));
    assert IsWanted(Encrypt(RoundT(S), rk), base, plain0, ats, n, want);
    LockstepStart(want, ats, n, plain0, cipher0);
    EncryptBlocksInLockstep(S, engine, plain, cipher, ats, n, rk, base, want);
    forall l | 0 <= l < |ats|
      ensures Stream(cipher[..], ats[l], n) == want[l]
    {
      LockstepEnd(want, plain0, cipher0, ats, n, plain[..], cipher[..], l);
    }
  }

  method EncryptBlocksInLockstep(S: Sbox, engine: Engine, plain: array<Byte>, cipher: array<Byte>, ats: seq<nat>,
                                 n: nat, rk: seq<Word>, base: Block, ghost want: seq<seq<Block>>)
    requires Ready(S, engine, |ats|, rk) && Apart(ats, n, plain.Length)
    requires IsWanted(Encrypt(RoundT(S), rk), base, plain[..], ats, n, want)
    requires Lockstep(want, plain[..], cipher[..], ats, n, Level(|ats|, 0), plain[..], cipher[..])
    modifies cipher
    ensures Lockstep(want, old(plain[..]), old(cipher[..]), ats, n, Level(|ats|, n), plain[..], cipher[..])
  {
    ghost var plain0, cipher0 := plain[..], cipher[..];
    var ivs: seq<Block> := seq(|ats|, l requires 0 <= l => LaneIv(base, l));
    var offsets := ats;
    for blk := 0 to n
      invariant InStep(want, base, ats, n, blk, offsets, ivs)
      invariant Lockstep(want, plain0, cipher0, ats, n, Level(|ats|, blk), plain[..], cipher[..])
    {
      ivs, offsets := LockstepTurn(S, engine, plain, cipher, rk, offsets, ivs,
                                   base, want, plain0, cipher0, ats, n, blk);
    }
  }
}
