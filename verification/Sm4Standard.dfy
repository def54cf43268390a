// The model of the cipher against the equations of GB/T 32907-2016, written out on bits: the round
// functions T and T', the recurrence of the words (sections 6 and 7), and the key schedule.
module Sm4Standard {
  import opened Words
  import opened Sm4Cipher

  // Bit i of the S-box applied to each byte of the word.
  function Substituted(S: Sbox, x: Word, i: nat): bool
    requires i < 32
  {
    S(x[i / 8 * 8..i / 8 * 8 + 8])[i % 8]
  }

  lemma SubstitutedBit(S: Sbox, x: Word, i: nat)
    requires i < 32
    ensures SboxWord(S, x)[i] == Substituted(S, x, i)
  {
    SboxWordBit(S, x, i);
    assert ByteOf(x, i / 8) == x[i / 8 * 8..i / 8 * 8 + 8];
  }

  // T(x) = L(tau(x))
  lemma RoundBit(S: Sbox, x: Word, i: nat)
    requires i < 32
    ensures RoundT(S)(x)[i]
         == ((((Substituted(S, x, i) != Substituted(S, x, (i + 30) % 32)) != Substituted(S, x, (i + 22) % 32))
              != Substituted(S, x, (i + 14) % 32)) != Substituted(S, x, (i + 8) % 32))
  {
    LinearBit(SboxWord(S, x), i);
    SubstitutedBit(S, x, i);
    SubstitutedBit(S, x, (i + 30) % 32);
    SubstitutedBit(S, x, (i + 22) % 32);
    SubstitutedBit(S, x, (i + 14) % 32);
    SubstitutedBit(S, x, (i + 8) % 32);
  }

  // T'(x) = L'(tau(x))
  lemma KeyRoundBit(S: Sbox, x: Word, i: nat)
    requires i < 32
    ensures KeyT(S)(x)[i]
         == ((Substituted(S, x, i) != Substituted(S, x, (i + 19) % 32)) != Substituted(S, x, (i + 9) % 32))
  {
    KeyLinearBit(SboxWord(S, x), i);
    SubstitutedBit(S, x, i);
    SubstitutedBit(S, x, (i + 19) % 32);
    SubstitutedBit(S, x, (i + 9) % 32);
  }

  function Mixed(x1: Word, x2: Word, x3: Word, k: Word): (y: Word)
    ensures forall j {:trigger y[j]} :: 0 <= j < 32 ==> y[j] == (((x1[j] != x2[j]) != x3[j]) != k[j])
  {
    XorBits(XorBits(XorBits(x1, x2), x3), k)
  }

  function Next(T: Word -> Word, x0: Word, x1: Word, x2: Word, x3: Word, k: Word): (y: Word)
    ensures forall j {:trigger y[j]} :: 0 <= j < 32 ==> y[j] == (x0[j] != T(Mixed(x1, x2, x3, k))[j])
  {
    XorBits(x0, T(Mixed(x1, x2, x3, k)))
  }

  // X[0] .. X[3] are the words of the input, and
  // X[i+4] = X[i] xor T(X[i+1] xor X[i+2] xor X[i+3] xor ks[i]).
  function X(T: Word -> Word, q: Quad, ks: seq<Word>, n: nat): Word
    requires n < |ks| + 4
  {
    if n == 0 then q.x0 else if n == 1 then q.x1 else if n == 2 then q.x2 else if n == 3 then q.x3
    else Next(T, X(T, q, ks, n - 4), X(T, q, ks, n - 3), X(T, q, ks, n - 2), X(T, q, ks, n - 1), ks[n - 4])
  }

  lemma RoundIsNext(T: Word -> Word, q: Quad, k: Word)
    ensures ShiftRound(T, q, k) == Quad(q.x1, q.x2, q.x3, Next(T, q.x0, q.x1, q.x2, q.x3, k))
  {
  }

  // Words n .. n+3 of that sequence.
  function Window(T: Word -> Word, q: Quad, ks: seq<Word>, n: nat): Quad
    requires n <= |ks|
  {
    Quad(X(T, q, ks, n), X(T, q, ks, n + 1), X(T, q, ks, n + 2), X(T, q, ks, n + 3))
  }

  lemma WindowMoves(T: Word -> Word, q: Quad, ks: seq<Word>, n: nat)
    requires n < |ks|
    ensures Window(T, q, ks, n + 1) == ShiftRound(T, Window(T, q, ks, n), ks[n])
  {
    RoundIsNext(T, Window(T, q, ks, n), ks[n]);
  }

  // States that follow each other by one round are those of the shift register.
  lemma {:induction false} RoundsFollow(T: Word -> Word, ks: seq<Word>, ws: seq<Quad>, n: nat)
    requires n <= |ks| < |ws| && forall i: nat {:trigger ks[i]} :: i < |ks| ==> ws[i + 1] == ShiftRound(T, ws[i], ks[i])
    ensures Rounds(T, ws[0], ks[..n]) == ws[n]
  {
    if n > 0 {
      RoundsFollow(T, ks, ws, n - 1);
      RoundsSnoc(T, ws[0], ks, n - 1);
    }
  }

  // The shift register holds four words of the sequence in a row.
  lemma RoundsAreWords(T: Word -> Word, q: Quad, ks: seq<Word>, n: nat)
    requires n <= |ks|
    ensures Rounds(T, q, ks[..n]) == Window(T, q, ks, n)
  {
    var ws := seq(|ks| + 1, i requires 0 <= i <= |ks| => Window(T, q, ks, i));
    forall i: nat | i < |ks|
      ensures ws[i + 1] == ShiftRound(T, ws[i], ks[i])
    {
      WindowMoves(T, q, ks, i);
    }
    RoundsFollow(T, ks, ws, n);
  }

  // Word k of a block: its four bytes, most significant first.
  ghost predicate IsWordOf(b: Block, k: nat, x: Word)
    requires k < 4
  {
    forall i {:trigger x[i]} :: 0 <= i < 32 ==> x[i] == b[4 * k + 3 - i / 8][i % 8]
  }

  lemma LoadedIsWord(b: Block, k: nat)
    requires k < 4
    ensures IsWordOf(b, k, LoadBe(b[4 * k..4 * k + 4]))
  {
    forall i: nat | i < 32
      ensures LoadBe(b[4 * k..4 * k + 4])[i] == b[4 * k + 3 - i / 8][i % 8]
    {
      LoadBits(b[4 * k..4 * k + 4], i);
    }
  }

  ghost predicate AreWordsOf(b: Block, x0: Word, x1: Word, x2: Word, x3: Word) {
    IsWordOf(b, 0, x0) && IsWordOf(b, 1, x1) && IsWordOf(b, 2, x2) && IsWordOf(b, 3, x3)
  }

  lemma QuadWords(b: Block)
    ensures var q := LoadQuad(b); AreWordsOf(b, q.x0, q.x1, q.x2, q.x3)
  {
    LoadedIsWord(b, 0);
    LoadedIsWord(b, 1);
    LoadedIsWord(b, 2);
    LoadedIsWord(b, 3);
  }

  // The words of a block are determined by its bytes.
  lemma WordsDetermine(b: Block, q: Quad)
    requires AreWordsOf(b, q.x0, q.x1, q.x2, q.x3)
    ensures q == LoadQuad(b)
  {
    QuadWords(b);
    var r := LoadQuad(b);
    assert q.x0 == r.x0 && q.x1 == r.x1 && q.x2 == r.x2 && q.x3 == r.x3;
  }

  lemma StoredWords(r: Quad)
    ensures AreWordsOf(StoreQuad(Flip(r)), r.x3, r.x2, r.x1, r.x0)
  {
    LoadStoreQuad(Flip(r));
    QuadWords(StoreQuad(Flip(r)));
  }

  // The cipher with these keys in this order: the input's words start the sequence, and the last
  // four, in reverse order, are the words of the output.
  lemma CryptIsStandard(T: Word -> Word, ks: seq<Word>, b: Block, q: Quad)
    requires AreWordsOf(b, q.x0, q.x1, q.x2, q.x3)
    ensures var n := |ks|; var c := Crypt(T, ks, b);
            AreWordsOf(c, X(T, q, ks, n + 3), X(T, q, ks, n + 2), X(T, q, ks, n + 1), X(T, q, ks, n))
  {
    WordsDetermine(b, q);
    RoundsAreWords(T, q, ks, |ks|);
    assert ks[..|ks|] == ks;
    StoredWords(Window(T, q, ks, |ks|));
  }

  lemma EncryptIsStandard(S: Sbox, rk: seq<Word>, b: Block, q: Quad)
    requires AreWordsOf(b, q.x0, q.x1, q.x2, q.x3)
    ensures var n := |rk|; var T := RoundT(S);
            AreWordsOf(Encrypt(T, rk)(b), X(T, q, rk, n + 3), X(T, q, rk, n + 2), X(T, q, rk, n + 1), X(T, q, rk, n))
  {
    CryptIsStandard(RoundT(S), rk, b, q);
  }

  // Decryption is the same with the round keys in reverse order.
  lemma DecryptIsStandard(S: Sbox, rk: seq<Word>, ks: seq<Word>, b: Block, q: Quad)
    requires |ks| == |rk| && forall i :: 0 <= i < |rk| ==> ks[i] == rk[|rk| - 1 - i]
    requires AreWordsOf(b, q.x0, q.x1, q.x2, q.x3)
    ensures var n := |rk|; var T := RoundT(S);
            AreWordsOf(Decrypt(T, rk)(b), X(T, q, ks, n + 3), X(T, q, ks, n + 2), X(T, q, ks, n + 1), X(T, q, ks, n))
  {
    assert ks == Backwards(rk);
    CryptIsStandard(RoundT(S), ks, b, q);
  }

  ghost predicate IsXor(a: Word, b: Word, r: Word) {
    forall j {:trigger r[j]} :: 0 <= j < 32 ==> r[j] == (a[j] != b[j])
  }

  lemma XorIs(a: Word, b: Word, r: Word)
    requires IsXor(a, b, r)
    ensures r == Xor(a, b)
  {
    assert forall j :: 0 <= j < 32 ==> r[j] == Xor(a, b)[j];
  }

  // The key schedule starts with the key XORed with FK.
  lemma KeyStartIs(key: Block, fk: Quad, mk: Quad, k: Quad)
    requires AreWordsOf(key, mk.x0, mk.x1, mk.x2, mk.x3)
    requires IsXor(mk.x0, fk.x0, k.x0) && IsXor(mk.x1, fk.x1, k.x1)
    requires IsXor(mk.x2, fk.x2, k.x2) && IsXor(mk.x3, fk.x3, k.x3)
    ensures KeyStart(key, fk) == k
  {
    WordsDetermine(key, mk);
    XorIs(mk.x0, fk.x0, k.x0);
    XorIs(mk.x1, fk.x1, k.x1);
    XorIs(mk.x2, fk.x2, k.x2);
    XorIs(mk.x3, fk.x3, k.x3);
  }

  lemma TakenInIsWord(T: Word -> Word, k: Quad, ck: seq<Word>, i: nat)
    requires i < |ck|
    ensures TakenIn(T, k, ck)[i] == X(T, k, ck, i + 4)
  {
    RoundsAreWords(T, k, ck, i + 1);
  }

  // Round key i is word i + 4 of the sequence of T' and CK that starts with the key XORed with FK.
  lemma RoundKeyIsStandard(S: Sbox, key: Block, fk: Quad, ck: seq<Word>, mk: Quad, k: Quad, i: nat)
    requires i < |ck| && AreWordsOf(key, mk.x0, mk.x1, mk.x2, mk.x3)
    requires IsXor(mk.x0, fk.x0, k.x0) && IsXor(mk.x1, fk.x1, k.x1)
    requires IsXor(mk.x2, fk.x2, k.x2) && IsXor(mk.x3, fk.x3, k.x3)
    ensures |RoundKeys(S, key, fk, ck)| == |ck| && RoundKeys(S, key, fk, ck)[i] == X(KeyT(S), k, ck, i + 4)
  {
    KeyStartIs(key, fk, mk, k);
    TakenInIsWord(KeyT(S), k, ck, i);
  }
}
