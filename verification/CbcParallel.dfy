// The threaded CBC decryption of Experiment3/report/code/sm4_cbc_decrypt_parallel.c: the
// workers run under every interleaving of their steps.
module CbcParallel {
  import opened Words
  import opened Sm4Cipher
  import opened Cbc
  import opened CbcSplit
  import opened Scheduling

  // A worker at block `b`: at pc 0 it has yet to decrypt the block into its local buffer; at
  // pc j + 1 it has yet to write byte j of the plaintext.
  datatype Worker = Worker(end: nat, b: nat, pc: nat, local: Block)

  // The plaintext byte this worker writes next.
  function Position(w: Worker): nat {
    16 * w.b + if w.pc == 0 then 0 else w.pc - 1
  }

  // Byte j of block b of the plaintext.
  function PlainByte(D: Cipher, c: seq<Block>, iv: Block, b: nat, j: nat): Byte
    requires b < |c| && j < 16
  {
    XorBits(D(c[b])[j], Before(c, iv, b)[j])
  }

  ghost predicate WorkerOk(D: Cipher, c: seq<Block>, start: nat, end: nat, w: Worker) {
    && w.end == end && start <= w.b <= end <= |c|
    && (w.b == end ==> w.pc == 0)
    && w.pc <= 16
    && (w.pc > 0 ==> w.local == D(c[w.b]))
  }

  // The threads between two steps: each range is written up to the position of its worker, and
  // the bytes after the last block are untouched.
  ghost predicate Progress(D: Cipher, c: seq<Block>, iv: Block, starts: seq<nat>, ws: seq<Worker>,
                           before: seq<Byte>, plain: seq<Byte>)
  {
    && |starts| == |ws| + 1 && IsSplit(starts, |c|, |ws|) && 16 * |c| <= |before| == |plain|
    && (forall i :: 0 <= i < |ws| ==> WorkerOk(D, c, starts[i], starts[i + 1], ws[i]))
    && (forall i :: 0 <= i < |ws| ==> WrittenTo(D, c, iv, plain, starts[i], Position(ws[i])))
    && (forall p :: 16 * |c| <= p < |plain| ==> plain[p] == before[p])
  }

  ghost predicate WrittenTo(D: Cipher, c: seq<Block>, iv: Block, plain: seq<Byte>, start: nat, position: nat)
    requires 16 * |c| <= |plain|
  {
    forall b: nat, j: nat :: start <= b < |c| && j < 16 && 16 * b + j < position ==>
      BlockAt(plain, b)[j] == PlainByte(D, c, iv, b, j)
  }

  function Advance(w: Worker): Worker {
    if w.pc == 16 then w.(b := w.b + 1, pc := 0) else w.(pc := w.pc + 1)
  }

  // A write at block b, byte j, inside one range, leaves every other range as it was.
  lemma WriteElsewhere(D: Cipher, c: seq<Block>, iv: Block, plain: seq<Byte>, start: nat, position: nat,
                       b: nat, j: nat, x: Byte)
    requires 16 * |c| <= |plain| && b < |c| && j < 16
    requires WrittenTo(D, c, iv, plain, start, position)
    requires 16 * b + j >= position || b < start
    ensures WrittenTo(D, c, iv, plain[16 * b + j := x], start, position)
  {
    forall b': nat, j': nat | start <= b' < |c| && j' < 16 && 16 * b' + j' < position
      ensures BlockAt(plain[16 * b + j := x], b')[j'] == PlainByte(D, c, iv, b', j')
    {
      assert BlockAt(plain, b')[j'] == PlainByte(D, c, iv, b', j');
    }
  }

  lemma WriteHere(D: Cipher, c: seq<Block>, iv: Block, plain: seq<Byte>, start: nat, b: nat, j: nat)
    requires 16 * |c| <= |plain| && b < |c| && j < 16
    requires WrittenTo(D, c, iv, plain, start, 16 * b + j)
    ensures WrittenTo(D, c, iv, plain[16 * b + j := PlainByte(D, c, iv, b, j)], start, 16 * b + j + 1)
  {
    var plain' := plain[16 * b + j := PlainByte(D, c, iv, b, j)];
    forall b': nat, j': nat | start <= b' < |c| && j' < 16 && 16 * b' + j' < 16 * b + j + 1
      ensures BlockAt(plain', b')[j'] == PlainByte(D, c, iv, b', j')
    {
      if 16 * b' + j' < 16 * b + j {
        assert BlockAt(plain, b')[j'] == PlainByte(D, c, iv, b', j');
      } else {
        assert b' == b && j' == j;
      }
    }
  }

  lemma RangesApart(starts: seq<nat>, n: nat, i: nat, k: nat)
    requires |starts| == n + 1 && i < n && k < n && i != k
    requires forall i, j :: 0 <= i <= j <= n ==> starts[i] <= starts[j]
    ensures starts[k + 1] <= starts[i] || starts[i + 1] <= starts[k]
  {
  }

  // What the write of worker i does to worker k.
  lemma WriteKeepsWorker(D: Cipher, c: seq<Block>, iv: Block, starts: seq<nat>, ws: seq<Worker>, plain: seq<Byte>,
                         i: nat, k: nat)
    requires IsSplit(starts, |c|, |ws|) && 16 * |c| <= |plain| && i < |ws| && k < |ws|
    requires ws[i].b < ws[i].end && ws[i].pc > 0
    requires WorkerOk(D, c, starts[i], starts[i + 1], ws[i]) && WorkerOk(D, c, starts[k], starts[k + 1], ws[k])
    requires WrittenTo(D, c, iv, plain, starts[k], Position(ws[k]))
    ensures var w := ws[i]; var j := w.pc - 1; var w' := if k == i then Advance(w) else ws[k];
            && WorkerOk(D, c, starts[k], starts[k + 1], w')
            && WrittenTo(D, c, iv, plain[16 * w.b + j := PlainByte(D, c, iv, w.b, j)], starts[k], Position(w'))
  {
    var w, j := ws[i], ws[i].pc - 1;
    if k == i {
      WriteHere(D, c, iv, plain, starts[i], w.b, j);
    } else {
      RangesApart(starts, |ws|, i, k);
      WriteElsewhere(D, c, iv, plain, starts[k], Position(ws[k]), w.b, j, PlainByte(D, c, iv, w.b, j));
    }
  }

  // The write of one worker keeps the progress of all.
  lemma WriteKeepsProgress(D: Cipher, c: seq<Block>, iv: Block, starts: seq<nat>, ws: seq<Worker>,
                           before: seq<Byte>, plain: seq<Byte>, i: nat)
    requires Progress(D, c, iv, starts, ws, before, plain)
    requires i < |ws| && ws[i].b < ws[i].end && ws[i].pc > 0
    requires WorkerOk(D, c, starts[i], starts[i + 1], ws[i])
    ensures var w := ws[i]; var j := w.pc - 1;
            && Progress(D, c, iv, starts, ws[i := Advance(w)], before,
                        plain[16 * w.b + j := XorBits(w.local[j], Before(c, iv, w.b)[j])])
  {
    var w := ws[i];
    var j := w.pc - 1;
    var x := PlainByte(D, c, iv, w.b, j);
    var plain', ws' := plain[16 * w.b + j := x], ws[i := Advance(w)];
    forall k: nat | k < |ws|
      ensures WrittenTo(D, c, iv, plain', starts[k], Position(ws'[k]))
      ensures WorkerOk(D, c, starts[k], starts[k + 1], ws'[k])
    {
      assert WorkerOk(D, c, starts[k], starts[k + 1], ws[k]);
      WriteKeepsWorker(D, c, iv, starts, ws, plain, i, k);
    }
  }

  lemma DecryptKeepsProgress(D: Cipher, c: seq<Block>, iv: Block, starts: seq<nat>, ws: seq<Worker>,
                             before: seq<Byte>, plain: seq<Byte>, i: nat)
    requires Progress(D, c, iv, starts, ws, before, plain)
    requires i < |ws| && ws[i].b < ws[i].end && ws[i].pc == 0
    requires WorkerOk(D, c, starts[i], starts[i + 1], ws[i])
    ensures Progress(D, c, iv, starts, ws[i := ws[i].(local := D(c[ws[i].b]), pc := 1)], before, plain)
  {
    var ws' := ws[i := ws[i].(local := D(c[ws[i].b]), pc := 1)];
    forall k | 0 <= k < |ws|
      ensures WrittenTo(D, c, iv, plain, starts[k], Position(ws'[k]))
      ensures WorkerOk(D, c, starts[k], starts[k + 1], ws'[k])
    {
      assert Position(ws'[k]) == Position(ws[k]);
      assert WorkerOk(D, c, starts[k], starts[k + 1], ws[k]);
    }
  }

  // When every worker is at its end the plaintext is complete.
  lemma AllDone(D: Cipher, c: seq<Block>, iv: Block, starts: seq<nat>, ws: seq<Worker>, before: seq<Byte>,
                plain: seq<Byte>)
    requires Progress(D, c, iv, starts, ws, before, plain)
    requires forall i :: 0 <= i < |ws| ==> ws[i].b >= ws[i].end
    ensures Blocks(plain, |c|) == CbcDecrypt(D, iv, c)
  {
    forall b | 0 <= b < |c|
      ensures BlockAt(plain, b) == CbcDecrypt(D, iv, c)[b]
    {
      DecryptedBlock(D, iv, c, b);
      var i := OwnerOf(starts, |ws|, b);
      assert WorkerOk(D, c, starts[i], starts[i + 1], ws[i]);
      assert WrittenTo(D, c, iv, plain, starts[i], Position(ws[i]));
      forall j: nat | j < 16
        ensures BlockAt(plain, b)[j] == XorBlock(D(c[b]), Before(c, iv, b))[j]
      {
        assert BlockAt(plain, b)[j] == PlainByte(D, c, iv, b, j);
      }
    }
  }

  // Steps a worker has left.
  function StepsLeft(w: Worker): nat {
    if w.b >= w.end || w.pc > 16 then 0 else 17 * (w.end - w.b) - w.pc
  }

  // Each byte of the plaintext is still what it was, or right.
  ghost predicate Partial(D: Cipher, c: seq<Block>, iv: Block, before: seq<Byte>, plain: seq<Byte>)
    requires 16 * |c| <= |before| == |plain|
  {
    forall b: nat, j: nat :: b < |c| && j < 16 ==>
      BlockAt(plain, b)[j] == BlockAt(before, b)[j] || BlockAt(plain, b)[j] == PlainByte(D, c, iv, b, j)
  }

  lemma WriteKeepsPartial(D: Cipher, c: seq<Block>, iv: Block, before: seq<Byte>, plain: seq<Byte>, b: nat, j: nat)
    requires 16 * |c| <= |before| == |plain| && Partial(D, c, iv, before, plain) && b < |c| && j < 16
    ensures Partial(D, c, iv, before, plain[16 * b + j := PlainByte(D, c, iv, b, j)])
  {
    var plain' := plain[16 * b + j := PlainByte(D, c, iv, b, j)];
    forall b': nat, j': nat | b' < |c| && j' < 16
      ensures BlockAt(plain', b')[j'] == BlockAt(before, b')[j']
              || BlockAt(plain', b')[j'] == PlainByte(D, c, iv, b', j')
    {
      assert BlockAt(plain, b')[j'] == BlockAt(before, b')[j'] || BlockAt(plain, b')[j'] == PlainByte(D, c, iv, b', j');
      if b' == b && j' == j {
        assert BlockAt(plain', b')[j'] == plain'[16 * b + j];
      } else {
        assert BlockAt(plain', b')[j'] == BlockAt(plain, b')[j'];
      }
    }
  }

  // `cbc_decrypt_parallel`. The scheduler may let any unfinished worker take the next step, so
  // the contract holds for every interleaving; it is the contract of the sequential decryption.
  // `started` threads are created before `pthread_create` fails; the early return then leaves
  // them running, and the plaintext as it is at that moment.
  method CbcDecryptParallel(T: Word -> Word, cipher: array<Byte>, plain: array<Byte>, len: nat, rk: seq<Word>,
                            iv: Block, threads: nat, started: nat)
    returns (ok: bool)
    requires len <= cipher.Length && len <= plain.Length && cipher != plain && |rk| == 32 && threads > 0
    modifies plain
    ensures ok <==> len % 16 == 0 && started >= threads
    ensures len % 16 != 0 ==> plain[..] == old(plain[..])
    ensures ok ==> Blocks(plain[..], len / 16) == CbcDecrypt(Decrypt(T, rk), iv, Blocks(cipher[..], len / 16))
    ensures len % 16 == 0 ==> Partial(Decrypt(T, rk), Blocks(cipher[..], len / 16), iv, old(plain[..]), plain[..])
    ensures plain[len..] == old(plain[len..])
  {
    if len % 16 != 0 {
      return false;
    }
    ok := CreateThreads(Decrypt(T, rk), cipher, plain, len / 16, iv, threads, started);
  }

  // What follows the test of the length.
  method CreateThreads(D: Cipher, cipher: array<Byte>, plain: array<Byte>, blocks: nat, iv: Block, threads: nat,
                       started: nat)
    returns (ok: bool)
    requires 16 * blocks <= cipher.Length && 16 * blocks <= plain.Length && cipher != plain && threads > 0
    modifies plain
    ensures ok <==> started >= threads
    ensures ok ==> Blocks(plain[..], blocks) == CbcDecrypt(D, iv, Blocks(cipher[..], blocks))
    ensures Partial(D, Blocks(cipher[..], blocks), iv, old(plain[..]), plain[..])
    ensures plain[16 * blocks..] == old(plain[16 * blocks..])
  {
    var ws := SplitBlocks(blocks, threads);
    ghost var c, starts := Blocks(cipher[..], blocks), Starts(blocks, threads);
    FreshProgress(D, c, iv, starts, ws, plain[..]);
    if started < threads {
      RunSomeWorkers(D, cipher, plain, iv, ws, started, c, starts);
      return false;
    }
    RunWorkers(D, cipher, plain, iv, ws, c, starts);
    return true;
  }

  lemma StartNext(blocks: nat, threads: nat, i: nat)
    requires i < threads
    ensures Start(blocks, threads, i + 1)
            == Start(blocks, threads, i) + Share(blocks - Start(blocks, threads, i), threads - i)
  {
  }

  // The loop that fills `args`.
  method SplitBlocks(blocks: nat, threads: nat) returns (ws: seq<Worker>)
    requires threads > 0
    ensures Fresh(ws, Starts(blocks, threads)) && IsSplit(Starts(blocks, threads), blocks, threads)
  {
    ghost var starts := Starts(blocks, threads);
    ws := [];
    var next := 0;
    for i := 0 to threads
      invariant |ws| == i && next == starts[i]
      invariant Fresh(ws, starts[..i + 1])
    {
      StartNext(blocks, threads, i);
      var take := Share(blocks - next, threads - i);
      ws := ws + [Worker(next + take, next, 0, seq(16, _ => Zeros(8)))];
      next := next + take;
    }
    assert starts[..threads + 1] == starts;
    FairSplit(blocks, threads);
  }

  ghost predicate Fresh(ws: seq<Worker>, starts: seq<nat>) {
    |starts| == |ws| + 1
    && forall i :: 0 <= i < |ws| ==> ws[i].b == starts[i] && ws[i].end == starts[i + 1] && ws[i].pc == 0
  }

  lemma FreshProgress(D: Cipher, c: seq<Block>, iv: Block, starts: seq<nat>, ws: seq<Worker>, plain: seq<Byte>)
    requires Fresh(ws, starts) && IsSplit(starts, |c|, |ws|) && 16 * |c| <= |plain|
    ensures Progress(D, c, iv, starts, ws, plain, plain)
  {
  }

  // Both, for the byte that worker i writes.
  lemma WriteIsSafe(D: Cipher, c: seq<Block>, iv: Block, starts: seq<nat>, ws: seq<Worker>, before: seq<Byte>,
                    plain: seq<Byte>, i: nat)
    requires Progress(D, c, iv, starts, ws, before, plain) && Partial(D, c, iv, before, plain)
    requires i < |ws| && ws[i].b < ws[i].end && ws[i].pc > 0
    ensures WorkerOk(D, c, starts[i], starts[i + 1], ws[i])
    ensures var w := ws[i]; var j := w.pc - 1; var p := 16 * w.b + j; var x := PlainByte(D, c, iv, w.b, j);
            && p < |plain| && x == XorBits(w.local[j], Before(c, iv, w.b)[j])
            && Progress(D, c, iv, starts, ws[i := Advance(w)], before, plain[p := x])
            && Partial(D, c, iv, before, plain[p := x])
  {
    assert WorkerOk(D, c, starts[i], starts[i + 1], ws[i]);
    WriteKeepsProgress(D, c, iv, starts, ws, before, plain, i);
    WriteKeepsPartial(D, c, iv, before, plain, ws[i].b, ws[i].pc - 1);
  }

  // (b == 0) ? iv : cur - 16
  method ReadPrevious(cipher: array<Byte>, iv: Block, b: nat, ghost c: seq<Block>) returns (prev: Block)
    requires 16 * |c| <= cipher.Length && c == Blocks(cipher[..], |c|) && b < |c|
    ensures prev == Before(c, iv, b)
  {
    prev := if b == 0 then iv else BlockAt(cipher[..], b - 1);
  }

  method StoreByte(plain: array<Byte>, p: nat, x: Byte)
    requires p < plain.Length
    modifies plain
    ensures plain[..] == old(plain[..])[p := x]
  {
    plain[p] := x;
  }

  // The second half of `decrypt_worker`'s loop body: one byte of the plaintext.
  method WriteByte(D: Cipher, cipher: array<Byte>, plain: array<Byte>, iv: Block, w: Worker, ghost c: seq<Block>,
                   ghost starts: seq<nat>, ghost ws: seq<Worker>, ghost before: seq<Byte>, ghost i: nat)
    requires 16 * |c| <= cipher.Length && c == Blocks(cipher[..], |c|) && cipher != plain
    requires Progress(D, c, iv, starts, ws, before, plain[..]) && Partial(D, c, iv, before, plain[..])
    requires i < |ws| && w == ws[i] && w.b < w.end && w.pc > 0
    modifies plain
    ensures Progress(D, c, iv, starts, ws[i := Advance(w)], before, plain[..]) && Partial(D, c, iv, before, plain[..])
  {
    WriteIsSafe(D, c, iv, starts, ws, before, plain[..], i);
    var j := w.pc - 1;
    var prev := ReadPrevious(cipher, iv, w.b, c);
    StoreByte(plain, 16 * w.b + j, XorBits(w.local[j], prev[j]));
  }

  // One step of worker i, as `decrypt_worker` takes it.
  method WorkerStep(D: Cipher, cipher: array<Byte>, plain: array<Byte>, iv: Block, w: Worker, ghost c: seq<Block>,
                    ghost starts: seq<nat>, ghost ws: seq<Worker>, ghost before: seq<Byte>, ghost i: nat)
    returns (w': Worker)
    requires 16 * |c| <= cipher.Length && c == Blocks(cipher[..], |c|) && cipher != plain
    requires Progress(D, c, iv, starts, ws, before, plain[..]) && Partial(D, c, iv, before, plain[..])
    requires i < |ws| && w == ws[i] && w.b < w.end
    modifies plain
    ensures Progress(D, c, iv, starts, ws[i := w'], before, plain[..]) && Partial(D, c, iv, before, plain[..])
    ensures StepsLeft(w') < StepsLeft(w)
  {
    assert WorkerOk(D, c, starts[i], starts[i + 1], w);
    if w.pc == 0 {
      DecryptKeepsProgress(D, c, iv, starts, ws, before, plain[..], i);
      w' := w.(local := D(BlockAt(cipher[..], w.b)), pc := 1);
    } else {
      WriteByte(D, cipher, plain, iv, w, c, starts, ws, before, i);
      w' := Advance(w);
    }
  }

  // `decrypt_worker`, all of them, in any order of steps, until all are at their ends.
  method RunToEnd(D: Cipher, cipher: array<Byte>, plain: array<Byte>, iv: Block, ws0: seq<Worker>,
                  ghost c: seq<Block>, ghost starts: seq<nat>, ghost before: seq<Byte>)
    returns (ws: seq<Worker>)
    requires 16 * |c| <= cipher.Length && c == Blocks(cipher[..], |c|) && cipher != plain
    requires Progress(D, c, iv, starts, ws0, before, plain[..]) && Partial(D, c, iv, before, plain[..])
    modifies plain
    ensures Progress(D, c, iv, starts, ws, before, plain[..]) && Partial(D, c, iv, before, plain[..])
    ensures forall i :: 0 <= i < |ws| ==> ws[i].b >= ws[i].end
  {
    ws := ws0;
    while exists i :: 0 <= i < |ws| && ws[i].b < ws[i].end
      invariant Progress(D, c, iv, starts, ws, before, plain[..]) && Partial(D, c, iv, before, plain[..])
      decreases Work(StepsLeft, ws)
    {
      var i :| 0 <= i < |ws| && ws[i].b < ws[i].end;
      var w := WorkerStep(D, cipher, plain, iv, ws[i], c, starts, ws, before, i);
      WorkDecreases(StepsLeft, ws, i, w);
      ws := ws[i := w];
    }
  }

  method RunWorkers(D: Cipher, cipher: array<Byte>, plain: array<Byte>, iv: Block, ws0: seq<Worker>,
                    ghost c: seq<Block>, ghost starts: seq<nat>)
    requires 16 * |c| <= cipher.Length && 16 * |c| <= plain.Length && c == Blocks(cipher[..], |c|) && cipher != plain
    requires Progress(D, c, iv, starts, ws0, plain[..], plain[..])
    modifies plain
    ensures Blocks(plain[..], |c|) == CbcDecrypt(D, iv, c) && Partial(D, c, iv, old(plain[..]), plain[..])
    ensures plain[16 * |c|..] == old(plain[16 * |c|..])
  {
    ghost var before := plain[..];
    var ws := RunToEnd(D, cipher, plain, iv, ws0, c, starts, before);
    AllDone(D, c, iv, starts, ws, before, plain[..]);
    assert plain[16 * |c|..] == before[16 * |c|..];
  }

  // The first `started` workers, in any order, for any number of steps.
  method RunSomeWorkers(D: Cipher, cipher: array<Byte>, plain: array<Byte>, iv: Block, ws0: seq<Worker>, started: nat,
                        ghost c: seq<Block>, ghost starts: seq<nat>)
    requires 16 * |c| <= cipher.Length && 16 * |c| <= plain.Length && c == Blocks(cipher[..], |c|) && cipher != plain
    requires Progress(D, c, iv, starts, ws0, plain[..], plain[..])
    modifies plain
    ensures Partial(D, c, iv, old(plain[..]), plain[..])
    ensures plain[16 * |c|..] == old(plain[16 * |c|..])
  {
    var ws := ws0;
    ghost var before := plain[..];
    while *
      invariant Progress(D, c, iv, starts, ws, before, plain[..]) && Partial(D, c, iv, before, plain[..])
      decreases Work(StepsLeft, ws)
    {
      if !exists i :: 0 <= i < |ws| && i < started && ws[i].b < ws[i].end {
        break;
      }
      var i :| 0 <= i < |ws| && i < started && ws[i].b < ws[i].end;
      var w := WorkerStep(D, cipher, plain, iv, ws[i], c, starts, ws, before, i);
      WorkDecreases(StepsLeft, ws, i, w);
      ws := ws[i := w];
    }
    assert plain[16 * |c|..] == before[16 * |c|..];
  }
}
