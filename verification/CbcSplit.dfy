// How Experiment3/report/code/sm4_cbc_decrypt_parallel.c splits blocks over threads.
module CbcSplit {
  import opened Arithmetic

  // Where thread i starts: each thread takes its share of what is left for it and the rest.
  function Start(blocks: nat, threads: nat, i: nat): (s: nat)
    requires i <= threads
    ensures s <= blocks
  {
    if i == 0 then 0
    else
      var s := Start(blocks, threads, i - 1);
      s + Share(blocks - s, threads - (i - 1))
  }

  // left / (size_t)(THREADS - i)
  function Share(left: nat, n: nat): (s: nat)
    requires n > 0
    ensures s <= left
  {
    QuotientIsSmaller(left, n);
    left / n
  }

  function Min(a: int, b: int): int {
    if a < b then a else b
  }

  // With q blocks for each of n threads and one more for some r of them, the first thread takes
  // q or q + 1, and the rest is again of this form.
  lemma ShareOf(left: nat, n: nat, q: nat, r: nat)
    requires n > 0 && left == q * n + Min(r, n)
    ensures q <= Share(left, n) <= q + 1
    ensures r == 0 ==> Share(left, n) == q
    ensures left - Share(left, n) == q * (n - 1) + Min(r, n - 1)
  {
    assert q * n == q * (n - 1) + q;
    if r < n {
      QuotientIs(left, n, q, r);
    } else {
      assert left == (q + 1) * n + 0;
      QuotientIs(left, n, q + 1, 0);
    }
  }

  lemma {:induction false} WhatIsLeft(blocks: nat, threads: nat, i: nat, q: nat, r: nat)
    requires i <= threads && blocks == q * threads + r && r <= threads
    ensures blocks - Start(blocks, threads, i) == q * (threads - i) + Min(r, threads - i)
  {
    if i > 0 {
      WhatIsLeft(blocks, threads, i - 1, q, r);
      ShareOf(blocks - Start(blocks, threads, i - 1), threads - (i - 1), q, r);
    }
  }

  lemma StartIs(blocks: nat, threads: nat, i: nat, q: nat, r: nat)
    requires i <= threads && blocks == q * threads + r && r <= threads
    ensures Start(blocks, threads, i) == q * i + if i <= threads - r then 0 else i - threads + r
  {
    WhatIsLeft(blocks, threads, i, q, r);
    assert q * threads == q * (threads - i) + q * i;
  }

  // Contiguous ranges from the first block to the last.
  ghost predicate IsSplit(starts: seq<nat>, blocks: nat, threads: nat) {
    && |starts| == threads + 1 && starts[0] == 0 && starts[threads] == blocks
    && forall i, j :: 0 <= i <= j <= threads ==> starts[i] <= starts[j]
  }

  function Starts(blocks: nat, threads: nat): (r: seq<nat>)
    ensures |r| == threads + 1 && forall i :: 0 <= i <= threads ==> r[i] == Start(blocks, threads, i)
  {
    seq(threads + 1, i requires 0 <= i <= threads => Start(blocks, threads, i))
  }

  // The split covers all blocks, and each thread has the floor or the ceiling of
  // blocks / threads; the last threads have the blocks that are left over.
  lemma FairSplit(blocks: nat, threads: nat)
    requires threads > 0
    ensures IsSplit(Starts(blocks, threads), blocks, threads)
    ensures forall i :: 0 <= i < threads ==>
              blocks / threads <= Start(blocks, threads, i + 1) - Start(blocks, threads, i) <= Ceiling(blocks, threads)
    ensures forall i :: 0 <= i <= threads ==>
              Start(blocks, threads, i)
              == blocks / threads * i + if i <= threads - blocks % threads then 0 else i - threads + blocks % threads
  {
    QuotientIsSmaller(blocks, threads);
    var q: nat, r: nat := blocks / threads, blocks % threads;
    assert blocks == q * threads + r;
    WhatIsLeft(blocks, threads, threads, q, r);
    forall i | 0 <= i < threads
      ensures q <= Start(blocks, threads, i + 1) - Start(blocks, threads, i) <= Ceiling(blocks, threads)
    {
      WhatIsLeft(blocks, threads, i, q, r);
      ShareOf(blocks - Start(blocks, threads, i), threads - i, q, r);
    }
    forall i | 0 <= i <= threads
      ensures Start(blocks, threads, i) == q * i + if i <= threads - r then 0 else i - threads + r
    {
      StartIs(blocks, threads, i, q, r);
    }
    forall i, j | 0 <= i <= j <= threads
      ensures Start(blocks, threads, i) <= Start(blocks, threads, j)
    {
      StartMonotone(blocks, threads, i, j);
    }
  }

  function Ceiling(blocks: nat, threads: nat): int
    requires threads > 0
  {
    if blocks % threads == 0 then blocks / threads else blocks / threads + 1
  }

  lemma {:induction false} StartMonotone(blocks: nat, threads: nat, i: nat, j: nat)
    requires i <= j <= threads
    ensures Start(blocks, threads, i) <= Start(blocks, threads, j)
  {
    if i < j {
      StartMonotone(blocks, threads, i, j - 1);
    }
  }

  // Every block belongs to a thread.
  lemma {:induction false} OwnerOf(starts: seq<nat>, n: nat, b: nat) returns (i: nat)
    requires n < |starts| && starts[0] == 0 && b < starts[n]
    ensures i < n && starts[i] <= b < starts[i + 1]
  {
    if b < starts[n - 1] {
      i := OwnerOf(starts, n - 1, b);
    } else {
      i := n - 1;
    }
  }
}
