// The threaded versions of Experiment1/task1/code/matmul.c: rows are split over threads, which
// update C with no locks. One step of a thread is one load or one store of C.
module MatmulThreads {
  import opened MatmulModel
  import opened Matmul
  import opened Scheduling
  import Split = CbcSplit

  // ---------- the rows of each thread ----------

  // The last thread takes the rest of the rows.
  function RowStart(rows: nat, threads: nat, t: nat): nat
    requires t <= threads && threads > 0
  {
    if t == threads then rows else t * (rows / threads)
  }

  function RowStarts(rows: nat, threads: nat): (r: seq<nat>)
    requires threads > 0
    ensures |r| == threads + 1 && forall t :: 0 <= t <= threads ==> r[t] == RowStart(rows, threads, t)
  {
    seq(threads + 1, t requires 0 <= t <= threads => RowStart(rows, threads, t))
  }

  lemma ProductOrder(s: nat, t: nat, share: nat)
    requires s <= t
    ensures s * share <= t * share
  {
    assert t * share == s * share + (t - s) * share;
  }

  // The ranges follow each other from the first row to the last.
  lemma RowsAreSplit(rows: nat, threads: nat)
    requires threads > 0
    ensures Split.IsSplit(RowStarts(rows, threads), rows, threads)
  {
    var share := rows / threads;
    assert rows == threads * share + rows % threads;
    forall s, t | 0 <= s <= t <= threads
      ensures RowStart(rows, threads, s) <= RowStart(rows, threads, t)
    {
      ProductOrder(s, t, share);
      ProductOrder(s, threads, share);
    }
  }

  // ---------- interleavings ----------

  datatype Register<T> = Empty | Holding(value: T)

  // What a thread has to do, how many updates it has done, and the entry of C it has loaded.
  datatype Thread<T> = Thread(ops: seq<Op>, pc: nat, register: Register<T>)

  predicate Running<T>(w: Thread<T>) {
    w.pc < |w.ops|
  }

  // Each thread has the updates of its own rows, complete and in order.
  ghost predicate Owns<T>(d: Dims, starts: seq<nat>, ws: seq<Thread<T>>) {
    Split.IsSplit(starts, d.rows, |ws|)
    && forall t :: 0 <= t < |ws| ==> Covers(ws[t].ops, starts[t], starts[t + 1], 0, d.inner, 0, d.cols)
  }

  ghost predicate InStep<T>(d: Dims, trace: seq<Op>, lo: nat, hi: nat, w: Thread<T>) {
    w.pc <= |w.ops|
    && forall i: nat, j: nat :: lo <= i < hi && j < d.cols ==> Project(trace, i, j) == Project(w.ops[..w.pc], i, j)
  }

  ghost predicate Current<T>(d: Dims, out: seq<seq<T>>, w: Thread<T>)
    requires IsGrid(out, d.rows, d.cols)
  {
    Running(w) && w.register.Holding? ==>
      InRange(d, w.ops[w.pc]) && w.register.value == out[w.ops[w.pc].i][w.ops[w.pc].j]
  }

  // Between steps: the trace has, for each cell, what its owner has done so far, and a value some
  // thread holds in a register is still the one in C.
  ghost predicate Inv<T>(d: Dims, starts: seq<nat>, ws: seq<Thread<T>>, trace: seq<Op>, out: seq<seq<T>>) {
    Owns(d, starts, ws) && AllInRange(d, trace) && IsGrid(out, d.rows, d.cols)
    && forall t :: 0 <= t < |ws| ==> InStep(d, trace, starts[t], starts[t + 1], ws[t]) && Current(d, out, ws[t])
  }

  lemma NextInRange<T>(d: Dims, starts: seq<nat>, ws: seq<Thread<T>>, t: nat)
    requires Owns(d, starts, ws) && t < |ws| && Running(ws[t])
    ensures starts[t] <= ws[t].ops[ws[t].pc].i < starts[t + 1] && InRange(d, ws[t].ops[ws[t].pc])
  {
    assert InBox(ws[t].ops[ws[t].pc], starts[t], starts[t + 1], 0, d.inner, 0, d.cols);
    assert starts[t + 1] <= starts[|ws|];
  }

  lemma ProjectNext(ops: seq<Op>, n: nat, i: nat, j: nat)
    requires n < |ops|
    ensures Project(ops[..n + 1], i, j) == Project(ops[..n] + [ops[n]], i, j)
  {
    assert ops[..n + 1] == ops[..n] + [ops[n]];
  }

  // After a store of thread t, for each thread.
  lemma StoreKeepsStep<T>(d: Dims, starts: seq<nat>, ws: seq<Thread<T>>, trace: seq<Op>, t: nat, u: nat, w: Thread<T>)
    requires Owns(d, starts, ws) && t < |ws| && u < |ws| && Running(ws[t])
    requires InStep(d, trace, starts[u], starts[u + 1], ws[u])
    requires w == if u == t then ws[t].(pc := ws[t].pc + 1, register := Empty) else ws[u]
    ensures InStep(d, trace + [ws[t].ops[ws[t].pc]], starts[u], starts[u + 1], w)
  {
    NextInRange(d, starts, ws, t);
    var o := ws[t].ops[ws[t].pc];
    forall i: nat, j: nat | starts[u] <= i < starts[u + 1] && j < d.cols
      ensures Project(trace + [o], i, j) == Project(w.ops[..w.pc], i, j)
    {
      ProjectAppend(trace, [o], i, j);
      assert [o][..0] == [];
      if u == t {
        ProjectNext(ws[t].ops, ws[t].pc, i, j);
        ProjectAppend(ws[t].ops[..ws[t].pc], [o], i, j);
      } else {
        OtherRows(starts, |ws|, t, u);
        assert o.i != i;
      }
    }
  }

  lemma OtherRows(starts: seq<nat>, n: nat, t: nat, u: nat)
    requires |starts| == n + 1 && t < n && u < n && t != u
    requires forall i, j :: 0 <= i <= j <= n ==> starts[i] <= starts[j]
    ensures starts[t + 1] <= starts[u] || starts[u + 1] <= starts[t]
  {
  }

  lemma StoreKeepsInv<T>(x: Input<T>, starts: seq<nat>, ws: seq<Thread<T>>, trace: seq<Op>, out: seq<seq<T>>, t: nat)
    requires InputOk(x) && Inv(x.d, starts, ws, trace, out) && t < |ws| && Running(ws[t])
    ensures InRange(x.d, ws[t].ops[ws[t].pc])
    ensures Inv(x.d, starts, ws[t := ws[t].(pc := ws[t].pc + 1, register := Empty)],
                trace + [ws[t].ops[ws[t].pc]], Apply(x, out, ws[t].ops[ws[t].pc]))
  {
    NextInRange(x.d, starts, ws, t);
    var o := ws[t].ops[ws[t].pc];
    var ws' := ws[t := ws[t].(pc := ws[t].pc + 1, register := Empty)];
    forall u: nat | u < |ws|
      ensures InStep(x.d, trace + [o], starts[u], starts[u + 1], ws'[u]) && Current(x.d, Apply(x, out, o), ws'[u])
    {
      StoreKeepsStep(x.d, starts, ws, trace, t, u, ws'[u]);
      if u != t && Running(ws[u]) {
        NextInRange(x.d, starts, ws, u);
        OtherRows(starts, |ws|, t, u);
      }
    }
  }

  // When no thread has anything left, all of C has been covered.
  lemma AllDone<T>(d: Dims, starts: seq<nat>, ws: seq<Thread<T>>, trace: seq<Op>, out: seq<seq<T>>)
    requires Inv(d, starts, ws, trace, out) && forall t :: 0 <= t < |ws| ==> !Running(ws[t])
    ensures Covers(trace, 0, d.rows, 0, d.inner, 0, d.cols)
  {
    forall i: nat, j: nat | i < d.rows && j < d.cols
      ensures Project(trace, i, j) == Range(0, d.inner)
    {
      var t := Split.OwnerOf(starts, |ws|, i);
      assert InStep(d, trace, starts[t], starts[t + 1], ws[t]);
      assert !Running(ws[t]);
      assert ws[t].ops[..ws[t].pc] == ws[t].ops;
    }
    forall n | 0 <= n < |trace|
      ensures InBox(trace[n], 0, d.rows, 0, d.inner, 0, d.cols)
    {
      assert InRange(d, trace[n]);
    }
  }

  // ---------- steps left ----------

  function StepsLeft<T>(w: Thread<T>): nat {
    if Running(w) then 2 * (|w.ops| - w.pc) - (if w.register.Holding? then 1 else 0) else 0
  }

  // ---------- the threads ----------

  // One step of thread t: load the entry of C, or store it with the next term added.
  method Step<T(0, !new)>(m: Matrices<T>, ws: seq<Thread<T>>, t: nat, ghost starts: seq<nat>) returns (w: Thread<T>)
    requires m.Valid() && m.Traced() && Inv(m.d, starts, ws, m.trace, m.Out()) && t < |ws| && Running(ws[t])
    modifies m.c, m`trace
    ensures m.Traced() && Inv(m.d, starts, ws[t := w], m.trace, m.Out())
    ensures StepsLeft(w) < StepsLeft(ws[t])
  {
    NextInRange(m.d, starts, ws, t);
    var o := ws[t].ops[ws[t].pc];
    match ws[t].register
    case Empty =>
      var v := Read(m.c, m.d.rows, m.d.cols, o.i, o.j);
      w := ws[t].(register := Holding(v));
    case Holding(was) =>
      StoreKeepsInv(m.Data(), starts, ws, m.trace, m.Out(), t);
      assert Current(m.d, m.Out(), ws[t]);
      var r := m.ReadA(o.i, o.k);
      var v := m.ReadB(m.b, ByRows, o.k, o.j);
      m.Store(o.i, o.k, o.j, was, r, v);
      w := ws[t].(pc := ws[t].pc + 1, register := Empty);
  }

  // All threads, from creation to the last join, in any order of steps.
  method RunThreads<T(0, !new)>(m: Matrices<T>, programs: seq<Thread<T>>, ghost starts: seq<nat>)
    requires m.Valid() && AllZero(m.Data(), m.Out()) && Owns(m.d, starts, programs)
    requires forall t :: 0 <= t < |programs| ==> programs[t].pc == 0 && programs[t].register == Empty
    modifies m.c, m`start, m`trace
    ensures IsProduct(m.Data(), m.Out())
  {
    var ws := programs;
    m.StartTrace();
    while exists t :: 0 <= t < |ws| && Running(ws[t])
      invariant m.Traced() && m.start == old(m.Out()) && Inv(m.d, starts, ws, m.trace, m.Out())
      decreases Work(StepsLeft, ws)
    {
      var t :| 0 <= t < |ws| && Running(ws[t]);
      var w := Step(m, ws, t, starts);
      WorkDecreases(StepsLeft, ws, t, w);
      ws := ws[t := w];
    }
    AllDone(m.d, starts, ws, m.trace, m.Out());
    m.TraceIsProduct();
  }

  // The loop of `matmul_multithread` that hands out the rows.
  method SplitRows<T>(d: Dims, threads: nat) returns (ws: seq<Thread<T>>)
    requires threads > 0
    ensures Owns(d, RowStarts(d.rows, threads), ws) && |ws| == threads
    ensures forall t :: 0 <= t < |ws| ==> ws[t].pc == 0 && ws[t].register == Empty
    ensures forall t :: 0 <= t < threads ==>
              ws[t] == Thread(TileOps(RowStart(d.rows, threads, t), RowStart(d.rows, threads, t + 1),
                                      0, d.inner, 0, d.cols), 0, Empty)
  {
    RowsAreSplit(d.rows, threads);
    ghost var starts := RowStarts(d.rows, threads);
    ws := [];
    var share := d.rows / threads;
    for t := 0 to threads
      invariant |ws| == t && forall u :: 0 <= u < t ==> ws[u].pc == 0 && ws[u].register == Empty
      invariant forall u :: 0 <= u < t ==>
                  starts[u] <= starts[u + 1]
                  && ws[u] == Thread(TileOps(starts[u], starts[u + 1], 0, d.inner, 0, d.cols), 0, Empty)
    {
      var startRow := t * share;
      var endRow := if t == threads - 1 then d.rows else (t + 1) * share;
      assert startRow == starts[t] && endRow == starts[t + 1];
      ws := ws + [Thread(TileOps(startRow, endRow, 0, d.inner, 0, d.cols), 0, Empty)];
    }
    forall t | 0 <= t < threads
      ensures Covers(ws[t].ops, starts[t], starts[t + 1], 0, d.inner, 0, d.cols)
    {
      TileCovers(starts[t], starts[t + 1], 0, d.inner, 0, d.cols);
    }
  }

  // The loop of `matmul_multithread_block` that hands out the rows.
  method SplitRowsBlocked<T>(d: Dims, threads: nat, size: nat) returns (ws: seq<Thread<T>>)
    requires threads > 0 && size > 0
    ensures Owns(d, RowStarts(d.rows, threads), ws) && |ws| == threads
    ensures forall t :: 0 <= t < |ws| ==> ws[t].pc == 0 && ws[t].register == Empty
    ensures forall t :: 0 <= t < threads ==>
              ws[t] == Thread(BlockedOps(RowStart(d.rows, threads, t), RowStart(d.rows, threads, t + 1), d, size),
                              0, Empty)
  {
    RowsAreSplit(d.rows, threads);
    ghost var starts := RowStarts(d.rows, threads);
    ws := [];
    var share := d.rows / threads;
    for t := 0 to threads
      invariant |ws| == t && forall u :: 0 <= u < t ==> ws[u].pc == 0 && ws[u].register == Empty
      invariant forall u :: 0 <= u < t ==>
                  starts[u] <= starts[u + 1] && ws[u] == Thread(BlockedOps(starts[u], starts[u + 1], d, size), 0, Empty)
    {
      var startRow := t * share;
      var endRow := if t == threads - 1 then d.rows else (t + 1) * share;
      assert startRow == starts[t] && endRow == starts[t + 1];
      ws := ws + [Thread(BlockedOps(startRow, endRow, d, size), 0, Empty)];
    }
    forall t | 0 <= t < threads
      ensures Covers(ws[t].ops, starts[t], starts[t + 1], 0, d.inner, 0, d.cols)
    {
      BlockedCovers(starts[t], starts[t + 1], d, size);
    }
  }

  // `matmul_multithread`
  method Multithread<T(0, !new)>(m: Matrices<T>, threads: nat)
    requires m.Valid() && AllZero(m.Data(), m.Out()) && threads > 0
    modifies m.c, m`start, m`trace
    ensures IsProduct(m.Data(), m.Out())
  {
    var ws := SplitRows(m.d, threads);
    RunThreads(m, ws, RowStarts(m.d.rows, threads));
  }

  // `matmul_multithread_block`
  method MultithreadBlocked<T(0, !new)>(m: Matrices<T>, threads: nat, size: nat)
    requires m.Valid() && AllZero(m.Data(), m.Out()) && threads > 0 && size > 0
    modifies m.c, m`start, m`trace
    ensures IsProduct(m.Data(), m.Out())
  {
    var ws := SplitRowsBlocked(m.d, threads, size);
    RunThreads(m, ws, RowStarts(m.d.rows, threads));
  }
}
