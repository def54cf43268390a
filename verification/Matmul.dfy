// The versions of Experiment1/task1/code/matmul.c, all writing the shared array C. Each is proved
// to leave the product whatever `add`, `mul` and `zero` are; `ProductIsUnique` makes them equal.
module Matmul {
  import opened MatmulModel

  // How a copy of B is laid out: as B itself, or transposed.
  datatype Layout = ByRows | ByColumns

  // m[r * width + c]
  method Read<T>(m: array<T>, rows: nat, width: nat, r: nat, c: nat) returns (v: T)
    requires Fits(m.Length, rows, width) && r < rows && c < width
    ensures v == RowsOf(m[..], rows, width)[r][c]
  {
    RowsAt(m[..], rows, width, r, c);
    AtIsProduct(r, width, c);
    v := m[r * width + c];
  }

  // m[r * width + c] = v
  method Write<T>(m: array<T>, rows: nat, width: nat, r: nat, c: nat, v: T)
    requires Fits(m.Length, rows, width) && r < rows && c < width
    modifies m
    ensures RowsOf(m[..], rows, width) == old(RowsOf(m[..], rows, width)[r := RowsOf(m[..], rows, width)[r][c := v]])
  {
    RowsUpdate(m[..], rows, width, r, c, v);
    AtIsProduct(r, width, c);
    ghost var before := m[..];
    m[r * width + c] := v;
    assert m[..] == before[At(r, width, c) := v];
  }

  function Column<T>(g: seq<seq<T>>, rows: nat, width: nat, c: nat): (r: seq<T>)
    requires IsGrid(g, rows, width) && c < width
    ensures |r| == rows && forall k {:trigger r[k]} :: 0 <= k < rows ==> r[k] == g[k][c]
  {
    seq(rows, k requires 0 <= k < rows => g[k][c])
  }

  function Flip<T>(g: seq<seq<T>>, rows: nat, width: nat): (f: seq<seq<T>>)
    requires IsGrid(g, rows, width)
    ensures IsGrid(f, width, rows)
    ensures forall c {:trigger f[c]} :: 0 <= c < width ==> f[c] == Column(g, rows, width, c)
  {
    seq(width, c requires 0 <= c < width => Column(g, rows, width, c))
  }

  // g has the entries of B before row k, column j, turned.
  ghost predicate Turned<T>(g: seq<seq<T>>, x: Input<T>, k: nat, j: nat)
    requires InputOk(x) && IsGrid(g, x.d.cols, x.d.inner)
  {
    forall p: nat, q: nat :: p < x.d.inner && q < x.d.cols && (p < k || (p == k && q < j)) ==> g[q][p] == x.b[p][q]
  }

  lemma TurnedAll<T>(g: seq<seq<T>>, x: Input<T>)
    requires InputOk(x) && IsGrid(g, x.d.cols, x.d.inner) && Turned(g, x, x.d.inner, 0)
    ensures Flip(g, x.d.cols, x.d.inner) == x.b
  {
    var f := Flip(g, x.d.cols, x.d.inner);
    forall k: nat | k < x.d.inner
      ensures f[k] == x.b[k]
    {
      assert forall j: nat :: j < x.d.cols ==> f[k][j] == x.b[k][j];
    }
  }

  class Matrices<T(0, !new)> {
    const operations: Operations<T>
    const d: Dims
    const a: array<T>
    const b: array<T>
    const c: array<T>
    // The updates made since C was `start`.
    ghost var start: seq<seq<T>>
    ghost var trace: seq<Op>

    constructor (operations: Operations<T>, d: Dims, a: array<T>, b: array<T>, c: array<T>)
      requires a.Length == d.rows * d.inner && b.Length == d.inner * d.cols && c.Length == d.rows * d.cols
      requires c != a && c != b
      ensures Valid() && this.operations == operations && this.d == d && this.a == a && this.b == b && this.c == c
    {
      FitsIsProduct(a.Length, d.rows, d.inner);
      FitsIsProduct(b.Length, d.inner, d.cols);
      FitsIsProduct(c.Length, d.rows, d.cols);
      this.operations, this.d, this.a, this.b, this.c := operations, d, a, b, c;
    }

    ghost predicate Valid() {
      && Fits(a.Length, d.rows, d.inner) && Fits(b.Length, d.inner, d.cols) && Fits(c.Length, d.rows, d.cols)
      && c != a && c != b
    }

    ghost function Data(): (x: Input<T>)
      requires Valid()
      reads a, b
      ensures InputOk(x) && x.d == d
    {
      Input(operations, d, RowsOf(a[..], d.rows, d.inner), RowsOf(b[..], d.inner, d.cols))
    }

    ghost function Out(): (g: seq<seq<T>>)
      requires Valid()
      reads c
      ensures IsGrid(g, d.rows, d.cols)
    {
      RowsOf(c[..], d.rows, d.cols)
    }

    ghost predicate Traced()
      requires Valid()
      reads a, b, c, `start, `trace
    {
      IsC(Data(), start) && AllInRange(d, trace) && Out() == Exec(Data(), start, trace)
    }

    ghost method StartTrace()
      requires Valid()
      modifies `start, `trace
      ensures Traced() && start == Out() && trace == []
    {
      start, trace := Out(), [];
    }

    ghost predicate FitsB(m: array<T>, layout: Layout) {
      if layout.ByRows? then Fits(m.Length, d.inner, d.cols) else Fits(m.Length, d.cols, d.inner)
    }

    // What m says B is.
    ghost function View(m: array<T>, layout: Layout): seq<seq<T>>
      requires FitsB(m, layout)
      reads m
    {
      if layout.ByRows? then RowsOf(m[..], d.inner, d.cols) else Flip(RowsOf(m[..], d.cols, d.inner), d.cols, d.inner)
    }

    ghost predicate Holds(m: array<T>, layout: Layout)
      requires Valid()
      reads a, b, m
    {
      m != c && FitsB(m, layout) && View(m, layout) == Data().b
    }

    method ReadA(i: nat, k: nat) returns (r: T)
      requires Valid() && i < d.rows && k < d.inner
      ensures r == Data().a[i][k]
    {
      r := Read(a, d.rows, d.inner, i, k);
    }

    // B[k * N + j], or B_T[j * K + k]
    method ReadB(m: array<T>, layout: Layout, k: nat, j: nat) returns (v: T)
      requires Valid() && Holds(m, layout) && k < d.inner && j < d.cols
      ensures v == Data().b[k][j]
    {
      if layout.ByRows? {
        v := Read(m, d.inner, d.cols, k, j);
      } else {
        v := Read(m, d.cols, d.inner, j, k);
      }
    }

    // `clear_C`
    method Clear()
      requires Valid()
      modifies c
      ensures AllZero(Data(), Out())
    {
      for p := 0 to c.Length
        invariant forall q :: 0 <= q < p ==> c[q] == operations.zero
      {
        c[p] := operations.zero;
      }
      forall i: nat, j: nat | i < d.rows && j < d.cols
        ensures Out()[i][j] == operations.zero
      {
        RowsAt(c[..], d.rows, d.cols, i, j);
      }
    }

    // C[i * N + j] += r * B[k * N + j]
    method Add(i: nat, k: nat, j: nat, r: T, v: T)
      requires Valid() && Traced() && InRange(d, Op(i, k, j)) && r == Data().a[i][k] && v == Data().b[k][j]
      modifies c, `trace
      ensures Traced() && trace == old(trace) + [Op(i, k, j)]
      ensures Out() == Apply(Data(), old(Out()), Op(i, k, j))
    {
      var was := Read(c, d.rows, d.cols, i, j);
      Store(i, k, j, was, r, v);
    }

    // The second half of it: the store, with the value of C loaded before.
    method Store(i: nat, k: nat, j: nat, was: T, r: T, v: T)
      requires Valid() && Traced() && InRange(d, Op(i, k, j)) && r == Data().a[i][k] && v == Data().b[k][j]
      requires was == Out()[i][j]
      modifies c, `trace
      ensures Traced() && trace == old(trace) + [Op(i, k, j)]
      ensures Out() == Apply(Data(), old(Out()), Op(i, k, j))
    {
      Write(c, d.rows, d.cols, i, j, operations.add(was, operations.mul(r, v)));
      ghost var before := trace;
      trace := trace + [Op(i, k, j)];
      assert trace[..|before|] == before;
    }

    // ---------- i-j-k, with a sum per cell ----------

    // The terms of one cell, summed in increasing k.
    method Sum(m: array<T>, layout: Layout, i: nat, j: nat) returns (sum: T)
      requires Valid() && Holds(m, layout) && i < d.rows && j < d.cols
      ensures sum == Dot(Data(), operations.zero, i, j)
    {
      sum := operations.zero;
      for k := 0 to d.inner
        invariant sum == Fold(Data(), operations.zero, i, j, Range(0, k))
      {
        var u := ReadA(i, k);
        var v := ReadB(m, layout, k, j);
        sum := operations.add(sum, operations.mul(u, v));
        FoldSnoc(Data(), operations.zero, i, j, Range(0, k), k);
        assert Range(0, k) + [k] == Range(0, k + 1);
      }
    }

    method NaiveFrom(m: array<T>, layout: Layout)
      requires Valid() && Holds(m, layout)
      modifies c
      ensures IsProduct(Data(), Out())
    {
      for i := 0 to d.rows
        invariant forall p: nat, q: nat :: p < i && q < d.cols ==> Out()[p][q] == Dot(Data(), operations.zero, p, q)
      {
        for j := 0 to d.cols
          invariant forall p: nat, q: nat :: p < i && q < d.cols ==> Out()[p][q] == Dot(Data(), operations.zero, p, q)
          invariant forall q: nat :: q < j ==> Out()[i][q] == Dot(Data(), operations.zero, i, q)
        {
          var sum := Sum(m, layout, i, j);
          Write(c, d.rows, d.cols, i, j, sum);
        }
      }
      ProductOfDots(Data(), Out());
    }

    // `matmul_naive`
    method Naive()
      requires Valid()
      modifies c
      ensures IsProduct(Data(), Out())
    {
      NaiveFrom(b, ByRows);
    }

    method TransposeRow(bt: array<T>, k: nat)
      requires Valid() && bt != a && bt != b && Fits(bt.Length, d.cols, d.inner) && k < d.inner
      requires Turned(RowsOf(bt[..], d.cols, d.inner), Data(), k, 0)
      modifies bt
      ensures Turned(RowsOf(bt[..], d.cols, d.inner), Data(), k + 1, 0)
    {
      for j := 0 to d.cols
        invariant Turned(RowsOf(bt[..], d.cols, d.inner), Data(), k, j)
      {
        var v := Read(b, d.inner, d.cols, k, j);
        Write(bt, d.cols, d.inner, j, k, v);
      }
    }

    method Transpose() returns (bt: array<T>)
      requires Valid()
      ensures fresh(bt) && Holds(bt, ByColumns)
    {
      bt := new T[d.cols * d.inner];
      FitsIsProduct(bt.Length, d.cols, d.inner);
      for k := 0 to d.inner
        invariant Turned(RowsOf(bt[..], d.cols, d.inner), Data(), k, 0)
      {
        TransposeRow(bt, k);
      }
      TurnedAll(RowsOf(bt[..], d.cols, d.inner), Data());
    }

    // `matmul_transpose`
    method Transposed()
      requires Valid()
      modifies c
      ensures IsProduct(Data(), Out())
    {
      var bt := Transpose();
      NaiveFrom(bt, ByColumns);
    }

    // ---------- i-k-j ----------

    // The next column of a row.
    method AddNext(m: array<T>, layout: Layout, i: nat, k: nat, j: nat, r: T, ghost before: seq<Op>, ghost j0: nat)
      requires Valid() && Traced() && Holds(m, layout) && InRange(d, Op(i, k, j)) && r == Data().a[i][k]
      requires j0 <= j && trace == before + RowOps(i, k, j0, j)
      modifies c, `trace
      ensures Traced() && trace == before + RowOps(i, k, j0, j + 1)
    {
      var v := ReadB(m, layout, k, j);
      Add(i, k, j, r, v);
      assert RowOps(i, k, j0, j) + [Op(i, k, j)] == RowOps(i, k, j0, j + 1);
    }

    method Row(m: array<T>, layout: Layout, i: nat, k: nat, j0: nat, j1: nat)
      requires Valid() && Traced() && Holds(m, layout) && i < d.rows && k < d.inner && j0 <= j1 <= d.cols
      modifies c, `trace
      ensures Traced() && trace == old(trace) + RowOps(i, k, j0, j1)
    {
      var r := ReadA(i, k);
      for j := j0 to j1
        invariant Traced() && trace == old(trace) + RowOps(i, k, j0, j)
      {
        AddNext(m, layout, i, k, j, r, old(trace), j0);
      }
    }

    // The same row, four columns at a time and then the rest.
    method RowUnrolled(i: nat, k: nat)
      requires Valid() && Traced() && i < d.rows && k < d.inner
      modifies c, `trace
      ensures Traced() && trace == old(trace) + RowOps(i, k, 0, d.cols)
    {
      var r := ReadA(i, k);
      var j := 0;
      while j <= d.cols - 4
        invariant j <= d.cols && Traced() && trace == old(trace) + RowOps(i, k, 0, j)
      {
        AddNext(b, ByRows, i, k, j, r, old(trace), 0);
        AddNext(b, ByRows, i, k, j + 1, r, old(trace), 0);
        AddNext(b, ByRows, i, k, j + 2, r, old(trace), 0);
        AddNext(b, ByRows, i, k, j + 3, r, old(trace), 0);
        j := j + 4;
      }
      while j < d.cols
        invariant j <= d.cols && Traced() && trace == old(trace) + RowOps(i, k, 0, j)
      {
        AddNext(b, ByRows, i, k, j, r, old(trace), 0);
        j := j + 1;
      }
    }

    // for k in [k0, k1) for j in [j0, j1)
    method Strip(m: array<T>, layout: Layout, i: nat, k0: nat, k1: nat, j0: nat, j1: nat)
      requires Valid() && Traced() && Holds(m, layout) && i < d.rows && k0 <= k1 <= d.inner && j0 <= j1 <= d.cols
      modifies c, `trace
      ensures Traced() && trace == old(trace) + StripOps(i, k0, k1, j0, j1)
    {
      for k := k0 to k1
        invariant Traced() && trace == old(trace) + StripOps(i, k0, k, j0, j1)
      {
        Row(m, layout, i, k, j0, j1);
        Regroup(old(trace), StripOps(i, k0, k, j0, j1), RowOps(i, k, j0, j1));
      }
    }

    // The i-k-j nest of one tile.
    method Tile(m: array<T>, layout: Layout, i0: nat, i1: nat, k0: nat, k1: nat, j0: nat, j1: nat)
      requires Valid() && Traced() && Holds(m, layout) && i0 <= i1 <= d.rows && k0 <= k1 <= d.inner
               && j0 <= j1 <= d.cols
      modifies c, `trace
      ensures Traced() && trace == old(trace) + TileOps(i0, i1, k0, k1, j0, j1)
    {
      for i := i0 to i1
        invariant Traced() && trace == old(trace) + TileOps(i0, i, k0, k1, j0, j1)
      {
        Strip(m, layout, i, k0, k1, j0, j1);
        Regroup(old(trace), TileOps(i0, i, k0, k1, j0, j1), StripOps(i, k0, k1, j0, j1));
      }
    }

    // A trace that covers C after `clear_C` leaves the product.
    lemma TraceIsProduct()
      requires Valid() && Traced() && AllZero(Data(), start) && Covers(trace, 0, d.rows, 0, d.inner, 0, d.cols)
      ensures IsProduct(Data(), Out())
    {
      CoveringIsProduct(Data(), start, trace);
    }

    // `matmul_ikj`
    method Ikj()
      requires Valid() && AllZero(Data(), Out())
      modifies c, `start, `trace
      ensures IsProduct(Data(), Out())
    {
      StartTrace();
      Tile(b, ByRows, 0, d.rows, 0, d.inner, 0, d.cols);
      TileCovers(0, d.rows, 0, d.inner, 0, d.cols);
      assert trace == TileOps(0, d.rows, 0, d.inner, 0, d.cols);
      TraceIsProduct();
    }

    // One row of `matmul_ikj_unroll`.
    method StripUnrolled(i: nat)
      requires Valid() && Traced() && i < d.rows
      modifies c, `trace
      ensures Traced() && trace == old(trace) + StripOps(i, 0, d.inner, 0, d.cols)
    {
      for k := 0 to d.inner
        invariant Traced() && trace == old(trace) + StripOps(i, 0, k, 0, d.cols)
      {
        RowUnrolled(i, k);
        Regroup(old(trace), StripOps(i, 0, k, 0, d.cols), RowOps(i, k, 0, d.cols));
      }
    }

    // `matmul_ikj_unroll`
    method IkjUnrolled()
      requires Valid() && AllZero(Data(), Out())
      modifies c, `start, `trace
      ensures IsProduct(Data(), Out())
    {
      StartTrace();
      for i := 0 to d.rows
        invariant Traced() && start == old(Out()) && trace == TileOps(0, i, 0, d.inner, 0, d.cols)
      {
        StripUnrolled(i);
      }
      TileCovers(0, d.rows, 0, d.inner, 0, d.cols);
      TraceIsProduct();
    }

    // ---------- blocked ----------

    method TileRow(m: array<T>, layout: Layout, i0: nat, i1: nat, k0: nat, k1: nat, size: nat)
      requires Valid() && Traced() && Holds(m, layout) && i0 <= i1 <= d.rows && k0 <= k1 <= d.inner && size > 0
      modifies c, `trace
      ensures Traced() && trace == old(trace) + ColumnTiles(i0, i1, k0, k1, 0, d.cols, size)
    {
      ghost var all := trace + ColumnTiles(i0, i1, k0, k1, 0, d.cols, size);
      var j := 0;
      while j < d.cols
        invariant Traced() && trace + ColumnTiles(i0, i1, k0, k1, j, d.cols, size) == all
      {
        ghost var before := trace;
        var end := Min(j + size, d.cols);
        Tile(m, layout, i0, i1, k0, k1, j, end);
        Consume(before, TileOps(i0, i1, k0, k1, j, end), ColumnTiles(i0, i1, k0, k1, j + size, d.cols, size), all);
        j := j + size;
      }
    }

    method BlockRow(m: array<T>, layout: Layout, i0: nat, i1: nat, size: nat)
      requires Valid() && Traced() && Holds(m, layout) && i0 <= i1 <= d.rows && size > 0
      modifies c, `trace
      ensures Traced() && trace == old(trace) + InnerTiles(i0, i1, 0, d, size)
    {
      ghost var all := trace + InnerTiles(i0, i1, 0, d, size);
      var k := 0;
      while k < d.inner
        invariant Traced() && trace + InnerTiles(i0, i1, k, d, size) == all
      {
        ghost var before := trace;
        var end := Min(k + size, d.inner);
        TileRow(m, layout, i0, i1, k, end, size);
        Consume(before, ColumnTiles(i0, i1, k, end, 0, d.cols, size), InnerTiles(i0, i1, k + size, d, size), all);
        k := k + size;
      }
    }

    // The blocked nest over some rows: all of them, or those of one thread.
    method BlockedRows(m: array<T>, layout: Layout, lo: nat, end: nat, size: nat)
      requires Valid() && Traced() && Holds(m, layout) && lo <= end <= d.rows && size > 0
      modifies c, `trace
      ensures Traced() && trace == old(trace) + BlockedOps(lo, end, d, size)
    {
      ghost var all := trace + BlockedOps(lo, end, d, size);
      var i := lo;
      while i < end
        invariant Traced() && trace + BlockedOps(i, end, d, size) == all
      {
        ghost var before := trace;
        var i1 := Min(i + size, end);
        BlockRow(m, layout, i, i1, size);
        Consume(before, InnerTiles(i, i1, 0, d, size), BlockedOps(i + size, end, d, size), all);
        i := i + size;
      }
    }

    // `matmul_blocked`
    method Blocked(size: nat)
      requires Valid() && AllZero(Data(), Out()) && size > 0
      modifies c, `start, `trace
      ensures IsProduct(Data(), Out())
    {
      BlockedFrom(b, ByRows, size);
    }

    method BlockedFrom(m: array<T>, layout: Layout, size: nat)
      requires Valid() && AllZero(Data(), Out()) && Holds(m, layout) && size > 0
      modifies c, `start, `trace
      ensures IsProduct(Data(), Out())
    {
      StartTrace();
      BlockedRows(m, layout, 0, d.rows, size);
      BlockedCovers(0, d.rows, d, size);
      assert trace == BlockedOps(0, d.rows, d, size);
      TraceIsProduct();
    }

    // `matmul_block_transpose`
    method BlockedTransposed(size: nat)
      requires Valid() && AllZero(Data(), Out()) && size > 0
      modifies c, `start, `trace
      ensures IsProduct(Data(), Out())
    {
      var bt := Transpose();
      BlockedFrom(bt, ByColumns, size);
    }
  }
}
