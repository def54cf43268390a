// The loop nests of Experiment1/task1/code/matmul.c as lists of updates C[i,j] += A[i,k] * B[k,j].
// Addition and multiplication are any two functions, with no laws: what is proved is that every
// version adds the same terms to each cell in the same order.
module MatmulModel {
  datatype Operations<!T> = Operations(zero: T, add: (T, T) -> T, mul: (T, T) -> T)

  // A is rows x inner, B is inner x cols, C is rows x cols, each flattened row by row.
  datatype Dims = Dims(rows: nat, inner: nat, cols: nat)

  // One update of the cell (i, j) with the k-th term.
  datatype Op = Op(i: nat, k: nat, j: nat)

  // ---------- flat arrays as rows ----------

  // Where row r, column c is: r rows further on.
  function At(r: nat, width: nat, c: nat): nat {
    if r == 0 then c else width + At(r - 1, width, c)
  }

  lemma {:induction false} AtIsProduct(r: nat, width: nat, c: nat)
    ensures At(r, width, c) == r * width + c
  {
    if r > 0 {
      AtIsProduct(r - 1, width, c);
      assert r * width == (r - 1) * width + width;
    }
  }

  // `len` entries are `rows` rows of `width`.
  ghost predicate Fits(len: int, rows: nat, width: nat)
    decreases rows
  {
    if rows == 0 then len == 0 else len >= width && Fits(len - width, rows - 1, width)
  }

  lemma {:induction false} FitsIsProduct(len: int, rows: nat, width: nat)
    ensures Fits(len, rows, width) <==> len == rows * width
    decreases rows
  {
    if rows > 0 {
      FitsIsProduct(len - width, rows - 1, width);
      assert rows * width == (rows - 1) * width + width;
    }
  }

  ghost predicate IsGrid<T>(g: seq<seq<T>>, rows: nat, width: nat) {
    |g| == rows && forall r :: 0 <= r < rows ==> |g[r]| == width
  }

  function RowsOf<T>(flat: seq<T>, rows: nat, width: nat): (g: seq<seq<T>>)
    requires Fits(|flat|, rows, width)
    ensures IsGrid(g, rows, width)
    decreases rows
  {
    if rows == 0 then [] else [flat[..width]] + RowsOf(flat[width..], rows - 1, width)
  }

  lemma {:induction false} RowsAt<T>(flat: seq<T>, rows: nat, width: nat, r: nat, c: nat)
    requires Fits(|flat|, rows, width) && r < rows && c < width
    ensures At(r, width, c) < |flat| && RowsOf(flat, rows, width)[r][c] == flat[At(r, width, c)]
    decreases rows
  {
    if r > 0 {
      RowsAt(flat[width..], rows - 1, width, r - 1, c);
    }
  }

  // Writing r * width + c writes row r, column c and nothing else.
  lemma {:induction false} RowsUpdate<T>(flat: seq<T>, rows: nat, width: nat, r: nat, c: nat, v: T)
    requires Fits(|flat|, rows, width) && r < rows && c < width
    ensures At(r, width, c) < |flat|
    ensures RowsOf(flat[At(r, width, c) := v], rows, width)
         == RowsOf(flat, rows, width)[r := RowsOf(flat, rows, width)[r][c := v]]
    decreases rows
  {
    RowsAt(flat, rows, width, r, c);
    if r == 0 {
      FirstRowUpdate(flat, rows, width, c, v);
    } else {
      RowsUpdate(flat[width..], rows - 1, width, r - 1, c, v);
      LaterRowUpdate(flat, rows, width, r, c, v);
    }
  }

  lemma FirstRowUpdate<T>(flat: seq<T>, rows: nat, width: nat, c: nat, v: T)
    requires rows > 0 && Fits(|flat|, rows, width) && c < width
    ensures RowsOf(flat[c := v], rows, width)
         == RowsOf(flat, rows, width)[0 := RowsOf(flat, rows, width)[0][c := v]]
  {
    UpdateFirst(flat, width, c, v);
    ReplaceRow(flat[..width], RowsOf(flat[width..], rows - 1, width), 0, flat[..width][c := v]);
  }

  lemma LaterRowUpdate<T>(flat: seq<T>, rows: nat, width: nat, r: nat, c: nat, v: T)
    requires Fits(|flat|, rows, width) && 0 < r < rows && c < width
    requires At(r - 1, width, c) < |flat| - width
    requires var rest := RowsOf(flat[width..], rows - 1, width);
             RowsOf(flat[width..][At(r - 1, width, c) := v], rows - 1, width)
             == rest[r - 1 := rest[r - 1][c := v]]
    ensures RowsOf(flat[width + At(r - 1, width, c) := v], rows, width)
         == RowsOf(flat, rows, width)[r := RowsOf(flat, rows, width)[r][c := v]]
  {
    var rest := RowsOf(flat[width..], rows - 1, width);
    UpdateRest(flat, width, At(r - 1, width, c), v);
    ReplaceRow(flat[..width], rest, r, rest[r - 1][c := v]);
  }

  lemma UpdateFirst<T>(flat: seq<T>, width: nat, c: nat, v: T)
    requires c < width <= |flat|
    ensures flat[c := v][..width] == flat[..width][c := v] && flat[c := v][width..] == flat[width..]
  {
  }

  lemma UpdateRest<T>(flat: seq<T>, width: nat, p: nat, v: T)
    requires width + p < |flat|
    ensures flat[width + p := v][..width] == flat[..width]
    ensures flat[width + p := v][width..] == flat[width..][p := v]
  {
  }

  lemma ReplaceRow<T>(first: T, rest: seq<T>, r: nat, row: T)
    requires r <= |rest|
    ensures ([first] + rest)[r := row] == if r == 0 then [row] + rest else [first] + rest[r - 1 := row]
  {
  }

  lemma {:induction false} RowsDetermine<T>(flat: seq<T>, flat': seq<T>, rows: nat, width: nat)
    requires Fits(|flat|, rows, width) && Fits(|flat'|, rows, width)
    requires RowsOf(flat, rows, width) == RowsOf(flat', rows, width)
    ensures flat == flat'
    decreases rows
  {
    if rows > 0 {
      var g, g' := RowsOf(flat, rows, width), RowsOf(flat', rows, width);
      assert g[0] == flat[..width] && g'[0] == flat'[..width];
      assert g[1..] == RowsOf(flat[width..], rows - 1, width) && g'[1..] == RowsOf(flat'[width..], rows - 1, width);
      RowsDetermine(flat[width..], flat'[width..], rows - 1, width);
      assert flat == flat[..width] + flat[width..] && flat' == flat'[..width] + flat'[width..];
    }
  }

  // ---------- executing updates ----------

  datatype Input<!T> = Input(operations: Operations<T>, d: Dims, a: seq<seq<T>>, b: seq<seq<T>>)

  ghost predicate InputOk<T>(x: Input<T>) {
    IsGrid(x.a, x.d.rows, x.d.inner) && IsGrid(x.b, x.d.inner, x.d.cols)
  }

  ghost predicate IsC<T>(x: Input<T>, c: seq<seq<T>>) {
    IsGrid(c, x.d.rows, x.d.cols)
  }

  predicate InRange(d: Dims, op: Op) {
    op.i < d.rows && op.k < d.inner && op.j < d.cols
  }

  // add(c, mul(A[i,k], B[k,j]))
  function Term<T>(x: Input<T>, c: T, i: nat, k: nat, j: nat): T
    requires InputOk(x) && i < x.d.rows && k < x.d.inner && j < x.d.cols
  {
    x.operations.add(c, x.operations.mul(x.a[i][k], x.b[k][j]))
  }

  // C[i,j] += A[i,k] * B[k,j]
  function Apply<T>(x: Input<T>, c: seq<seq<T>>, o: Op): (r: seq<seq<T>>)
    requires InputOk(x) && IsC(x, c) && InRange(x.d, o)
    ensures IsC(x, r)
  {
    c[o.i := c[o.i][o.j := Term(x, c[o.i][o.j], o.i, o.k, o.j)]]
  }

  predicate AllInRange(d: Dims, ops: seq<Op>) {
    forall n :: 0 <= n < |ops| ==> InRange(d, ops[n])
  }

  function Exec<T>(x: Input<T>, c: seq<seq<T>>, ops: seq<Op>): (r: seq<seq<T>>)
    requires InputOk(x) && IsC(x, c) && AllInRange(x.d, ops)
    ensures IsC(x, r)
  {
    if ops == [] then c else Apply(x, Exec(x, c, ops[..|ops| - 1]), ops[|ops| - 1])
  }

  lemma Regroup<T>(s: seq<T>, t: seq<T>, u: seq<T>)
    ensures s + (t + u) == (s + t) + u
  {
  }

  // The first part of what is left has been done.
  lemma Consume<T>(done: seq<T>, t: seq<T>, u: seq<T>, all: seq<T>)
    requires done + (t + u) == all
    ensures (done + t) + u == all
  {
  }

  // The terms k that a list of updates adds to cell (i, j), in order.
  function Project(ops: seq<Op>, i: nat, j: nat): seq<nat> {
    if ops == [] then []
    else
      var o := ops[|ops| - 1];
      Project(ops[..|ops| - 1], i, j) + if o.i == i && o.j == j then [o.k] else []
  }

  lemma {:induction false} ProjectAppend(s: seq<Op>, t: seq<Op>, i: nat, j: nat)
    ensures Project(s + t, i, j) == Project(s, i, j) + Project(t, i, j)
  {
    if t == [] {
      assert s + t == s;
    } else {
      var n := |t| - 1;
      assert (s + t)[..|s| + n] == s + t[..n];
      ProjectAppend(s, t[..n], i, j);
    }
  }

  predicate Below(ks: seq<nat>, n: nat) {
    forall t :: 0 <= t < |ks| ==> ks[t] < n
  }

  // The terms ks added to c, one after another.
  function Fold<T>(x: Input<T>, c: T, i: nat, j: nat, ks: seq<nat>): T
    requires InputOk(x) && i < x.d.rows && j < x.d.cols && Below(ks, x.d.inner)
  {
    if ks == [] then c
    else Term(x, Fold(x, c, i, j, ks[..|ks| - 1]), i, ks[|ks| - 1], j)
  }

  lemma {:induction false} ProjectInRange(d: Dims, ops: seq<Op>, i: nat, j: nat)
    requires AllInRange(d, ops)
    ensures Below(Project(ops, i, j), d.inner)
  {
    if ops != [] {
      var n := |ops| - 1;
      assert InRange(d, ops[n]);
      ProjectInRange(d, ops[..n], i, j);
    }
  }

  // A cell ends up with exactly the terms projected on it, whatever happens between them.
  lemma {:induction false} CellIsFold<T>(x: Input<T>, c: seq<seq<T>>, ops: seq<Op>, i: nat, j: nat)
    requires InputOk(x) && IsC(x, c) && AllInRange(x.d, ops)
    requires i < x.d.rows && j < x.d.cols
    ensures Below(Project(ops, i, j), x.d.inner)
    ensures Exec(x, c, ops)[i][j] == Fold(x, c[i][j], i, j, Project(ops, i, j))
  {
    ProjectInRange(x.d, ops, i, j);
    if ops != [] {
      var n := |ops| - 1;
      CellIsFold(x, c, ops[..n], i, j);
      var before := Exec(x, c, ops[..n]);
      assert Exec(x, c, ops) == Apply(x, before, ops[n]);
      var o := ops[n];
      assert InRange(x.d, o);
      if o.i == i && o.j == j {
        FoldSnoc(x, c[i][j], i, j, Project(ops[..n], i, j), o.k);
        assert Project(ops, i, j) == Project(ops[..n], i, j) + [o.k];
        assert Apply(x, before, o)[i][j] == Term(x, before[i][j], i, o.k, j);
      } else {
        assert Project(ops, i, j) == Project(ops[..n], i, j);
        assert Apply(x, before, o)[i][j] == before[i][j];
      }
    }
  }

  lemma FoldSnoc<T>(x: Input<T>, c: T, i: nat, j: nat, ks: seq<nat>, k: nat)
    requires InputOk(x) && i < x.d.rows && j < x.d.cols && Below(ks, x.d.inner) && k < x.d.inner
    ensures Below(ks + [k], x.d.inner)
    ensures Fold(x, c, i, j, ks + [k]) == Term(x, Fold(x, c, i, j, ks), i, k, j)
  {
    assert (ks + [k])[..|ks|] == ks;
  }

  // ---------- the product ----------

  function Range(a: nat, b: nat): (r: seq<nat>)
    requires a <= b
    ensures |r| == b - a && forall t {:trigger r[t]} :: 0 <= t < b - a ==> r[t] == a + t
  {
    seq(b - a, t requires 0 <= t => a + t)
  }

  // The k-terms of cell (i, j) added to `start` in increasing k.
  function Dot<T>(x: Input<T>, start: T, i: nat, j: nat): T
    requires InputOk(x) && i < x.d.rows && j < x.d.cols
  {
    Fold(x, start, i, j, Range(0, x.d.inner))
  }

  // The partial sums of cell (i, j): from zero, the next adds A[i,k] * B[k,j].
  ghost predicate ArePartialSums<T>(x: Input<T>, i: nat, j: nat, sums: seq<T>)
    requires InputOk(x) && i < x.d.rows && j < x.d.cols
  {
    && |sums| == x.d.inner + 1 && sums[0] == x.operations.zero
    && forall k: nat {:trigger x.a[i][k]} :: k < x.d.inner ==>
         sums[k + 1] == x.operations.add(sums[k], x.operations.mul(x.a[i][k], x.b[k][j]))
  }

  ghost predicate IsSum<T(!new)>(x: Input<T>, i: nat, j: nat, v: T)
    requires InputOk(x) && i < x.d.rows && j < x.d.cols
  {
    exists sums :: ArePartialSums(x, i, j, sums) && sums[x.d.inner] == v
  }

  // C = A * B
  ghost predicate IsProduct<T(!new)>(x: Input<T>, c: seq<seq<T>>)
    requires InputOk(x)
  {
    IsC(x, c) && forall i: nat, j: nat {:trigger c[i][j]} :: i < x.d.rows && j < x.d.cols ==> IsSum(x, i, j, c[i][j])
  }

  // The sum of the first k terms, as Fold has it.
  function Prefix<T>(x: Input<T>, i: nat, j: nat, k: nat): T
    requires InputOk(x) && i < x.d.rows && j < x.d.cols && k <= x.d.inner
  {
    Fold(x, x.operations.zero, i, j, Range(0, k))
  }

  lemma PrefixNext<T>(x: Input<T>, i: nat, j: nat, k: nat)
    requires InputOk(x) && i < x.d.rows && j < x.d.cols && k < x.d.inner
    ensures Prefix(x, i, j, k + 1) == x.operations.add(Prefix(x, i, j, k), x.operations.mul(x.a[i][k], x.b[k][j]))
  {
    assert Range(0, k + 1) == Range(0, k) + [k];
    FoldSnoc(x, x.operations.zero, i, j, Range(0, k), k);
  }

  lemma PrefixStart<T>(x: Input<T>, i: nat, j: nat)
    requires InputOk(x) && i < x.d.rows && j < x.d.cols
    ensures Prefix(x, i, j, 0) == x.operations.zero
  {
  }

  lemma {:induction false} PartialSum<T>(x: Input<T>, i: nat, j: nat, sums: seq<T>, k: nat)
    requires InputOk(x) && i < x.d.rows && j < x.d.cols && ArePartialSums(x, i, j, sums) && k <= x.d.inner
    ensures sums[k] == Prefix(x, i, j, k)
  {
    if k == 0 {
      PrefixStart(x, i, j);
    } else {
      PartialSum(x, i, j, sums, k - 1);
      PrefixNext(x, i, j, k - 1);
      assert x.a[i][k - 1] == x.a[i][k - 1];
    }
  }

  lemma PrefixSums<T>(x: Input<T>, i: nat, j: nat) returns (sums: seq<T>)
    requires InputOk(x) && i < x.d.rows && j < x.d.cols
    ensures ArePartialSums(x, i, j, sums) && sums[x.d.inner] == Prefix(x, i, j, x.d.inner)
  {
    sums := seq(x.d.inner + 1, k requires 0 <= k <= x.d.inner => Prefix(x, i, j, k));
    PrefixStart(x, i, j);
    forall k: nat | k < x.d.inner
      ensures sums[k + 1] == x.operations.add(sums[k], x.operations.mul(x.a[i][k], x.b[k][j]))
    {
      PrefixNext(x, i, j, k);
    }
  }

  // Adding the terms one after another gives the sum, and nothing else is the sum.
  lemma SumExactly<T(!new)>(x: Input<T>, i: nat, j: nat, v: T)
    requires InputOk(x) && i < x.d.rows && j < x.d.cols
    ensures IsSum(x, i, j, v) <==> v == Dot(x, x.operations.zero, i, j)
  {
    if IsSum(x, i, j, v) {
      var sums :| ArePartialSums(x, i, j, sums) && sums[x.d.inner] == v;
      PartialSum(x, i, j, sums, x.d.inner);
    } else {
      var sums := PrefixSums(x, i, j);
    }
  }

  lemma ProductOfDots<T(!new)>(x: Input<T>, c: seq<seq<T>>)
    requires InputOk(x) && IsC(x, c)
    requires forall i: nat, j: nat :: i < x.d.rows && j < x.d.cols ==> c[i][j] == Dot(x, x.operations.zero, i, j)
    ensures IsProduct(x, c)
  {
    forall i: nat, j: nat | i < x.d.rows && j < x.d.cols
      ensures IsSum(x, i, j, c[i][j])
    {
      SumExactly(x, i, j, c[i][j]);
    }
  }

  // There is only one product: any two versions leave the same array.
  lemma ProductIsUnique<T(!new)>(x: Input<T>, flat: seq<T>, flat': seq<T>)
    requires InputOk(x) && Fits(|flat|, x.d.rows, x.d.cols) && Fits(|flat'|, x.d.rows, x.d.cols)
    requires IsProduct(x, RowsOf(flat, x.d.rows, x.d.cols)) && IsProduct(x, RowsOf(flat', x.d.rows, x.d.cols))
    ensures flat == flat'
  {
    var g, g' := RowsOf(flat, x.d.rows, x.d.cols), RowsOf(flat', x.d.rows, x.d.cols);
    forall i: nat | i < x.d.rows
      ensures g[i] == g'[i]
    {
      forall j: nat | j < x.d.cols
        ensures g[i][j] == g'[i][j]
      {
        SumExactly(x, i, j, g[i][j]);
        SumExactly(x, i, j, g'[i][j]);
      }
    }
    RowsDetermine(flat, flat', x.d.rows, x.d.cols);
  }

  // ---------- the loop nests ----------

  // for j in [j0, j1)
  function RowOps(i: nat, k: nat, j0: nat, j1: nat): (r: seq<Op>)
    requires j0 <= j1
    ensures |r| == j1 - j0 && forall t {:trigger r[t]} :: 0 <= t < j1 - j0 ==> r[t] == Op(i, k, j0 + t)
  {
    seq(j1 - j0, t requires 0 <= t => Op(i, k, j0 + t))
  }

  // for k in [k0, k1) for j in [j0, j1)
  function StripOps(i: nat, k0: nat, k1: nat, j0: nat, j1: nat): seq<Op>
    requires k0 <= k1 && j0 <= j1
  {
    if k0 == k1 then [] else StripOps(i, k0, k1 - 1, j0, j1) + RowOps(i, k1 - 1, j0, j1)
  }

  // for i in [i0, i1) for k in [k0, k1) for j in [j0, j1)
  function TileOps(i0: nat, i1: nat, k0: nat, k1: nat, j0: nat, j1: nat): seq<Op>
    requires i0 <= i1 && k0 <= k1 && j0 <= j1
  {
    if i0 == i1 then [] else TileOps(i0, i1 - 1, k0, k1, j0, j1) + StripOps(i1 - 1, k0, k1, j0, j1)
  }

  function Min(a: nat, b: nat): nat {
    if a < b then a else b
  }

  // The tiles of one row and one inner block, from column j on.
  function ColumnTiles(i0: nat, i1: nat, k0: nat, k1: nat, j: nat, cols: nat, size: nat): seq<Op>
    requires i0 <= i1 && k0 <= k1 && size > 0
    decreases cols - j
  {
    if j >= cols then []
    else TileOps(i0, i1, k0, k1, j, Min(j + size, cols)) + ColumnTiles(i0, i1, k0, k1, j + size, cols, size)
  }

  function InnerTiles(i0: nat, i1: nat, k: nat, d: Dims, size: nat): seq<Op>
    requires i0 <= i1 && size > 0
    decreases d.inner - k
  {
    if k >= d.inner then []
    else ColumnTiles(i0, i1, k, Min(k + size, d.inner), 0, d.cols, size) + InnerTiles(i0, i1, k + size, d, size)
  }

  // The blocked nest over the rows [i, end).
  function BlockedOps(i: nat, end: nat, d: Dims, size: nat): seq<Op>
    requires size > 0
    decreases end - i
  {
    if i >= end then []
    else InnerTiles(i, Min(i + size, end), 0, d, size) + BlockedOps(i + size, end, d, size)
  }

  // ---------- what each nest adds to each cell ----------

  predicate InBox(o: Op, i0: nat, i1: nat, k0: nat, k1: nat, j0: nat, j1: nat) {
    i0 <= o.i < i1 && k0 <= o.k < k1 && j0 <= o.j < j1
  }

  // The updates lie in the box, and give each of its cells the terms [k0, k1) in order.
  ghost predicate Covers(ops: seq<Op>, i0: nat, i1: nat, k0: nat, k1: nat, j0: nat, j1: nat)
    requires k0 <= k1
  {
    && (forall n :: 0 <= n < |ops| ==> InBox(ops[n], i0, i1, k0, k1, j0, j1))
    && (forall i: nat, j: nat :: i0 <= i < i1 && j0 <= j < j1 ==> Project(ops, i, j) == Range(k0, k1))
  }

  lemma {:induction false} NothingElsewhere(ops: seq<Op>, i: nat, j: nat)
    requires forall n :: 0 <= n < |ops| ==> ops[n].i != i || ops[n].j != j
    ensures Project(ops, i, j) == []
  {
    if ops != [] {
      NothingElsewhere(ops[..|ops| - 1], i, j);
    }
  }

  // Boxes side by side: one after the other in rows, in columns, in terms.
  lemma NextRows(s: seq<Op>, t: seq<Op>, i0: nat, i1: nat, i2: nat, k0: nat, k1: nat, j0: nat, j1: nat)
    requires i0 <= i1 <= i2 && k0 <= k1 && Covers(s, i0, i1, k0, k1, j0, j1) && Covers(t, i1, i2, k0, k1, j0, j1)
    ensures Covers(s + t, i0, i2, k0, k1, j0, j1)
  {
    forall i: nat, j: nat | i0 <= i < i2 && j0 <= j < j1
      ensures Project(s + t, i, j) == Range(k0, k1)
    {
      ProjectAppend(s, t, i, j);
      if i < i1 {
        NothingElsewhere(t, i, j);
      } else {
        NothingElsewhere(s, i, j);
      }
    }
  }

  lemma NextColumns(s: seq<Op>, t: seq<Op>, i0: nat, i1: nat, k0: nat, k1: nat, j0: nat, j1: nat, j2: nat)
    requires j0 <= j1 <= j2 && k0 <= k1 && Covers(s, i0, i1, k0, k1, j0, j1) && Covers(t, i0, i1, k0, k1, j1, j2)
    ensures Covers(s + t, i0, i1, k0, k1, j0, j2)
  {
    forall i: nat, j: nat | i0 <= i < i1 && j0 <= j < j2
      ensures Project(s + t, i, j) == Range(k0, k1)
    {
      ProjectAppend(s, t, i, j);
      if j < j1 {
        NothingElsewhere(t, i, j);
      } else {
        NothingElsewhere(s, i, j);
      }
    }
  }

  lemma NextTerms(s: seq<Op>, t: seq<Op>, i0: nat, i1: nat, k0: nat, k1: nat, k2: nat, j0: nat, j1: nat)
    requires k0 <= k1 <= k2 && Covers(s, i0, i1, k0, k1, j0, j1) && Covers(t, i0, i1, k1, k2, j0, j1)
    ensures Covers(s + t, i0, i1, k0, k2, j0, j1)
  {
    assert Range(k0, k1) + Range(k1, k2) == Range(k0, k2);
    forall i: nat, j: nat | i0 <= i < i1 && j0 <= j < j1
      ensures Project(s + t, i, j) == Range(k0, k2)
    {
      ProjectAppend(s, t, i, j);
    }
  }

  lemma {:induction false} RowCovers(i: nat, k: nat, j0: nat, j1: nat)
    requires j0 <= j1
    ensures Covers(RowOps(i, k, j0, j1), i, i + 1, k, k + 1, j0, j1)
    decreases j1 - j0
  {
    if j0 < j1 {
      RowCovers(i, k, j0, j1 - 1);
      var last := RowOps(i, k, j1 - 1, j1);
      assert last[..0] == [] && Project(last, i, j1 - 1) == [k];
      assert Range(k, k + 1) == [k];
      NextColumns(RowOps(i, k, j0, j1 - 1), last, i, i + 1, k, k + 1, j0, j1 - 1, j1);
      assert RowOps(i, k, j0, j1) == RowOps(i, k, j0, j1 - 1) + last;
    }
  }

  lemma {:induction false} StripCovers(i: nat, k0: nat, k1: nat, j0: nat, j1: nat)
    requires k0 <= k1 && j0 <= j1
    ensures Covers(StripOps(i, k0, k1, j0, j1), i, i + 1, k0, k1, j0, j1)
    decreases k1 - k0
  {
    if k0 < k1 {
      StripCovers(i, k0, k1 - 1, j0, j1);
      RowCovers(i, k1 - 1, j0, j1);
      NextTerms(StripOps(i, k0, k1 - 1, j0, j1), RowOps(i, k1 - 1, j0, j1), i, i + 1, k0, k1 - 1, k1, j0, j1);
    }
  }

  lemma {:induction false} TileCovers(i0: nat, i1: nat, k0: nat, k1: nat, j0: nat, j1: nat)
    requires i0 <= i1 && k0 <= k1 && j0 <= j1
    ensures Covers(TileOps(i0, i1, k0, k1, j0, j1), i0, i1, k0, k1, j0, j1)
    decreases i1 - i0
  {
    if i0 < i1 {
      TileCovers(i0, i1 - 1, k0, k1, j0, j1);
      StripCovers(i1 - 1, k0, k1, j0, j1);
      NextRows(TileOps(i0, i1 - 1, k0, k1, j0, j1), StripOps(i1 - 1, k0, k1, j0, j1), i0, i1 - 1, i1, k0, k1, j0, j1);
    }
  }

  lemma {:induction false} ColumnTilesCover(i0: nat, i1: nat, k0: nat, k1: nat, j: nat, cols: nat, size: nat)
    requires i0 <= i1 && k0 <= k1 && size > 0 && j <= cols
    ensures Covers(ColumnTiles(i0, i1, k0, k1, j, cols, size), i0, i1, k0, k1, j, cols)
    decreases cols - j
  {
    if j < cols {
      var next := Min(j + size, cols);
      TileCovers(i0, i1, k0, k1, j, next);
      if j + size < cols {
        ColumnTilesCover(i0, i1, k0, k1, j + size, cols, size);
      }
      NextColumns(TileOps(i0, i1, k0, k1, j, next), ColumnTiles(i0, i1, k0, k1, j + size, cols, size),
                  i0, i1, k0, k1, j, next, cols);
    }
  }

  lemma {:induction false} InnerTilesCover(i0: nat, i1: nat, k: nat, d: Dims, size: nat)
    requires i0 <= i1 && size > 0 && k <= d.inner
    ensures Covers(InnerTiles(i0, i1, k, d, size), i0, i1, k, d.inner, 0, d.cols)
    decreases d.inner - k
  {
    if k < d.inner {
      var next := Min(k + size, d.inner);
      ColumnTilesCover(i0, i1, k, next, 0, d.cols, size);
      if k + size < d.inner {
        InnerTilesCover(i0, i1, k + size, d, size);
      } else {
        NoTerms(i0, i1, d.inner, 0, d.cols);
      }
      NextTerms(ColumnTiles(i0, i1, k, next, 0, d.cols, size), InnerTiles(i0, i1, k + size, d, size),
                i0, i1, k, next, d.inner, 0, d.cols);
    } else {
      NoTerms(i0, i1, k, 0, d.cols);
    }
  }

  lemma NoTerms(i0: nat, i1: nat, k: nat, j0: nat, j1: nat)
    ensures Covers([], i0, i1, k, k, j0, j1)
  {
  }

  // Blocking leaves every cell of the rows with all its terms in increasing k, for every block
  // size, also when it does not divide the dimensions.
  lemma {:induction false} BlockedCovers(i: nat, end: nat, d: Dims, size: nat)
    requires size > 0 && i <= end
    ensures Covers(BlockedOps(i, end, d, size), i, end, 0, d.inner, 0, d.cols)
    decreases end - i
  {
    if i < end {
      var next := Min(i + size, end);
      InnerTilesCover(i, next, 0, d, size);
      if i + size < end {
        BlockedCovers(i + size, end, d, size);
      }
      NextRows(InnerTiles(i, next, 0, d, size), BlockedOps(i + size, end, d, size),
               i, next, end, 0, d.inner, 0, d.cols);
    }
  }

  // ---------- programs that compute the product ----------

  ghost predicate AllZero<T>(x: Input<T>, c: seq<seq<T>>) {
    IsC(x, c) && forall i: nat, j: nat :: i < x.d.rows && j < x.d.cols ==> c[i][j] == x.operations.zero
  }

  // Updates that give every cell its terms in order turn a cleared C into the product.
  lemma CoveringIsProduct<T(!new)>(x: Input<T>, c: seq<seq<T>>, ops: seq<Op>)
    requires InputOk(x) && AllZero(x, c) && Covers(ops, 0, x.d.rows, 0, x.d.inner, 0, x.d.cols)
    ensures AllInRange(x.d, ops)
    ensures IsProduct(x, Exec(x, c, ops))
  {
    assert AllInRange(x.d, ops);
    forall i: nat, j: nat | i < x.d.rows && j < x.d.cols
      ensures Exec(x, c, ops)[i][j] == Dot(x, x.operations.zero, i, j)
    {
      CellIsFold(x, c, ops, i, j);
    }
    ProductOfDots(x, Exec(x, c, ops));
  }
}
