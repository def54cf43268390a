// The product over the integers, and on the flat arrays of Experiment1/task1/code/matmul.c.
module MatmulLaws {
  import opened MatmulModel
  import opened Matmul

  function Integers(): Operations<int> {
    Operations(0, (x: int, y: int) => x + y, (x: int, y: int) => x * y)
  }

  // Column j of B is 1 in row p and 0 elsewhere.
  ghost predicate IsUnitColumn(x: Input<int>, p: nat, j: nat)
    requires InputOk(x) && j < x.d.cols
  {
    forall k: nat :: k < x.d.inner ==> x.b[k][j] == if k == p then 1 else 0
  }

  lemma {:induction false} SumsOfUnitColumn(x: Input<int>, i: nat, p: nat, j: nat, sums: seq<int>, k: nat)
    requires InputOk(x) && x.operations == Integers() && i < x.d.rows && p < x.d.inner && j < x.d.cols
    requires IsUnitColumn(x, p, j) && ArePartialSums(x, i, j, sums) && k <= x.d.inner
    ensures sums[k] == if k <= p then 0 else x.a[i][p]
  {
    if k > 0 {
      SumsOfUnitColumn(x, i, p, j, sums, k - 1);
      assert sums[k] == sums[k - 1] + x.a[i][k - 1] * x.b[k - 1][j];
    }
  }

  // A unit column of B picks a column of A.
  lemma UnitColumnPicks(x: Input<int>, c: seq<seq<int>>, i: nat, p: nat, j: nat)
    requires InputOk(x) && x.operations == Integers() && i < x.d.rows && p < x.d.inner && j < x.d.cols
    requires IsUnitColumn(x, p, j) && IsProduct(x, c)
    ensures c[i][j] == x.a[i][p]
  {
    assert IsSum(x, i, j, c[i][j]);
    var sums :| ArePartialSums(x, i, j, sums) && sums[x.d.inner] == c[i][j];
    SumsOfUnitColumn(x, i, p, j, sums, x.d.inner);
  }

  // s[r * width + c], for an entry inside the array.
  ghost predicate IsEntry<T>(s: seq<T>, at: int, v: T) {
    0 <= at < |s| && s[at] == v
  }

  lemma EntryOfRows<T>(s: seq<T>, rows: nat, width: nat, r: nat, c: nat)
    requires Fits(|s|, rows, width) && r < rows && c < width
    ensures IsEntry(s, r * width + c, RowsOf(s, rows, width)[r][c])
  {
    RowsAt(s, rows, width, r, c);
    AtIsProduct(r, width, c);
  }

  // C[i * N + j] is the last partial sum, and sum k + 1 adds A[i * K + k] * B[k * N + j] to sum k.
  ghost predicate IsFlatSum<T(0, !new)>(m: Matrices<T>, i: nat, j: nat, sums: seq<T>)
    reads m.a, m.b, m.c
  {
    && |sums| == m.d.inner + 1 && sums[0] == m.operations.zero
    && IsEntry(m.c[..], i * m.d.cols + j, sums[m.d.inner])
    && forall k: nat {:trigger sums[k]} :: k < m.d.inner ==> AddsTerm(m, i, k, j, sums[k], sums[k + 1])
  }

  ghost predicate AddsTerm<T(0, !new)>(m: Matrices<T>, i: nat, k: nat, j: nat, sum: T, next: T)
    reads m.a, m.b
  {
    exists u, v :: IsEntry(m.a[..], i * m.d.inner + k, u) && IsEntry(m.b[..], k * m.d.cols + j, v)
                   && next == m.operations.add(sum, m.operations.mul(u, v))
  }

  lemma FlatProduct<T(0, !new)>(m: Matrices<T>, i: nat, j: nat) returns (sums: seq<T>)
    requires m.Valid() && IsProduct(m.Data(), m.Out()) && i < m.d.rows && j < m.d.cols
    ensures IsFlatSum(m, i, j, sums)
  {
    var x := m.Data();
    assert IsSum(x, i, j, m.Out()[i][j]);
    sums :| ArePartialSums(x, i, j, sums) && sums[x.d.inner] == m.Out()[i][j];
    EntryOfRows(m.c[..], m.d.rows, m.d.cols, i, j);
    forall k: nat | k < m.d.inner
      ensures AddsTerm(m, i, k, j, sums[k], sums[k + 1])
    {
      EntryOfRows(m.a[..], m.d.rows, m.d.inner, i, k);
      EntryOfRows(m.b[..], m.d.inner, m.d.cols, k, j);
      assert sums[k + 1] == x.operations.add(sums[k], x.operations.mul(x.a[i][k], x.b[k][j]));
    }
  }
}
