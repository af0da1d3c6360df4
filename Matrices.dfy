/**
 * Dense real matrices and boolean masks: the numpy shapes the pipeline
 * manipulates (`concatenate`, boolean-mask selection, `ravel`).
 */
module Matrices {

  /** A rows-by-cols matrix; the shape is kept even when there are no rows. */
  datatype Matrix = Matrix(rows: nat, cols: nat, cells: seq<seq<real>>)
  {
    predicate Valid() {
      |cells| == rows && forall i :: 0 <= i < |cells| ==> |cells[i]| == cols
    }
  }

  /** The value currently held by a two-dimensional array. */
  function ToMatrix(a: array2<real>): (m: Matrix)
    reads a
    ensures m.Valid() && m.rows == a.Length0 && m.cols == a.Length1
    ensures forall i, j :: 0 <= i < a.Length0 && 0 <= j < a.Length1 ==> m.cells[i][j] == a[i, j]
  {
    Matrix(a.Length0, a.Length1, seq(a.Length0, (i: int) reads a requires 0 <= i < a.Length0 => RowOf(a, i)))
  }

  /** Row `i` of a two-dimensional array. */
  function RowOf(a: array2<real>, i: nat): (row: seq<real>)
    reads a
    requires i < a.Length0
    ensures |row| == a.Length1 && forall j :: 0 <= j < a.Length1 ==> row[j] == a[i, j]
  {
    seq(a.Length1, (j: int) reads a requires 0 <= j < a.Length1 => a[i, j])
  }

  /** Column `c` of `m`, top to bottom. */
  function Column(m: Matrix, c: nat): (col: seq<real>)
    requires m.Valid() && c < m.cols
    ensures |col| == m.rows && forall i :: 0 <= i < m.rows ==> col[i] == m.cells[i][c]
  {
    seq(m.rows, i requires 0 <= i < m.rows => m.cells[i][c])
  }

  /** The first `k` rows laid end to end (numpy's default C order). */
  function FlattenRows(m: Matrix, k: nat): (flat: seq<real>)
    requires m.Valid() && k <= m.rows
    ensures |flat| == k * m.cols
  {
    if k == 0 then [] else FlattenRows(m, k - 1) + m.cells[k - 1]
  }

  /** The first `k` columns laid end to end (Fortran order, `ravel(image, 1)`). */
  function FlattenColumns(m: Matrix, k: nat): (flat: seq<real>)
    requires m.Valid() && k <= m.cols
    ensures |flat| == k * m.rows
  {
    if k == 0 then [] else FlattenColumns(m, k - 1) + Column(m, k - 1)
  }

  lemma {:induction false} MulMono(a: nat, b: nat, n: nat)
    requires a < b
    ensures a * n + n <= b * n
  {
    if b == a + 1 {
      assert (a + 1) * n == a * n + n;
    } else {
      MulMono(a, b - 1, n);
      assert b * n == (b - 1) * n + n;
    }
  }

  /** In the column-major flattening, cell (r, c) sits at position c * rows + r. */
  lemma {:induction false} FlattenColumnsAt(m: Matrix, k: nat, r: nat, c: nat)
    requires m.Valid() && k <= m.cols && r < m.rows && c < k
    ensures c * m.rows + r < |FlattenColumns(m, k)|
    ensures FlattenColumns(m, k)[c * m.rows + r] == m.cells[r][c]
  {
    if c == k - 1 {
      assert |FlattenColumns(m, k - 1)| == c * m.rows;
    } else {
      MulMono(c, k - 1, m.rows);
      FlattenColumnsAt(m, k - 1, r, c);
    }
  }

  /** Number of `true` entries (numpy.sum of a boolean mask). */
  function Count(mask: seq<bool>): (n: nat)
    ensures n <= |mask|
  {
    if |mask| == 0 then 0 else (if mask[0] then 1 else 0) + Count(mask[1..])
  }

  /** Setting one cell of a mask changes its count by at most that cell. */
  lemma {:induction false} CountUpdate(mask: seq<bool>, i: nat, b: bool)
    requires i < |mask|
    ensures Count(mask[i := b]) == Count(mask) - (if mask[i] then 1 else 0) + (if b then 1 else 0)
  {
    if i == 0 {
      assert mask[i := b][1..] == mask[1..];
    } else {
      assert mask[i := b][1..] == mask[1..][i - 1 := b];
      CountUpdate(mask[1..], i - 1, b);
    }
  }

  /** A mask that is all `false` counts zero. */
  lemma {:induction false} CountNone(mask: seq<bool>)
    requires forall i :: 0 <= i < |mask| ==> !mask[i]
    ensures Count(mask) == 0
  {
    if |mask| > 0 {
      CountNone(mask[1..]);
    }
  }

  /** The entries of `s` whose mask cell is `true`, in order (`s[mask]`). */
  function Select<T>(s: seq<T>, mask: seq<bool>): (r: seq<T>)
    requires |s| == |mask|
    ensures |r| == Count(mask)
    ensures forall x :: x in r ==> x in s
  {
    if |s| == 0 then []
    else (if mask[0] then [s[0]] else []) + Select(s[1..], mask[1..])
  }

  /** An entry is kept exactly when its cell is set, and relative order is kept. */
  lemma {:induction false} SelectAt<T>(s: seq<T>, mask: seq<bool>, i: nat)
    requires |s| == |mask| && i < |s| && mask[i]
    ensures Count(mask[..i]) < Count(mask)
    ensures Select(s, mask)[Count(mask[..i])] == s[i]
  {
    if i == 0 {
      assert mask[..0] == [];
    } else {
      assert mask[..i][1..] == mask[1..][..i - 1];
      SelectAt(s[1..], mask[1..], i - 1);
    }
  }

  /** Selecting from a longer sequence adds at most its last entry. */
  lemma {:induction false} SelectSnoc<T>(s: seq<T>, mask: seq<bool>, x: T, b: bool)
    requires |s| == |mask|
    ensures Select(s + [x], mask + [b]) == Select(s, mask) + (if b then [x] else [])
  {
    var tail := if b then [x] else [];
    if |s| == 0 {
      assert s + [x] == [x] && mask + [b] == [b];
      assert Select([x], [b]) == tail + Select([], []);
    } else {
      var head := if mask[0] then [s[0]] else [];
      assert (s + [x])[1..] == s[1..] + [x] && (mask + [b])[1..] == mask[1..] + [b];
      calc {
        Select(s + [x], mask + [b]);
        head + Select(s[1..] + [x], mask[1..] + [b]);
        { SelectSnoc(s[1..], mask[1..], x, b); }
        head + (Select(s[1..], mask[1..]) + tail);
        (head + Select(s[1..], mask[1..])) + tail;
        Select(s, mask) + tail;
      }
    }
  }

  /** `m[mask, :]`: the rows whose mask cell is set. */
  function SelectRows(m: Matrix, mask: seq<bool>): (r: Matrix)
    requires m.Valid() && |mask| == m.rows
    ensures r.Valid() && r.rows == Count(mask) && r.cols == m.cols
    ensures r.cells == Select(m.cells, mask)
  {
    assert forall x :: x in m.cells ==> |x| == m.cols;
    Matrix(Count(mask), m.cols, Select(m.cells, mask))
  }

  /** `m[:, mask]`: the columns whose mask cell is set. */
  function SelectCols(m: Matrix, mask: seq<bool>): (r: Matrix)
    requires m.Valid() && |mask| == m.cols
    ensures r.Valid() && r.rows == m.rows && r.cols == Count(mask)
    ensures forall i :: 0 <= i < m.rows ==> r.cells[i] == Select(m.cells[i], mask)
  {
    Matrix(m.rows, Count(mask), seq(m.rows, i requires 0 <= i < m.rows => Select(m.cells[i], mask)))
  }
}
