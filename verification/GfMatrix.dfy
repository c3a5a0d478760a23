/**
 The mutable matrix of crates/ecc/src/reed_solomon.rs: a flat byte buffer, its product,
 and the in-place Gauss-Jordan inversion.
 */
module GfMatrix {
  import opened Bytes
  import opened GaloisField
  import opened Gf256Tables
  import opened LinearAlgebra

  datatype MatrixError = NotSquare | Singular(column: nat)

  datatype Inversion = Inverted(inverse: Matrix) | Failed(error: MatrixError)

  // ── Row-major indexing ───────────────────────────────────────────────────

  function Size(rows: nat, cols: nat): nat {
    rows * cols
  }

  lemma {:induction false} RowFits(i: nat, rows: nat, cols: nat)
    requires i < rows
    ensures i * cols + cols <= rows * cols
    decreases rows
  {
    assert rows * cols == (rows - 1) * cols + cols;
    if i < rows - 1 {
      RowFits(i, rows - 1, cols);
    }
  }

  function Index(i: nat, j: nat, rows: nat, cols: nat): (p: nat)
    requires i < rows && j < cols
    ensures p < Size(rows, cols)
  {
    RowFits(i, rows, cols);
    i * cols + j
  }

  lemma IndexInjective(i: nat, j: nat, i': nat, j': nat, rows: nat, cols: nat)
    requires i < rows && j < cols && i' < rows && j' < cols
    requires Index(i, j, rows, cols) == Index(i', j', rows, cols)
    ensures i == i' && j == j'
  {
    if i < i' {
      RowFits(i, i', cols);
    } else if i' < i {
      RowFits(i', i, cols);
    }
  }

  /** A row-major buffer as a matrix value. */
  function RowsOf(buffer: seq<byte>, rows: nat, cols: nat): (m: Mat)
    requires |buffer| == Size(rows, cols)
    ensures IsMat(m, rows, cols)
  {
    seq(rows, i requires 0 <= i < rows =>
      seq(cols, j requires 0 <= j < cols => buffer[Index(i, j, rows, cols)]))
  }

  lemma RowsOfUpdate(buffer: seq<byte>, rows: nat, cols: nat, i: nat, j: nat, v: byte)
    requires |buffer| == Size(rows, cols) && i < rows && j < cols
    ensures var m := RowsOf(buffer, rows, cols);
            RowsOf(buffer[Index(i, j, rows, cols) := v], rows, cols) == m[i := m[i][j := v]]
  {
    hide Size, Index;
    var m := RowsOf(buffer, rows, cols);
    var m' := RowsOf(buffer[Index(i, j, rows, cols) := v], rows, cols);
    forall k, l | 0 <= k < rows && 0 <= l < cols
      ensures m'[k][l] == m[i := m[i][j := v]][k][l]
    {
      if Index(k, l, rows, cols) == Index(i, j, rows, cols) {
        IndexInjective(k, l, i, j, rows, cols);
      }
    }
    forall k | 0 <= k < rows
      ensures m'[k] == m[i := m[i][j := v]][k]
    {
    }
  }

  // ── The matrix object ────────────────────────────────────────────────────

  class Matrix {
    const rows: nat
    const cols: nat
    const data: array<byte>

    ghost predicate Valid() {
      data.Length == Size(rows, cols)
    }

    /** The matrix as a value, row by row. */
    ghost function Rows(): (m: Mat)
      requires Valid()
      reads data
      ensures IsMat(m, rows, cols)
    {
      hide Size, Index;
      RowsOf(data[..], rows, cols)
    }

    constructor (rows: nat, cols: nat)
      ensures Valid() && fresh(data)
      ensures this.rows == rows && this.cols == cols
      ensures forall i, j :: 0 <= i < rows && 0 <= j < cols ==> Rows()[i][j] == 0
    {
      hide Size, Index;
      this.rows := rows;
      this.cols := cols;
      this.data := new byte[Size(rows, cols)](_ => 0);
    }

    method Get(row: nat, col: nat) returns (v: byte)
      requires Valid() && row < rows && col < cols
      ensures v == Rows()[row][col]
    {
      hide Size, Index;
      v := data[Index(row, col, rows, cols)];
    }

    method Set(row: nat, col: nat, val: byte)
      requires Valid() && row < rows && col < cols
      modifies data
      ensures Rows() == old(Rows())[row := old(Rows())[row][col := val]]
    {
      hide Size, Index;
      RowsOfUpdate(data[..], rows, cols, row, col, val);
      ghost var before := data[..];
      data[Index(row, col, rows, cols)] := val;
      assert data[..] == before[Index(row, col, rows, cols) := val];
    }

    /** Exchange two rows, entry by entry. */
    method Swap(i: nat, j: nat)
      requires Valid() && i < rows && j < rows && i != j
      modifies data
      ensures Rows() == SwapRows(old(Rows()), i, j)
    {
      hide RowsOf, RowBlend;
      ghost var m := Rows();
      BlendStart(m[i], m[j]);
      BlendStart(m[j], m[i]);
      for k := 0 to cols
        invariant RowBlend(Rows()[i], m[j], m[i], k)
        invariant RowBlend(Rows()[j], m[i], m[j], k)
        invariant forall r :: 0 <= r < rows && r != i && r != j ==> Rows()[r] == m[r]
      {
        var tmp := Get(i, k);
        var other := Get(j, k);
        BlendStep(Rows()[i], m[j], m[i], k);
        BlendStep(Rows()[j], m[i], m[j], k);
        Set(i, k, other);
        Set(j, k, tmp);
      }
      BlendDone(Rows()[i], m[j], m[i]);
      BlendDone(Rows()[j], m[i], m[j]);
      assert Rows() == SwapRows(m, i, j);
    }

    /** Multiply a row by `f`. */
    method Scale(gf: Gf256, i: nat, f: byte)
      requires gf.Valid() && Valid() && i < rows
      modifies data
      ensures Rows() == ScaleRow(old(Rows()), i, f)
    {
      hide Mul, RowsOf, RowBlend;
      ghost var m := Rows();
      BlendStart(m[i], VecScale(f, m[i]));
      for k := 0 to cols
        invariant RowBlend(Rows()[i], VecScale(f, m[i]), m[i], k)
        invariant forall r :: 0 <= r < rows && r != i ==> Rows()[r] == m[r]
      {
        var v := Get(i, k);
        MulComm(v, f);
        BlendStep(Rows()[i], VecScale(f, m[i]), m[i], k);
        Set(i, k, gf.GfMul(v, f));
      }
      BlendDone(Rows()[i], VecScale(f, m[i]), m[i]);
      assert Rows() == ScaleRow(m, i, f);
    }

    /** Add `f` times row `j` to row `i`. */
    method Eliminate(gf: Gf256, i: nat, f: byte, j: nat)
      requires gf.Valid() && Valid() && i < rows && j < rows && i != j
      modifies data
      ensures Rows() == AddRow(old(Rows()), i, f, j)
    {
      hide Mul, Add, RowsOf, RowBlend;
      ghost var m := Rows();
      BlendStart(m[i], VecAdd(m[i], VecScale(f, m[j])));
      for k := 0 to cols
        invariant RowBlend(Rows()[i], VecAdd(m[i], VecScale(f, m[j])), m[i], k)
        invariant forall r :: 0 <= r < rows && r != i ==> Rows()[r] == m[r]
      {
        var v := Get(i, k);
        var w := Get(j, k);
        BlendStep(Rows()[i], VecAdd(m[i], VecScale(f, m[j])), m[i], k);
        Set(i, k, Add(v, gf.GfMul(f, w)));
      }
      BlendDone(Rows()[i], VecAdd(m[i], VecScale(f, m[j])), m[i]);
      assert Rows() == AddRow(m, i, f, j);
    }

    /** One entry of a product, summed up as the program does it. */
    method DotOf(gf: Gf256, other: Matrix, i: nat, j: nat) returns (sum: byte)
      requires gf.Valid() && Valid() && other.Valid() && cols == other.rows && i < rows && j < other.cols
      ensures sum == Dot(Rows()[i], Column(other.Rows(), j))
    {
      hide Mul, Add, RowsOf;
      ghost var u, v := Rows()[i], Column(other.Rows(), j);
      sum := 0;
      for k := 0 to cols
        invariant sum == DotUpTo(u, v, k)
      {
        MulOne(sum);
        MulComm(sum, 1);
        var a := Get(i, k);
        var b := other.Get(k, j);
        sum := Add(gf.GfMul(sum, 1), gf.GfMul(a, b));
      }
    }

    method Multiply(gf: Gf256, other: Matrix) returns (result: Matrix)
      requires gf.Valid() && Valid() && other.Valid() && cols == other.rows
      ensures result.Valid() && fresh(result.data) && result.rows == rows && result.cols == other.cols
      ensures result.Rows() == Product(Rows(), other.Rows(), other.cols)
    {
      hide Mul, Add, RowsOf, Dot, Column, Size;
      result := new Matrix(rows, other.cols);
      ghost var p := Product(Rows(), other.Rows(), other.cols);
      for i := 0 to rows
        invariant result.Valid() && fresh(result.data)
        invariant forall k :: 0 <= k < i ==> result.Rows()[k] == p[k]
      {
        for j := 0 to other.cols
          invariant result.Valid() && fresh(result.data)
          invariant forall k :: 0 <= k < i ==> result.Rows()[k] == p[k]
          invariant forall l :: 0 <= l < j ==> result.Rows()[i][l] == p[i][l]
        {
          var sum := DotOf(gf, other, i, j);
          result.Set(i, j, sum);
        }
        assert result.Rows()[i] == p[i];
      }
      assert result.Rows() == p;
    }

    /** Gauss-Jordan elimination on [self | I]. */
    method Invert(gf: Gf256) returns (r: Inversion)
      requires gf.Valid() && Valid()
      ensures r == Failed(NotSquare) <==> rows != cols
      ensures r.Failed? && rows == cols ==> !Injective(Rows(), rows)
      ensures r.Inverted? ==> rows == cols
      ensures r.Inverted? ==> r.inverse.Valid() && fresh(r.inverse.data)
      ensures r.Inverted? ==> r.inverse.rows == rows && r.inverse.cols == rows
      ensures r.Inverted? ==> AreInverse(Rows(), r.inverse.Rows(), rows)
    {
      if rows != cols {
        return Failed(NotSquare);
      }
      hide Mul, Add, RowsOf;
      var n := rows;
      ghost var a := Rows();
      var aug := Augmented();
      for col := 0 to n
        invariant Rows() == a
        invariant SameKernel(Augment(a, n), aug.Rows(), 2 * n)
        invariant IdentityPrefix(aug.Rows(), n, col)
      {
        var pivot := aug.FindPivot(col);
        if pivot == n {
          NoPivotMeansSingular(a, aug.Rows(), n, col);
          return Failed(Singular(col));
        }
        aug.ClearColumn(gf, n, col, pivot, Augment(a, n));
      }
      EliminationGivesInverse(a, aug.Rows(), n);
      var inv := aug.RightPart(n);
      r := Inverted(inv);
    }

    method Augmented() returns (aug: Matrix)
      requires Valid() && rows == cols
      ensures aug.Valid() && fresh(aug.data) && aug.rows == rows && aug.cols == 2 * rows
      ensures aug.Rows() == Augment(Rows(), rows)
    {
      hide RowsOf;
      var n := rows;
      aug := new Matrix(n, 2 * n);
      for i := 0 to n
        invariant forall r :: 0 <= r < i ==> aug.Rows()[r] == Rows()[r] + Unit(n, r)
        invariant forall r, j :: i <= r < n && 0 <= j < 2 * n ==> aug.Rows()[r][j] == 0
      {
        ghost var before := aug.Rows();
        for j := 0 to n
          invariant forall r :: 0 <= r < n && r != i ==> aug.Rows()[r] == before[r]
          invariant forall k :: 0 <= k < 2 * n ==> aug.Rows()[i][k] == if k < j then Rows()[i][k] else 0
        {
          var v := Get(i, j);
          aug.Set(i, j, v);
        }
        aug.Set(i, n + i, 1);
        assert aug.Rows()[i] == Rows()[i] + Unit(n, i);
      }
    }

    /** The first row from `col` on with a non-zero entry in that column. */
    method FindPivot(col: nat) returns (pivot: nat)
      requires Valid() && col < rows && col < cols
      ensures col <= pivot <= rows
      ensures forall i :: col <= i < pivot ==> Rows()[i][col] == 0
      ensures pivot < rows ==> Rows()[pivot][col] != 0
    {
      for row := col to rows
        invariant forall i :: col <= i < row ==> Rows()[i][col] == 0
      {
        var v := Get(row, col);
        if v != 0 {
          return row;
        }
      }
      return rows;
    }

    /** Bring the pivot up, scale it to 1 and clear the rest of the column. */
    method ClearColumn(gf: Gf256, n: nat, col: nat, pivot: nat, ghost start: Mat)
      requires gf.Valid() && Valid() && rows == n && cols == 2 * n && col <= pivot < n
      requires Rows()[pivot][col] != 0
      requires IsMat(start, n, 2 * n) && SameKernel(start, Rows(), 2 * n)
      requires IdentityPrefix(Rows(), n, col)
      modifies data
      ensures SameKernel(start, Rows(), 2 * n) && IdentityPrefix(Rows(), n, col + 1)
    {
      hide Mul, Add, RowsOf, SameKernel, IdentityPrefix, ColumnCleared;
      if pivot != col {
        SwapKeepsKernel(Rows(), 2 * n, col, pivot);
        SwapKeepsPrefix(Rows(), n, col, col, pivot);
        SameKernelTrans(start, Rows(), SwapRows(Rows(), col, pivot), 2 * n);
        Swap(col, pivot);
      }
      var pivotVal := Get(col, col);
      var pivotInv := gf.GfInv(pivotVal).value;
      ScaleKeepsKernel(Rows(), 2 * n, col, pivotInv);
      ScaleKeepsPrefix(Rows(), n, col, col, pivotInv);
      SameKernelTrans(start, Rows(), ScaleRow(Rows(), col, pivotInv), 2 * n);
      Scale(gf, col, pivotInv);
      FirstCleared(Rows(), n, col);
      for row := 0 to n
        invariant SameKernel(start, Rows(), 2 * n) && IdentityPrefix(Rows(), n, col)
        invariant ColumnCleared(Rows(), n, col, row)
      {
        if row == col {
          ClearedNext(Rows(), n, col, row);
          continue;
        }
        var factor := Get(row, col);
        if factor == 0 {
          ClearedNext(Rows(), n, col, row);
          continue;
        }
        AddRowKeepsKernel(Rows(), 2 * n, row, factor, col);
        AddRowKeepsPrefix(Rows(), n, col, row, factor, col);
        AddRowClears(Rows(), n, col, row);
        SameKernelTrans(start, Rows(), AddRow(Rows(), row, factor, col), 2 * n);
        Eliminate(gf, row, factor, col);
      }
      ClearedColumnExtendsPrefix(Rows(), n, col);
    }

    method RightPart(n: nat) returns (inv: Matrix)
      requires Valid() && rows == n && cols == 2 * n
      ensures inv.Valid() && fresh(inv.data) && inv.rows == n && inv.cols == n
      ensures inv.Rows() == RightHalf(Rows(), n)
    {
      hide RowsOf;
      inv := new Matrix(n, n);
      for i := 0 to n
        invariant forall r :: 0 <= r < i ==> inv.Rows()[r] == Rows()[r][n..]
      {
        ghost var before := inv.Rows();
        for j := 0 to n
          invariant forall r :: 0 <= r < n && r != i ==> inv.Rows()[r] == before[r]
          invariant forall k :: 0 <= k < j ==> inv.Rows()[i][k] == Rows()[i][n + k]
        {
          var v := Get(i, n + j);
          inv.Set(i, j, v);
        }
        assert inv.Rows()[i] == Rows()[i][n..];
      }
    }
  }

  lemma FirstCleared(m: Mat, n: nat, c: nat)
    requires IsMat(m, n, 2 * n) && c < n && m[c][c] == 1
    ensures ColumnCleared(m, n, c, 0)
  {
  }

  lemma ClearedNext(m: Mat, n: nat, c: nat, r: nat)
    requires IsMat(m, n, 2 * n) && c < n && r < n && ColumnCleared(m, n, c, r)
    requires r == c || m[r][c] == 0
    ensures ColumnCleared(m, n, c, r + 1)
  {
  }


  /** `row` has been replaced by `target` up to position `k`. */
  predicate RowBlend(row: Vec, target: Vec, before: Vec, k: nat) {
    && |row| == |target| == |before|
    && (forall l :: 0 <= l < k && l < |row| ==> row[l] == target[l])
    && (forall l :: k <= l < |row| ==> row[l] == before[l])
  }

  lemma BlendStart(before: Vec, target: Vec)
    requires |before| == |target|
    ensures RowBlend(before, target, before, 0)
  {
  }

  lemma BlendStep(row: Vec, target: Vec, before: Vec, k: nat)
    requires RowBlend(row, target, before, k) && k < |row|
    ensures row[k] == before[k] && |target| == |row|
    ensures RowBlend(row[k := target[k]], target, before, k + 1)
  {
  }

  lemma BlendDone(row: Vec, target: Vec, before: Vec)
    requires RowBlend(row, target, before, |row|)
    ensures row == target
  {
  }
}
