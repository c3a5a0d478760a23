/**
 Vectors and matrices over GF(256), as values.

 Elimination is reasoned about through kernels: a row operation changes the matrix but not
 the set of vectors it maps to zero.
 */
module LinearAlgebra {
  import opened Bytes
  import opened GaloisField

  type Vec = seq<byte>
  type Mat = seq<Vec>

  predicate IsMat(a: Mat, rows: nat, cols: nat) {
    |a| == rows && forall i :: 0 <= i < rows ==> |a[i]| == cols
  }

  // ── Vectors ──────────────────────────────────────────────────────────────

  function VecAdd(u: Vec, v: Vec): Vec
    requires |u| == |v|
  {
    seq(|u|, i requires 0 <= i < |u| => Add(u[i], v[i]))
  }

  function VecScale(f: byte, u: Vec): Vec {
    seq(|u|, i requires 0 <= i < |u| => Mul(f, u[i]))
  }

  function Zeros(n: nat): Vec {
    seq(n, _ => 0)
  }

  function Unit(n: nat, k: nat): Vec {
    seq(n, i => if i == k then 1 else 0)
  }

  /** Sum of the first `n` products. */
  function DotUpTo(u: Vec, v: Vec, n: nat): byte
    requires n <= |u| && n <= |v|
  {
    if n == 0 then 0 else Add(DotUpTo(u, v, n - 1), Mul(u[n - 1], v[n - 1]))
  }

  function Dot(u: Vec, v: Vec): byte
    requires |u| == |v|
  {
    DotUpTo(u, v, |u|)
  }

  lemma {:induction false} DotAdd(u: Vec, w: Vec, v: Vec, n: nat)
    requires |u| == |w| && n <= |u| && n <= |v|
    ensures DotUpTo(VecAdd(u, w), v, n) == Add(DotUpTo(u, v, n), DotUpTo(w, v, n))
  {
    hide Add, Mul;
    if n == 0 {
      AddZero(0);
    } else {
      DotAdd(u, w, v, n - 1);
      Distributive(v[n - 1], u[n - 1], w[n - 1]);
      AddSwap(DotUpTo(u, v, n - 1), DotUpTo(w, v, n - 1), Mul(u[n - 1], v[n - 1]), Mul(w[n - 1], v[n - 1]));
    }
  }

  lemma {:induction false} DotScale(f: byte, u: Vec, v: Vec, n: nat)
    requires n <= |u| && n <= |v|
    ensures DotUpTo(VecScale(f, u), v, n) == Mul(f, DotUpTo(u, v, n))
  {
    hide Add, Mul;
    if n == 0 {
      MulZero(f);
    } else {
      DotScale(f, u, v, n - 1);
      MulAssoc(f, u[n - 1], v[n - 1]);
      Distributive(f, DotUpTo(u, v, n - 1), Mul(u[n - 1], v[n - 1]));
    }
  }

  lemma {:induction false} DotComm(u: Vec, v: Vec, n: nat)
    requires n <= |u| && n <= |v|
    ensures DotUpTo(u, v, n) == DotUpTo(v, u, n)
  {
    hide Add, Mul;
    if n > 0 {
      DotComm(u, v, n - 1);
      MulComm(u[n - 1], v[n - 1]);
    }
  }

  lemma DotNone(u: Vec, v: Vec)
    ensures DotUpTo(u, v, 0) == 0
  {
  }

  lemma DotStep(u: Vec, v: Vec, n: nat)
    requires n < |u| && n < |v|
    ensures DotUpTo(u, v, n + 1) == Add(DotUpTo(u, v, n), Mul(u[n], v[n]))
  {
  }

  /** Only the first `n` entries matter. */
  lemma {:induction false} DotPrefix(u: Vec, v: Vec, u': Vec, v': Vec, n: nat)
    requires n <= |u| && n <= |v| && n <= |u'| && n <= |v'|
    requires forall i :: 0 <= i < n ==> u[i] == u'[i] && v[i] == v'[i]
    ensures DotUpTo(u, v, n) == DotUpTo(u', v', n)
  {
    hide Add, Mul;
    if n > 0 {
      DotPrefix(u, v, u', v', n - 1);
    }
  }

  /** Products over [n, m) that vanish add nothing. */
  lemma {:induction false} DotTail(u: Vec, v: Vec, n: nat, m: nat)
    requires n <= m <= |u| && m <= |v|
    requires forall i :: n <= i < m ==> Mul(u[i], v[i]) == 0
    ensures DotUpTo(u, v, m) == DotUpTo(u, v, n)
  {
    hide Add, Mul;
    if n < m {
      DotTail(u, v, n, m - 1);
      AddZero(DotUpTo(u, v, n));
    }
  }

  /** A sum with a single term that can be non-zero. */
  lemma DotSingle(u: Vec, v: Vec, n: nat, k: nat)
    requires k < n <= |u| && n <= |v|
    requires forall i :: 0 <= i < n && i != k ==> Mul(u[i], v[i]) == 0
    ensures DotUpTo(u, v, n) == Mul(u[k], v[k])
  {
    hide Add, Mul;
    DotTail(u, v, 0, k);
    AddZero(Mul(u[k], v[k]));
    DotTail(u, v, k + 1, n);
  }

  lemma DotUnit(v: Vec, k: nat)
    requires k < |v|
    ensures Dot(Unit(|v|, k), v) == v[k] && Dot(v, Unit(|v|, k)) == v[k]
  {
    hide Add, Mul;
    forall i | 0 <= i < |v|
      ensures Mul(0, v[i]) == 0
    {
      MulZero(v[i]);
    }
    MulOne(v[k]);
    DotSingle(Unit(|v|, k), v, |v|, k);
    DotComm(v, Unit(|v|, k), |v|);
  }

  lemma {:induction false} DotConcat(u: Vec, u': Vec, v: Vec, v': Vec, n: nat)
    requires |u| == |v| && n <= |u'| && n <= |v'|
    ensures DotUpTo(u + u', v + v', |u| + n) == Add(Dot(u, v), DotUpTo(u', v', n))
  {
    hide Add, Mul;
    if n == 0 {
      DotPrefix(u + u', v + v', u, v, |u|);
      AddZero(Dot(u, v));
    } else {
      DotConcat(u, u', v, v', n - 1);
      AddAssoc(Dot(u, v), DotUpTo(u', v', n - 1), Mul(u'[n - 1], v'[n - 1]));
    }
  }

  // ── Matrices acting on vectors ───────────────────────────────────────────

  function Apply(a: Mat, x: Vec): Vec
    requires IsMat(a, |a|, |x|)
  {
    seq(|a|, i requires 0 <= i < |a| => Dot(a[i], x))
  }

  predicate InKernel(a: Mat, z: Vec)
    requires IsMat(a, |a|, |z|)
  {
    forall i :: 0 <= i < |a| ==> Dot(a[i], z) == 0
  }

  ghost predicate Injective(a: Mat, n: nat)
    requires IsMat(a, |a|, n)
  {
    forall z: Vec :: |z| == n && InKernel(a, z) ==> z == Zeros(n)
  }

  ghost predicate SameKernel(a: Mat, b: Mat, n: nat)
    requires IsMat(a, |a|, n) && IsMat(b, |b|, n)
  {
    forall z: Vec :: |z| == n ==> (InKernel(a, z) <==> InKernel(b, z))
  }

  // ── Row operations ───────────────────────────────────────────────────────

  function SwapRows(a: Mat, i: nat, j: nat): Mat
    requires i < |a| && j < |a|
  {
    a[i := a[j]][j := a[i]]
  }

  function ScaleRow(a: Mat, i: nat, f: byte): Mat
    requires i < |a|
  {
    a[i := VecScale(f, a[i])]
  }

  function AddRow(a: Mat, i: nat, f: byte, j: nat): Mat
    requires i < |a| && j < |a| && |a[i]| == |a[j]|
  {
    a[i := VecAdd(a[i], VecScale(f, a[j]))]
  }

  lemma SwapKeepsKernel(a: Mat, n: nat, i: nat, j: nat)
    requires IsMat(a, |a|, n) && i < |a| && j < |a|
    ensures SameKernel(a, SwapRows(a, i, j), n)
  {
    var b := SwapRows(a, i, j);
    forall z: Vec | |z| == n
      ensures InKernel(a, z) <==> InKernel(b, z)
    {
      assert forall k :: 0 <= k < |a| ==> b[k] == a[if k == j then i else if k == i then j else k];
      assert forall k :: 0 <= k < |a| ==> a[k] == b[if k == j then i else if k == i then j else k];
    }
  }

  lemma SameZeroRows(a: Mat, b: Mat, n: nat, z: Vec)
    requires IsMat(a, |a|, n) && IsMat(b, |a|, n) && |z| == n
    requires forall k :: 0 <= k < |a| ==> (Dot(a[k], z) == 0 <==> Dot(b[k], z) == 0)
    ensures InKernel(a, z) <==> InKernel(b, z)
  {
  }

  lemma ScaleKeepsKernel(a: Mat, n: nat, i: nat, f: byte)
    requires IsMat(a, |a|, n) && i < |a| && f != 0
    ensures SameKernel(a, ScaleRow(a, i, f), n)
  {
    hide Mul, DotUpTo;
    var b := ScaleRow(a, i, f);
    forall z: Vec | |z| == n
      ensures InKernel(a, z) <==> InKernel(b, z)
    {
      DotScale(f, a[i], z, n);
      NoZeroDivisors(f, Dot(a[i], z));
      SameZeroRows(a, b, n, z);
    }
  }

  lemma AddRowKeepsKernel(a: Mat, n: nat, i: nat, f: byte, j: nat)
    requires IsMat(a, |a|, n) && i < |a| && j < |a| && i != j
    ensures SameKernel(a, AddRow(a, i, f, j), n)
  {
    hide Mul, Add, DotUpTo;
    var b := AddRow(a, i, f, j);
    forall z: Vec | |z| == n
      ensures InKernel(a, z) <==> InKernel(b, z)
    {
      DotAdd(a[i], VecScale(f, a[j]), z, n);
      DotScale(f, a[j], z, n);
      MulZero(f);
      AddZero(Dot(a[i], z));
      assert b[j] == a[j];
      if Dot(a[j], z) == 0 {
        SameZeroRows(a, b, n, z);
      }
    }
  }

  // ── Inverses ─────────────────────────────────────────────────────────────

  /** `b` undoes `a` on every vector, and the other way round. */
  ghost predicate AreInverse(a: Mat, b: Mat, n: nat)
    requires IsMat(a, n, n) && IsMat(b, n, n)
  {
    forall x: Vec, y: Vec :: |x| == n && |y| == n ==> (Apply(a, x) == y <==> Apply(b, y) == x)
  }

  function Column(b: Mat, j: nat): Vec
    requires forall i :: 0 <= i < |b| ==> j < |b[i]|
  {
    seq(|b|, i requires 0 <= i < |b| => b[i][j])
  }

  function Product(a: Mat, b: Mat, cols: nat): Mat
    requires IsMat(a, |a|, |b|) && IsMat(b, |b|, cols)
  {
    seq(|a|, i requires 0 <= i < |a| =>
      seq(cols, j requires 0 <= j < cols => Dot(a[i], Column(b, j))))
  }

  function Identity(n: nat): Mat {
    seq(n, i requires 0 <= i < n => Unit(n, i))
  }

  lemma ApplyUnit(b: Mat, n: nat, j: nat)
    requires IsMat(b, n, n) && j < n
    ensures Apply(b, Unit(n, j)) == Column(b, j)
  {
    hide DotUpTo;
    forall i | 0 <= i < n
      ensures Dot(b[i], Unit(n, j)) == b[i][j]
    {
      DotUnit(b[i], j);
    }
  }

  /** In matrix form: A·B = I. */
  lemma InverseProduct(a: Mat, b: Mat, n: nat)
    requires IsMat(a, n, n) && IsMat(b, n, n) && AreInverse(a, b, n)
    ensures Product(a, b, n) == Identity(n)
  {
    hide DotUpTo;
    var p := Product(a, b, n);
    forall i, j | 0 <= i < n && 0 <= j < n
      ensures p[i][j] == Identity(n)[i][j]
    {
      ApplyUnit(b, n, j);
      var x := Apply(b, Unit(n, j));
      assert Apply(a, x) == Unit(n, j);
      assert Apply(a, x)[i] == Dot(a[i], x);
    }
    forall i | 0 <= i < n
      ensures p[i] == Identity(n)[i]
    {
    }
  }

  // ── Gauss-Jordan elimination, as a statement about kernels ───────────────

  /** [A | I] */
  function Augment(a: Mat, n: nat): Mat
    requires IsMat(a, n, n)
  {
    seq(n, i requires 0 <= i < n => a[i] + Unit(n, i))
  }

  function RightHalf(m: Mat, n: nat): Mat
    requires IsMat(m, n, 2 * n)
  {
    seq(n, i requires 0 <= i < n => m[i][n..])
  }

  /** The first `c` columns are those of the identity. */
  predicate IdentityPrefix(m: Mat, n: nat, c: nat)
    requires IsMat(m, n, 2 * n) && c <= n
  {
    forall i, k :: 0 <= i < n && 0 <= k < c ==> m[i][k] == if i == k then 1 else 0
  }

  lemma AugmentKernel(a: Mat, n: nat, x: Vec, y: Vec)
    requires IsMat(a, n, n) && |x| == n && |y| == n
    ensures InKernel(Augment(a, n), x + y) <==> Apply(a, x) == y
  {
    hide DotUpTo, Add;
    var m := Augment(a, n);
    forall i | 0 <= i < n
      ensures Dot(m[i], x + y) == 0 <==> Apply(a, x)[i] == y[i]
    {
      DotConcat(a[i], Unit(n, i), x, y, n);
      DotUnit(y, i);
      AddCancel(Dot(a[i], x), y[i]);
    }
  }

  lemma ReducedKernel(m: Mat, n: nat, x: Vec, y: Vec)
    requires IsMat(m, n, 2 * n) && IdentityPrefix(m, n, n) && |x| == n && |y| == n
    ensures InKernel(m, x + y) <==> Apply(RightHalf(m, n), y) == x
  {
    hide DotUpTo, Add;
    var r := RightHalf(m, n);
    forall i | 0 <= i < n
      ensures Dot(m[i], x + y) == 0 <==> Apply(r, y)[i] == x[i]
    {
      assert m[i] == Unit(n, i) + r[i];
      DotConcat(Unit(n, i), r[i], x, y, n);
      DotUnit(x, i);
      AddCancel(x[i], Dot(r[i], y));
    }
  }

  lemma EliminationGivesInverse(a: Mat, m: Mat, n: nat)
    requires IsMat(a, n, n) && IsMat(m, n, 2 * n)
    requires SameKernel(Augment(a, n), m, 2 * n) && IdentityPrefix(m, n, n)
    ensures AreInverse(a, RightHalf(m, n), n)
  {
    forall x: Vec, y: Vec | |x| == n && |y| == n
      ensures Apply(a, x) == y <==> Apply(RightHalf(m, n), y) == x
    {
      AugmentKernel(a, n, x, y);
      ReducedKernel(m, n, x, y);
      assert |x + y| == 2 * n;
    }
  }

  /** The vector that elimination exposes when column `c` has no pivot. */
  function KernelWitness(m: Mat, n: nat, c: nat): (x: Vec)
    requires IsMat(m, n, 2 * n) && c < n
    ensures |x| == n && x[c] == 1
  {
    seq(n, k requires 0 <= k < n => if k < c then m[k][c] else if k == c then 1 else 0)
  }

  lemma WitnessInRow(m: Mat, n: nat, c: nat, i: nat)
    requires IsMat(m, n, 2 * n) && c < n && i < n && IdentityPrefix(m, n, c)
    requires i >= c ==> m[i][c] == 0
    ensures Dot(m[i], KernelWitness(m, n, c) + Zeros(n)) == 0
  {
    hide Add, Mul;
    var z := KernelWitness(m, n, c) + Zeros(n);
    forall k | 0 <= k < 2 * n
      ensures Mul(m[i][k], 0) == 0 && Mul(0, z[k]) == 0
    {
      MulZero(m[i][k]);
      MulZero(z[k]);
    }
    DotTail(m[i], z, c + 1, 2 * n);
    MulComm(m[i][c], 1);
    MulOne(m[i][c]);
    if i < c {
      DotSingle(m[i], z, c, i);
      MulOne(z[i]);
    } else {
      DotTail(m[i], z, 0, c);
    }
    AddZero(m[i][c]);
  }

  lemma NoPivotMeansSingular(a: Mat, m: Mat, n: nat, c: nat)
    requires IsMat(a, n, n) && IsMat(m, n, 2 * n) && c < n
    requires SameKernel(Augment(a, n), m, 2 * n) && IdentityPrefix(m, n, c)
    requires forall i :: c <= i < n ==> m[i][c] == 0
    ensures !Injective(a, n)
  {
    hide DotUpTo;
    var x := KernelWitness(m, n, c);
    forall i | 0 <= i < n
      ensures Dot(m[i], x + Zeros(n)) == 0
    {
      WitnessInRow(m, n, c, i);
    }
    assert InKernel(m, x + Zeros(n));
    assert |x + Zeros(n)| == 2 * n;
    AugmentKernel(a, n, x, Zeros(n));
    assert Apply(a, x) == Zeros(n);
    forall i | 0 <= i < n
      ensures Dot(a[i], x) == 0
    {
      assert Apply(a, x)[i] == 0;
    }
    assert InKernel(a, x) && x[c] != Zeros(n)[c];
  }

  /** A matrix with an inverse sends only zero to zero. */
  lemma InverseMeansInjective(a: Mat, b: Mat, n: nat)
    requires IsMat(a, n, n) && IsMat(b, n, n) && AreInverse(a, b, n)
    ensures Injective(a, n)
  {
    hide DotUpTo;
    forall z: Vec | |z| == n && InKernel(a, z)
      ensures z == Zeros(n)
    {
      assert Apply(a, z) == Zeros(n);
      ApplyZeros(b, n);
    }
  }

  lemma ApplyZeros(b: Mat, n: nat)
    requires IsMat(b, |b|, n)
    ensures Apply(b, Zeros(n)) == Zeros(|b|)
  {
    hide Mul, DotUpTo;
    forall i | 0 <= i < |b|
      ensures Dot(b[i], Zeros(n)) == 0
    {
      forall k | 0 <= k < n
        ensures Mul(b[i][k], 0) == 0
      {
        MulZero(b[i][k]);
      }
      DotTail(b[i], Zeros(n), 0, n);
      DotNone(b[i], Zeros(n));
    }
  }

  // ── Row operations and the finished columns ──────────────────────────────

  lemma SameKernelTrans(a: Mat, b: Mat, c: Mat, n: nat)
    requires IsMat(a, |a|, n) && IsMat(b, |b|, n) && IsMat(c, |c|, n)
    requires SameKernel(a, b, n) && SameKernel(b, c, n)
    ensures SameKernel(a, c, n)
  {
  }

  lemma SwapKeepsPrefix(m: Mat, n: nat, c: nat, i: nat, j: nat)
    requires IsMat(m, n, 2 * n) && c <= i < n && c <= j < n && IdentityPrefix(m, n, c)
    ensures IdentityPrefix(SwapRows(m, i, j), n, c)
  {
  }

  lemma ScaleKeepsPrefix(m: Mat, n: nat, c: nat, i: nat, f: byte)
    requires IsMat(m, n, 2 * n) && c <= i < n && IdentityPrefix(m, n, c)
    ensures IdentityPrefix(ScaleRow(m, i, f), n, c)
  {
    hide Mul;
    MulZero(f);
  }

  lemma AddRowKeepsPrefix(m: Mat, n: nat, c: nat, i: nat, f: byte, j: nat)
    requires IsMat(m, n, 2 * n) && i < n && c <= j < n && i != j && IdentityPrefix(m, n, c)
    ensures IdentityPrefix(AddRow(m, i, f, j), n, c)
  {
    hide Mul, Add;
    MulZero(f);
    forall k | 0 <= k < c
      ensures AddRow(m, i, f, j)[i][k] == m[i][k]
    {
      AddZero(m[i][k]);
    }
  }

  /** Row `r` has been cleared in column `c`, or is the pivot row itself. */
  predicate ColumnCleared(m: Mat, n: nat, c: nat, upTo: nat)
    requires IsMat(m, n, 2 * n) && c < n && upTo <= n
  {
    && m[c][c] == 1
    && forall r :: 0 <= r < upTo && r != c ==> m[r][c] == 0
  }

  lemma ClearedColumnExtendsPrefix(m: Mat, n: nat, c: nat)
    requires IsMat(m, n, 2 * n) && c < n && IdentityPrefix(m, n, c) && ColumnCleared(m, n, c, n)
    ensures IdentityPrefix(m, n, c + 1)
  {
  }

  lemma AddRowClears(m: Mat, n: nat, c: nat, r: nat)
    requires IsMat(m, n, 2 * n) && c < n && r < n && r != c && ColumnCleared(m, n, c, r)
    ensures ColumnCleared(AddRow(m, r, m[r][c], c), n, c, r + 1)
  {
    hide Mul, Add;
    MulComm(m[r][c], 1);
    MulOne(m[r][c]);
    AddZero(m[r][c]);
  }
}
