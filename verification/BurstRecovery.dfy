/**
 The dual of module Recovery: whatever parity rows survive, the lost data columns j0, j0 + s,
 j0 + 2s, ... are recovered exactly when no two used rows agree modulo 255 after the step, so a burst
 of consecutive shards always is.  For all other losses the question is reduced to the block of used
 parity rows and missing columns.
 */
module BurstRecovery {
  import opened Bytes
  import opened GaloisField
  import opened Gf256Tables
  import opened LinearAlgebra
  import opened ErasureCode
  import opened Recovery

  // ── The block of missing columns ─────────────────────────────────────────

  function Block(flags: seq<bool>, d: nat): (m: Mat)
    requires Enough(flags, d)
    ensures |m| == |MissingData(flags, d)| && IsMat(m, |m|, |m|)
  {
    var rows, idx := UsedParity(flags, d), MissingData(flags, d);
    seq(|rows|, t requires 0 <= t < |rows| => Gather(EncodingRow(rows[t], d), idx))
  }

  /** The first position of `j` in the list. */
  function PositionOf(idx: seq<nat>, j: nat): (k: nat)
    ensures k <= |idx|
    ensures k < |idx| ==> idx[k] == j
    ensures forall i :: 0 <= i < k ==> idx[i] != j
  {
    if |idx| == 0 || idx[0] == j then 0 else 1 + PositionOf(idx[1..], j)
  }

  /** The vector with `y` on the listed columns and zero elsewhere. */
  function Spread(d: nat, idx: seq<nat>, y: Vec): (x: Vec)
    requires |y| == |idx|
    ensures |x| == d
  {
    seq(d, j requires 0 <= j => var k := PositionOf(idx, j); if k < |idx| then y[k] else 0)
  }

  lemma GatherSpread(d: nat, idx: seq<nat>, y: Vec)
    requires |y| == |idx| && Increasing(idx) && forall k :: 0 <= k < |idx| ==> idx[k] < d
    ensures Gather(Spread(d, idx, y), idx) == y
  {
    forall k | 0 <= k < |idx|
      ensures PositionOf(idx, idx[k]) == k
    {
    }
  }

  /** A used row against a vector on the missing columns is a row of the block. */
  lemma BlockRow(flags: seq<bool>, d: nat, x: Vec, t: nat)
    requires Enough(flags, d) && |x| == d && OnMissing(flags, d, x) && t < |UsedParity(flags, d)|
    ensures Dot(EncodingRow(UsedParity(flags, d)[t], d), x) == Dot(Block(flags, d)[t], Gather(x, MissingData(flags, d)))
  {
    hide DotUpTo, IndicesWhere, UsedParity, Gather;
    DotOnMissing(EncodingRow(UsedParity(flags, d)[t], d), x, flags, d);
  }

  /** The sub-matrix is invertible exactly when the block is. */
  lemma BlockIff(flags: seq<bool>, d: nat)
    requires Enough(flags, d)
    ensures Injective(SubMatrix(UsedIndices(flags, d), d), d) <==> Injective(Block(flags, d), |MissingData(flags, d)|)
  {
    hide Injective, IndicesWhere, UsedIndices, UsedParity, Block, MissingData;
    if Injective(Block(flags, d), |MissingData(flags, d)|) {
      BlockSuffices(flags, d);
    }
    if Injective(SubMatrix(UsedIndices(flags, d), d), d) {
      BlockIsNeeded(flags, d);
    }
  }

  lemma BlockSuffices(flags: seq<bool>, d: nat)
    requires Enough(flags, d) && Injective(Block(flags, d), |MissingData(flags, d)|)
    ensures Injective(SubMatrix(UsedIndices(flags, d), d), d)
  {
    hide DotUpTo, IndicesWhere, UsedIndices, UsedParity, Block, MissingData;
    var idx := MissingData(flags, d);
    forall x: Vec | |x| == d && InKernel(SubMatrix(UsedIndices(flags, d), d), x)
      ensures x == Zeros(d)
    {
      KernelIsOnMissing(flags, d, x);
      var y := Gather(x, idx);
      forall t | 0 <= t < |Block(flags, d)|
        ensures Dot(Block(flags, d)[t], y) == 0
      {
        BlockRow(flags, d, x, t);
      }
      assert InKernel(Block(flags, d), y);
      forall j | 0 <= j < d && !flags[j]
        ensures x[j] == 0
      {
        assert j in idx;
        var k :| 0 <= k < |idx| && idx[k] == j;
        assert y[k] == 0;
      }
    }
  }

  lemma BlockIsNeeded(flags: seq<bool>, d: nat)
    requires Enough(flags, d) && Injective(SubMatrix(UsedIndices(flags, d), d), d)
    ensures Injective(Block(flags, d), |MissingData(flags, d)|)
  {
    hide DotUpTo, IndicesWhere, UsedIndices, UsedParity, Block, MissingData, Spread, Gather;
    var idx := MissingData(flags, d);
    MissingIncreases(flags, d);
    forall y: Vec | |y| == |idx| && InKernel(Block(flags, d), y)
      ensures y == Zeros(|idx|)
    {
      var x := Spread(d, idx, y);
      GatherSpread(d, idx, y);
      SpreadOnMissing(flags, d, y);
      forall t | 0 <= t < |UsedParity(flags, d)|
        ensures Dot(EncodingRow(UsedParity(flags, d)[t], d), x) == 0
      {
        BlockRow(flags, d, x, t);
      }
      OnMissingIsInKernel(flags, d, x);
      GatherZeros(d, idx);
    }
  }

  lemma SpreadOnMissing(flags: seq<bool>, d: nat, y: Vec)
    requires d <= |flags| && |y| == |MissingData(flags, d)|
    ensures OnMissing(flags, d, Spread(d, MissingData(flags, d), y))
  {
    hide MissingData;
  }

  lemma GatherZeros(d: nat, idx: seq<nat>)
    requires forall k :: 0 <= k < |idx| ==> idx[k] < d
    ensures Gather(Zeros(d), idx) == Zeros(|idx|)
  {
  }

  // ── Polynomials over the field ───────────────────────────────────────────

  /** Horner's rule; the constant coefficient comes first. */
  function Eval(c: Vec, z: byte): byte {
    if |c| == 0 then 0 else Add(c[0], Mul(z, Eval(c[1..], z)))
  }

  /** The quotient by z + q. */
  function Quotient(c: Vec, q: byte): (r: Vec)
    ensures |r| == if |c| == 0 then 0 else |c| - 1
  {
    if |c| <= 1 then [] else [Eval(c[1..], q)] + Quotient(c[1..], q)
  }

  /** c(z) = c(q) + (z + q)·quotient(z). */
  lemma {:induction false} Division(c: Vec, q: byte, z: byte)
    requires |c| > 0
    ensures Eval(c, z) == Add(Eval(c, q), Mul(Add(z, q), Eval(Quotient(c, q), z)))
    decreases |c|
  {
    hide Add, Mul;
    if |c| == 1 {
      assert Eval(c[1..], z) == 0 && Eval(c[1..], q) == 0;
      MulZero(z);
      MulZero(q);
      MulZero(Add(z, q));
      AddZero(c[0]);
    } else {
      Division(c[1..], q, z);
      var rest := Quotient(c[1..], q);
      assert Quotient(c, q)[0] == Eval(c[1..], q) && Quotient(c, q)[1..] == rest;
      HornerStep(c[0], z, q, Eval(c[1..], q), Eval(rest, z));
    }
  }

  /** a + z·(e + (z + q)·f) = (a + q·e) + (z + q)·(e + z·f). */
  lemma HornerStep(a: byte, z: byte, q: byte, e: byte, f: byte)
    ensures Add(a, Mul(z, Add(e, Mul(Add(z, q), f)))) ==
            Add(Add(a, Mul(q, e)), Mul(Add(z, q), Add(e, Mul(z, f))))
  {
    hide Add, Mul;
    var s := Add(z, q);
    Distributive(z, e, Mul(s, f));
    Distributive(s, e, Mul(z, f));
    Distributive(e, z, q);
    MulSwap(z, s, f);
    var u, v, w := Mul(z, e), Mul(q, e), Mul(z, Mul(s, f));
    AddAssoc(a, v, Add(Add(u, v), w));
    AddAssoc(u, v, w);
    AddSwap(v, u, v, w);
    PairCancels(u, v, w);
  }

  lemma PairCancels(u: byte, v: byte, w: byte)
    ensures Add(v, Add(Add(u, v), w)) == Add(u, w)
  {
    hide Add;
    AddComm(u, v);
    AddAssoc(v, u, w);
    AddCancel(v, Add(u, w));
  }

  lemma MulSwap(z: byte, s: byte, f: byte)
    ensures Mul(z, Mul(s, f)) == Mul(s, Mul(z, f))
  {
    hide Mul;
    MulAssoc(z, s, f);
    MulComm(z, s);
    MulAssoc(s, z, f);
  }

  lemma {:induction false} ZeroQuotient(c: Vec, q: byte)
    requires |c| > 0 && Quotient(c, q) == Zeros(|c| - 1) && Eval(c, q) == 0
    ensures c == Zeros(|c|)
    decreases |c|
  {
    hide Add, Mul;
    MulZero(q);
    AddZero(c[0]);
    if |c| == 1 {
      assert Eval(c[1..], q) == 0;
    } else {
      var rest := Quotient(c[1..], q);
      assert Quotient(c, q)[0] == Eval(c[1..], q) && Quotient(c, q)[1..] == rest;
      assert rest == Zeros(|c| - 2);
      ZeroQuotient(c[1..], q);
      assert c == [c[0]] + c[1..];
    }
  }

  /** A polynomial with as many different roots as coefficients is zero. */
  lemma {:induction false} RootsForceZero(c: Vec, p: Vec)
    requires |p| == |c| && Distinct(p, |p|)
    requires forall k :: 0 <= k < |p| ==> Eval(c, p[k]) == 0
    ensures c == Zeros(|c|)
    decreases |c|
  {
    hide Add, Mul, Eval, Quotient;
    if |c| > 0 {
      var n := |c| - 1;
      var q, less := p[n], p[..n];
      forall k | 0 <= k < n
        ensures Eval(Quotient(c, q), less[k]) == 0
      {
        Division(c, q, p[k]);
        AddZero(Mul(Add(p[k], q), Eval(Quotient(c, q), p[k])));
        AddCancel(p[k], q);
        NoZeroDivisors(Add(p[k], q), Eval(Quotient(c, q), p[k]));
      }
      RootsForceZero(Quotient(c, q), less);
      ZeroQuotient(c, q);
    }
  }

  /** (z + q)·c(z), of length one more. */
  function TimesLinear(c: Vec, q: byte): (r: Vec)
    ensures |r| == |c| + 1
  {
    if |c| == 0 then [0]
    else
      var rest := TimesLinear(c[1..], q);
      [Mul(q, c[0]), Add(c[0], rest[0])] + rest[1..]
  }

  lemma {:induction false} TimesLinearEval(c: Vec, q: byte, z: byte)
    ensures Eval(TimesLinear(c, q), z) == Mul(Add(z, q), Eval(c, z))
    decreases |c|
  {
    hide Add, Mul;
    if |c| == 0 {
      assert Eval([0][1..], z) == 0;
      MulZero(z);
      MulZero(Add(z, q));
      AddZero(0);
    } else {
      TimesLinearEval(c[1..], q, z);
      var rest, r := TimesLinear(c[1..], q), TimesLinear(c, q);
      assert r[1..][1..] == rest[1..] && r[1..][0] == Add(c[0], rest[0]);
      LinearStep(c[0], q, z, rest[0], Eval(rest[1..], z), Eval(c[1..], z));
    }
  }

  /** With b + z·e = (z + q)·f:  q·a + z·((a + b) + z·e) = (z + q)·(a + z·f). */
  lemma LinearStep(a: byte, q: byte, z: byte, b: byte, e: byte, f: byte)
    requires Add(b, Mul(z, e)) == Mul(Add(z, q), f)
    ensures Add(Mul(q, a), Mul(z, Add(Add(a, b), Mul(z, e)))) == Mul(Add(z, q), Add(a, Mul(z, f)))
  {
    hide Add, Mul;
    var s := Add(z, q);
    AddAssoc(a, b, Mul(z, e));
    Distributive(z, a, Mul(s, f));
    Distributive(s, a, Mul(z, f));
    Distributive(a, z, q);
    MulSwap(z, s, f);
    var u, v, w := Mul(z, a), Mul(q, a), Mul(s, Mul(z, f));
    AddAssoc(v, u, w);
    AddComm(u, v);
  }

  /** The product of z + p[k]; its leading coefficient is 1. */
  function Product(p: Vec): (c: Vec)
    ensures |c| == |p| + 1
  {
    if |p| == 0 then [1] else TimesLinear(Product(p[..|p| - 1]), p[|p| - 1])
  }

  lemma {:induction false} LeadingTimes(c: Vec, q: byte)
    requires |c| > 0
    ensures TimesLinear(c, q)[|c|] == c[|c| - 1]
    decreases |c|
  {
    hide Add, Mul;
    if |c| == 1 {
      assert TimesLinear(c[1..], q) == [0];
      AddZero(c[0]);
    } else {
      LeadingTimes(c[1..], q);
      assert TimesLinear(c, q)[|c|] == TimesLinear(c[1..], q)[1..][|c| - 2];
    }
  }

  lemma {:induction false} ProductFacts(p: Vec, k: nat)
    requires k < |p|
    ensures Eval(Product(p), p[k]) == 0
    decreases |p|
  {
    hide Add, Mul, Eval, TimesLinear;
    var n := |p| - 1;
    TimesLinearEval(Product(p[..n]), p[n], p[k]);
    if k == n {
      AddZero(p[k]);
      MulZero(Eval(Product(p[..n]), p[k]));
    } else {
      ProductFacts(p[..n], k);
      MulZero(Add(p[k], p[n]));
    }
  }

  lemma {:induction false} ProductLeading(p: Vec)
    ensures Product(p)[|p|] == 1
    decreases |p|
  {
    hide TimesLinear;
    if |p| > 0 {
      ProductLeading(p[..|p| - 1]);
      LeadingTimes(Product(p[..|p| - 1]), p[|p| - 1]);
    }
  }

  // ── Missing columns in arithmetic progression ────────────────────────────

  function PartialSum(c: Vec, z: byte, n: nat): byte
    requires n <= |c|
  {
    if n == 0 then 0 else Add(PartialSum(c, z, n - 1), Mul(c[n - 1], Power(z, n - 1)))
  }

  lemma {:induction false} SumFromFront(c: Vec, z: byte, n: nat)
    requires 0 < n <= |c|
    ensures PartialSum(c, z, n) == Add(c[0], Mul(z, PartialSum(c[1..], z, n - 1)))
    decreases n
  {
    hide Add, Mul;
    if n == 1 {
      MulZero(z);
      AddZero(c[0]);
      AddZero(Mul(c[0], 1));
      MulComm(c[0], 1);
      MulOne(c[0]);
    } else {
      SumFromFront(c, z, n - 1);
      var before, term := PartialSum(c[1..], z, n - 2), Mul(c[n - 1], Power(z, n - 2));
      Distributive(z, before, term);
      MulSwap(z, c[n - 1], Power(z, n - 2));
      AddAssoc(c[0], Mul(z, before), Mul(z, term));
    }
  }

  lemma {:induction false} SumIsEval(c: Vec, z: byte)
    ensures PartialSum(c, z, |c|) == Eval(c, z)
    decreases |c|
  {
    hide Add, Mul;
    if |c| > 0 {
      SumFromFront(c, z, |c|);
      SumIsEval(c[1..], z);
    }
  }

  /** Row `r` on the columns j0, j0 + s, ...: a multiple of the polynomial at alpha^(s·r). */
  lemma {:induction false} RowIsSum(d: nat, idx: seq<nat>, j0: nat, s: nat, r: nat, y: Vec, n: nat)
    requires d <= r && |y| == |idx| && n <= |idx| && InProgression(idx, j0, s)
    requires forall k :: 0 <= k < |idx| ==> idx[k] < d
    ensures DotUpTo(Gather(EncodingRow(r, d), idx), y, n) == Mul(Pow(j0 * r), PartialSum(y, Pow(s * r), n))
    decreases n
  {
    hide Add, Mul, Pow, InProgression, Power;
    if n == 0 {
      MulZero(Pow(j0 * r));
    } else {
      RowIsSum(d, idx, j0, s, r, y, n - 1);
      var k := n - 1;
      ColumnEntry(idx, j0, s, r, k);
      var a, w := Pow(j0 * r), Power(Pow(s * r), k);
      MulAssoc(a, w, y[k]);
      MulComm(w, y[k]);
      Distributive(a, PartialSum(y, Pow(s * r), k), Mul(y[k], w));
    }
  }

  lemma ColumnEntry(idx: seq<nat>, j0: nat, s: nat, r: nat, k: nat)
    requires InProgression(idx, j0, s) && k < |idx|
    ensures Pow(r * idx[k]) == Mul(Pow(j0 * r), Power(Pow(s * r), k))
  {
    hide Pow, Mul, Power;
    EntryInProgression(j0, s, k, r);
    assert idx[k] == j0 + k * s;
    ProductCommutes(r, idx[k]);
  }

  lemma ProductCommutes(a: nat, b: nat)
    ensures a * b == b * a
  {
  }

  /** The points alpha^(s·r) of the used rows r. */
  function RowPoints(s: nat, rows: seq<nat>): (p: Vec)
    ensures |p| == |rows|
    ensures forall t :: 0 <= t < |rows| ==> p[t] == Pow(s * rows[t])
  {
    hide Pow;
    seq(|rows|, t requires 0 <= t < |rows| => Pow(s * rows[t]))
  }

  lemma BlockRowIsEval(flags: seq<bool>, d: nat, j0: nat, s: nat, y: Vec, t: nat)
    requires Enough(flags, d) && InProgression(MissingData(flags, d), j0, s)
    requires |y| == |MissingData(flags, d)| && t < |UsedParity(flags, d)|
    ensures Dot(Block(flags, d)[t], y) == 0 <==> Eval(y, RowPoints(s, UsedParity(flags, d))[t]) == 0
  {
    hide DotUpTo, IndicesWhere, UsedParity, MissingData, Gather, Pow, Mul, Eval, PartialSum, InProgression;
    var r, idx := UsedParity(flags, d)[t], MissingData(flags, d);
    RowIsSum(d, idx, j0, s, r, y, |idx|);
    SumIsEval(y, Pow(s * r));
    PowNonZero(j0 * r);
    NoZeroDivisors(Pow(j0 * r), Eval(y, Pow(s * r)));
  }

  lemma RowPointsDistinct(s: nat, rows: seq<nat>)
    requires forall a, b :: 0 <= a < b < |rows| ==> !Confused(s, rows[a], rows[b])
    ensures Distinct(RowPoints(s, rows), |rows|)
  {
    hide Pow;
    forall a, b | 0 <= a < b < |rows|
      ensures RowPoints(s, rows)[a] != RowPoints(s, rows)[b]
    {
      PowEqual(s * rows[a], s * rows[b]);
      assert !Confused(s, rows[a], rows[b]);
    }
  }

  lemma DistinctRowsRecover(flags: seq<bool>, d: nat, j0: nat, s: nat)
    requires Enough(flags, d) && InProgression(MissingData(flags, d), j0, s)
    requires var rows := UsedParity(flags, d);
             forall a, b :: 0 <= a < b < |rows| ==> !Confused(s, rows[a], rows[b])
    ensures Injective(Block(flags, d), |MissingData(flags, d)|)
  {
    hide DotUpTo, IndicesWhere, UsedParity, MissingData, Block, Eval, InProgression, Pow, Confused, Distinct, RowPoints;
    var p := RowPoints(s, UsedParity(flags, d));
    RowPointsDistinct(s, UsedParity(flags, d));
    forall y: Vec | |y| == |p| && InKernel(Block(flags, d), y)
      ensures y == Zeros(|y|)
    {
      forall t | 0 <= t < |p|
        ensures Eval(y, p[t]) == 0
      {
        BlockRowIsEval(flags, d, j0, s, y, t);
        assert Dot(Block(flags, d)[t], y) == 0;
      }
      RootsForceZero(y, p);
    }
  }

  /** All points but number `b`. */
  function Others(p: Vec, b: nat): (o: Vec)
    requires b < |p|
    ensures |o| == |p| - 1
  {
    p[..b] + p[b + 1..]
  }

  lemma ConfusedRowsDefeat(flags: seq<bool>, d: nat, j0: nat, s: nat, a: nat, b: nat)
    requires Enough(flags, d) && InProgression(MissingData(flags, d), j0, s)
    requires a < b < |UsedParity(flags, d)| && Confused(s, UsedParity(flags, d)[a], UsedParity(flags, d)[b])
    ensures !Injective(Block(flags, d), |MissingData(flags, d)|)
  {
    hide DotUpTo, IndicesWhere, UsedParity, MissingData, Block, Eval, InProgression, Pow, Product;
    var rows := UsedParity(flags, d);
    var p := RowPoints(s, rows);
    PowEqual(s * rows[a], s * rows[b]);
    var others := Others(p, b);
    var y := Product(others);
    forall t | 0 <= t < |rows|
      ensures Dot(Block(flags, d)[t], y) == 0
    {
      var k := if t < b then t else if t == b then a else t - 1;
      assert others[k] == p[t];
      ProductFacts(others, k);
      BlockRowIsEval(flags, d, j0, s, y, t);
    }
    ProductLeading(others);
    assert y != Zeros(|y|);
    assert InKernel(Block(flags, d), y);
  }

  /**
   Missing columns j0, j0 + s, j0 + 2s, ... and any surviving parity rows: recovered exactly when no
   two of the rows in use agree modulo 255 after multiplication by the step.
   */
  lemma ColumnsRecoverableIff(flags: seq<bool>, d: nat, j0: nat, s: nat)
    requires Enough(flags, d) && InProgression(MissingData(flags, d), j0, s)
    ensures var rows := UsedParity(flags, d);
            Injective(SubMatrix(UsedIndices(flags, d), d), d) <==>
            forall a, b :: 0 <= a < b < |rows| ==> !Confused(s, rows[a], rows[b])
  {
    hide IndicesWhere, UsedIndices, UsedParity, MissingData, Injective, Confused, Block, InProgression;
    BlockIff(flags, d);
    var rows := UsedParity(flags, d);
    if a, b :| 0 <= a < b < |rows| && Confused(s, rows[a], rows[b]) {
      ConfusedRowsDefeat(flags, d, j0, s, a, b);
    } else {
      DistinctRowsRecover(flags, d, j0, s);
    }
  }

  /** In every geometry that the codec accepts, a burst of consecutive data shards is recovered from any enough survivors. */
  lemma BurstRecovers(flags: seq<bool>, d: nat, j0: nat)
    requires 1 <= d && |flags| <= 256 && Enough(flags, d) && InProgression(MissingData(flags, d), j0, 1)
    ensures Injective(SubMatrix(UsedIndices(flags, d), d), d)
  {
    hide IndicesWhere, UsedIndices, MissingData, Injective, InProgression;
    ColumnsRecoverableIff(flags, d, j0, 1);
    UsedParityIncreases(flags, d);
    hide UsedParity;
    var rows := UsedParity(flags, d);
    forall a, b | 0 <= a < b < |rows|
      ensures !Confused(1, rows[a], rows[b])
    {
      assert rows[a] < rows[b];
      CongruentIff(rows[a], rows[b] - rows[a]);
    }
  }
}
