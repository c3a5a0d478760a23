/**
 Which losses the erasure code survives.

 Reconstruction works from the first `d` present shards.  These are the surviving data
 shards followed by the first surviving parity shards.  The main theorem treats surviving
 parity rows r0, r0 + s, r0 + 2s, ...: the data is determined exactly when s·(i - j) is not
 a multiple of 255 for any two missing data columns i and j.
 */
module Recovery {
  import opened Bytes
  import opened GaloisField
  import opened Gf256Tables
  import opened LinearAlgebra
  import opened ErasureCode

  // ── Moments: sums of y[a] · p[a]^t ───────────────────────────────────────

  function Moment(y: Vec, p: Vec, t: nat, n: nat): byte
    requires n <= |y| && n <= |p|
  {
    if n == 0 then 0 else Add(Moment(y, p, t, n - 1), Mul(y[n - 1], Power(p[n - 1], t)))
  }

  /** Weights multiplied by the distance of their point from `q`. */
  function Shifted(y: Vec, p: Vec, q: byte): (v: Vec)
    requires |y| == |p|
    ensures |v| == |y|
  {
    seq(|y|, a requires 0 <= a < |y| => Mul(y[a], Add(p[a], q)))
  }

  lemma ShiftedTerm(y: byte, p: byte, q: byte, w: byte)
    ensures Mul(Mul(y, Add(p, q)), w) == Add(Mul(y, Mul(p, w)), Mul(q, Mul(y, w)))
  {
    hide Add, Mul;
    Distributive(y, p, q);
    Distributive(w, Mul(y, p), Mul(y, q));
    MulAssoc(y, p, w);
    MulComm(y, q);
    MulAssoc(q, y, w);
  }

  lemma {:induction false} MomentShift(y: Vec, p: Vec, q: byte, t: nat, n: nat)
    requires |y| == |p| && n <= |y|
    ensures Moment(Shifted(y, p, q), p, t, n) == Add(Moment(y, p, t + 1, n), Mul(q, Moment(y, p, t, n)))
  {
    hide Add, Mul;
    if n == 0 {
      MulZero(q);
      AddZero(0);
    } else {
      MomentShift(y, p, q, t, n - 1);
      var a := n - 1;
      var w := Power(p[a], t);
      ShiftedTerm(y[a], p[a], q, w);
      Distributive(q, Moment(y, p, t, a), Mul(y[a], w));
      AddSwap(Moment(y, p, t + 1, a), Mul(q, Moment(y, p, t, a)), Mul(y[a], Mul(p[a], w)), Mul(q, Mul(y[a], w)));
    }
  }

  predicate Distinct(p: Vec, n: nat)
    requires n <= |p|
  {
    forall a, b :: 0 <= a < b < n ==> p[a] != p[b]
  }

  /** Vandermonde: weights on `n` distinct points whose first `n` moments vanish are zero. */
  lemma {:induction false} VandermondeNonSingular(y: Vec, p: Vec, n: nat)
    requires |y| == |p| && n <= |y| && Distinct(p, n)
    requires forall t :: 0 <= t < n ==> Moment(y, p, t, n) == 0
    ensures forall a :: 0 <= a < n ==> y[a] == 0
    decreases n
  {
    hide Add, Mul;
    if n > 0 {
      var q, m := p[n - 1], n - 1;
      var v := Shifted(y, p, q);
      forall t | 0 <= t < m
        ensures Moment(v, p, t, m) == 0
      {
        MomentShift(y, p, q, t, n);
        MulZero(q);
        AddZero(0);
        AddZero(q);
        MulZero(y[n - 1]);
        MulZero(Power(q, t));
        AddZero(Moment(v, p, t, n - 1));
      }
      VandermondeNonSingular(v, p, n - 1);
      forall a | 0 <= a < n - 1
        ensures y[a] == 0
      {
        assert v[a] == 0;
        NoZeroDivisors(y[a], Add(p[a], q));
        AddCancel(p[a], q);
      }
      MomentOfZeros(y, p, 0, n - 1);
      assert Moment(y, p, 0, n) == 0;
      AddZero(Mul(y[n - 1], 1));
      MulComm(y[n - 1], 1);
      MulOne(y[n - 1]);
    }
  }

  lemma {:induction false} MomentOfZeros(y: Vec, p: Vec, t: nat, n: nat)
    requires n <= |y| && n <= |p|
    requires forall a :: 0 <= a < n ==> y[a] == 0
    ensures Moment(y, p, t, n) == 0
  {
    hide Add, Mul;
    if n > 0 {
      MomentOfZeros(y, p, t, n - 1);
      MulZero(Power(p[n - 1], t));
      AddZero(0);
    }
  }

  // ── Restricting a product to the missing columns ─────────────────────────

  function Gather(v: Vec, idx: seq<nat>): (w: Vec)
    requires forall k :: 0 <= k < |idx| ==> idx[k] < |v|
    ensures |w| == |idx|
  {
    seq(|idx|, k requires 0 <= k < |idx| => v[idx[k]])
  }

  lemma GatherMore(v: Vec, idx: seq<nat>, x: nat)
    requires (forall k :: 0 <= k < |idx| ==> idx[k] < |v|) && x < |v|
    ensures Gather(v, idx + [x]) == Gather(v, idx) + [v[x]]
  {
  }

  lemma DotMore(u: Vec, v: Vec, a: byte, b: byte)
    requires |u| == |v|
    ensures Dot(u + [a], v + [b]) == Add(Dot(u, v), Mul(a, b))
  {
    hide Add, Mul;
    DotPrefix(u + [a], v + [b], u, v, |u|);
  }

  lemma NothingGathered(row: Vec, x: Vec, flags: seq<bool>)
    ensures DotUpTo(row, x, 0) == Dot(Gather(row, IndicesWhere(flags, false, 0)), Gather(x, IndicesWhere(flags, false, 0)))
  {
  }

  lemma OneMoreColumn(row: Vec, x: Vec, flags: seq<bool>, n: nat, before: seq<nat>, idx: seq<nat>)
    requires n < |row| && n < |x| && n < |flags| && (flags[n] ==> x[n] == 0)
    requires forall k :: 0 <= k < |before| ==> before[k] < n
    requires idx == if flags[n] then before else before + [n]
    requires DotUpTo(row, x, n) == Dot(Gather(row, before), Gather(x, before))
    ensures forall k :: 0 <= k < |idx| ==> idx[k] <= n
    ensures DotUpTo(row, x, n + 1) == Dot(Gather(row, idx), Gather(x, idx))
  {
    hide Add, Mul, Gather, Dot;
    if flags[n] {
      MulZero(row[n]);
      AddZero(DotUpTo(row, x, n));
    } else {
      GatherMore(row, before, n);
      GatherMore(x, before, n);
      DotMore(Gather(row, before), Gather(x, before), row[n], x[n]);
    }
  }

  /** Where `x` is zero on the present columns, only the missing ones contribute. */
  lemma {:induction false} DotOnMissing(row: Vec, x: Vec, flags: seq<bool>, n: nat)
    requires n <= |flags| && n <= |row| && n <= |x|
    requires forall i :: 0 <= i < n && flags[i] ==> x[i] == 0
    ensures var idx := IndicesWhere(flags, false, n);
            DotUpTo(row, x, n) == Dot(Gather(row, idx), Gather(x, idx))
  {
    hide Add, Mul, IndicesWhere, Gather, Dot, DotUpTo;
    if n == 0 {
      NothingGathered(row, x, flags);
    } else {
      DotOnMissing(row, x, flags, n - 1);
      IndicesStep(flags, false, n - 1);
      OneMoreColumn(row, x, flags, n - 1, IndicesWhere(flags, false, n - 1), IndicesWhere(flags, false, n));
    }
  }

  // ── The used shards ──────────────────────────────────────────────────────

  /** The surviving parity rows below `n`. */
  function SurvivingParity(flags: seq<bool>, d: nat, n: nat): (rows: seq<nat>)
    requires d <= n <= |flags|
    ensures forall k :: 0 <= k < |rows| ==> d <= rows[k] < n && flags[rows[k]]
  {
    if n == d then []
    else if flags[n - 1] then SurvivingParity(flags, d, n - 1) + [n - 1]
    else SurvivingParity(flags, d, n - 1)
  }

  /** They follow the surviving data rows in the list of all survivors. */
  lemma {:induction false} SurvivorsSplit(flags: seq<bool>, d: nat, n: nat)
    requires d <= n <= |flags|
    ensures IndicesWhere(flags, true, n) == IndicesWhere(flags, true, d) + SurvivingParity(flags, d, n)
  {
    hide IndicesWhere;
    if n > d {
      SurvivorsSplit(flags, d, n - 1);
      IndicesStep(flags, true, n - 1);
      AppendAssoc(IndicesWhere(flags, true, d), SurvivingParity(flags, d, n - 1), n - 1);
    }
  }

  lemma AppendAssoc(a: seq<nat>, b: seq<nat>, x: nat)
    ensures a + b + [x] == a + (b + [x])
  {
  }

  function MissingData(flags: seq<bool>, d: nat): (idx: seq<nat>)
    requires d <= |flags|
    ensures |idx| <= d
    ensures forall k :: 0 <= k < |idx| ==> idx[k] < d && !flags[idx[k]]
    ensures forall i :: 0 <= i < d && !flags[i] ==> i in idx
  {
    IndicesWhere(flags, false, d)
  }

  predicate Enough(flags: seq<bool>, d: nat) {
    d <= |flags| && |IndicesWhere(flags, true, |flags|)| >= d
  }

  /** The parity rows that reconstruction uses: as many as data shards are missing. */
  function UsedParity(flags: seq<bool>, d: nat): (rows: seq<nat>)
    requires Enough(flags, d)
    ensures |rows| == |MissingData(flags, d)|
    ensures forall k :: 0 <= k < |rows| ==> d <= rows[k] < |flags| && flags[rows[k]]
    ensures UsedIndices(flags, d) == IndicesWhere(flags, true, d) + rows
  {
    hide IndicesWhere;
    IndicesComplement(flags, d);
    SurvivorsSplit(flags, d, |flags|);
    SurvivingParity(flags, d, |flags|)[..|MissingData(flags, d)|]
  }

  lemma MissingIncreases(flags: seq<bool>, d: nat)
    requires d <= |flags|
    ensures Increasing(MissingData(flags, d))
  {
    hide IndicesWhere, Increasing;
    IndicesIncrease(flags, false, d);
  }

  lemma UsedParityIncreases(flags: seq<bool>, d: nat)
    requires Enough(flags, d)
    ensures Increasing(UsedParity(flags, d))
  {
    hide IndicesWhere, SurvivingParity, MissingData;
    var data, rows := IndicesWhere(flags, true, d), UsedParity(flags, d);
    IndicesIncrease(flags, true, |flags|);
    SurvivorsSplit(flags, d, |flags|);
    UsedParityIsPrefix(flags, d);
    var all := IndicesWhere(flags, true, |flags|);
    forall k, l | 0 <= k < l < |rows|
      ensures rows[k] < rows[l]
    {
      assert all[|data| + k] == rows[k] && all[|data| + l] == rows[l];
    }
  }

  lemma UsedParityIsPrefix(flags: seq<bool>, d: nat)
    requires Enough(flags, d)
    ensures |SurvivingParity(flags, d, |flags|)| >= |MissingData(flags, d)|
    ensures UsedParity(flags, d) == SurvivingParity(flags, d, |flags|)[..|MissingData(flags, d)|]
  {
    hide IndicesWhere, SurvivingParity;
    IndicesComplement(flags, d);
    SurvivorsSplit(flags, d, |flags|);
  }

  /** `x` is zero on the present data columns. */
  predicate OnMissing(flags: seq<bool>, d: nat, x: Vec)
    requires d <= |flags| && |x| == d
  {
    forall i :: 0 <= i < d && flags[i] ==> x[i] == 0
  }

  lemma KernelIsOnMissing(flags: seq<bool>, d: nat, x: Vec)
    requires Enough(flags, d) && |x| == d
    requires InKernel(SubMatrix(UsedIndices(flags, d), d), x)
    ensures OnMissing(flags, d, x)
    ensures forall t :: 0 <= t < |UsedParity(flags, d)| ==> Dot(EncodingRow(UsedParity(flags, d)[t], d), x) == 0
  {
    hide DotUpTo, IndicesWhere, UsedIndices;
    var data, rows := IndicesWhere(flags, true, d), UsedParity(flags, d);
    var use := UsedIndices(flags, d);
    var m := SubMatrix(use, d);
    forall i | 0 <= i < d && flags[i]
      ensures x[i] == 0
    {
      assert i in data;
      var l :| 0 <= l < |data| && data[l] == i;
      assert use[l] == i;
      assert Dot(m[l], x) == 0;
      DotUnit(x, i);
    }
    forall t | 0 <= t < |rows|
      ensures Dot(EncodingRow(rows[t], d), x) == 0
    {
      assert use[|data| + t] == rows[t];
      assert Dot(m[|data| + t], x) == 0;
    }
  }

  lemma OnMissingIsInKernel(flags: seq<bool>, d: nat, x: Vec)
    requires Enough(flags, d) && |x| == d && OnMissing(flags, d, x)
    requires forall t :: 0 <= t < |UsedParity(flags, d)| ==> Dot(EncodingRow(UsedParity(flags, d)[t], d), x) == 0
    ensures InKernel(SubMatrix(UsedIndices(flags, d), d), x)
  {
    hide DotUpTo, IndicesWhere, UsedIndices;
    var data, rows := IndicesWhere(flags, true, d), UsedParity(flags, d);
    var use := UsedIndices(flags, d);
    var m := SubMatrix(use, d);
    forall i | 0 <= i < d
      ensures Dot(m[i], x) == 0
    {
      if i < |data| {
        assert use[i] == data[i];
        DotUnit(x, data[i]);
      } else {
        assert use[i] == rows[i - |data|];
      }
    }
  }

  // ── The exact condition for parity rows in arithmetic progression ────────

  /** The parity rows in use are r0, r0 + s, r0 + 2s, ... */
  predicate InProgression(rows: seq<nat>, r0: nat, s: nat) {
    forall t :: 0 <= t < |rows| ==> rows[t] == r0 + t * s
  }

  /** Two columns look alike to every row of the progression. */
  predicate Confused(s: nat, i: nat, j: nat) {
    (s * i) % ORDER == (s * j) % ORDER
  }

  lemma EntryInProgression(r0: nat, s: nat, t: nat, j: nat)
    ensures Pow((r0 + t * s) * j) == Mul(Pow(r0 * j), Power(Pow(s * j), t))
  {
    hide Pow, Mul;
    PowerOfPow(s * j, t);
    MulPow(r0 * j, (s * j) * t);
    assert (r0 + t * s) * j == r0 * j + (s * j) * t;
  }

  /** The missing entries of `x`, rescaled by row r0. */
  function Weights(r0: nat, idx: seq<nat>, x: Vec): (y: Vec)
    requires forall k :: 0 <= k < |idx| ==> idx[k] < |x|
    ensures |y| == |idx|
    ensures forall k :: 0 <= k < |idx| ==> y[k] == Mul(Pow(r0 * idx[k]), x[idx[k]])
  {
    hide Mul, Pow;
    seq(|idx|, k requires 0 <= k < |idx| => Mul(Pow(r0 * idx[k]), x[idx[k]]))
  }

  /** The points alpha^(s·j) of the missing columns j. */
  function Points(s: nat, idx: seq<nat>): (p: Vec)
    ensures |p| == |idx|
    ensures forall k :: 0 <= k < |idx| ==> p[k] == Pow(s * idx[k])
  {
    hide Pow;
    seq(|idx|, k requires 0 <= k < |idx| => Pow(s * idx[k]))
  }

  /** Row r0 + t·s against `x` is the t-th moment of the weights on the points. */
  lemma {:induction false} RowIsMoment(r0: nat, s: nat, t: nat, d: nat, idx: seq<nat>, x: Vec, n: nat)
    requires |x| == d && d <= r0 && n <= |idx|
    requires forall k :: 0 <= k < |idx| ==> idx[k] < d
    ensures DotUpTo(Gather(EncodingRow(r0 + t * s, d), idx), Gather(x, idx), n)
         == Moment(Weights(r0, idx, x), Points(s, idx), t, n)
  {
    hide Add, Mul, Pow, Weights, Points;
    if n > 0 {
      RowIsMoment(r0, s, t, d, idx, x, n - 1);
      var j := idx[n - 1];
      EntryInProgression(r0, s, t, j);
      var a, w := Pow(r0 * j), Power(Pow(s * j), t);
      assert EncodingRow(r0 + t * s, d)[j] == Pow((r0 + t * s) * j);
      MulAssoc(a, w, x[j]);
      MulComm(w, x[j]);
      MulAssoc(a, x[j], w);
    }
  }

  lemma PointsDistinct(flags: seq<bool>, d: nat, s: nat)
    requires d <= |flags|
    requires forall i, j :: 0 <= i < j < d && !flags[i] && !flags[j] ==> !Confused(s, i, j)
    ensures Distinct(Points(s, MissingData(flags, d)), |MissingData(flags, d)|)
  {
    hide Pow, Points, MissingData;
    var idx := MissingData(flags, d);
    forall a, b | 0 <= a < b < |idx|
      ensures Points(s, idx)[a] != Points(s, idx)[b]
    {
      PowEqual(s * idx[a], s * idx[b]);
      MissingIncreases(flags, d);
      assert !Confused(s, idx[a], idx[b]);
    }
  }

  lemma MomentsVanish(flags: seq<bool>, d: nat, r0: nat, s: nat, x: Vec)
    requires Enough(flags, d) && d <= r0 && InProgression(UsedParity(flags, d), r0, s)
    requires |x| == d && InKernel(SubMatrix(UsedIndices(flags, d), d), x)
    ensures OnMissing(flags, d, x)
    ensures var idx := MissingData(flags, d);
            forall t :: 0 <= t < |idx| ==> Moment(Weights(r0, idx, x), Points(s, idx), t, |idx|) == 0
  {
    hide DotUpTo, IndicesWhere, UsedIndices, UsedParity, InKernel, Weights, Points;
    KernelIsOnMissing(flags, d, x);
    var idx := MissingData(flags, d);
    forall t | 0 <= t < |idx|
      ensures Moment(Weights(r0, idx, x), Points(s, idx), t, |idx|) == 0
    {
      assert UsedParity(flags, d)[t] == r0 + t * s;
      DotOnMissing(EncodingRow(r0 + t * s, d), x, flags, d);
      RowIsMoment(r0, s, t, d, idx, x, |idx|);
    }
  }

  lemma DistinctColumnsRecover(flags: seq<bool>, d: nat, r0: nat, s: nat)
    requires Enough(flags, d) && d <= r0 && InProgression(UsedParity(flags, d), r0, s)
    requires forall i, j :: 0 <= i < j < d && !flags[i] && !flags[j] ==> !Confused(s, i, j)
    ensures Injective(SubMatrix(UsedIndices(flags, d), d), d)
  {
    hide IndicesWhere, UsedIndices, UsedParity, MissingData, Weights, Points, InKernel, Mul, Pow;
    var idx := MissingData(flags, d);
    PointsDistinct(flags, d, s);
    forall x: Vec | |x| == d && InKernel(SubMatrix(UsedIndices(flags, d), d), x)
      ensures x == Zeros(d)
    {
      MomentsVanish(flags, d, r0, s, x);
      VandermondeNonSingular(Weights(r0, idx, x), Points(s, idx), |idx|);
      WeightsZero(flags, d, r0, x);
    }
  }

  lemma WeightsZero(flags: seq<bool>, d: nat, r0: nat, x: Vec)
    requires d <= |flags| && |x| == d && OnMissing(flags, d, x)
    requires var idx := MissingData(flags, d);
             forall a :: 0 <= a < |idx| ==> Weights(r0, idx, x)[a] == 0
    ensures x == Zeros(d)
  {
    hide MissingData, Weights, Mul, Pow;
    var idx := MissingData(flags, d);
    forall i | 0 <= i < d
      ensures x[i] == 0
    {
      if !flags[i] {
        assert i in idx;
        var a :| 0 <= a < |idx| && idx[a] == i;
        assert Weights(r0, idx, x)[a] == 0;
        PowNonZero(r0 * i);
        NoZeroDivisors(Pow(r0 * i), x[i]);
      }
    }
  }

  // ── The converse ─────────────────────────────────────────────────────────

  /** A non-zero vector on two confused columns that every row of the progression kills. */
  ghost function ConfusedVector(d: nat, r0: nat, i: nat, j: nat): (x: Vec)
    requires i < j < d
    ensures |x| == d
  {
    PowNonZero(r0 * i);
    PowNonZero(r0 * j);
    var u, v := Inverse(Pow(r0 * i)), Inverse(Pow(r0 * j));
    seq(d, k => if k == i then u else if k == j then v else 0)
  }

  /** The contribution of one of the two columns to row r0 + t·s. */
  lemma RescaledEntry(r0: nat, s: nat, t: nat, j: nat)
    ensures Pow(r0 * j) != 0
    ensures Mul(Pow((r0 + t * s) * j), Inverse(Pow(r0 * j))) == Power(Pow(s * j), t)
  {
    hide Mul, Pow;
    PowNonZero(r0 * j);
    EntryInProgression(r0, s, t, j);
    var a, w := Pow(r0 * j), Power(Pow(s * j), t);
    MulComm(a, w);
    MulAssoc(w, a, Inverse(a));
    MulComm(w, 1);
    MulOne(w);
  }

  lemma ConfusedRowVanishes(d: nat, r0: nat, s: nat, t: nat, i: nat, j: nat)
    requires i < j < d <= r0 && Confused(s, i, j)
    ensures Dot(EncodingRow(r0 + t * s, d), ConfusedVector(d, r0, i, j)) == 0
  {
    hide Add, Mul, Pow;
    var row, x := EncodingRow(r0 + t * s, d), ConfusedVector(d, r0, i, j);
    forall k | 0 <= k < d
      ensures Mul(row[k], 0) == 0
    {
      MulZero(row[k]);
    }
    PowEqual(s * i, s * j);
    RescaledEntry(r0, s, t, i);
    RescaledEntry(r0, s, t, j);
    var w := Power(Pow(s * i), t);
    assert Mul(row[i], x[i]) == w && Mul(row[j], x[j]) == w;
    DotTail(row, x, j + 1, d);
    DotSingle(row, x, j, i);
    AddZero(w);
  }

  lemma ConfusedColumnsDefeat(flags: seq<bool>, d: nat, r0: nat, s: nat, i: nat, j: nat)
    requires Enough(flags, d) && d <= r0 && InProgression(UsedParity(flags, d), r0, s)
    requires i < j < d && !flags[i] && !flags[j] && Confused(s, i, j)
    ensures !Injective(SubMatrix(UsedIndices(flags, d), d), d)
  {
    hide DotUpTo, IndicesWhere, UsedIndices, UsedParity, Pow;
    var x := ConfusedVector(d, r0, i, j);
    forall t | 0 <= t < |UsedParity(flags, d)|
      ensures Dot(EncodingRow(UsedParity(flags, d)[t], d), x) == 0
    {
      ConfusedRowVanishes(d, r0, s, t, i, j);
    }
    OnMissingIsInKernel(flags, d, x);
    assert x[i] != Zeros(d)[i];
  }

  // ── Main results ─────────────────────────────────────────────────────────

  /**
   With the parity rows in use in arithmetic progression, the sub-matrix is invertible
   exactly when no two missing data columns are confused by the step.
   */
  lemma RecoverableIff(flags: seq<bool>, d: nat, r0: nat, s: nat)
    requires Enough(flags, d) && d <= r0 && InProgression(UsedParity(flags, d), r0, s)
    ensures Injective(SubMatrix(UsedIndices(flags, d), d), d) <==>
            forall i, j :: 0 <= i < j < d && !flags[i] && !flags[j] ==> !Confused(s, i, j)
  {
    hide IndicesWhere, UsedIndices, UsedParity, Injective, Confused;
    if i, j :| 0 <= i < j < d && !flags[i] && !flags[j] && Confused(s, i, j) {
      ConfusedColumnsDefeat(flags, d, r0, s, i, j);
    } else {
      DistinctColumnsRecover(flags, d, r0, s);
    }
  }

  /** Consecutive parity rows recover any loss (in particular when no parity is lost). */
  lemma ConsecutiveRowsRecover(flags: seq<bool>, d: nat, r0: nat)
    requires Enough(flags, d) && d <= ORDER && d <= r0 && InProgression(UsedParity(flags, d), r0, 1)
    ensures Injective(SubMatrix(UsedIndices(flags, d), d), d)
  {
    hide IndicesWhere, UsedIndices, UsedParity, Injective;
    DistinctColumnsRecover(flags, d, r0, 1);
  }

  /** One missing data shard is recovered from any one parity shard. */
  lemma OneLossRecovers(flags: seq<bool>, d: nat)
    requires Enough(flags, d) && |MissingData(flags, d)| == 1
    ensures Injective(SubMatrix(UsedIndices(flags, d), d), d)
  {
    hide IndicesWhere, UsedIndices, UsedParity, Injective, MissingData;
    var idx := MissingData(flags, d);
    assert forall i :: 0 <= i < d && !flags[i] ==> i == idx[0];
    DistinctColumnsRecover(flags, d, UsedParity(flags, d)[0], 1);
  }

  /** Two missing data shards i < j and parity rows r < r': recovered iff 255 does not divide (r' - r)(j - i). */
  lemma TwoLossesRecoverIff(flags: seq<bool>, d: nat, i: nat, j: nat)
    requires Enough(flags, d) && MissingData(flags, d) == [i, j]
    ensures var rows := UsedParity(flags, d);
            |rows| == 2 && rows[0] < rows[1] && i < j
    ensures var rows := UsedParity(flags, d);
            Injective(SubMatrix(UsedIndices(flags, d), d), d) <==> ((rows[1] - rows[0]) * (j - i)) % ORDER != 0
  {
    hide IndicesWhere, UsedIndices, Injective;
    UsedParityIncreases(flags, d);
    MissingIncreases(flags, d);
    hide UsedParity, MissingData;
    var rows := UsedParity(flags, d);
    var s := rows[1] - rows[0];
    assert MissingData(flags, d)[0] == i && MissingData(flags, d)[1] == j;
    assert InProgression(rows, rows[0], s) by {
      assert rows[0] == rows[0] + 0 * s && rows[1] == rows[0] + 1 * s;
    }
    RecoverableIff(flags, d, rows[0], s);
    ConfusedByDifference(s, i, j);
    forall k | 0 <= k < d && !flags[k]
      ensures k == i || k == j
    {
      assert k in MissingData(flags, d);
    }
  }

  lemma ConfusedByDifference(s: nat, i: nat, j: nat)
    requires i <= j
    ensures Confused(s, i, j) <==> (s * (j - i)) % ORDER == 0
  {
    assert s * j == s * i + s * (j - i);
    CongruentIff(s * i, s * (j - i));
  }

  lemma CongruentIff(a: nat, b: nat)
    ensures a % ORDER == (a + b) % ORDER <==> b % ORDER == 0
  {
  }
}
