/**
 What the codec's contract means for codewords: reconstruction is sound for every loss
 pattern, and complete for the losses of module Recovery.
 */
module CodecTheorems {
  import opened Wrappers
  import opened Bytes
  import opened GaloisField
  import opened LinearAlgebra
  import opened ErasureCode
  import opened ReedSolomonCodec
  import opened Recovery

  /** The shards flagged present are those of the codeword of `data`. */
  ghost predicate Surviving(shards: seq<Shard>, flags: seq<bool>, d: nat, len: nat, data: seq<Vec>)
    requires IsShards(data, d, len)
  {
    && |shards| == |flags|
    && forall i :: 0 <= i < |flags| && flags[i] ==> shards[i] == Some(CodewordShard(data, d, len, i))
  }

  ghost predicate WholeCodeword(shards: seq<Shard>, total: nat, d: nat, len: nat, data: seq<Vec>)
    requires IsShards(data, d, len)
  {
    && |shards| == total
    && forall i :: 0 <= i < total ==> shards[i] == Some(CodewordShard(data, d, len, i))
  }

  /** Data whose used shards are those of `data` is `data`. */
  lemma ReconstructedIsOriginal(before: seq<Shard>, after: seq<Shard>, flags: seq<bool>, d: nat, len: nat,
                                data: seq<Vec>)
    requires IsShards(data, d, len) && Surviving(before, flags, d, len, data)
    requires Enough(flags, d) && Injective(SubMatrix(UsedIndices(flags, d), d), d)
    requires Reconstructed(before, after, flags, d, len)
    ensures WholeCodeword(after, |flags|, d, len, data)
  {
    hide CodewordShard, Injective, IndicesWhere;
    var found: seq<Vec> :|
      && IsShards(found, d, len)
      && Explains(before, flags, d, len, found)
      && FilledFrom(before, after, flags, d, len, found);
    var use := UsedIndices(flags, d);
    forall i | 0 <= i < d
      ensures CodewordShard(found, d, len, use[i]) == CodewordShard(data, d, len, use[i])
    {
      assert before[use[i]] == Some(CodewordShard(data, d, len, use[i]));
    }
    SameUsedShardsSameData(use, d, len, found, data);
  }

  /** Shards of a codeword pass every check before the elimination. */
  lemma SurvivorsPassTriage(shards: seq<Shard>, flags: seq<bool>, d: nat, p: nat, len: nat, data: seq<Vec>)
    requires IsShards(data, d, len) && Surviving(shards, flags, d, len, data)
    requires |flags| == d + p && Enough(flags, d) && d > 0
    ensures var t := TriageShards(shards, flags, d, p);
            t == Proceed(len) || (t == NothingMissing && WholeCodeword(shards, d + p, d, len, data))
  {
    hide CodewordShard, IndicesWhere;
    var present := IndicesWhere(flags, true, d + p);
    assert shards[present[0]].Some?;
    assert ShardLength(shards, present) == len;
    assert CheckPresent(shards, present, len) == None;
    if |IndicesWhere(flags, false, d + p)| == 0 {
      var missing := IndicesWhere(flags, false, d + p);
      forall i | 0 <= i < d + p
        ensures flags[i]
      {
        assert flags[i] || i in missing;
      }
    }
  }

  /** Whatever was lost: a success restores the original codeword, a failure changes nothing. */
  lemma ReconstructIsSound(shards: seq<Shard>, flags: seq<bool>, d: nat, p: nat, len: nat, data: seq<Vec>,
                           r: Result<(), CodecError>, after: seq<Shard>)
    requires d > 0 && |flags| == d + p
    requires IsShards(data, d, len) && Surviving(shards, flags, d, len, data)
    requires ReconstructSpec(shards, flags, d, p, r, after)
    ensures r.Ok? ==> WholeCodeword(after, d + p, d, len, data)
    ensures r.Err? ==> after == shards
  {
    hide CodewordShard, Injective, IndicesWhere, Reconstructed, UsedIndices;
    if Enough(flags, d) {
      hide TriageShards;
      SurvivorsPassTriage(shards, flags, d, p, len, data);
      if r.Ok? && TriageShards(shards, flags, d, p) == Proceed(len) {
        ReconstructedIsOriginal(shards, after, flags, d, len, data);
      }
    }
  }

  /** From the survivors of a codeword: success exactly when the sub-matrix is invertible. */
  lemma ReconstructSucceedsIff(shards: seq<Shard>, flags: seq<bool>, d: nat, p: nat, len: nat, data: seq<Vec>,
                               r: Result<(), CodecError>, after: seq<Shard>)
    requires d > 0 && |flags| == d + p && Enough(flags, d)
    requires IsShards(data, d, len) && Surviving(shards, flags, d, len, data)
    requires ReconstructSpec(shards, flags, d, p, r, after)
    ensures r.Ok? <==> Injective(SubMatrix(UsedIndices(flags, d), d), d)
    ensures r.Ok? ==> WholeCodeword(after, d + p, d, len, data)
  {
    hide CodewordShard, Injective, IndicesWhere, Reconstructed, UsedIndices, TriageShards, UsedParity;
    SurvivorsPassTriage(shards, flags, d, p, len, data);
    ReconstructIsSound(shards, flags, d, p, len, data, r, after);
    if TriageShards(shards, flags, d, p) == NothingMissing {
      NothingMissingFlags(shards, flags, d, p);
      DistinctColumnsRecover(flags, d, d, 1);
    }
  }

  lemma NothingMissingFlags(shards: seq<Shard>, flags: seq<bool>, d: nat, p: nat)
    requires TriageShards(shards, flags, d, p) == NothingMissing && Enough(flags, d)
    ensures forall i :: 0 <= i < d ==> flags[i]
    ensures InProgression(UsedParity(flags, d), d, 1)
  {
    hide TriageShards, UsedParity;
    NoneMissing(flags, d);
  }

  lemma {:induction false} NoneMissing(flags: seq<bool>, n: nat)
    requires n <= |flags| && forall i :: 0 <= i < n ==> flags[i]
    ensures MissingData(flags, n) == []
  {
    if n > 0 {
      NoneMissing(flags, n - 1);
    }
  }

  /**
   Guaranteed recovery: for every geometry the codec accepts, shard length and loss, if the
   parity rows in use are consecutive then reconstruction succeeds with the original shards.
   */
  lemma GuaranteedRecovery(shards: seq<Shard>, flags: seq<bool>, d: nat, p: nat, len: nat, data: seq<Vec>, r0: nat,
                           r: Result<(), CodecError>, after: seq<Shard>)
    requires 1 <= d && 1 <= p && d + p <= 256 && |flags| == d + p && Enough(flags, d)
    requires IsShards(data, d, len) && Surviving(shards, flags, d, len, data)
    requires d <= r0 && InProgression(UsedParity(flags, d), r0, 1)
    requires ReconstructSpec(shards, flags, d, p, r, after)
    ensures r.Ok? && WholeCodeword(after, d + p, d, len, data)
  {
    hide CodewordShard, Injective, IndicesWhere, UsedParity, ReconstructSpec, UsedIndices, Surviving;
    ConsecutiveRowsRecover(flags, d, r0);
    ReconstructSucceedsIff(shards, flags, d, p, len, data, r, after);
  }

  /** When no parity shard is lost the rows in use are d, d + 1, ... */
  lemma {:induction false} NoParityLost(flags: seq<bool>, d: nat)
    requires Enough(flags, d)
    requires forall i :: d <= i < |flags| ==> flags[i]
    ensures InProgression(UsedParity(flags, d), d, 1)
  {
    hide SurvivingParity, UsedParity, MissingData, InProgression, IndicesWhere;
    AllParitySurvives(flags, d, |flags|);
    UsedParityIsPrefix(flags, d);
    ProgressionPrefix(SurvivingParity(flags, d, |flags|), d, |MissingData(flags, d)|);
  }

  lemma ProgressionPrefix(rows: seq<nat>, d: nat, n: nat)
    requires InProgression(rows, d, 1) && n <= |rows|
    ensures InProgression(rows[..n], d, 1)
  {
  }

  lemma {:induction false} AllParitySurvives(flags: seq<bool>, d: nat, n: nat)
    requires d <= n <= |flags|
    requires forall i :: d <= i < n ==> flags[i]
    ensures InProgression(SurvivingParity(flags, d, n), d, 1) && |SurvivingParity(flags, d, n)| == n - d
  {
    hide InProgression, SurvivingParity;
    if n == d {
      ParityBase(flags, d);
      NoProgression(d);
    } else {
      AllParitySurvives(flags, d, n - 1);
      OneMoreSurvives(flags, d, n - 1);
    }
  }

  lemma NoProgression(d: nat)
    ensures InProgression([], d, 1)
  {
  }

  lemma OneMoreSurvives(flags: seq<bool>, d: nat, n: nat)
    requires d <= n < |flags| && flags[n]
    requires InProgression(SurvivingParity(flags, d, n), d, 1) && |SurvivingParity(flags, d, n)| == n - d
    ensures InProgression(SurvivingParity(flags, d, n + 1), d, 1) && |SurvivingParity(flags, d, n + 1)| == n + 1 - d
  {
    hide InProgression, SurvivingParity;
    ParityNext(flags, d, n);
    ProgressionGrows(SurvivingParity(flags, d, n), d, n);
  }

  lemma ProgressionGrows(rows: seq<nat>, d: nat, r: nat)
    requires InProgression(rows, d, 1) && r == d + |rows|
    ensures InProgression(rows + [r], d, 1)
  {
  }

  lemma ParityNext(flags: seq<bool>, d: nat, n: nat)
    requires d <= n < |flags|
    ensures SurvivingParity(flags, d, n + 1) ==
            if flags[n] then SurvivingParity(flags, d, n) + [n] else SurvivingParity(flags, d, n)
  {
    hide IndicesWhere;
  }

  // ── Not every set of `d` survivors is enough ─────────────────────────────

  /** In the default 64 + 8 geometry: data shards 0 and 51 and parity shards 65 to 68 are lost. */
  function UnluckyLoss(): seq<bool> {
    seq(72, i => i != 0 && i != 51 && !(65 <= i <= 68))
  }

  /** More than 64 of the 72 shards survive, yet the 64 that are used do not determine the data. */
  lemma AnySixtyFourAreNotEnough()
    ensures Enough(UnluckyLoss(), 64)
    ensures !Injective(SubMatrix(UsedIndices(UnluckyLoss(), 64), 64), 64)
  {
    UnluckyLossDefeats(UnluckyLoss(), 64);
  }

  lemma UnluckyLossDefeats(flags: seq<bool>, d: nat)
    requires d == 64 && flags == UnluckyLoss()
    ensures Enough(flags, d)
    ensures !Injective(SubMatrix(UsedIndices(flags, d), d), d)
  {
    hide IndicesWhere, UsedIndices, SurvivingParity, MissingData, Injective, UsedParity;
    UnluckyMissing(flags, d);
    IndicesComplement(flags, d);
    FirstTwoParityRows(flags, d, 69);
    hide UnluckyLoss;
    MissingIsIndices(flags, d);
    SurvivorsSplit(flags, d, |flags|);
    UsedParityIsPrefix(flags, d);
    var rows := UsedParity(flags, d);
    assert rows[0] == 64 + 0 * 5 && rows[1] == 64 + 1 * 5;
    assert Confused(5, 0, 51);
    ConfusedColumnsDefeat(flags, d, 64, 5, 0, 51);
  }

  lemma MissingIsIndices(flags: seq<bool>, d: nat)
    requires d <= |flags|
    ensures MissingData(flags, d) == IndicesWhere(flags, false, d)
  {
  }

  lemma UnluckyMissing(flags: seq<bool>, d: nat)
    requires d == 64 && flags == UnluckyLoss()
    ensures MissingData(flags, d) == [0, 51] && !flags[0] && !flags[51]
  {
    hide IndicesWhere, MissingData;
    var idx := MissingData(flags, d);
    assert 0 in idx && 51 in idx;
    forall k | 0 <= k < |idx|
      ensures idx[k] == 0 || idx[k] == 51
    {
      assert !flags[idx[k]];
    }
    MissingIncreases(flags, d);
    PairList(idx, 0, 51);
  }

  lemma PairList(idx: seq<nat>, a: nat, b: nat)
    requires a < b && a in idx && b in idx
    requires forall k :: 0 <= k < |idx| ==> idx[k] == a || idx[k] == b
    requires forall k, l :: 0 <= k < l < |idx| ==> idx[k] < idx[l]
    ensures idx == [a, b]
  {
    if |idx| > 2 {
      ThreeIncreasing(idx);
      assert false;
    }
  }

  lemma ThreeIncreasing(idx: seq<nat>)
    requires |idx| > 2
    requires forall k, l :: 0 <= k < l < |idx| ==> idx[k] < idx[l]
    ensures idx[0] < idx[1] < idx[2]
  {
  }

  lemma ParityStep(flags: seq<bool>, d: nat, n: nat)
    requires d <= n < |flags| && flags[n]
    ensures var before, after := SurvivingParity(flags, d, n), SurvivingParity(flags, d, n + 1);
            |after| == |before| + 1 && after[|before|] == n && before <= after
  {
    hide IndicesWhere;
  }

  lemma {:induction false} ParityGap(flags: seq<bool>, d: nat, n: nat, m: nat)
    requires d <= n <= m <= |flags|
    requires forall i :: n <= i < m ==> !flags[i]
    ensures SurvivingParity(flags, d, m) == SurvivingParity(flags, d, n)
  {
    hide IndicesWhere;
    if n < m {
      ParityGap(flags, d, n, m - 1);
    }
  }

  lemma {:induction false} ParityPrefix(flags: seq<bool>, d: nat, n: nat, m: nat)
    requires d <= n <= m <= |flags|
    ensures SurvivingParity(flags, d, n) <= SurvivingParity(flags, d, m)
  {
    hide IndicesWhere, SurvivingParity;
    if n < m {
      ParityPrefix(flags, d, n, m - 1);
      NextIsLonger(flags, d, n, m - 1);
    }
  }

  lemma NextIsLonger(flags: seq<bool>, d: nat, n: nat, m: nat)
    requires d <= n <= m < |flags| && SurvivingParity(flags, d, n) <= SurvivingParity(flags, d, m)
    ensures SurvivingParity(flags, d, n) <= SurvivingParity(flags, d, m + 1)
  {
    hide IndicesWhere, SurvivingParity;
    ParityNext(flags, d, m);
    PrefixGrows(SurvivingParity(flags, d, n), SurvivingParity(flags, d, m), m);
  }

  lemma PrefixGrows(a: seq<nat>, b: seq<nat>, x: nat)
    requires a <= b
    ensures a <= b + [x]
  {
  }

  lemma ParityBase(flags: seq<bool>, d: nat)
    requires d <= |flags|
    ensures SurvivingParity(flags, d, d) == []
  {
  }

  /** The first surviving parity row, and the next one after a gap. */
  lemma FirstTwoParityRows(flags: seq<bool>, d: nat, r: nat)
    requires d < r < |flags| && flags[d] && flags[r]
    requires forall i :: d < i < r ==> !flags[i]
    ensures |SurvivingParity(flags, d, |flags|)| >= 2
    ensures SurvivingParity(flags, d, |flags|)[0] == d && SurvivingParity(flags, d, |flags|)[1] == r
  {
    hide IndicesWhere, SurvivingParity;
    ParityBase(flags, d);
    ParityStep(flags, d, d);
    ParityGap(flags, d, d + 1, r);
    ParityStep(flags, d, r);
    ParityPrefix(flags, d, r + 1, |flags|);
  }

  // ── Losing less can be worse ─────────────────────────────────────────────

  /** The same loss with data shard 1 lost as well. */
  function WiderLoss(): seq<bool> {
    seq(72, i => i != 0 && i != 1 && i != 51 && !(65 <= i <= 68))
  }

  /** With one more data shard lost another parity row is used, and then all rows are independent. */
  lemma LosingMoreCanHelp()
    ensures forall i :: 0 <= i < 72 && WiderLoss()[i] ==> UnluckyLoss()[i]
    ensures Enough(WiderLoss(), 64) && Injective(SubMatrix(UsedIndices(WiderLoss(), 64), 64), 64)
  {
    WiderLossRecovers(WiderLoss(), 64);
  }

  lemma WiderLossRecovers(flags: seq<bool>, d: nat)
    requires d == 64 && flags == WiderLoss()
    ensures Enough(flags, d) && Injective(SubMatrix(UsedIndices(flags, d), d), d)
  {
    hide IndicesWhere, UsedIndices, SurvivingParity, MissingData, UsedParity, InKernel, Pow, Mul, Add;
    WiderMissing(flags, d);
    IndicesComplement(flags, d);
    ThreeParityRows(flags, d);
    MissingIsIndices(flags, d);
    SurvivorsSplit(flags, d, |flags|);
    UsedParityIsPrefix(flags, d);
    var rows := UsedParity(flags, d);
    assert rows[0] == 64 && rows[1] == 69 && rows[2] == 70;
    forall x: Vec | |x| == d && InKernel(SubMatrix(UsedIndices(flags, d), d), x)
      ensures x == Zeros(d)
    {
      KernelIsOnMissing(flags, d, x);
      ThreeTerms(flags, x, 64);
      ThreeTerms(flags, x, 69);
      ThreeTerms(flags, x, 70);
      ThreeEquations(x[0], x[1], x[51]);
    }
  }

  lemma WiderMissing(flags: seq<bool>, d: nat)
    requires d == 64 && flags == WiderLoss()
    ensures MissingData(flags, d) == [0, 1, 51] && !flags[0] && !flags[1] && !flags[51]
    ensures forall i :: 0 <= i < d && i != 0 && i != 1 && i != 51 ==> flags[i]
  {
    hide IndicesWhere, MissingData;
    var idx := MissingData(flags, d);
    assert 0 in idx && 1 in idx && 51 in idx;
    forall k | 0 <= k < |idx|
      ensures idx[k] == 0 || idx[k] == 1 || idx[k] == 51
    {
      assert !flags[idx[k]];
    }
    MissingIncreases(flags, d);
    TripleList(idx, 0, 1, 51);
  }

  lemma TripleList(idx: seq<nat>, a: nat, b: nat, c: nat)
    requires a < b < c && a in idx && b in idx && c in idx
    requires forall k :: 0 <= k < |idx| ==> idx[k] == a || idx[k] == b || idx[k] == c
    requires forall k, l :: 0 <= k < l < |idx| ==> idx[k] < idx[l]
    ensures idx == [a, b, c]
  {
    if |idx| > 3 {
      FourIncreasing(idx);
      assert false;
    }
  }

  lemma FourIncreasing(idx: seq<nat>)
    requires |idx| > 3
    requires forall k, l :: 0 <= k < l < |idx| ==> idx[k] < idx[l]
    ensures idx[0] < idx[1] < idx[2] < idx[3]
  {
  }

  /** Rows 64, 69 and 70 come first among the surviving parity rows. */
  lemma ThreeParityRows(flags: seq<bool>, d: nat)
    requires d == 64 && flags == WiderLoss()
    ensures |SurvivingParity(flags, d, |flags|)| >= 3
    ensures SurvivingParity(flags, d, |flags|)[..3] == [64, 69, 70]
  {
    hide SurvivingParity;
    ParityBase(flags, d);
    ParityStep(flags, d, 64);
    ParityGap(flags, d, 65, 69);
    ParityStep(flags, d, 69);
    ParityStep(flags, d, 70);
    ParityPrefix(flags, d, 71, 72);
  }

  /** Row `r` against a vector that is zero except at 0, 1 and 51. */
  lemma ThreeTerms(flags: seq<bool>, x: Vec, r: nat)
    requires |x| == 64 && |flags| == 72 && OnMissing(flags, 64, x) && IndicesWhere(flags, false, 64) == [0, 1, 51]
    requires r >= 64 && Dot(EncodingRow(r, 64), x) == 0
    ensures Add(Add(x[0], Mul(Pow(r), x[1])), Mul(Pow(51 * r), x[51])) == 0
  {
    hide IndicesWhere, Pow, Mul, Add, DotUpTo;
    var row, idx := EncodingRow(r, 64), [0, 1, 51];
    DotOnMissing(row, x, flags, 64);
    var u, v := Gather(row, idx), Gather(x, idx);
    DotNone(u, v);
    DotStep(u, v, 0);
    DotStep(u, v, 1);
    DotStep(u, v, 2);
    ZeroPower(r);
    assert u[0] == Pow(r * 0) && u[1] == Pow(r * 1) && u[2] == Pow(r * 51);
    MulOne(x[0]);
    AddZero(x[0]);
  }

  lemma ZeroPower(r: nat)
    ensures Pow(r * 0) == 1 && Pow(r * 1) == Pow(r) && Pow(r * 51) == Pow(51 * r)
  {
    hide Pow;
    PowSeven();
  }

  lemma ThreeEquations(a: byte, b: byte, c: byte)
    requires Add(Add(a, Mul(Pow(64), b)), Mul(Pow(51 * 64), c)) == 0
    requires Add(Add(a, Mul(Pow(69), b)), Mul(Pow(51 * 69), c)) == 0
    requires Add(Add(a, Mul(Pow(70), b)), Mul(Pow(51 * 70), c)) == 0
    ensures a == 0 && b == 0 && c == 0
  {
    hide Pow, Mul, Add;
    PowEqual(51 * 64, 51 * 69);
    PowEqual(51 * 64, 51 * 70);
    PowEqual(64, 69);
    SumsCancel(a, Mul(Pow(64), b), Mul(Pow(69), b), Mul(Pow(51 * 64), c));
    SameProducts(Pow(64), Pow(69), b);
    MulZero(Pow(64));
    MulZero(Pow(70));
    AddZero(a);
    AddCancel(a, Mul(Pow(51 * 64), c));
    AddCancel(a, Mul(Pow(51 * 70), c));
    SameProducts(Pow(51 * 64), Pow(51 * 70), c);
    MulZero(Pow(51 * 64));
  }

  lemma SumsCancel(a: byte, u: byte, v: byte, c: byte)
    requires Add(Add(a, u), c) == 0 && Add(Add(a, v), c) == 0
    ensures u == v
  {
    hide Add;
    AddCancel(Add(a, u), c);
    AddCancel(Add(a, v), c);
    AddCancel(a, u);
    AddCancel(a, v);
  }

  lemma SameProducts(p: byte, q: byte, v: byte)
    requires Mul(p, v) == Mul(q, v) && p != q
    ensures v == 0
  {
    hide Mul, Add;
    Distributive(v, p, q);
    MulComm(v, p);
    MulComm(v, q);
    AddZero(Mul(v, p));
    NoZeroDivisors(v, Add(p, q));
    AddCancel(p, q);
  }
}
