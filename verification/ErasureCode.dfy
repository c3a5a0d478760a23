/**
 The erasure code as mathematics: the identity-over-Vandermonde encoding matrix, codewords,
 and which sets of surviving shards determine the data.
 */
module ErasureCode {
  import opened Bytes
  import opened GaloisField
  import opened LinearAlgebra

  // ── Encoding matrix and codewords ────────────────────────────────────────

  /** Row `i`: a row of the identity for data shards, alpha^(i·j) for parity shards. */
  function EncodingRow(i: nat, d: nat): (row: Vec)
    ensures |row| == d
  {
    if i < d then Unit(d, i) else seq(d, j requires 0 <= j => Pow(i * j))
  }

  function EncodingMatrix(d: nat, p: nat): (m: Mat)
    ensures IsMat(m, d + p, d)
  {
    seq(d + p, i requires 0 <= i => EncodingRow(i, d))
  }

  /** Shards of equal length `len`. */
  predicate IsShards(shards: seq<Vec>, count: nat, len: nat) {
    IsMat(shards, count, len)
  }

  /** The linear combination of shards with the coefficients of `row`. */
  function Combine(row: Vec, shards: seq<Vec>, len: nat): (out: Vec)
    requires IsShards(shards, |row|, len)
    ensures |out| == len
  {
    seq(len, b requires 0 <= b < len => Dot(row, Column(shards, b)))
  }

  /** Shard `i` of the codeword of `data`. */
  function CodewordShard(data: seq<Vec>, d: nat, len: nat, i: nat): (shard: Vec)
    requires IsShards(data, d, len)
    ensures |shard| == len
  {
    Combine(EncodingRow(i, d), data, len)
  }

  /** The code is systematic: the first `d` shards are the data. */
  lemma CodewordIsSystematic(data: seq<Vec>, d: nat, len: nat, i: nat)
    requires IsShards(data, d, len) && i < d
    ensures CodewordShard(data, d, len, i) == data[i]
  {
    hide DotUpTo;
    forall b | 0 <= b < len
      ensures CodewordShard(data, d, len, i)[b] == data[i][b]
    {
      DotUnit(Column(data, b), i);
    }
  }

  // ── Index lists ──────────────────────────────────────────────────────────

  /** The positions below `n` whose flag is `want`, in increasing order. */
  function IndicesWhere(flags: seq<bool>, want: bool, n: nat): (idx: seq<nat>)
    requires n <= |flags|
    ensures |idx| <= n
    ensures forall k :: 0 <= k < |idx| ==> idx[k] < n && flags[idx[k]] == want
    ensures forall i :: 0 <= i < n && flags[i] == want ==> i in idx
  {
    if n == 0 then []
    else if flags[n - 1] == want then IndicesWhere(flags, want, n - 1) + [n - 1]
    else IndicesWhere(flags, want, n - 1)
  }

  predicate Increasing(idx: seq<nat>) {
    forall k, l :: 0 <= k < l < |idx| ==> idx[k] < idx[l]
  }

  lemma {:induction false} IndicesIncrease(flags: seq<bool>, want: bool, n: nat)
    requires n <= |flags|
    ensures Increasing(IndicesWhere(flags, want, n))
  {
    if n > 0 {
      IndicesIncrease(flags, want, n - 1);
    }
  }

  lemma IndicesStep(flags: seq<bool>, want: bool, n: nat)
    requires n < |flags|
    ensures IndicesWhere(flags, want, n + 1) ==
            if flags[n] == want then IndicesWhere(flags, want, n) + [n] else IndicesWhere(flags, want, n)
    ensures |IndicesWhere(flags, want, n + 1)| == |IndicesWhere(flags, want, n)| + if flags[n] == want then 1 else 0
  {
  }

  lemma {:induction false} IndicesComplement(flags: seq<bool>, n: nat)
    requires n <= |flags|
    ensures |IndicesWhere(flags, true, n)| + |IndicesWhere(flags, false, n)| == n
  {
    hide IndicesWhere;
    if n > 0 {
      IndicesComplement(flags, n - 1);
      IndicesStep(flags, true, n - 1);
      IndicesStep(flags, false, n - 1);
    }
  }

  /** The list for a prefix is a prefix of the list. */
  lemma {:induction false} IndicesPrefix(flags: seq<bool>, want: bool, n: nat, m: nat)
    requires n <= m <= |flags|
    ensures IndicesWhere(flags, want, n) <= IndicesWhere(flags, want, m)
  {
    if n < m {
      IndicesPrefix(flags, want, n, m - 1);
    }
  }

  // ── The sub-matrix chosen for reconstruction ─────────────────────────────

  function SubMatrix(use: seq<nat>, d: nat): (m: Mat)
    ensures IsMat(m, |use|, d)
  {
    seq(|use|, i requires 0 <= i < |use| => EncodingRow(use[i], d))
  }

  /** The indices reconstruction works from: the first `d` present shards. */
  function UsedIndices(flags: seq<bool>, d: nat): (use: seq<nat>)
    requires |IndicesWhere(flags, true, |flags|)| >= d
    ensures |use| == d
  {
    IndicesWhere(flags, true, |flags|)[..d]
  }

  /** Any two data blocks with the same used shards are equal. */
  lemma SameUsedShardsSameData(use: seq<nat>, d: nat, len: nat, x: seq<Vec>, y: seq<Vec>)
    requires |use| == d && Injective(SubMatrix(use, d), d)
    requires IsShards(x, d, len) && IsShards(y, d, len)
    requires forall i :: 0 <= i < d ==> CodewordShard(x, d, len, use[i]) == CodewordShard(y, d, len, use[i])
    ensures x == y
  {
    forall b | 0 <= b < len
      ensures Column(x, b) == Column(y, b)
    {
      InjectiveColumns(use, d, len, x, y, b);
    }
    forall i, b | 0 <= i < d && 0 <= b < len
      ensures x[i][b] == y[i][b]
    {
      assert Column(x, b)[i] == x[i][b];
    }
    forall i | 0 <= i < d
      ensures x[i] == y[i]
    {
    }
  }

  lemma InjectiveColumns(use: seq<nat>, d: nat, len: nat, x: seq<Vec>, y: seq<Vec>, b: nat)
    requires |use| == d && Injective(SubMatrix(use, d), d) && b < len
    requires IsShards(x, d, len) && IsShards(y, d, len)
    requires forall i :: 0 <= i < d ==> CodewordShard(x, d, len, use[i]) == CodewordShard(y, d, len, use[i])
    ensures Column(x, b) == Column(y, b)
  {
    hide DotUpTo, Add, EncodingRow;
    var u, v := Column(x, b), Column(y, b);
    var z := VecAdd(u, v);
    var m := SubMatrix(use, d);
    forall i | 0 <= i < d
      ensures Dot(m[i], z) == 0
    {
      DotComm(m[i], z, d);
      DotAdd(u, v, m[i], d);
      DotComm(u, m[i], d);
      DotComm(v, m[i], d);
      assert CodewordShard(x, d, len, use[i])[b] == Dot(m[i], u);
      assert CodewordShard(y, d, len, use[i])[b] == Dot(m[i], v);
      AddZero(Dot(m[i], u));
    }
    assert InKernel(m, z);
    forall i | 0 <= i < d
      ensures u[i] == v[i]
    {
      assert z[i] == 0;
      AddCancel(u[i], v[i]);
    }
  }

  /** An inverse of the sub-matrix recovers data with exactly the used shards. */
  lemma InverseRecovers(use: seq<nat>, inv: Mat, d: nat, len: nat, present: seq<Vec>, data: seq<Vec>)
    requires |use| == d && IsMat(inv, d, d) && AreInverse(SubMatrix(use, d), inv, d)
    requires IsShards(present, d, len) && IsShards(data, d, len)
    requires forall j :: 0 <= j < d ==> data[j] == Combine(inv[j], present, len)
    ensures forall i :: 0 <= i < d ==> CodewordShard(data, d, len, use[i]) == present[i]
  {
    hide DotUpTo, EncodingRow;
    var m := SubMatrix(use, d);
    forall i, b | 0 <= i < d && 0 <= b < len
      ensures CodewordShard(data, d, len, use[i])[b] == present[i][b]
    {
      var x, y := Column(data, b), Column(present, b);
      assert Apply(inv, y) == x by {
        forall j | 0 <= j < d
          ensures Apply(inv, y)[j] == x[j]
        {
          assert data[j][b] == Dot(inv[j], y);
        }
      }
      assert Apply(m, x) == y;
      assert Apply(m, x)[i] == Dot(m[i], x);
    }
    forall i | 0 <= i < d
      ensures CodewordShard(data, d, len, use[i]) == present[i]
    {
    }
  }
}
