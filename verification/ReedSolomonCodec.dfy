/**
 The codec of crates/ecc/src/reed_solomon.rs: building the encoding matrix, encoding, and
 reconstructing missing shards in place.
 */
module ReedSolomonCodec {
  import opened Bytes
  import opened GaloisField
  import opened Wrappers
  import opened Gf256Tables
  import opened LinearAlgebra
  import opened GfMatrix
  import opened ErasureCode

  datatype CodecError =
    | NoDataShards
    | NoParityShards
    | TooManyShards(total: nat)
    | WrongDataCount(expected: nat, got: nat)
    | UnequalShard(index: nat)
    | WrongShardCount(got: nat)
    | WrongFlagCount(got: nat)
    | NotEnoughShards(present: nat)
    | InconsistentLength(index: nat)
    | PresentWithoutData(index: nat)
    | SubMatrixSingular

  type Shard = Option<Vec>

  // ── Checks made before any arithmetic ────────────────────────────────────

  /** The first shard whose length differs from `len`. */
  function FirstUnequal(data: seq<Vec>, len: nat, i: nat): (r: Option<nat>)
    requires i <= |data|
    ensures r.None? <==> forall k :: i <= k < |data| ==> |data[k]| == len
    ensures r.Some? ==> i <= r.value < |data| && |data[r.value]| != len
    ensures r.Some? ==> forall k :: i <= k < r.value ==> |data[k]| == len
    decreases |data| - i
  {
    if i == |data| then None
    else if |data[i]| != len then Some(i)
    else FirstUnequal(data, len, i + 1)
  }

  /** The length of the first listed shard that has data, or 0. */
  function ShardLength(shards: seq<Shard>, idx: seq<nat>): nat
    requires forall k :: 0 <= k < |idx| ==> idx[k] < |shards|
  {
    if |idx| == 0 then 0
    else if shards[idx[0]].Some? then |shards[idx[0]].value|
    else ShardLength(shards, idx[1..])
  }

  /** The complaint about the first listed shard that is absent or has another length. */
  function CheckPresent(shards: seq<Shard>, idx: seq<nat>, len: nat): (r: Option<CodecError>)
    requires forall k :: 0 <= k < |idx| ==> idx[k] < |shards|
    ensures r.None? <==> forall k :: 0 <= k < |idx| ==> shards[idx[k]].Some? && |shards[idx[k]].value| == len
    ensures r.Some? ==> r.value != SubMatrixSingular
  {
    if |idx| == 0 then None
    else
      match shards[idx[0]]
      case None => Some(PresentWithoutData(idx[0]))
      case Some(data) =>
        if |data| != len then Some(InconsistentLength(idx[0]))
        else CheckPresent(shards, idx[1..], len)
  }

  /** What `Reconstruct` does before it builds a matrix: fail, stop, or go on. */
  datatype Triage = Reject(error: CodecError) | NothingMissing | Proceed(len: nat)

  function TriageShards(shards: seq<Shard>, flags: seq<bool>, d: nat, p: nat): (t: Triage)
    ensures t.Reject? ==> t.error != SubMatrixSingular
    ensures t.NothingMissing? ==> |shards| == |flags| == d + p && forall i :: 0 <= i < d + p ==> flags[i]
    ensures t.Proceed? ==> |shards| == |flags| == d + p
    ensures t.Proceed? ==> |IndicesWhere(flags, true, d + p)| >= d
    ensures t.Proceed? ==> forall i :: 0 <= i < d + p && flags[i] ==> shards[i].Some? && |shards[i].value| == t.len
  {
    if |shards| != d + p then Reject(WrongShardCount(|shards|))
    else if |flags| != d + p then Reject(WrongFlagCount(|flags|))
    else
      var present := IndicesWhere(flags, true, d + p);
      if |present| < d then Reject(NotEnoughShards(|present|))
      else if |IndicesWhere(flags, false, d + p)| == 0 then NothingMissing
      else
        var len := ShardLength(shards, present);
        var complaint := CheckPresent(shards, present, len);
        if complaint.Some? then Reject(complaint.value) else
        assert forall i :: 0 <= i < d + p && flags[i] ==> i in present;
        Proceed(len)
  }

  /** `after` agrees with `before` where shards were present, and with the codeword of `data` elsewhere. */
  ghost predicate FilledFrom(before: seq<Shard>, after: seq<Shard>, flags: seq<bool>, d: nat, len: nat, data: seq<Vec>)
    requires |before| == |flags| && IsShards(data, d, len)
  {
    && |after| == |before|
    && forall i :: 0 <= i < |flags| ==>
         after[i] == if flags[i] then before[i] else Some(CodewordShard(data, d, len, i))
  }

  /** `data` explains the shards that reconstruction works from. */
  ghost predicate Explains(before: seq<Shard>, flags: seq<bool>, d: nat, len: nat, data: seq<Vec>)
    requires |before| == |flags| && |IndicesWhere(flags, true, |flags|)| >= d
    requires IsShards(data, d, len)
  {
    var use := UsedIndices(flags, d);
    forall i :: 0 <= i < d ==> before[use[i]] == Some(CodewordShard(data, d, len, use[i]))
  }

  /** The missing shards are those of a codeword that explains the used ones. */
  ghost predicate Reconstructed(before: seq<Shard>, after: seq<Shard>, flags: seq<bool>, d: nat, len: nat)
    requires |before| == |flags| && |IndicesWhere(flags, true, |flags|)| >= d
  {
    exists data: seq<Vec> ::
      && IsShards(data, d, len)
      && Explains(before, flags, d, len, data)
      && FilledFrom(before, after, flags, d, len, data)
  }

  /** What `Encode` answers, for every input. */
  ghost predicate EncodeSpec(data: seq<Vec>, d: nat, p: nat, r: Result<seq<Vec>, CodecError>)
    requires d > 0
  {
    if |data| != d then r == Err(WrongDataCount(d, |data|))
    else
      var len := |data[0]|;
      match FirstUnequal(data, len, 0)
      case Some(i) => r == Err(UnequalShard(i))
      case None => r.Ok? && ParityOf(data, d, p, len, r.value)
  }

  /** `parity` holds the shards d, ..., d + p - 1 of the codeword of `data`. */
  ghost predicate ParityOf(data: seq<Vec>, d: nat, p: nat, len: nat, parity: seq<Vec>)
    requires IsShards(data, d, len)
  {
    && |parity| == p
    && forall k :: 0 <= k < p ==> parity[k] == CodewordShard(data, d, len, d + k)
  }

  /** What `Reconstruct` answers and leaves behind, for every input. */
  ghost predicate ReconstructSpec(before: seq<Shard>, flags: seq<bool>, d: nat, p: nat,
                                  r: Result<(), CodecError>, after: seq<Shard>)
  {
    && (r.Err? ==> after == before)
    && match TriageShards(before, flags, d, p)
       case Reject(e) => r == Err(e)
       case NothingMissing => r.Ok? && after == before
       case Proceed(len) =>
         && (r.Ok? <==> Injective(SubMatrix(UsedIndices(flags, d), d), d))
         && (r.Err? ==> r.error == SubMatrixSingular)
         && (r.Ok? ==> Reconstructed(before, after, flags, d, len))
  }

  /** The bytes of the listed shards. */
  function Contents(shards: seq<Shard>, idx: seq<nat>, len: nat): (data: seq<Vec>)
    requires forall k :: 0 <= k < |idx| ==> idx[k] < |shards|
    requires forall k :: 0 <= k < |idx| ==> shards[idx[k]].Some? && |shards[idx[k]].value| == len
    ensures IsShards(data, |idx|, len)
    ensures forall k :: 0 <= k < |idx| ==> shards[idx[k]] == Some(data[k])
  {
    seq(|idx|, k requires 0 <= k < |idx| => shards[idx[k]].value)
  }

  class ReedSolomon {
    const dataShards: nat
    const parityShards: nat
    const encodingMatrix: Matrix
    const gf: Gf256

    ghost predicate Valid()
      reads encodingMatrix.data
    {
      && gf.Valid()
      && 1 <= dataShards && 1 <= parityShards && dataShards + parityShards <= 256
      && encodingMatrix.Valid()
      && encodingMatrix.rows == dataShards + parityShards
      && encodingMatrix.cols == dataShards
      && encodingMatrix.Rows() == EncodingMatrix(dataShards, parityShards)
    }

    constructor (d: nat, p: nat, m: Matrix, gf: Gf256)
      ensures dataShards == d && parityShards == p && encodingMatrix == m && this.gf == gf
    {
      dataShards, parityShards, encodingMatrix, this.gf := d, p, m, gf;
    }

    static method New(d: nat, p: nat) returns (r: Result<ReedSolomon, CodecError>)
      ensures d == 0 ==> r == Err(NoDataShards)
      ensures d > 0 && p == 0 ==> r == Err(NoParityShards)
      ensures d > 0 && p > 0 && d + p > 256 ==> r == Err(TooManyShards(d + p))
      ensures d > 0 && p > 0 && d + p <= 256 ==> r.Ok?
      ensures r.Ok? ==> r.value.Valid() && r.value.dataShards == d && r.value.parityShards == p
    {
      if d == 0 {
        return Err(NoDataShards);
      }
      if p == 0 {
        return Err(NoParityShards);
      }
      if d + p > 256 {
        return Err(TooManyShards(d + p));
      }
      var gf := new Gf256();
      var m := BuildEncodingMatrix(d, p, gf);
      var rs := new ReedSolomon(d, p, m, gf);
      r := Ok(rs);
    }

    /** Row `row` of the matrix times the shards, accumulated shard by shard. */
    method RowTimes(m: Matrix, row: nat, shards: seq<Vec>, len: nat) returns (out: Vec)
      requires gf.Valid() && m.Valid() && row < m.rows
      requires IsShards(shards, m.cols, len)
      ensures out == Combine(m.Rows()[row], shards, len)
    {
      hide Add, Mul, RowsOf, DotUpTo;
      var acc := new byte[len](_ => 0);
      ghost var coeffs := m.Rows()[row];
      forall b | 0 <= b < len
        ensures DotUpTo(coeffs, Column(shards, b), 0) == 0
      {
        DotNone(coeffs, Column(shards, b));
      }
      for k := 0 to m.cols
        invariant m.Rows()[row] == coeffs
        invariant forall b :: 0 <= b < len ==> acc[b] == DotUpTo(coeffs, Column(shards, b), k)
      {
        var coeff := m.Get(row, k);
        for b := 0 to len
          invariant m.Rows()[row] == coeffs
          invariant forall c :: 0 <= c < b ==> acc[c] == DotUpTo(coeffs, Column(shards, c), k + 1)
          invariant forall c :: b <= c < len ==> acc[c] == DotUpTo(coeffs, Column(shards, c), k)
        {
          DotStep(coeffs, Column(shards, b), k);
          acc[b] := Add(acc[b], gf.GfMul(coeff, shards[k][b]));
        }
      }
      out := acc[..];
    }

    method Encode(data: seq<Vec>) returns (r: Result<seq<Vec>, CodecError>)
      requires Valid()
      ensures EncodeSpec(data, dataShards, parityShards, r)
    {
      if |data| != dataShards {
        return Err(WrongDataCount(dataShards, |data|));
      }
      var len := |data[0]|;
      var odd := FirstUnequal(data, len, 0);
      if odd.Some? {
        return Err(UnequalShard(odd.value));
      }
      if len == 0 {
        var empty := seq(parityShards, _ => []);
        return Ok(empty);
      }
      var parity := ParityRows(data, len);
      r := Ok(parity);
    }

    /** One shard per parity row of the encoding matrix. */
    method ParityRows(data: seq<Vec>, len: nat) returns (parity: seq<Vec>)
      requires Valid() && IsShards(data, dataShards, len)
      ensures ParityOf(data, dataShards, parityShards, len, parity)
    {
      hide RowsOf, EncodingRow, Combine;
      parity := [];
      for k := 0 to parityShards
        invariant |parity| == k
        invariant forall l :: 0 <= l < k ==> parity[l] == CodewordShard(data, dataShards, len, dataShards + l)
      {
        var shard := RowTimes(encodingMatrix, dataShards + k, data, len);
        assert encodingMatrix.Rows()[dataShards + k] == EncodingRow(dataShards + k, dataShards);
        parity := parity + [shard];
      }
    }

    /** The rows of the encoding matrix that belong to the used shards. */
    method BuildSubMatrix(use: seq<nat>) returns (m: Matrix)
      requires Valid() && |use| == dataShards
      requires forall i :: 0 <= i < |use| ==> use[i] < dataShards + parityShards
      ensures m.Valid() && fresh(m.data) && m.rows == dataShards && m.cols == dataShards
      ensures m.Rows() == SubMatrix(use, dataShards)
    {
      hide RowsOf, EncodingRow;
      m := new Matrix(dataShards, dataShards);
      for i := 0 to dataShards
        invariant Valid()
        invariant forall r :: 0 <= r < i ==> m.Rows()[r] == EncodingRow(use[r], dataShards)
      {
        CopyRow(m, i, encodingMatrix, use[i]);
        assert encodingMatrix.Rows()[use[i]] == EncodingRow(use[i], dataShards);
      }
    }

    /** The data that the used shards determine. */
    method RecoverData(inv: Matrix, present: seq<Vec>, len: nat) returns (data: seq<Vec>)
      requires Valid() && inv.Valid() && inv.rows == dataShards && inv.cols == dataShards
      requires IsShards(present, dataShards, len)
      ensures IsShards(data, dataShards, len)
      ensures forall j :: 0 <= j < dataShards ==> data[j] == Combine(inv.Rows()[j], present, len)
    {
      data := [];
      for j := 0 to dataShards
        invariant |data| == j
        invariant forall k :: 0 <= k < j ==> data[k] == Combine(inv.Rows()[k], present, len)
      {
        var row := RowTimes(inv, j, present, len);
        data := data + [row];
      }
    }

    /** Recompute every missing shard from the data. */
    method FillMissing(shards: array<Shard>, flags: seq<bool>, data: seq<Vec>, len: nat)
      requires Valid() && shards.Length == |flags| == dataShards + parityShards
      requires IsShards(data, dataShards, len)
      requires shards as object != encodingMatrix.data
      modifies shards
      ensures Valid()
      ensures FilledFrom(old(shards[..]), shards[..], flags, dataShards, len, data)
    {
      hide RowsOf, EncodingRow, Combine, IndicesWhere;
      var missing := IndicesWhere(flags, false, |flags|);
      for k := 0 to |missing|
        invariant Valid()
        invariant forall i :: 0 <= i < |flags| && flags[i] ==> shards[i] == old(shards[i])
        invariant forall l :: 0 <= l < k ==> shards[missing[l]] == Some(CodewordShard(data, dataShards, len, missing[l]))
      {
        var idx := missing[k];
        assert encodingMatrix.Rows()[idx] == EncodingRow(idx, dataShards);
        var shard := RowTimes(encodingMatrix, idx, data, len);
        shards[idx] := Some(shard);
      }
      forall i | 0 <= i < |flags| && !flags[i]
        ensures shards[i] == Some(CodewordShard(data, dataShards, len, i))
      {
        assert i in missing;
      }
    }

    /** Fill in the missing shards from the first `dataShards` present ones. */
    method Reconstruct(shards: array<Shard>, flags: seq<bool>) returns (r: Result<(), CodecError>)
      requires Valid()
      requires shards as object != encodingMatrix.data
      modifies shards
      ensures Valid()
      ensures ReconstructSpec(old(shards[..]), flags, dataShards, parityShards, r, shards[..])
    {
      hide RowsOf, EncodingRow, Combine, CodewordShard, Injective, AreInverse, IndicesWhere;
      ghost var before := shards[..];
      var t := TriageShards(shards[..], flags, dataShards, parityShards);
      if t.Reject? {
        return Err(t.error);
      }
      if t.NothingMissing? {
        return Ok(());
      }
      var use := UsedIndices(flags, dataShards);
      var sub := BuildSubMatrix(use);
      var inversion := sub.Invert(gf);
      if inversion.Failed? {
        return Err(SubMatrixSingular);
      }
      var inv := inversion.inverse;
      InverseMeansInjective(sub.Rows(), inv.Rows(), dataShards);
      var present := Contents(shards[..], use, t.len);
      var data := RecoverData(inv, present, t.len);
      InverseRecovers(use, inv.Rows(), dataShards, t.len, present, data);
      FillMissing(shards, flags, data, t.len);
      // The source fills data slots that are still empty here; there are none left.
      for k := 0 to dataShards {
        if shards[k].None? {
          assert false;
        }
      }
      assert Explains(before, flags, dataShards, t.len, data);
      r := Ok(());
    }
  }

  /** Overwrite a row with a row of another matrix, entry by entry. */
  method CopyRow(m: Matrix, row: nat, source: Matrix, from: nat)
    requires m.Valid() && source.Valid() && m.data != source.data
    requires row < m.rows && from < source.rows && m.cols == source.cols
    modifies m.data
    ensures m.Rows() == old(m.Rows())[row := source.Rows()[from]]
  {
    hide RowsOf;
    ghost var before := m.Rows();
    for j := 0 to m.cols
      invariant forall r :: 0 <= r < m.rows && r != row ==> m.Rows()[r] == before[r]
      invariant forall k :: 0 <= k < j ==> m.Rows()[row][k] == source.Rows()[from][k]
    {
      var v := source.Get(from, j);
      m.Set(row, j, v);
    }
    assert m.Rows()[row] == source.Rows()[from];
    assert m.Rows() == before[row := source.Rows()[from]];
  }

  method BuildEncodingMatrix(d: nat, p: nat, gf: Gf256) returns (m: Matrix)
    requires gf.Valid()
    ensures m.Valid() && fresh(m.data) && m.rows == d + p && m.cols == d
    ensures m.Rows() == EncodingMatrix(d, p)
  {
    hide RowsOf, Pow;
    var total := d + p;
    var vand := Vandermonde(total, d, gf);
    ghost var powers := vand.Rows();
    m := new Matrix(total, d);
    for i := 0 to d
      invariant vand.Rows() == powers
      invariant forall r :: 0 <= r < i ==> m.Rows()[r] == Unit(d, r)
    {
      SetUnitRow(m, i);
    }
    for i := 0 to p
      invariant vand.Rows() == powers
      invariant forall r :: 0 <= r < d ==> m.Rows()[r] == Unit(d, r)
      invariant forall r :: d <= r < d + i ==> m.Rows()[r] == vand.Rows()[r]
    {
      CopyRow(m, d + i, vand, d + i);
    }
    forall r | 0 <= r < total
      ensures m.Rows()[r] == EncodingRow(r, d)
    {
      assert r >= d ==> m.Rows()[r] == powers[r];
    }
  }

  /** Row `i` becomes row `i` of the identity. */
  method SetUnitRow(m: Matrix, i: nat)
    requires m.Valid() && i < m.rows && i < m.cols
    modifies m.data
    ensures m.Rows() == old(m.Rows())[i := Unit(m.cols, i)]
  {
    hide RowsOf;
    ghost var before := m.Rows();
    for j := 0 to m.cols
      invariant forall r :: 0 <= r < m.rows && r != i ==> m.Rows()[r] == before[r]
      invariant forall k :: 0 <= k < j ==> m.Rows()[i][k] == if i == k then 1 else 0
    {
      m.Set(i, j, if i == j then 1 else 0);
    }
    assert m.Rows()[i] == Unit(m.cols, i);
    assert m.Rows() == before[i := Unit(m.cols, i)];
  }

  /** Entry (i, j) is alpha^(i·j). */
  method Vandermonde(rows: nat, cols: nat, gf: Gf256) returns (m: Matrix)
    requires gf.Valid()
    ensures m.Valid() && fresh(m.data) && m.rows == rows && m.cols == cols
    ensures forall i, j :: 0 <= i < rows && 0 <= j < cols ==> m.Rows()[i][j] == Pow(i * j)
  {
    hide RowsOf, Pow;
    m := new Matrix(rows, cols);
    for i := 0 to rows
      invariant forall r, j :: 0 <= r < i && 0 <= j < cols ==> m.Rows()[r][j] == Pow(r * j)
    {
      ghost var before := m.Rows();
      for j := 0 to cols
        invariant forall r :: 0 <= r < rows && r != i ==> m.Rows()[r] == before[r]
        invariant forall k :: 0 <= k < j ==> m.Rows()[i][k] == Pow(i * k)
      {
        if i == 0 || j == 0 {
          PowSeven();
          m.Set(i, j, 1);
        } else {
          PowReduce(i * j);
          m.Set(i, j, gf.ExpAt((i * j) % 255));
        }
      }
    }
  }
}
