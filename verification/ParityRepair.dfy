/**
 Parity groups of crates/ecc/src/repair.rs: chunks of unequal length are padded with zeros
 to the longest one, encoded, and later repaired from whatever is still readable.
 */
module ParityRepair {
  import opened Wrappers
  import opened LinearAlgebra
  import opened ErasureCode
  import opened ReedSolomonCodec
  import opened Recovery
  import opened CodecTheorems

  datatype ParityError =
    | WrongChunkCount(expected: nat, got: nat)
    | WrongTotal(expected: nat, got: nat)
    | IndexOutOfRange(index: nat)
    | Codec(error: CodecError)

  // ── Padding ──────────────────────────────────────────────────────────────

  /** Cut off or fill up with zeros to exactly `len` bytes. */
  function Resize(chunk: Vec, len: nat): (r: Vec)
    ensures |r| == len
  {
    if |chunk| >= len then chunk[..len] else chunk + Zeros(len - |chunk|)
  }

  function MaxLength(chunks: seq<Vec>): (m: nat)
    ensures forall i :: 0 <= i < |chunks| ==> |chunks[i]| <= m
    ensures |chunks| > 0 ==> exists i :: 0 <= i < |chunks| && |chunks[i]| == m
    ensures |chunks| == 0 ==> m == 0
  {
    if |chunks| == 0 then 0
    else
      var rest := MaxLength(chunks[..|chunks| - 1]);
      var last := |chunks[|chunks| - 1]|;
      if last >= rest then last else rest
  }

  function Padded(chunks: seq<Vec>, len: nat): (p: seq<Vec>)
    ensures IsShards(p, |chunks|, len)
  {
    seq(|chunks|, i requires 0 <= i < |chunks| => Resize(chunks[i], len))
  }

  // ── Placing the readable chunks ──────────────────────────────────────────

  /** The index of the first pair that names no slot. */
  function FirstOutOfRange(available: seq<(nat, Vec)>, total: nat, from: nat): (r: Option<nat>)
    requires from <= |available|
    ensures r.None? <==> forall k :: from <= k < |available| ==> available[k].0 < total
    decreases |available| - from
  {
    if from == |available| then None
    else if available[from].0 >= total then Some(available[from].0)
    else FirstOutOfRange(available, total, from + 1)
  }

  /** Slot contents after the first `n` pairs; a later pair replaces an earlier one. */
  function Placed(available: seq<(nat, Vec)>, total: nat, len: nat, n: nat): (shards: seq<Shard>)
    requires n <= |available|
    ensures |shards| == total
    ensures forall i :: 0 <= i < total ==> (shards[i].Some? <==> exists k :: 0 <= k < n && available[k].0 == i)
    ensures forall i :: 0 <= i < total && shards[i].Some? ==> |shards[i].value| == len
  {
    if n == 0 then seq(total, _ => None)
    else
      var before := Placed(available, total, len, n - 1);
      var (idx, data) := available[n - 1];
      if idx < total then before[idx := Some(Resize(data, len))] else before
  }

  function FlagsOf(shards: seq<Shard>): (flags: seq<bool>)
    ensures |flags| == |shards|
    ensures forall i :: 0 <= i < |shards| ==> flags[i] == shards[i].Some?
  {
    seq(|shards|, i requires 0 <= i < |shards| => shards[i].Some?)
  }

  function ValueOrEmpty(shard: Shard): Vec {
    match shard
    case Some(data) => data
    case None => []
  }

  function ValuesOrEmpty(shards: seq<Shard>): (values: seq<Vec>)
    ensures |values| == |shards|
  {
    seq(|shards|, i requires 0 <= i < |shards| => ValueOrEmpty(shards[i]))
  }

  /** The answer of `RepairChunks` once its arguments are in order. */
  ghost predicate RepairSpec(available: seq<(nat, Vec)>, d: nat, p: nat, len: nat, r: Result<seq<Vec>, ParityError>)
  {
    var shards := Placed(available, d + p, len, |available|);
    exists outcome: Result<(), CodecError>, after: seq<Shard> ::
      && ReconstructSpec(shards, FlagsOf(shards), d, p, outcome, after)
      && match outcome
         case Err(e) => r == Err(Codec(e))
         case Ok(_) => r == Ok(ValuesOrEmpty(after))
  }

  /** The answer of `RepairChunks`. */
  ghost predicate RepairAnswer(available: seq<(nat, Vec)>, d: nat, p: nat, total: nat, len: nat, r: Result<seq<Vec>, ParityError>) {
    if total != d + p then r == Err(WrongTotal(d + p, total))
    else
      var stray := FirstOutOfRange(available, total, 0);
      if stray.Some? then r == Err(IndexOutOfRange(stray.value)) else RepairSpec(available, d, p, len, r)
  }

  class ParityManager {
    const rs: ReedSolomon

    ghost predicate Valid()
      reads rs.encodingMatrix.data
    {
      rs.Valid()
    }

    constructor (rs: ReedSolomon)
      requires rs.Valid()
      ensures this.rs == rs && Valid()
    {
      this.rs := rs;
    }

    /** Parity over the zero-padded chunks. */
    method ComputeParity(chunks: seq<Vec>) returns (r: Result<seq<Vec>, ParityError>)
      requires Valid()
      ensures |chunks| != rs.dataShards ==> r == Err(WrongChunkCount(rs.dataShards, |chunks|))
      ensures |chunks| == rs.dataShards ==>
                var len := MaxLength(chunks);
                r.Ok? && ParityOf(Padded(chunks, len), rs.dataShards, rs.parityShards, len, r.value)
    {
      hide Padded, MaxLength, ParityOf;
      if |chunks| != rs.dataShards {
        return Err(WrongChunkCount(rs.dataShards, |chunks|));
      }
      var len := MaxLength(chunks);
      var padded := Padded(chunks, len);
      assert |padded[0]| == len;
      var encoded := rs.Encode(padded);
      r := Ok(encoded.value);
    }

    method RepairChunks(available: seq<(nat, Vec)>, total: nat, len: nat) returns (r: Result<seq<Vec>, ParityError>)
      requires Valid()
      ensures RepairAnswer(available, rs.dataShards, rs.parityShards, total, len, r)
    {
      hide ReconstructSpec, Resize;
      var expected := rs.dataShards + rs.parityShards;
      if total != expected {
        return Err(WrongTotal(expected, total));
      }
      var shards := new Shard[total](_ => None);
      var present := new bool[total](_ => false);
      for k := 0 to |available|
        invariant FirstOutOfRange(available, total, 0) == FirstOutOfRange(available, total, k)
        invariant shards[..] == Placed(available, total, len, k)
        invariant present[..] == FlagsOf(shards[..])
      {
        var (idx, data) := available[k];
        if idx >= total {
          return Err(IndexOutOfRange(idx));
        }
        shards[idx] := Some(Resize(data, len));
        present[idx] := true;
      }
      ghost var before := shards[..];
      var outcome := rs.Reconstruct(shards, present[..]);
      match outcome {
        case Err(e) => r := Err(Codec(e));
        case Ok(_) => r := Ok(ValuesOrEmpty(shards[..]));
      }
      assert ReconstructSpec(before, FlagsOf(before), rs.dataShards, rs.parityShards, outcome, shards[..]);
    }
  }

  // ── Round trip ───────────────────────────────────────────────────────────

  /** Every readable chunk is, once padded, its shard of the group's codeword. */
  ghost predicate Readable(available: seq<(nat, Vec)>, data: seq<Vec>, d: nat, len: nat)
    requires IsShards(data, d, len)
  {
    forall k :: 0 <= k < |available| ==> Resize(available[k].1, len) == CodewordShard(data, d, len, available[k].0)
  }

  lemma {:induction false} PlacedSurvives(available: seq<(nat, Vec)>, data: seq<Vec>, d: nat, total: nat, len: nat, n: nat)
    requires IsShards(data, d, len) && Readable(available, data, d, len) && n <= |available|
    ensures var shards := Placed(available, total, len, n);
            Surviving(shards, FlagsOf(shards), d, len, data)
  {
    hide CodewordShard, Resize;
    if n > 0 {
      PlacedSurvives(available, data, d, total, len, n - 1);
    }
  }

  /** Repair of a padded group: success gives back every shard, failure only a singular choice of rows. */
  lemma RepairRoundTrip(available: seq<(nat, Vec)>, chunks: seq<Vec>, d: nat, p: nat, len: nat,
                        r: Result<seq<Vec>, ParityError>)
    requires d > 0 && |chunks| == d && len == MaxLength(chunks)
    requires Readable(available, Padded(chunks, len), d, len)
    requires RepairSpec(available, d, p, len, r)
    ensures var flags := FlagsOf(Placed(available, d + p, len, |available|));
            r.Ok? <==> Enough(flags, d) && Injective(SubMatrix(UsedIndices(flags, d), d), d)
    ensures r.Ok? ==> |r.value| == d + p
    ensures r.Ok? ==> forall i :: 0 <= i < d + p ==> r.value[i] == CodewordShard(Padded(chunks, len), d, len, i)
    ensures r.Ok? ==> forall i :: 0 <= i < d ==>
              && r.value[i] == chunks[i] + Zeros(len - |chunks[i]|)
              && r.value[i][..|chunks[i]|] == chunks[i]
  {
    hide CodewordShard, Injective, IndicesWhere, UsedIndices, Enough, RepairSpec, Placed, Padded;
    RepairIsCodeword(available, Padded(chunks, len), d, p, len, r);
    if r.Ok? {
      forall i | 0 <= i < d
        ensures r.value[i] == chunks[i] + Zeros(len - |chunks[i]|)
        ensures r.value[i][..|chunks[i]|] == chunks[i]
      {
        PaddedShard(chunks, d, len, i);
      }
    }
  }

  lemma PaddedShard(chunks: seq<Vec>, d: nat, len: nat, i: nat)
    requires |chunks| == d && i < d && |chunks[i]| <= len
    ensures CodewordShard(Padded(chunks, len), d, len, i) == chunks[i] + Zeros(len - |chunks[i]|)
  {
    hide CodewordShard;
    CodewordIsSystematic(Padded(chunks, len), d, len, i);
  }

  lemma RepairIsCodeword(available: seq<(nat, Vec)>, data: seq<Vec>, d: nat, p: nat, len: nat,
                         r: Result<seq<Vec>, ParityError>)
    requires d > 0 && IsShards(data, d, len)
    requires Readable(available, data, d, len) && RepairSpec(available, d, p, len, r)
    ensures var flags := FlagsOf(Placed(available, d + p, len, |available|));
            r.Ok? <==> Enough(flags, d) && Injective(SubMatrix(UsedIndices(flags, d), d), d)
    ensures r.Ok? ==> |r.value| == d + p
    ensures r.Ok? ==> forall i :: 0 <= i < d + p ==> r.value[i] == CodewordShard(data, d, len, i)
  {
    hide CodewordShard, ReconstructSpec, Injective, IndicesWhere, UsedIndices, Placed, Readable;
    var shards := Placed(available, d + p, len, |available|);
    var flags := FlagsOf(shards);
    PlacedSurvives(available, data, d, d + p, len, |available|);
    var outcome: Result<(), CodecError>, after: seq<Shard> :|
      && ReconstructSpec(shards, flags, d, p, outcome, after)
      && match outcome
         case Err(e) => r == Err(Codec(e))
         case Ok(_) => r == Ok(ValuesOrEmpty(after));
    hide Surviving;
    if Enough(flags, d) {
      ReconstructSucceedsIff(shards, flags, d, p, len, data, outcome, after);
    } else {
      TooFewFail(shards, flags, d, p, outcome, after);
    }
  }

  lemma TooFewFail(shards: seq<Shard>, flags: seq<bool>, d: nat, p: nat, outcome: Result<(), CodecError>, after: seq<Shard>)
    requires |shards| == |flags| == d + p && !Enough(flags, d)
    requires ReconstructSpec(shards, flags, d, p, outcome, after)
    ensures outcome.Err?
  {
    hide IndicesWhere, Injective, Reconstructed;
  }
}
