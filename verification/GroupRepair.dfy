/**
 Repairing one parity group from what can still be read: which shards are there, and when the
 codec gives back every member chunk.
 */
module GroupRepair {
  import opened Wrappers
  import opened Bytes
  import opened Digest
  import opened ChunkStore
  import opened LinearAlgebra
  import opened ErasureCode
  import opened ReedSolomonCodec
  import opened Recovery
  import opened ParityRepair
  import opened ParityGroups

  /** The readable members among the first `n`, with their positions; known bad ones are not tried. */
  function Available(sha: Sha, packs: Packs, index: Index, members: seq<Hash>, bad: set<Hash>, n: nat): seq<(nat, Bytes)>
    requires n <= |members|
  {
    if n == 0 then []
    else
      var before := Available(sha, packs, index, members, bad, n - 1);
      if members[n - 1] in bad then before
      else
        match ReadStored(sha, packs, index, members[n - 1])
        case Ok(data) => before + [(n - 1, data)]
        case Err(_) => before
  }

  function IntactFlags(sha: Sha, packs: Packs, index: Index, members: seq<Hash>): (flags: seq<bool>)
    ensures |flags| == |members|
    ensures forall i :: 0 <= i < |members| ==> flags[i] == Intact(sha, packs, index, members[i])
  {
    seq(|members|, i requires 0 <= i < |members| => Intact(sha, packs, index, members[i]))
  }

  /** The members that a repair collects: readable, and not among the chunks to be repaired. */
  function TurnFlags(sha: Sha, packs: Packs, index: Index, members: seq<Hash>, bad: set<Hash>): (flags: seq<bool>)
    ensures |flags| == |members|
    ensures forall i :: 0 <= i < |members| ==> flags[i] == (members[i] !in bad && Intact(sha, packs, index, members[i]))
  {
    seq(|members|, i requires 0 <= i < |members| => members[i] !in bad && Intact(sha, packs, index, members[i]))
  }

  /** `a` lists the positions `idx` with what is read there. */
  ghost predicate ListsAll(sha: Sha, packs: Packs, index: Index, members: seq<Hash>, a: seq<(nat, Bytes)>, idx: seq<nat>) {
    && |a| == |idx|
    && forall k :: 0 <= k < |a| ==> Holds(sha, packs, index, members, a[k], idx[k])
  }

  predicate Holds(sha: Sha, packs: Packs, index: Index, members: seq<Hash>, pair: (nat, Bytes), i: nat) {
    pair.0 == i < |members| && ReadStored(sha, packs, index, members[i]) == Ok(pair.1)
  }

  lemma ListsOneMore(sha: Sha, packs: Packs, index: Index, members: seq<Hash>, a: seq<(nat, Bytes)>, idx: seq<nat>,
                     pair: (nat, Bytes), i: nat)
    requires ListsAll(sha, packs, index, members, a, idx) && Holds(sha, packs, index, members, pair, i)
    ensures ListsAll(sha, packs, index, members, a + [pair], idx + [i])
  {
    hide Holds;
  }

  /** One round of the collecting loop. */
  lemma AvailableUnfold(sha: Sha, packs: Packs, index: Index, members: seq<Hash>, bad: set<Hash>, n: nat)
    requires n < |members|
    ensures Available(sha, packs, index, members, bad, n + 1) ==
            (var before := Available(sha, packs, index, members, bad, n);
             if members[n] in bad then before
             else
               match ReadStored(sha, packs, index, members[n])
               case Ok(data) => before + [(n, data)]
               case Err(_) => before)
  {
    hide ReadStored;
  }

  lemma AvailableMore(sha: Sha, packs: Packs, index: Index, members: seq<Hash>, bad: set<Hash>, n: nat) returns (data: Bytes)
    requires n < |members| && members[n] !in bad && Intact(sha, packs, index, members[n])
    ensures Available(sha, packs, index, members, bad, n + 1) == Available(sha, packs, index, members, bad, n) + [(n, data)]
    ensures Holds(sha, packs, index, members, (n, data), n)
  {
    hide ReadStored;
    data := ReadStored(sha, packs, index, members[n]).value;
  }

  lemma AvailableSame(sha: Sha, packs: Packs, index: Index, members: seq<Hash>, bad: set<Hash>, n: nat)
    requires n < |members| && (members[n] in bad || !Intact(sha, packs, index, members[n]))
    ensures Available(sha, packs, index, members, bad, n + 1) == Available(sha, packs, index, members, bad, n)
  {
    hide ReadStored;
  }

  /** The two lists grow together. */
  lemma AvailableOne(sha: Sha, packs: Packs, index: Index, members: seq<Hash>, bad: set<Hash>, n: nat, flags: seq<bool>)
    requires n < |members| == |flags| && flags[n] == (members[n] !in bad && Intact(sha, packs, index, members[n]))
    requires ListsAll(sha, packs, index, members, Available(sha, packs, index, members, bad, n), IndicesWhere(flags, true, n))
    ensures ListsAll(sha, packs, index, members, Available(sha, packs, index, members, bad, n + 1),
                     IndicesWhere(flags, true, n + 1))
  {
    hide Intact, ListsAll, Available, IndicesWhere, Holds;
    IndicesStep(flags, true, n);
    if flags[n] {
      var data := AvailableMore(sha, packs, index, members, bad, n);
      ListsOneMore(sha, packs, index, members, Available(sha, packs, index, members, bad, n), IndicesWhere(flags, true, n),
                   (n, data), n);
    } else {
      AvailableSame(sha, packs, index, members, bad, n);
    }
  }

  /** The available list is the list of flagged positions with what is read there. */
  lemma AvailableExact(sha: Sha, packs: Packs, index: Index, members: seq<Hash>, bad: set<Hash>, n: nat)
    requires n <= |members|
    ensures ListsAll(sha, packs, index, members, Available(sha, packs, index, members, bad, n),
                     IndicesWhere(TurnFlags(sha, packs, index, members, bad), true, n))
  {
    hide *;
    var flags := TurnFlags(sha, packs, index, members, bad);
    NothingListed(sha, packs, index, members, bad, flags);
    for k := 0 to n
      invariant ListsAll(sha, packs, index, members, Available(sha, packs, index, members, bad, k), IndicesWhere(flags, true, k))
    {
      AvailableOne(sha, packs, index, members, bad, k, flags);
    }
  }

  lemma NothingListed(sha: Sha, packs: Packs, index: Index, members: seq<Hash>, bad: set<Hash>, flags: seq<bool>)
    ensures ListsAll(sha, packs, index, members, Available(sha, packs, index, members, bad, 0), IndicesWhere(flags, true, 0))
  {
    hide Holds;
  }

  /** Placing the available chunks marks exactly the flagged members. */
  lemma PlacedFlags(sha: Sha, packs: Packs, index: Index, members: seq<Hash>, bad: set<Hash>, len: nat)
    ensures var a := Available(sha, packs, index, members, bad, |members|);
            && FirstOutOfRange(a, |members|, 0) == None
            && |a| == |IndicesWhere(TurnFlags(sha, packs, index, members, bad), true, |members|)|
            && FlagsOf(Placed(a, |members|, len, |a|)) == TurnFlags(sha, packs, index, members, bad)
  {
    hide ReadStored, Placed, Available, Intact, Holds, FlagsOf, IndicesWhere;
    var flags := TurnFlags(sha, packs, index, members, bad);
    var a := Available(sha, packs, index, members, bad, |members|);
    AvailableExact(sha, packs, index, members, bad, |members|);
    var idx := IndicesWhere(flags, true, |members|);
    forall k | 0 <= k < |a|
      ensures a[k].0 == idx[k]
    {
      HoldsAt(sha, packs, index, members, a[k], idx[k]);
    }
    PlacedAtIndices(a, idx, flags, len);
  }

  lemma HoldsAt(sha: Sha, packs: Packs, index: Index, members: seq<Hash>, pair: (nat, Bytes), i: nat)
    requires Holds(sha, packs, index, members, pair, i)
    ensures pair.0 == i < |members|
  {
  }

  lemma PlacedAtIndices(a: seq<(nat, Bytes)>, idx: seq<nat>, flags: seq<bool>, len: nat)
    requires idx == IndicesWhere(flags, true, |flags|) && |a| == |idx| && forall k :: 0 <= k < |a| ==> a[k].0 == idx[k]
    ensures FirstOutOfRange(a, |flags|, 0) == None && FlagsOf(Placed(a, |flags|, len, |a|)) == flags
  {
    hide Placed, FirstOutOfRange, IndicesWhere, FlagsOf;
    var shards := Placed(a, |flags|, len, |a|);
    forall i | 0 <= i < |flags|
      ensures shards[i].Some? == flags[i]
    {
      if flags[i] {
        var k :| 0 <= k < |idx| && idx[k] == i;
        assert a[k].0 == i;
      }
    }
  }

  /** The chunk at position `i` of a group: a data chunk as it was, or a parity shard. */
  function MemberChunk(chunks: seq<Vec>, d: nat, len: nat, i: nat): Vec
    requires |chunks| == d
  {
    if i < d then chunks[i] else CodewordShard(Padded(chunks, len), d, len, i)
  }

  lemma MemberNamed(sha: Sha, g: ParityGroup, chunks: seq<Vec>, d: nat, p: nat, i: nat)
    requires Records(sha, g, chunks, d, p) && i < d + p
    ensures |Members(g)| == d + p
    ensures Members(g)[i] == HashOfChunk(sha, MemberChunk(chunks, d, g.chunkSize, i))
  {
    hide HashOfChunk, CodewordShard, Padded, MaxLength, Records;
    MemberCount(sha, g, chunks, d, p);
    if i < d {
      DataNamed(sha, g, chunks, d, p, i);
    } else {
      ParityNamed(sha, g, chunks, d, p, i - d);
      assert Members(g)[i] == g.parityChunkHashes[i - d];
    }
  }

  lemma MemberCount(sha: Sha, g: ParityGroup, chunks: seq<Vec>, d: nat, p: nat)
    requires Records(sha, g, chunks, d, p)
    ensures |g.dataChunkHashes| == d == |chunks| && |g.parityChunkHashes| == p && d > 0
    ensures g.chunkSize == MaxLength(chunks)
  {
    hide HashOfChunk, CodewordShard, Padded, MaxLength;
  }

  lemma DataNamed(sha: Sha, g: ParityGroup, chunks: seq<Vec>, d: nat, p: nat, i: nat)
    requires Records(sha, g, chunks, d, p) && i < d
    ensures g.dataChunkHashes[i] == HashOfChunk(sha, chunks[i])
  {
    hide HashOfChunk, CodewordShard, Padded, MaxLength;
  }

  lemma ParityNamed(sha: Sha, g: ParityGroup, chunks: seq<Vec>, d: nat, p: nat, j: nat)
    requires Records(sha, g, chunks, d, p) && j < p
    ensures g.parityChunkHashes[j] ==
            HashOfChunk(sha, CodewordShard(Padded(chunks, g.chunkSize), d, g.chunkSize, d + j))
  {
    hide HashOfChunk, CodewordShard, Padded, MaxLength;
  }

  /** No readable member has other contents of the same name; those in `bad` do not matter. */
  ghost predicate NoImpostor(sha: Sha, packs: Packs, index: Index, g: ParityGroup, chunks: seq<Vec>, d: nat, bad: set<Hash>)
    requires |chunks| == d
  {
    forall i :: 0 <= i < |Members(g)| && Members(g)[i] !in bad && Intact(sha, packs, index, Members(g)[i]) ==>
      SameUnlessCollision(sha, ReadStored(sha, packs, index, Members(g)[i]).value, MemberChunk(chunks, d, g.chunkSize, i))
  }

  lemma MemberResized(chunks: seq<Vec>, d: nat, len: nat, i: nat)
    requires d > 0 && |chunks| == d && len == MaxLength(chunks)
    ensures Resize(MemberChunk(chunks, d, len, i), len) == CodewordShard(Padded(chunks, len), d, len, i)
    ensures |MemberChunk(chunks, d, len, i)| <= len
    ensures CodewordShard(Padded(chunks, len), d, len, i)[..|MemberChunk(chunks, d, len, i)|] == MemberChunk(chunks, d, len, i)
  {
    hide CodewordShard;
    if i < d {
      CodewordIsSystematic(Padded(chunks, len), d, len, i);
    }
  }

  /** What was read are shards of the group's codeword. */
  lemma AvailableFits(sha: Sha, packs: Packs, index: Index, g: ParityGroup, chunks: seq<Vec>, d: nat, p: nat, bad: set<Hash>)
    requires Records(sha, g, chunks, d, p)
    requires NoImpostor(sha, packs, index, g, chunks, d, bad)
    ensures Readable(Available(sha, packs, index, Members(g), bad, |Members(g)|), Padded(chunks, g.chunkSize), d, g.chunkSize)
  {
    hide ReadStored, Available, CodewordShard, Padded, Resize, HashOfChunk, MemberChunk, MaxLength, IndicesWhere;
    var a := Available(sha, packs, index, Members(g), bad, |Members(g)|);
    AvailableExact(sha, packs, index, Members(g), bad, |Members(g)|);
    forall k | 0 <= k < |a|
      ensures Resize(a[k].1, g.chunkSize) == CodewordShard(Padded(chunks, g.chunkSize), d, g.chunkSize, a[k].0)
    {
      var i := a[k].0;
      assert Holds(sha, packs, index, Members(g), a[k], i);
      MemberNamed(sha, g, chunks, d, p, 0);
      MemberNamed(sha, g, chunks, d, p, i);
      assert SameUnlessCollision(sha, a[k].1, MemberChunk(chunks, d, g.chunkSize, i));
      MemberResized(chunks, d, g.chunkSize, i);
    }
  }

  /** Enough members are flagged, and the rows that the codec picks from them are independent. */
  ghost predicate Solvable(flags: seq<bool>, d: nat) {
    Enough(flags, d) && Injective(SubMatrix(UsedIndices(flags, d), d), d)
  }

  lemma SolvableMeans(flags: seq<bool>, d: nat)
    ensures Solvable(flags, d) <==> Enough(flags, d) && Injective(SubMatrix(UsedIndices(flags, d), d), d)
  {
    hide Injective, UsedIndices, IndicesWhere;
  }

  /**
   The codec answers Ok exactly when enough members are collected and the chosen rows are
   independent, and then position `i` starts with the chunk that was there.
   */
  lemma GroupComesBack(sha: Sha, packs: Packs, index: Index, g: ParityGroup, chunks: seq<Vec>, d: nat, p: nat,
                       bad: set<Hash>, r: Result<seq<Vec>, ParityError>)
    requires Records(sha, g, chunks, d, p)
    requires NoImpostor(sha, packs, index, g, chunks, d, bad)
    requires RepairSpec(Available(sha, packs, index, Members(g), bad, |Members(g)|), d, p, g.chunkSize, r)
    ensures r.Ok? <==> Solvable(TurnFlags(sha, packs, index, Members(g), bad), d)
    ensures r.Ok? ==> |r.value| == d + p
    ensures r.Ok? ==> forall i :: 0 <= i < d + p ==>
              var chunk := MemberChunk(chunks, d, g.chunkSize, i);
              |chunk| <= |r.value[i]| == g.chunkSize && r.value[i][..|chunk|] == chunk
  {
    hide *;
    var a := Available(sha, packs, index, Members(g), bad, |Members(g)|);
    MemberCount(sha, g, chunks, d, p);
    MemberNamed(sha, g, chunks, d, p, 0);
    AvailableFits(sha, packs, index, g, chunks, d, p, bad);
    PlacedFlags(sha, packs, index, Members(g), bad, g.chunkSize);
    RepairRoundTrip(a, chunks, d, p, g.chunkSize, r);
    SolvableMeans(TurnFlags(sha, packs, index, Members(g), bad), d);
    if r.Ok? {
      forall i | 0 <= i < d + p
        ensures var chunk := MemberChunk(chunks, d, g.chunkSize, i);
                |chunk| <= |r.value[i]| == g.chunkSize && r.value[i][..|chunk|] == chunk
      {
        MemberResized(chunks, d, g.chunkSize, i);
      }
    }
  }

  // ── Lengths ──────────────────────────────────────────────────────────────

  ghost predicate AllOfLength(shards: seq<Shard>, len: nat) {
    forall i :: 0 <= i < |shards| && shards[i].Some? ==> |shards[i].value| == len
  }

  /** The shards that reconstruction adds are as long as those that were there. */
  lemma ReconstructKeepsLength(before: seq<Shard>, flags: seq<bool>, d: nat, p: nat, len: nat,
                               outcome: Result<(), CodecError>, after: seq<Shard>)
    requires d > 0 && flags == FlagsOf(before) && AllOfLength(before, len)
    requires ReconstructSpec(before, flags, d, p, outcome, after) && outcome.Ok?
    ensures AllOfLength(after, len)
  {
    hide TriageShards, CodewordShard, Injective, UsedIndices, IndicesWhere, Explains;
    match TriageShards(before, flags, d, p)
    case Reject(_) =>
    case NothingMissing =>
    case Proceed(l) =>
      var present := IndicesWhere(flags, true, d + p);
      assert flags[present[0]];
      var data: seq<Vec> :| IsShards(data, d, l) && Explains(before, flags, d, l, data)
                            && FilledFrom(before, after, flags, d, l, data);
      forall i | 0 <= i < |after| && after[i].Some?
        ensures |after[i].value| == len
      {
        assert after[i] == if flags[i] then before[i] else Some(CodewordShard(data, d, l, i));
      }
  }

  /** Whatever was placed, an Ok repair returns shards of at most the group's chunk size. */
  lemma RepairLengths(available: seq<(nat, Vec)>, d: nat, p: nat, len: nat, r: Result<seq<Vec>, ParityError>)
    requires d > 0 && RepairSpec(available, d, p, len, r) && r.Ok?
    ensures forall i :: 0 <= i < |r.value| ==> |r.value[i]| <= len
  {
    hide ReconstructSpec, Placed, FlagsOf;
    var shards := Placed(available, d + p, len, |available|);
    var outcome: Result<(), CodecError>, after: seq<Shard> :|
      && ReconstructSpec(shards, FlagsOf(shards), d, p, outcome, after)
      && match outcome
         case Err(e) => r == Err(Codec(e))
         case Ok(_) => r == Ok(ValuesOrEmpty(after));
    ReconstructKeepsLength(shards, FlagsOf(shards), d, p, len, outcome, after);
    forall i | 0 <= i < |r.value|
      ensures |r.value[i]| <= len
    {
      assert r.value[i] == ValueOrEmpty(after[i]);
    }
  }
}
