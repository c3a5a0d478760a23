/**
 The records of crates/ecc/src/repair.rs that tie data chunks to their parity chunks.
 */
module ParityGroups {
  import opened Wrappers
  import opened Bytes
  import opened Digest
  import opened LinearAlgebra
  import opened ErasureCode
  import opened ReedSolomonCodec
  import opened ParityRepair

  datatype ParityGroup = ParityGroup(groupId: nat, dataChunkHashes: seq<Hash>, parityChunkHashes: seq<Hash>,
                                     chunkSize: nat)

  /** The members of a group in shard order. */
  function Members(g: ParityGroup): seq<Hash> {
    g.dataChunkHashes + g.parityChunkHashes
  }

  function HashesOf(sha: Sha, chunks: seq<Bytes>): (hashes: seq<Hash>)
    ensures |hashes| == |chunks|
    ensures forall i :: 0 <= i < |chunks| ==> hashes[i] == HashOfChunk(sha, chunks[i])
  {
    seq(|chunks|, i requires 0 <= i < |chunks| => HashOfChunk(sha, chunks[i]))
  }

  method HashAll(sha: Sha, chunks: seq<Bytes>) returns (hashes: seq<Hash>)
    ensures hashes == HashesOf(sha, chunks)
  {
    hide HashOfChunk;
    hashes := [];
    for i := 0 to |chunks|
      invariant hashes == HashesOf(sha, chunks)[..i]
    {
      hashes := hashes + [HashOfChunk(sha, chunks[i])];
    }
  }

  method CreateParityGroup(sha: Sha, groupId: nat, dataChunks: seq<Bytes>, parityChunks: seq<Bytes>, chunkSize: nat)
    returns (g: ParityGroup)
    ensures g == ParityGroup(groupId, HashesOf(sha, dataChunks), HashesOf(sha, parityChunks), chunkSize)
  {
    var dataChunkHashes := HashAll(sha, dataChunks);
    var parityChunkHashes := HashAll(sha, parityChunks);
    g := ParityGroup(groupId, dataChunkHashes, parityChunkHashes, chunkSize);
  }

  predicate HasMember(g: ParityGroup, h: Hash) {
    h in g.dataChunkHashes || h in g.parityChunkHashes
  }

  /** The first group that has the chunk as a member. */
  function FindGroupByHash(groups: seq<ParityGroup>, h: Hash): (r: Option<ParityGroup>)
    ensures r.None? <==> forall i :: 0 <= i < |groups| ==> !HasMember(groups[i], h)
    ensures r.Some? ==> exists i :: 0 <= i < |groups| && groups[i] == r.value && HasMember(r.value, h)
                                    && forall j :: 0 <= j < i ==> !HasMember(groups[j], h)
  {
    if |groups| == 0 then None
    else if HasMember(groups[0], h) then Some(groups[0])
    else
      var r := FindGroupByHash(groups[1..], h);
      assert r.Some? ==> exists i :: 0 <= i < |groups| - 1 && groups[1..][i] == r.value && groups[i + 1] == r.value
                                     && forall j :: 0 <= j < i ==> !HasMember(groups[1..][j], h);
      r
  }

  /** The first group of that id. */
  function FindGroup(groups: seq<ParityGroup>, id: nat): (r: Option<ParityGroup>)
    ensures r.None? <==> forall i :: 0 <= i < |groups| ==> groups[i].groupId != id
    ensures r.Some? ==> r.value in groups && r.value.groupId == id
  {
    if |groups| == 0 then None
    else if groups[0].groupId == id then Some(groups[0])
    else FindGroup(groups[1..], id)
  }

  /** `g` describes the padded codeword of `chunks`. */
  ghost predicate Records(sha: Sha, g: ParityGroup, chunks: seq<Vec>, d: nat, p: nat) {
    && d > 0 && |chunks| == d
    && g.chunkSize == MaxLength(chunks)
    && g.dataChunkHashes == HashesOf(sha, chunks)
    && |g.parityChunkHashes| == p
    && forall j :: 0 <= j < p ==>
         g.parityChunkHashes[j] ==
         HashOfChunk(sha, CodewordShard(Padded(chunks, g.chunkSize), d, g.chunkSize, d + j))
  }

  /** A group made from computed parity records its chunks. */
  lemma CreatedRecords(sha: Sha, g: ParityGroup, chunks: seq<Vec>, parity: seq<Vec>, d: nat, p: nat)
    requires d > 0 && |chunks| == d
    requires ParityOf(Padded(chunks, MaxLength(chunks)), d, p, MaxLength(chunks), parity)
    requires g == ParityGroup(g.groupId, HashesOf(sha, chunks), HashesOf(sha, parity), MaxLength(chunks))
    ensures Records(sha, g, chunks, d, p)
  {
    hide CodewordShard, HashOfChunk, Padded, MaxLength;
  }
}
