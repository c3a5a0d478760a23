/**
 Two groups of the default geometry that share one data chunk, all of whose other chunks have
 different names: the premise of the repair order is met by actual chunks of three bytes.
 */
module SharedGroups {
  import opened Bytes
  import opened Digest
  import opened PackFormat
  import opened ByteLayouts
  import opened GaloisField
  import opened LinearAlgebra
  import opened ErasureCode
  import opened ParityRepair
  import opened ParityGroups
  import opened GroupRepair
  import opened RepairOrder

  /** A digest that keeps three bytes apart. */
  function Digest32(x: Bytes): (r: Bytes)
    ensures |r| == 32
  {
    if |x| == 3 then x + Zeros(29) else Zeros(32)
  }

  lemma HexDiffers(a: Bytes, b: Bytes)
    requires |a| == |b| && Hex(a) == Hex(b)
    ensures a == b
  {
    hide Hex, Value;
    forall i | 0 <= i < |a|
      ensures a[i] == b[i]
    {
      HexIs(a, i);
      HexIs(b, i);
      ValueInjective(a[i], b[i]);
    }
  }

  lemma NamesOfThree(sha: Sha, a: Bytes, b: Bytes)
    requires sha == Digest32 && |a| == 3 == |b| && HashOfChunk(sha, a) == HashOfChunk(sha, b)
    ensures a == b
  {
    hide Hex;
    HexDiffers(Digest32(a), Digest32(b));
    assert Digest32(a)[..3] == a && Digest32(b)[..3] == b;
  }

  function FirstChunks(): (chunks: seq<Bytes>)
    ensures |chunks| == 64
  {
    seq(64, j requires 0 <= j < 64 =>
      [ToByte(if j == 0 then 1 else 100 + j), if j == 0 then 1 else 0, if j == 1 then 1 else 0])
  }

  function SecondChunks(): (chunks: seq<Bytes>)
    ensures |chunks| == 64
  {
    seq(64, j requires 0 <= j < 64 => [ToByte(j), if j == 1 then 1 else 0, 0])
  }

  /** The record of chunks of three bytes. */
  function GroupFor(sha: Sha, id: nat, chunks: seq<Bytes>): (g: ParityGroup)
    requires |chunks| == 64
    ensures |Members(g)| == 72
  {
    ParityGroup(id, HashesOf(sha, chunks),
                seq(8, j requires 0 <= j < 8 => HashOfChunk(sha, CodewordShard(Padded(chunks, 3), 64, 3, 64 + j))), 3)
  }

  lemma {:induction false} AllThree(chunks: seq<Bytes>)
    requires |chunks| > 0 && forall j :: 0 <= j < |chunks| ==> |chunks[j]| == 3
    ensures MaxLength(chunks) == 3
  {
    if |chunks| > 1 {
      AllThree(chunks[..|chunks| - 1]);
    }
  }

  lemma GroupForRecords(sha: Sha, id: nat, chunks: seq<Bytes>)
    requires |chunks| == 64 && forall j :: 0 <= j < 64 ==> |chunks[j]| == 3
    ensures Records(sha, GroupFor(sha, id, chunks), chunks, 64, 8)
  {
    hide HashOfChunk, CodewordShard, Padded, MaxLength;
    AllThree(chunks);
  }

  /** A column that is a unit vector picks one power out of every parity row. */
  lemma ParityByte(chunks: seq<Bytes>, r: nat, b: nat, k: nat)
    requires |chunks| == 64 && forall j :: 0 <= j < 64 ==> |chunks[j]| == 3
    requires b < 3 && k < 64 <= r && forall j :: 0 <= j < 64 ==> chunks[j][b] == if j == k then 1 else 0
    ensures |MemberChunk(chunks, 64, 3, r)| == 3 && MemberChunk(chunks, 64, 3, r)[b] == Pow(r * k)
  {
    hide DotUpTo, Pow;
    var data := Padded(chunks, 3);
    forall j | 0 <= j < 64
      ensures data[j] == chunks[j]
    {
    }
    assert Column(data, b) == Unit(64, k);
    DotUnit(EncodingRow(r, 64), k);
  }

  lemma PowersDiffer(r: nat, s: nat)
    requires 64 <= r < 72 && 64 <= s < 72
    ensures Pow(r) == Pow(s) ==> r == s
    ensures Pow(r) != 0 && Pow(r) != 1 && Pow(0) == 1
  {
    hide Pow;
    PowEqual(r, s);
    PowEqual(r, 0);
    PowNonZero(r);
    PowSeven();
  }

  predicate Looks(id: nat, data: Bytes)
    requires IsSlot(id)
  {
    && |data| == 3
    && if id <= 63 then Value(data[0]) == 100 + id && data[1] == 0
       else if id <= 71 then data[1] == 1 && data[2] == Pow(id)
       else if id == 72 then Value(data[0]) == 0 && data[1] == 0
       else if id <= 134 then Value(data[0]) == id - 71 && data[1] == 0
       else if id <= 142 then data[1] == Pow(id - 71)
       else data[1] == 1 && data[2] == 0
  }

  lemma LooksDiffer(a: nat, b: nat, data: Bytes)
    requires IsSlot(a) && IsSlot(b) && Looks(a, data) && Looks(b, data)
    ensures a == b
  {
    hide Pow, Value;
    forall r, s | 64 <= r < 72 && 64 <= s < 72
      ensures (Pow(r) == Pow(s) ==> r == s) && Pow(r) != 0 && Pow(r) != 1
    {
      PowersDiffer(r, s);
    }
  }

  /** There are such groups. */
  lemma SharingExists() returns (sha: Sha, two: Pair)
    ensures Sharing(sha, two)
  {
    hide HashOfChunk, Records, Looks, NameAt, DataAt, FirstChunks, SecondChunks;
    sha := Digest32;
    two := Pair(GroupFor(sha, 0, FirstChunks()), FirstChunks(), GroupFor(sha, 1, SecondChunks()), SecondChunks());
    ThreeEach();
    GroupForRecords(sha, 0, FirstChunks());
    GroupForRecords(sha, 1, SecondChunks());
    AllDiffer(sha, two);
  }

  lemma AllDiffer(sha: Sha, two: Pair)
    requires sha == Digest32
    requires two == Pair(GroupFor(sha, 0, FirstChunks()), FirstChunks(), GroupFor(sha, 1, SecondChunks()), SecondChunks())
    ensures two.Sized() && NamesDiffer(two)
  {
    hide HashOfChunk, Looks, NameAt, DataAt, FirstChunks, SecondChunks, GroupFor, Members;
    SlotLooks(sha, two, 1);
    forall a, b | IsSlot(a) && IsSlot(b) && NameAt(two, a) == NameAt(two, b)
      ensures a == b
    {
      OneSlot(sha, two, a, b);
    }
  }

  lemma OneSlot(sha: Sha, two: Pair, a: nat, b: nat)
    requires sha == Digest32 && IsSlot(a) && IsSlot(b)
    requires two == Pair(GroupFor(sha, 0, FirstChunks()), FirstChunks(), GroupFor(sha, 1, SecondChunks()), SecondChunks())
    requires two.Sized() && NameAt(two, a) == NameAt(two, b)
    ensures a == b
  {
    hide HashOfChunk, NameAt, DataAt, FirstChunks, SecondChunks, GroupFor, Members, Looks;
    SlotLooks(sha, two, a);
    SlotLooks(sha, two, b);
    LooksLong(a, DataAt(two, a));
    LooksLong(b, DataAt(two, b));
    NamesOfThree(sha, DataAt(two, a), DataAt(two, b));
    LooksDiffer(a, b, DataAt(two, a));
  }

  lemma LooksLong(id: nat, data: Bytes)
    requires IsSlot(id) && Looks(id, data)
    ensures |data| == 3
  {
  }

  lemma ThreeEach()
    ensures forall j :: 0 <= j < 64 ==> |FirstChunks()[j]| == 3 && |SecondChunks()[j]| == 3
    ensures FirstChunks()[0] == SecondChunks()[1]
  {
  }

  lemma SlotLooks(sha: Sha, two: Pair, id: nat)
    requires two == Pair(GroupFor(sha, 0, FirstChunks()), FirstChunks(), GroupFor(sha, 1, SecondChunks()), SecondChunks())
    requires IsSlot(id)
    ensures two.Sized() && Looks(id, DataAt(two, id)) && HashOfChunk(sha, DataAt(two, id)) == NameAt(two, id)
  {
    hide HashOfChunk, MemberChunk, Records, Looks, Members, GroupFor, FirstChunks, SecondChunks;
    ThreeEach();
    GroupForRecords(sha, 0, FirstChunks());
    GroupForRecords(sha, 1, SecondChunks());
    var m := MemberAt(id);
    SizesAre(sha);
    if id <= 71 {
      MemberNamed(sha, two.f, two.fc, 64, 8, id);
      FirstLooks(id);
    } else {
      MemberNamed(sha, two.g, two.gc, 64, 8, m.1);
      SecondLooks(id, m.1);
    }
  }

  lemma SizesAre(sha: Sha)
    ensures GroupFor(sha, 0, FirstChunks()).chunkSize == 3 == GroupFor(sha, 1, SecondChunks()).chunkSize
  {
    hide HashOfChunk;
  }

  lemma FirstLooks(id: nat)
    requires 1 <= id <= 71
    ensures Looks(id, MemberChunk(FirstChunks(), 64, 3, id))
  {
    hide Pow, Value, ToByte, CodewordShard;
    ThreeEach();
    if id <= 63 {
      ValueOfByte(100 + id);
    } else {
      ParityByte(FirstChunks(), id, 1, 0);
      ParityByte(FirstChunks(), id, 2, 1);
      PowersDiffer(64, 64);
      assert id * 0 == 0 && id * 1 == id;
    }
  }

  lemma SecondLooks(id: nat, i: nat)
    requires 72 <= id <= 143 && i == if id == 72 then 0 else if id == 143 then 1 else id - 71
    ensures Looks(id, MemberChunk(SecondChunks(), 64, 3, i))
  {
    hide Pow, Value, ToByte, CodewordShard;
    ThreeEach();
    if i <= 63 {
      ValueOfByte(i);
    } else {
      ParityByte(SecondChunks(), i, 1, 1);
      assert i * 1 == i;
    }
  }
}
