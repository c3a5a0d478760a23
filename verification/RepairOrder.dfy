/**
 The order in which a scrub takes the groups (crates/verify/src/scrub.rs) comes from a hash map.  It
 matters for a group that shares a chunk with an earlier one when the newest pack is lost: the
 repaired chunk gets the id of that pack, so the old index suddenly finds it again.
 */
module RepairOrder {
  import opened Wrappers
  import opened Bytes
  import opened Digest
  import opened PackFormat
  import opened ChunkStore
  import opened Repositories
  import opened LinearAlgebra
  import opened ErasureCode
  import opened ReedSolomonCodec
  import opened Recovery
  import opened CodecTheorems
  import opened ParityRepair
  import opened ParityGroups
  import opened GroupRepair
  import opened IndexSoundness
  import opened CrashRuns
  import opened LossPatterns
  import opened Scrub

  // ── Two groups that share a chunk ────────────────────────────────────────

  /** Groups of the default geometry with the chunks they record: data chunk 0 of the first is data chunk 1 of the second. */
  datatype Pair = Pair(f: ParityGroup, fc: seq<Bytes>, g: ParityGroup, gc: seq<Bytes>) {
    predicate Sized() {
      |Members(f)| == 72 == |Members(g)| && |fc| == 64 == |gc|
    }
  }

  /** Every chunk had a pack of its own, and the shared one the newest. */
  predicate IsSlot(id: nat) {
    1 <= id <= 143
  }

  function SlotOf(first: bool, i: nat): (id: nat)
    requires i < 72
    ensures IsSlot(id)
  {
    if first then (if i == 0 then 143 else i)
    else if i == 0 then 72 else if i == 1 then 143 else 71 + i
  }

  function Group(two: Pair, first: bool): ParityGroup {
    if first then two.f else two.g
  }

  function ChunksIn(two: Pair, first: bool): seq<Bytes> {
    if first then two.fc else two.gc
  }

  function NameAt(two: Pair, id: nat): Hash
    requires two.Sized() && IsSlot(id)
  {
    if id <= 71 then Members(two.f)[id]
    else if id == 72 then Members(two.g)[0]
    else if id == 143 then Members(two.g)[1]
    else Members(two.g)[id - 71]
  }

  function DataAt(two: Pair, id: nat): Bytes
    requires two.Sized() && IsSlot(id)
  {
    if id <= 71 then MemberChunk(two.fc, 64, two.f.chunkSize, id)
    else if id == 72 then MemberChunk(two.gc, 64, two.g.chunkSize, 0)
    else if id == 143 then MemberChunk(two.gc, 64, two.g.chunkSize, 1)
    else MemberChunk(two.gc, 64, two.g.chunkSize, id - 71)
  }

  ghost predicate NamesDiffer(two: Pair)
    requires two.Sized()
  {
    forall a, b :: IsSlot(a) && IsSlot(b) && NameAt(two, a) == NameAt(two, b) ==> a == b
  }

  ghost predicate Sharing(sha: Sha, two: Pair) {
    && Records(sha, two.f, two.fc, 64, 8) && Records(sha, two.g, two.gc, 64, 8)
    && two.Sized() && two.fc[0] == two.gc[1] && NamesDiffer(two)
    && two.f.groupId != two.g.groupId && two.f.chunkSize < MAX_STORED && two.g.chunkSize < MAX_STORED
  }

  lemma Slots(sha: Sha, two: Pair, first: bool, i: nat)
    requires Sharing(sha, two) && i < 72
    ensures |Members(Group(two, first))| == 72 && |ChunksIn(two, first)| == 64
    ensures NameAt(two, SlotOf(first, i)) == Members(Group(two, first))[i]
    ensures DataAt(two, SlotOf(first, i)) == MemberChunk(ChunksIn(two, first), 64, Group(two, first).chunkSize, i)
    ensures HashOfChunk(sha, DataAt(two, SlotOf(first, i))) == NameAt(two, SlotOf(first, i))
    ensures |DataAt(two, SlotOf(first, i))| < MAX_STORED
  {
    hide HashOfChunk, Members, Records, NamesDiffer, CodewordShard, Padded, MaxLength;
    MemberNamed(sha, Group(two, first), ChunksIn(two, first), 64, 8, i);
    MemberNamed(sha, two.g, two.gc, 64, 8, 1);
    MemberNamed(sha, two.f, two.fc, 64, 8, 0);
    MemberCount(sha, Group(two, first), ChunksIn(two, first), 64, 8);
    MemberResized(ChunksIn(two, first), 64, Group(two, first).chunkSize, i);
  }

  /** Which member sits in a slot. */
  function MemberAt(id: nat): (m: (bool, nat))
    requires IsSlot(id)
    ensures m.1 < 72 && SlotOf(m.0, m.1) == id
  {
    if id <= 71 then (true, id) else if id == 72 then (false, 0) else if id == 143 then (false, 1) else (false, id - 71)
  }

  // ── Before and after the loss ────────────────────────────────────────────

  ghost predicate InSlots(sha: Sha, two: Pair, packs: Packs)
    requires two.Sized()
  {
    forall id :: id in packs ==> IsSlot(id) && packs[id] == PackFile(sha, id, [Entry(NameAt(two, id), DataAt(two, id))])
  }

  /** An index with exactly these chunks, each where it was written. */
  ghost predicate Indexed(two: Pair, index: Index)
    requires two.Sized()
  {
    && (forall id :: IsSlot(id) ==> EntryIs(two, index, id))
    && forall h :: h in index ==> exists id :: IsSlot(id) && NameAt(two, id) == h
  }

  predicate EntryIs(two: Pair, index: Index, id: nat)
    requires two.Sized() && IsSlot(id)
  {
    && NameAt(two, id) in index
    && var m := index[NameAt(two, id)];
       m.packId == id && m.packOffset == HEADER_SIZE && m.size == |DataAt(two, id)|
  }

  /** Lost are the packs of the second group's members 0, 1, 51 and 65 to 68. */
  predicate Survives(id: nat) {
    IsSlot(id) && id != 72 && id != 143 && id != 122 && !(136 <= id <= 139)
  }

  /** A truthful repository with the chunks of both groups, after those packs were lost. */
  ghost predicate NewestLost(sha: Sha, two: Pair, packs: Packs, index: Index) {
    && Sharing(sha, two) && InSlots(sha, two, packs) && Indexed(two, index)
    && forall id :: id in packs <==> Survives(id)
  }

  lemma LostMembers(i: nat)
    requires i < 72
    ensures Survives(SlotOf(false, i)) == WiderLoss()[i]
    ensures Survives(SlotOf(true, i)) == (i != 0)
    ensures (i == 1 || WiderLoss()[i]) == UnluckyLoss()[i]
  {
  }

  // ── What can be read ─────────────────────────────────────────────────────

  lemma ReadsSingle(sha: Sha, packs: Packs, index: Index, h: Hash, id: nat, chunk: Bytes)
    requires h in index && index[h].packId == id > 0 && index[h].packOffset == HEADER_SIZE
    requires id in packs && packs[id] == PackFile(sha, id, [Entry(h, chunk)])
    requires HashOfChunk(sha, chunk) == h && |chunk| < MAX_STORED
    ensures ReadStored(sha, packs, index, h) == Ok(chunk)
  {
    hide PackFile, HashOfChunk, SizesFit, HashesMatch, OffsetOf, ReadChunkAt;
    SingleEntry(sha, h, chunk);
    ReadBack(sha, id, [Entry(h, chunk)], 0);
  }

  /** By the index of the start, exactly the chunks whose packs are there can be read. */
  lemma ReadSlot(sha: Sha, two: Pair, packs: Packs, index: Index, first: bool, i: nat)
    requires Sharing(sha, two) && InSlots(sha, two, packs) && Indexed(two, index) && i < 72
    ensures |Members(Group(two, first))| == 72 && |ChunksIn(two, first)| == 64
    ensures var r := ReadStored(sha, packs, index, Members(Group(two, first))[i]);
            if SlotOf(first, i) in packs then
              r == Ok(MemberChunk(ChunksIn(two, first), 64, Group(two, first).chunkSize, i))
            else r.Err?
  {
    hide PackFile, HashOfChunk, ReadChunkAt, MemberChunk, Sharing, Members, NameAt, DataAt, SlotOf, Group, ChunksIn;
    Slots(sha, two, first, i);
    IsSized(sha, two);
    var id := SlotOf(first, i);
    assert EntryIs(two, index, id);
    if id in packs {
      ReadsSingle(sha, packs, index, NameAt(two, id), id, DataAt(two, id));
    }
  }

  lemma IsSized(sha: Sha, two: Pair)
    requires Sharing(sha, two)
    ensures two.Sized()
  {
    hide Records, NamesDiffer;
  }

  /** Nothing that can be read is an impostor. */
  lemma BothGenuine(sha: Sha, two: Pair, packs: Packs, index: Index, first: bool, bad: set<Hash>)
    requires Sharing(sha, two) && InSlots(sha, two, packs) && Indexed(two, index)
    ensures Genuine(sha, packs, index, Group(two, first), ChunksIn(two, first), 64, 8, bad)
    ensures |Members(Group(two, first))| == 72 && |ChunksIn(two, first)| == 64
  {
    hide ReadStored, MemberChunk, Members, HashOfChunk, InSlots, Indexed, SlotOf, Sharing;
    var g, chunks := Group(two, first), ChunksIn(two, first);
    GroupRecords(sha, two, first);
    forall i | 0 <= i < 72
      ensures Intact(sha, packs, index, Members(g)[i]) ==>
                ReadStored(sha, packs, index, Members(g)[i]).value == MemberChunk(chunks, 64, g.chunkSize, i)
    {
      ReadSlot(sha, two, packs, index, first, i);
    }
  }

  lemma GroupRecords(sha: Sha, two: Pair, first: bool)
    requires Sharing(sha, two)
    ensures Records(sha, Group(two, first), ChunksIn(two, first), 64, 8)
    ensures |Members(Group(two, first))| == 72 && |ChunksIn(two, first)| == 64 && Group(two, first).chunkSize < MAX_STORED
  {
    hide Records, NamesDiffer;
  }

  /** `flags` are the members whose packs are there and that are not on the list. */
  lemma CollectedAre(sha: Sha, two: Pair, packs: Packs, index: Index, first: bool, mine: set<Hash>, flags: seq<bool>)
    requires Sharing(sha, two) && InSlots(sha, two, packs) && Indexed(two, index)
    requires |Members(Group(two, first))| == 72 == |flags|
    requires forall i :: 0 <= i < 72 ==> flags[i] == (SlotOf(first, i) in packs && Members(Group(two, first))[i] !in mine)
    ensures TurnFlags(sha, packs, index, Members(Group(two, first)), mine) == flags
  {
    hide ReadStored, MemberChunk, Members, HashOfChunk, InSlots, Indexed, SlotOf, Sharing, Group;
    forall i | 0 <= i < 72
      ensures TurnFlags(sha, packs, index, Members(Group(two, first)), mine)[i] == flags[i]
    {
      ReadSlot(sha, two, packs, index, first, i);
    }
  }

  // ── The lists of the two turns ───────────────────────────────────────────

  /** The bad chunks that are looked for in the turn of `g`. */
  function ListFor(groups: seq<ParityGroup>, g: ParityGroup, bad: set<Hash>): set<Hash> {
    set h | h in bad && TurnOf(groups, g, h)
  }

  /** It is what the scrub puts on its list. */
  lemma ListIsTodo(groups: seq<ParityGroup>, g: ParityGroup, bad: set<Hash>, todo: map<nat, set<Hash>>)
    requires forall id, h :: id in todo && h in todo[id] ==>
               h in bad && FindGroupByHash(groups, h).Some? && FindGroupByHash(groups, h).value.groupId == id
    requires Listed(groups, todo, bad)
    ensures if g.groupId in todo then todo[g.groupId] == ListFor(groups, g, bad) else ListFor(groups, g, bad) == {}
  {
    hide FindGroupByHash;
  }

  lemma FirstOfTwo(f: ParityGroup, g: ParityGroup, h: Hash)
    ensures FindGroupByHash([f, g], h) == if HasMember(f, h) then Some(f) else if HasMember(g, h) then Some(g) else None
  {
    hide HasMember;
    assert [f, g][1..] == [g];
    assert [g][1..] == [];
  }

  lemma MemberIs(g: ParityGroup, h: Hash)
    ensures HasMember(g, h) <==> exists i :: 0 <= i < |Members(g)| && Members(g)[i] == h
  {
    var d := |g.dataChunkHashes|;
    if h in g.dataChunkHashes {
      var i :| 0 <= i < d && g.dataChunkHashes[i] == h;
      assert Members(g)[i] == h;
    } else if h in g.parityChunkHashes {
      var i :| 0 <= i < |g.parityChunkHashes| && g.parityChunkHashes[i] == h;
      assert Members(g)[d + i] == h;
    }
  }

  /** Slot `id` holds a member of the first group just when it is below 72 or the shared one. */
  lemma FirstHas(sha: Sha, two: Pair, id: nat)
    requires Sharing(sha, two) && IsSlot(id)
    ensures two.Sized() && (HasMember(two.f, NameAt(two, id)) <==> id <= 71 || id == 143)
    ensures HasMember(two.f, NameAt(two, id)) || HasMember(two.g, NameAt(two, id))
  {
    hide Members, NameAt, HasMember, Records;
    var h := NameAt(two, id);
    MemberIs(two.f, h);
    MemberIs(two.g, h);
    var m := MemberAt(id);
    Slots(sha, two, m.0, m.1);
    forall i | 0 <= i < 72
      ensures NameAt(two, SlotOf(true, i)) == Members(two.f)[i]
    {
      Slots(sha, two, true, i);
    }
    if id == 143 {
      assert Members(two.f)[0] == h;
    }
  }

  lemma TurnOfSlot(sha: Sha, two: Pair, id: nat)
    requires Sharing(sha, two) && IsSlot(id)
    ensures two.Sized()
    ensures TurnOf([two.f, two.g], two.f, NameAt(two, id)) <==> id <= 71 || id == 143
    ensures TurnOf([two.f, two.g], two.g, NameAt(two, id)) <==> 72 <= id <= 142
  {
    hide HasMember, NameAt, Members, Records, NamesDiffer;
    FirstHas(sha, two, id);
    FirstOfTwo(two.f, two.g, NameAt(two, id));
  }

  /** A member is on the list of its group's turn when its pack is lost; the shared one is on the first group's. */
  lemma ListHas(sha: Sha, two: Pair, packs: Packs, index: Index, bad: set<Hash>, first: bool, i: nat)
    requires NewestLost(sha, two, packs, index) && IsBad(sha, packs, index, bad) && i < 72
    ensures |Members(Group(two, first))| == 72
    ensures var h := Members(Group(two, first))[i];
            && h in index
            && (h in ListFor([two.f, two.g], Group(two, first), bad) <==>
                !Survives(SlotOf(first, i)) && (first || i != 1))
  {
    hide ReadStored, MemberChunk, Members, HashOfChunk, InSlots, Sharing, NameAt, DataAt, TurnOf;
    IsSized(sha, two);
    Slots(sha, two, first, i);
    ReadSlot(sha, two, packs, index, first, i);
    TurnOfSlot(sha, two, SlotOf(first, i));
    assert EntryIs(two, index, SlotOf(first, i));
  }

  /** A bad member with its true size is wanted. */
  lemma IsWanted(sha: Sha, two: Pair, index: Index, first: bool, bad: set<Hash>, i: nat)
    requires Sharing(sha, two) && Indexed(two, index) && i < 72 && |Members(Group(two, first))| == 72
    requires Members(Group(two, first))[i] in bad
    ensures Wanted(index, Group(two, first), ChunksIn(two, first), 64, bad, i)
  {
    hide MemberChunk, Members, HashOfChunk, Sharing, NameAt, DataAt, SlotOf;
    IsSized(sha, two);
    Slots(sha, two, first, i);
    assert EntryIs(two, index, SlotOf(first, i));
  }

  // ── The first group's turn ───────────────────────────────────────────────

  /** It misses one member only, so it comes back, and the shared chunk is written as the newest pack. */
  lemma FirstTurn(sha: Sha, two: Pair, packs: Packs, index: Index, bad: set<Hash>, p1: Packs, i1: Index)
    requires NewestLost(sha, two, packs, index) && IsBad(sha, packs, index, bad)
    requires Turn(sha, packs, index, index, two.f, 64, 8, ListFor([two.f, two.g], two.f, bad), p1, i1)
    ensures |Members(two.g)| == 72 && |two.gc| == 64
    ensures (p1, i1) == Written(sha, packs, index, Members(two.g)[1], two.gc[1])
  {
    hide *;
    var mine := ListFor([two.f, two.g], two.f, bad);
    Facts(sha, two, packs, index);
    GroupIs(two);
    FirstCollects(sha, two, packs, index, bad, packs);
    OneLossSolves(AllButFirst());
    IsWanted(sha, two, index, true, mine, 0);
    TurnWritesOne(sha, packs, index, index, two.f, two.fc, 64, 8, mine, p1, i1, 0);
    SharedChunk(sha, two);
  }

  function AllButFirst(): (flags: seq<bool>)
    ensures |flags| == 72 && forall k :: 0 <= k < 72 ==> flags[k] == (k != 0)
  {
    seq(72, k => k != 0)
  }

  /** However many packs were added before it, the first group's turn collects all its other members, and they are the right ones. */
  lemma FirstCollects(sha: Sha, two: Pair, packs: Packs, index: Index, bad: set<Hash>, p: Packs)
    requires NewestLost(sha, two, packs, index) && IsBad(sha, packs, index, bad) && Extends(p, packs)
    ensures |Members(two.f)| == 72 && |two.fc| == 64
    ensures var mine := ListFor([two.f, two.g], two.f, bad);
            && (forall k :: 0 <= k < 72 ==> (Members(two.f)[k] in mine <==> k == 0))
            && TurnFlags(sha, p, index, Members(two.f), mine) == AllButFirst()
            && Genuine(sha, p, index, two.f, two.fc, 64, 8, mine)
  {
    hide ReadStored, MemberChunk, Members, HashOfChunk, InSlots, Indexed, Sharing, IsBad, SlotOf, Extends, ListFor, Records;
    var mine := ListFor([two.f, two.g], two.f, bad);
    GroupIs(two);
    GroupRecords(sha, two, true);
    forall k | 0 <= k < 72
      ensures Members(two.f)[k] in mine <==> k == 0
      ensures k != 0 ==> ReadStored(sha, p, index, Members(two.f)[k]) == Ok(MemberChunk(two.fc, 64, two.f.chunkSize, k))
    {
      ListHas(sha, two, packs, index, bad, true, k);
      LostMembers(k);
      ReadSlot(sha, two, packs, index, true, k);
      if k != 0 {
        IntactReads(sha, packs, index, p, Members(two.f)[k]);
      }
    }
  }

  lemma SharedChunk(sha: Sha, two: Pair)
    requires Sharing(sha, two)
    ensures |Members(two.f)| == 72 == |Members(two.g)| && |two.fc| == 64 == |two.gc|
    ensures MemberChunk(two.fc, 64, two.f.chunkSize, 0) == two.gc[1] == MemberChunk(two.gc, 64, two.g.chunkSize, 1)
    ensures Members(two.f)[0] == Members(two.g)[1] == NameAt(two, 143) && DataAt(two, 143) == two.gc[1]
    ensures HashOfChunk(sha, two.gc[1]) == Members(two.g)[1] && |two.gc[1]| < MAX_STORED
  {
    hide Members, Records, HashOfChunk, NamesDiffer;
    Slots(sha, two, true, 0);
    Slots(sha, two, false, 1);
  }

  lemma OneLossSolves(flags: seq<bool>)
    requires |flags| == 72 && forall k :: 0 <= k < 72 ==> flags[k] == (k != 0)
    ensures Solvable(flags, 64)
  {
    hide IndicesWhere, UsedIndices, Injective;
    IndicesComplement(flags, 72);
    OnlyFirstLost(flags, 72);
    OnlyFirstLost(flags, 64);
    OneLossRecovers(flags, 64);
  }

  lemma {:induction false} OnlyFirstLost(flags: seq<bool>, n: nat)
    requires 1 <= n <= |flags| && !flags[0] && forall k :: 0 < k < n ==> flags[k]
    ensures |IndicesWhere(flags, false, n)| == 1
  {
    if n > 1 {
      OnlyFirstLost(flags, n - 1);
    }
  }

  // ── First the first group ────────────────────────────────────────────────

  /** The repaired chunk gets the place that the old index has for it. */
  lemma NewPackIsOld(sha: Sha, two: Pair, packs: Packs, index: Index, p1: Packs, i1: Index)
    requires NewestLost(sha, two, packs, index) && |Members(two.g)| == 72 && |two.gc| == 64
    requires (p1, i1) == Written(sha, packs, index, Members(two.g)[1], two.gc[1])
    ensures Extends(p1, packs) && InSlots(sha, two, p1) && forall id :: id in p1 <==> id == 143 || Survives(id)
    ensures i1 == Repointed(index, 143, Members(two.g)[1], two.gc[1])
  {
    hide PackFile, Sharing, Repointed, NameAt, DataAt, Members, Indexed, HashOfChunk, MemberChunk;
    assert Survives(142);
    NextIdIs(packs, 143);
    SharedChunk(sha, two);
  }

  /**
   The first group's turn comes first: it succeeds, and then the second group's turn reads one more
   member than was readable before the scrub, which leaves the codec with dependent rows.  Nothing is
   written in it, and its lost members stay lost.
   */
  lemma FirstThenSecond(sha: Sha, two: Pair, packs: Packs, index: Index, bad: set<Hash>,
                        p1: Packs, i1: Index, p2: Packs, i2: Index)
    requires NewestLost(sha, two, packs, index) && IsBad(sha, packs, index, bad)
    requires Turn(sha, packs, index, index, two.f, 64, 8, ListFor([two.f, two.g], two.f, bad), p1, i1)
    requires Turn(sha, p1, i1, index, two.g, 64, 8, ListFor([two.f, two.g], two.g, bad), p2, i2)
    ensures (p2, i2) == (p1, i1) && |Members(two.g)| == 72
    ensures forall i :: 0 <= i < 72 ==> (Intact(sha, p2, i2, Members(two.g)[i]) <==> UnluckyLoss()[i])
  {
    hide *;
    Facts(sha, two, packs, index);
    var mine := ListFor([two.f, two.g], two.g, bad);
    FirstTurn(sha, two, packs, index, bad, p1, i1);
    NewPackIsOld(sha, two, packs, index, p1, i1);
    SecondCollects(sha, two, packs, index, bad, p1, UnluckyLoss());
    AnySixtyFourAreNotEnough();
    SolvableMeans(UnluckyLoss(), 64);
    BothGenuine(sha, two, p1, index, false, mine);
    GroupIs(two);
    ListHas(sha, two, packs, index, bad, false, 0);
    ZeroIsLost();
    IsWanted(sha, two, index, false, mine, 0);
    KeysStay(index, 143, Members(two.g)[1], two.gc[1]);
    TurnRestores(sha, p1, i1, index, two.g, two.gc, 64, 8, mine, p2, i2, 0);
    forall i | 0 <= i < 72
      ensures Intact(sha, p1, i1, Members(two.g)[i]) <==> UnluckyLoss()[i]
    {
      ReadAfterwards(sha, two, packs, index, p1, i1, i);
    }
  }

  lemma ZeroIsLost()
    ensures !Survives(SlotOf(false, 0))
  {
  }

  lemma KeysStay(index: Index, id: nat, h: Hash, data: Bytes)
    ensures Repointed(index, id, h, data).Keys == index.Keys
  {
  }

  lemma GroupIs(two: Pair)
    ensures Group(two, false) == two.g && ChunksIn(two, false) == two.gc
    ensures Group(two, true) == two.f && ChunksIn(two, true) == two.fc
  {
  }

  lemma Facts(sha: Sha, two: Pair, packs: Packs, index: Index)
    requires NewestLost(sha, two, packs, index)
    ensures Sharing(sha, two) && two.Sized() && InSlots(sha, two, packs) && Indexed(two, index) && 143 !in packs
    ensures |Members(two.g)| == 72 == |Members(two.f)| && |two.gc| == 64 == |two.fc|
    ensures two.g.chunkSize < MAX_STORED && two.f.chunkSize < MAX_STORED
    ensures forall id :: 1 <= id <= 71 ==> id in packs
    ensures Extends(packs, packs)
  {
    hide Members, Records, NamesDiffer, InSlots, Indexed;
    forall id | 1 <= id <= 71
      ensures id in packs
    {
      assert Survives(id);
    }
  }

  /** Once the newest pack is back, the second group's turn collects what the unlucky loss leaves. */
  lemma SecondCollects(sha: Sha, two: Pair, packs: Packs, index: Index, bad: set<Hash>, p: Packs, flags: seq<bool>)
    requires NewestLost(sha, two, packs, index) && IsBad(sha, packs, index, bad) && InSlots(sha, two, p)
    requires || ((forall id :: id in p <==> Survives(id)) && flags == WiderLoss())
             || ((forall id :: id in p <==> id == 143 || Survives(id)) && flags == UnluckyLoss())
    ensures TurnFlags(sha, p, index, Members(two.g), ListFor([two.f, two.g], two.g, bad)) == flags
  {
    hide ReadStored, MemberChunk, Members, HashOfChunk, InSlots, Indexed, Sharing, IsBad, TurnFlags, Survives, WiderLoss, UnluckyLoss,
      ListFor;
    var mine := ListFor([two.f, two.g], two.g, bad);
    GroupRecords(sha, two, false);
    assert |WiderLoss()| == 72 == |UnluckyLoss()| by { LossLengths(); }
    forall i | 0 <= i < 72
      ensures flags[i] == (SlotOf(false, i) in p && Members(two.g)[i] !in mine)
    {
      ListHas(sha, two, packs, index, bad, false, i);
      LostMembers(i);
    }
    CollectedAre(sha, two, p, index, false, mine, flags);
  }

  lemma LossLengths()
    ensures |WiderLoss()| == 72 == |UnluckyLoss()|
  {
  }

  /** What can be read by the new index after the shared chunk was written. */
  lemma ReadAfterwards(sha: Sha, two: Pair, packs: Packs, index: Index, p1: Packs, i1: Index, i: nat)
    requires NewestLost(sha, two, packs, index) && |Members(two.g)| == 72 && |two.gc| == 64 && i < 72
    requires InSlots(sha, two, p1) && forall id :: id in p1 <==> id == 143 || Survives(id)
    requires i1 == Repointed(index, 143, Members(two.g)[1], two.gc[1])
    ensures Intact(sha, p1, i1, Members(two.g)[i]) <==> UnluckyLoss()[i]
  {
    hide ReadStored, MemberChunk, Members, HashOfChunk, Sharing, InSlots, Indexed, WiderLoss, UnluckyLoss, Survives, Repointed;
    GroupIs(two);
    ReadSlot(sha, two, p1, index, false, i);
    LostMembers(i);
    SharedEntry(sha, two, index);
    KeepsPlaces(index, 143, Members(two.g)[1], two.gc[1], Members(two.g)[i]);
    SamePlaceReads(sha, p1, index, i1, Members(two.g)[i]);
  }

  lemma SharedEntry(sha: Sha, two: Pair, index: Index)
    requires Sharing(sha, two) && Indexed(two, index) && |Members(two.g)| == 72
    ensures var h := Members(two.g)[1]; h in index && index[h].packId == 143 && index[h].packOffset == HEADER_SIZE
  {
    hide Sharing, Members, NameAt, DataAt;
    IsSized(sha, two);
    SharedChunk(sha, two);
    assert EntryIs(two, index, 143);
  }

  lemma KeepsPlaces(index: Index, id: nat, h: Hash, data: Bytes, x: Hash)
    requires h in index && index[h].packId == id && index[h].packOffset == HEADER_SIZE
    ensures var after := Repointed(index, id, h, data);
            && (x in index <==> x in after)
            && (x in index ==> after[x].packId == index[x].packId && after[x].packOffset == index[x].packOffset)
  {
  }

  // ── First the second group ───────────────────────────────────────────────

  /** The second group's turn at the start collects what the wider loss leaves, and that is enough. */
  lemma SecondRestores(sha: Sha, two: Pair, packs: Packs, index: Index, bad: set<Hash>, p1: Packs, i1: Index, i: nat)
    requires NewestLost(sha, two, packs, index) && IsBad(sha, packs, index, bad) && i < 72
    requires Turn(sha, packs, index, index, two.g, 64, 8, ListFor([two.f, two.g], two.g, bad), p1, i1)
    ensures |Members(two.g)| == 72 && (i != 1 ==> Intact(sha, p1, i1, Members(two.g)[i]))
  {
    hide *;
    var mine := ListFor([two.f, two.g], two.g, bad);
    Facts(sha, two, packs, index);
    GroupIs(two);
    TurnIsProgress(sha, packs, index, index, two.g, 64, 8, mine, p1, i1);
    ListHas(sha, two, packs, index, bad, false, i);
    if Members(two.g)[i] in mine {
      LostAre(sha, two, packs, index);
      SecondCollects(sha, two, packs, index, bad, packs, WiderLoss());
      LosingMoreCanHelp();
      SolvableMeans(WiderLoss(), 64);
      BothGenuine(sha, two, packs, index, false, mine);
      IsWanted(sha, two, index, false, mine, i);
      TurnRestores(sha, packs, index, index, two.g, two.gc, 64, 8, mine, p1, i1, i);
    } else if i != 1 {
      SurvivorReads(sha, two, packs, index, false, i);
      StaysReadable(sha, packs, index, p1, i1, mine, Members(two.g)[i]);
    }
  }

  lemma LostAre(sha: Sha, two: Pair, packs: Packs, index: Index)
    requires NewestLost(sha, two, packs, index)
    ensures forall id :: id in packs <==> Survives(id)
  {
    hide Sharing, InSlots, Indexed;
  }

  lemma SurvivorReads(sha: Sha, two: Pair, packs: Packs, index: Index, first: bool, i: nat)
    requires NewestLost(sha, two, packs, index) && i < 72 && Survives(SlotOf(first, i))
    ensures |Members(Group(two, first))| == 72 && Intact(sha, packs, index, Members(Group(two, first))[i])
  {
    hide ReadStored, Sharing, InSlots, Indexed, Members, SlotOf, Group;
    ReadSlot(sha, two, packs, index, first, i);
  }

  /** The first group's turn at any later time. */
  lemma FirstRestores(sha: Sha, two: Pair, packs: Packs, index: Index, bad: set<Hash>, p1: Packs, i1: Index,
                      p2: Packs, i2: Index, touched: set<Hash>, k: nat)
    requires NewestLost(sha, two, packs, index) && IsBad(sha, packs, index, bad) && k < 72
    requires Progress(sha, packs, index, p1, i1, touched)
    requires Turn(sha, p1, i1, index, two.f, 64, 8, ListFor([two.f, two.g], two.f, bad), p2, i2)
    ensures |Members(two.f)| == 72 && Intact(sha, p2, i2, Members(two.f)[k])
  {
    hide *;
    var mine := ListFor([two.f, two.g], two.f, bad);
    Facts(sha, two, packs, index);
    GroupIs(two);
    ProgressExtends(sha, packs, index, p1, i1, touched);
    SameKeys(sha, packs, index, p1, i1, touched);
    TurnIsProgress(sha, p1, i1, index, two.f, 64, 8, mine, p2, i2);
    FirstCollects(sha, two, packs, index, bad, p1);
    if k == 0 {
      OneLossSolves(AllButFirst());
      IsWanted(sha, two, index, true, mine, 0);
      TurnRestores(sha, p1, i1, index, two.f, two.fc, 64, 8, mine, p2, i2, 0);
    } else {
      FirstSlots(k);
      SurvivorReads(sha, two, packs, index, true, k);
      StaysReadable(sha, packs, index, p1, i1, touched, Members(two.f)[k]);
      StaysReadable(sha, p1, i1, p2, i2, mine, Members(two.f)[k]);
    }
  }

  lemma FirstSlots(k: nat)
    requires 0 < k < 72
    ensures Survives(SlotOf(true, k))
  {
  }

  /** The second group's turn comes first: everything comes back in it but the shared chunk, which the other one restores. */
  lemma SecondThenFirst(sha: Sha, two: Pair, packs: Packs, index: Index, bad: set<Hash>,
                        p1: Packs, i1: Index, p2: Packs, i2: Index)
    requires NewestLost(sha, two, packs, index) && IsBad(sha, packs, index, bad)
    requires Turn(sha, packs, index, index, two.g, 64, 8, ListFor([two.f, two.g], two.g, bad), p1, i1)
    requires Turn(sha, p1, i1, index, two.f, 64, 8, ListFor([two.f, two.g], two.f, bad), p2, i2)
    ensures |Members(two.g)| == 72 == |Members(two.f)|
    ensures forall i :: 0 <= i < 72 ==> Intact(sha, p2, i2, Members(two.g)[i]) && Intact(sha, p2, i2, Members(two.f)[i])
  {
    hide *;
    Facts(sha, two, packs, index);
    SharedChunk(sha, two);
    var mine, theirs := ListFor([two.f, two.g], two.g, bad), ListFor([two.f, two.g], two.f, bad);
    TurnIsProgress(sha, packs, index, index, two.g, 64, 8, mine, p1, i1);
    TurnIsProgress(sha, p1, i1, index, two.f, 64, 8, theirs, p2, i2);
    FirstRestores(sha, two, packs, index, bad, p1, i1, p2, i2, mine, 0);
    forall i | 0 <= i < 72
      ensures Intact(sha, p2, i2, Members(two.g)[i]) && Intact(sha, p2, i2, Members(two.f)[i])
    {
      FirstRestores(sha, two, packs, index, bad, p1, i1, p2, i2, mine, i);
      if i != 1 {
        SecondRestores(sha, two, packs, index, bad, p1, i1, i);
        StaysReadable(sha, p1, i1, p2, i2, theirs, Members(two.g)[i]);
      }
    }
  }

  // ── The second group is not robust ───────────────────────────────────────

  lemma IntactAre(sha: Sha, two: Pair, packs: Packs, index: Index, first: bool, flags: seq<bool>)
    requires NewestLost(sha, two, packs, index) && |flags| == 72
    requires forall i :: 0 <= i < 72 ==> flags[i] == Survives(SlotOf(first, i))
    ensures |Members(Group(two, first))| == 72 && IntactFlags(sha, packs, index, Members(Group(two, first))) == flags
  {
    hide ReadStored, Sharing, InSlots, Indexed, Members, SlotOf, Group, Survives;
    GroupRecords(sha, two, first);
    forall i | 0 <= i < 72
      ensures Intact(sha, packs, index, Members(Group(two, first))[i]) == flags[i]
    {
      ReadSlot(sha, two, packs, index, first, i);
    }
  }

  /** The shared chunk is looked for in the other turn, and its place is the one that the next pack will get. */
  lemma SharedIsUnsteady(sha: Sha, two: Pair, packs: Packs, index: Index)
    requires NewestLost(sha, two, packs, index)
    ensures |Members(two.g)| == 72 && !SteadyMember(sha, packs, index, [two.f, two.g], two.g, Members(two.g)[1])
  {
    hide Sharing, InSlots, Members, NameAt, DataAt, ReadStored, TurnOf;
    GroupIs(two);
    SharedChunk(sha, two);
    IsSized(sha, two);
    TurnOfSlot(sha, two, 143);
    ReadSlot(sha, two, packs, index, false, 1);
    assert EntryIs(two, index, 143);
  }

  /**
   Before the scrub the codec could rebuild the second group; but its turn may collect the unlucky loss,
   so it is not robust.  The first group, which misses one chunk, is.
   */
  lemma SharingIsNotRobust(sha: Sha, two: Pair, packs: Packs, index: Index)
    requires NewestLost(sha, two, packs, index)
    ensures Solvable(IntactFlags(sha, packs, index, Members(two.g)), 64)
    ensures !Robust(sha, packs, index, [two.f, two.g], two.g, 64)
    ensures Robust(sha, packs, index, [two.f, two.g], two.f, 64)
  {
    hide ReadStored, Sharing, InSlots, Indexed, Members, SlotOf, Survives, Injective, UsedIndices, IndicesWhere, WiderLoss, UnluckyLoss,
      NewestLost, SteadyMember, IntactFlags, Enough, Robust;
    GroupIs(two);
    LossLengths();
    SharedIsUnsteady(sha, two, packs, index);
    forall i | 0 <= i < 72
      ensures WiderLoss()[i] == Survives(SlotOf(false, i)) && AllButFirst()[i] == Survives(SlotOf(true, i))
      ensures UnluckyLoss()[i] == (i == 1 || WiderLoss()[i])
    {
      LostMembers(i);
    }
    IntactAre(sha, two, packs, index, false, WiderLoss());
    IntactAre(sha, two, packs, index, true, AllButFirst());
    LosingMoreCanHelp();
    AnySixtyFourAreNotEnough();
    UnluckyIsBetween(sha, two, packs, index);
    NotRobustBy(sha, packs, index, [two.f, two.g], two.g, UnluckyLoss());
    FirstIsRobust(sha, two, packs, index);
  }

  lemma NotRobustBy(sha: Sha, packs: Packs, index: Index, groups: seq<ParityGroup>, g: ParityGroup, flags: seq<bool>)
    requires Between(sha, packs, index, groups, g, flags) && !Solvable(flags, 64)
    ensures !Robust(sha, packs, index, groups, g, 64)
  {
    hide Between, Solvable;
  }

  lemma UnluckyIsBetween(sha: Sha, two: Pair, packs: Packs, index: Index)
    requires |Members(two.g)| == 72 && !SteadyMember(sha, packs, index, [two.f, two.g], two.g, Members(two.g)[1])
    requires IntactFlags(sha, packs, index, Members(two.g)) == WiderLoss()
    ensures Between(sha, packs, index, [two.f, two.g], two.g, UnluckyLoss())
  {
    hide ReadStored, Members, SteadyMember, Intact;
    LossLengths();
    forall i | 0 <= i < 72
      ensures MayCollect(sha, packs, index, [two.f, two.g], two.g, Members(two.g)[i], UnluckyLoss()[i])
    {
      LostMembers(i);
      assert IntactFlags(sha, packs, index, Members(two.g))[i] == WiderLoss()[i];
    }
  }

  lemma FirstIsRobust(sha: Sha, two: Pair, packs: Packs, index: Index)
    requires |Members(two.f)| == 72 && IntactFlags(sha, packs, index, Members(two.f)) == AllButFirst()
    ensures Robust(sha, packs, index, [two.f, two.g], two.f, 64)
  {
    hide IntactFlags, Members, Robust, IndicesWhere, UsedIndices, Injective;
    OneLossSolves(AllButFirst());
    OnlyFirstLost(AllButFirst(), 64);
    RobustCases(sha, packs, index, [two.f, two.g], two.f, 64);
  }

  // ── That this can happen ─────────────────────────────────────────────────

  function PackAt(sha: Sha, two: Pair, id: nat): Bytes
    requires two.Sized() && IsSlot(id)
  {
    PackFile(sha, id, [Entry(NameAt(two, id), DataAt(two, id))])
  }

  lemma IndexExists(two: Pair) returns (index: Index)
    requires two.Sized() && NamesDiffer(two)
    ensures Indexed(two, index)
  {
    hide NameAt, DataAt;
    index := map[];
    for n := 1 to 144
      invariant forall id :: 1 <= id < n ==> EntryIs(two, index, id)
      invariant forall h :: h in index ==> exists id :: IsSlot(id) && NameAt(two, id) == h
    {
      var before, size := index, |DataAt(two, n)|;
      index := index[NameAt(two, n) := ChunkMeta(size, size, 1, 0, n, HEADER_SIZE)];
      forall id | 1 <= id < n
        ensures EntryIs(two, index, id)
      {
        assert EntryIs(two, before, id);
      }
    }
  }

  lemma PacksExist(sha: Sha, two: Pair) returns (packs0: Packs, packs: Packs)
    requires two.Sized()
    ensures InSlots(sha, two, packs0) && forall id :: id in packs0 <==> IsSlot(id)
    ensures InSlots(sha, two, packs) && forall id :: id in packs <==> Survives(id)
  {
    hide PackFile, NameAt, DataAt;
    packs0 := map id | 1 <= id <= 143 && IsSlot(id) :: PackAt(sha, two, id);
    packs := map id | 1 <= id <= 143 && Survives(id) :: PackAt(sha, two, id);
  }

  /** With all its packs the repository is truthful. */
  lemma AllPacksAreSound(sha: Sha, two: Pair, packs0: Packs, index: Index)
    requires Sharing(sha, two) && InSlots(sha, two, packs0) && Indexed(two, index)
    requires forall id :: id in packs0 <==> IsSlot(id)
    ensures IndexSound(sha, packs0, index)
    ensures forall h :: h in index ==> Intact(sha, packs0, index, h)
  {
    hide PackFile, NameAt, DataAt, Records, NamesDiffer, HashOfChunk, ReadStored, MemberChunk, Located;
    forall h | h in index
      ensures EntrySound(sha, packs0, index, h) && Intact(sha, packs0, index, h)
    {
      var id :| IsSlot(id) && NameAt(two, id) == h;
      assert EntryIs(two, index, id);
      var m := MemberAt(id);
      Slots(sha, two, m.0, m.1);
      SingleIsLocated(sha, packs0, id, h, DataAt(two, id));
      ReadsSingle(sha, packs0, index, h, id, DataAt(two, id));
    }
  }

  lemma SingleIsLocated(sha: Sha, packs: Packs, id: nat, h: Hash, chunk: Bytes)
    requires id in packs && packs[id] == PackFile(sha, id, [Entry(h, chunk)])
    requires HashOfChunk(sha, chunk) == h && |chunk| < MAX_STORED
    ensures Located(sha, packs, id, HEADER_SIZE, h)
  {
    hide PackFile, HashOfChunk, SizesFit, HashesMatch, OffsetOf, Located;
    SingleEntry(sha, h, chunk);
    WrittenIsLocated(sha, packs, id, [Entry(h, chunk)], 0);
  }

  /**
   Any two groups that share just that chunk have been in such a state: with all their packs, a truthful
   repository in which every chunk reads back; and the loss only took packs away.
   */
  lemma NewestLostExists(sha: Sha, two: Pair) returns (packs0: Packs, packs: Packs, index: Index)
    requires Sharing(sha, two)
    ensures IndexSound(sha, packs0, index) && Extends(packs0, packs) && NewestLost(sha, two, packs, index)
    ensures forall h :: h in index ==> Intact(sha, packs0, index, h)
  {
    hide PackFile, NameAt, DataAt, Records, HashOfChunk, NamesDiffer, Indexed, Intact, IndexSound, Members;
    packs0, packs := PacksExist(sha, two);
    index := IndexExists(two);
    AllPacksAreSound(sha, two, packs0, index);
    assert forall id :: Survives(id) ==> IsSlot(id);
  }
}
