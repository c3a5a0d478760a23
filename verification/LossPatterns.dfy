/**
 Losses that a scrub (crates/verify/src/scrub.rs) repairs in whatever order it takes the groups: what
 becomes readable in the meantime cannot spoil the rows that the codec will use.
 */
module LossPatterns {
  import opened Wrappers
  import opened Bytes
  import opened Digest
  import opened ChunkStore
  import opened GaloisField
  import opened LinearAlgebra
  import opened ErasureCode
  import opened ReedSolomonCodec
  import opened Recovery
  import opened BurstRecovery
  import opened CodecTheorems
  import opened ParityGroups
  import opened GroupRepair
  import opened Scrub

  // ── More shards than before ──────────────────────────────────────────────

  /** What was there is still there. */
  predicate Grown(flags: seq<bool>, more: seq<bool>) {
    |more| == |flags| && forall i :: 0 <= i < |flags| && flags[i] ==> more[i]
  }

  lemma {:induction false} GrownCounts(flags: seq<bool>, more: seq<bool>, n: nat)
    requires Grown(flags, more) && n <= |flags|
    ensures |IndicesWhere(flags, true, n)| <= |IndicesWhere(more, true, n)|
    ensures |IndicesWhere(flags, false, n)| >= |IndicesWhere(more, false, n)|
  {
    hide IndicesWhere;
    IndicesComplement(flags, n);
    IndicesComplement(more, n);
    if n > 0 {
      GrownCounts(flags, more, n - 1);
      IndicesStep(flags, true, n - 1);
      IndicesStep(more, true, n - 1);
    }
  }

  lemma StillEnough(flags: seq<bool>, more: seq<bool>, d: nat)
    requires Grown(flags, more) && Enough(flags, d)
    ensures Enough(more, d) && |MissingData(more, d)| <= |MissingData(flags, d)|
  {
    hide IndicesWhere;
    GrownCounts(flags, more, |flags|);
    GrownCounts(flags, more, d);
  }

  lemma {:induction false} SameParity(flags: seq<bool>, more: seq<bool>, d: nat, n: nat)
    requires d <= n <= |flags| == |more| && forall i :: d <= i < n ==> flags[i] == more[i]
    ensures SurvivingParity(flags, d, n) == SurvivingParity(more, d, n)
  {
    if n > d {
      SameParity(flags, more, d, n - 1);
    }
  }

  lemma {:induction false} SameData(flags: seq<bool>, more: seq<bool>, n: nat)
    requires n <= |flags| == |more| && forall i :: 0 <= i < n ==> flags[i] == more[i]
    ensures IndicesWhere(flags, false, n) == IndicesWhere(more, false, n)
  {
    if n > 0 {
      SameData(flags, more, n - 1);
    }
  }

  /** Consecutive parity rows stay consecutive when data shards come back: fewer of them are used. */
  lemma ConsecutiveStays(flags: seq<bool>, more: seq<bool>, d: nat, r0: nat)
    requires Grown(flags, more) && Enough(flags, d) && d <= ORDER && d <= r0 && InProgression(UsedParity(flags, d), r0, 1)
    requires forall i :: d <= i < |flags| ==> flags[i] == more[i]
    ensures Solvable(more, d)
  {
    hide IndicesWhere, UsedIndices, UsedParity, Injective, MissingData, SurvivingParity;
    StillEnough(flags, more, d);
    SameParity(flags, more, d, |flags|);
    UsedParityIsPrefix(flags, d);
    UsedParityIsPrefix(more, d);
    var all, n := SurvivingParity(flags, d, |flags|), |MissingData(more, d)|;
    assert UsedParity(more, d) == UsedParity(flags, d)[..n];
    ConsecutiveRowsRecover(more, d, r0);
  }

  /** A burst of lost data shards stays one when only parity shards come back. */
  lemma BurstStays(flags: seq<bool>, more: seq<bool>, d: nat, j0: nat)
    requires Grown(flags, more) && 1 <= d && |flags| <= 256 && Enough(flags, d) && InProgression(MissingData(flags, d), j0, 1)
    requires forall i :: 0 <= i < d ==> flags[i] == more[i]
    ensures Solvable(more, d)
  {
    hide IndicesWhere, UsedIndices, Injective, InProgression;
    StillEnough(flags, more, d);
    SameData(flags, more, d);
    BurstRecovers(more, d, j0);
  }

  /** At most one lost data shard needs at most one parity shard, whichever it is. */
  lemma OneLossStays(flags: seq<bool>, more: seq<bool>, d: nat)
    requires Grown(flags, more) && d <= ORDER && Enough(flags, d) && |MissingData(flags, d)| <= 1
    ensures Solvable(more, d)
  {
    hide IndicesWhere, UsedIndices, UsedParity, Injective, MissingData;
    StillEnough(flags, more, d);
    var rows := UsedParity(more, d);
    var r0 := if |rows| == 1 then rows[0] else d;
    assert InProgression(rows, r0, 1);
    ConsecutiveRowsRecover(more, d, r0);
  }

  // ── Robust groups ────────────────────────────────────────────────────────

  /** The turns before cannot change what is collected at positions `lo` to `hi`. */
  predicate SteadyRange(sha: Sha, packs: Packs, index: Index, groups: seq<ParityGroup>, g: ParityGroup, lo: nat, hi: nat) {
    forall k :: lo <= k < hi && k < |Members(g)| ==> SteadyMember(sha, packs, index, groups, g, Members(g)[k])
  }

  lemma BetweenGrows(sha: Sha, packs: Packs, index: Index, groups: seq<ParityGroup>, g: ParityGroup, flags: seq<bool>, lo: nat, hi: nat)
    requires Between(sha, packs, index, groups, g, flags) && hi <= |Members(g)|
    ensures Grown(IntactFlags(sha, packs, index, Members(g)), flags)
    ensures SteadyRange(sha, packs, index, groups, g, lo, hi) ==>
              forall k :: lo <= k < hi ==> flags[k] == IntactFlags(sha, packs, index, Members(g))[k]
  {
    hide Members, Intact, SteadyMember;
    forall k | 0 <= k < |flags|
      ensures MayCollect(sha, packs, index, groups, g, Members(g)[k], flags[k])
    {
    }
  }

  /**
   A group is robust when the lost members are enough for the codec and the turns before change nothing;
   when the parity rows in use are consecutive and they do not change which parity shards are read; when
   the lost data shards are consecutive and they do not change which data shards are read; and when at
   most one data shard is lost.
   */
  lemma RobustCases(sha: Sha, packs: Packs, index: Index, groups: seq<ParityGroup>, g: ParityGroup, d: nat)
    requires 1 <= d <= ORDER && d <= |Members(g)| <= 256 && Enough(IntactFlags(sha, packs, index, Members(g)), d)
    ensures var flags, n := IntactFlags(sha, packs, index, Members(g)), |Members(g)|;
            && (SteadyRange(sha, packs, index, groups, g, 0, n) && Solvable(flags, d) ==> Robust(sha, packs, index, groups, g, d))
            && (SteadyRange(sha, packs, index, groups, g, d, n) && RowsInOrder(flags, d) ==> Robust(sha, packs, index, groups, g, d))
            && (SteadyRange(sha, packs, index, groups, g, 0, d) && LostInOrder(flags, d) ==> Robust(sha, packs, index, groups, g, d))
            && (|MissingData(flags, d)| <= 1 ==> Robust(sha, packs, index, groups, g, d))
  {
    hide Between, IntactFlags, Enough, Solvable, SteadyRange, MissingData, Members;
    var flags, n := IntactFlags(sha, packs, index, Members(g)), |Members(g)|;
    forall more: seq<bool> | Between(sha, packs, index, groups, g, more)
      ensures SteadyRange(sha, packs, index, groups, g, 0, n) && Solvable(flags, d) ==> Solvable(more, d)
      ensures SteadyRange(sha, packs, index, groups, g, d, n) && RowsInOrder(flags, d) ==> Solvable(more, d)
      ensures SteadyRange(sha, packs, index, groups, g, 0, d) && LostInOrder(flags, d) ==> Solvable(more, d)
      ensures |MissingData(flags, d)| <= 1 ==> Solvable(more, d)
    {
      OneBetween(sha, packs, index, groups, g, d, more);
    }
  }

  /** The parity rows in use are consecutive. */
  ghost predicate RowsInOrder(flags: seq<bool>, d: nat)
    requires Enough(flags, d)
  {
    exists r0: nat :: r0 >= d && InProgression(UsedParity(flags, d), r0, 1)
  }

  /** The lost data shards are consecutive. */
  ghost predicate LostInOrder(flags: seq<bool>, d: nat)
    requires Enough(flags, d)
  {
    exists j0: nat :: InProgression(MissingData(flags, d), j0, 1)
  }

  lemma OneBetween(sha: Sha, packs: Packs, index: Index, groups: seq<ParityGroup>, g: ParityGroup, d: nat, more: seq<bool>)
    requires 1 <= d <= ORDER && d <= |Members(g)| <= 256 && Enough(IntactFlags(sha, packs, index, Members(g)), d)
    requires Between(sha, packs, index, groups, g, more)
    ensures var flags, n := IntactFlags(sha, packs, index, Members(g)), |Members(g)|;
            && (SteadyRange(sha, packs, index, groups, g, 0, n) && Solvable(flags, d) ==> Solvable(more, d))
            && (SteadyRange(sha, packs, index, groups, g, d, n) && RowsInOrder(flags, d) ==> Solvable(more, d))
            && (SteadyRange(sha, packs, index, groups, g, 0, d) && LostInOrder(flags, d) ==> Solvable(more, d))
            && (|MissingData(flags, d)| <= 1 ==> Solvable(more, d))
  {
    hide Between, IntactFlags, Enough, Solvable, SteadyRange, MissingData, Members, UsedParity, InProgression;
    var flags, n := IntactFlags(sha, packs, index, Members(g)), |Members(g)|;
    BetweenGrows(sha, packs, index, groups, g, more, 0, n);
    BetweenGrows(sha, packs, index, groups, g, more, d, n);
    BetweenGrows(sha, packs, index, groups, g, more, 0, d);
    if SteadyRange(sha, packs, index, groups, g, 0, n) {
      assert more == flags;
    }
    if SteadyRange(sha, packs, index, groups, g, d, n) && RowsInOrder(flags, d) {
      var r0: nat :| r0 >= d && InProgression(UsedParity(flags, d), r0, 1);
      ConsecutiveStays(flags, more, d, r0);
    }
    if SteadyRange(sha, packs, index, groups, g, 0, d) && LostInOrder(flags, d) {
      var j0: nat :| InProgression(MissingData(flags, d), j0, 1);
      BurstStays(flags, more, d, j0);
    }
    if |MissingData(flags, d)| <= 1 {
      OneLossStays(flags, more, d);
    }
  }

  /** With every parity shard readable, any loss of data shards that leaves enough members is repaired in every order. */
  lemma AllParityIsRobust(sha: Sha, packs: Packs, index: Index, groups: seq<ParityGroup>, g: ParityGroup, d: nat)
    requires 1 <= d <= ORDER && d <= |Members(g)| <= 256
    requires var flags := IntactFlags(sha, packs, index, Members(g));
             Enough(flags, d) && forall i :: d <= i < |flags| ==> flags[i]
    ensures Robust(sha, packs, index, groups, g, d)
  {
    hide IntactFlags, Enough, Robust, UsedParity, InProgression, Members;
    var flags := IntactFlags(sha, packs, index, Members(g));
    NoParityLost(flags, d);
    assert RowsInOrder(flags, d);
    IntactIsSteady(sha, packs, index, groups, g, d);
    RobustCases(sha, packs, index, groups, g, d);
  }

  lemma IntactIsSteady(sha: Sha, packs: Packs, index: Index, groups: seq<ParityGroup>, g: ParityGroup, lo: nat)
    requires forall i :: lo <= i < |Members(g)| ==> IntactFlags(sha, packs, index, Members(g))[i]
    ensures SteadyRange(sha, packs, index, groups, g, lo, |Members(g)|)
  {
    hide Intact, TurnOf, Settled, Members;
    forall k | lo <= k < |Members(g)|
      ensures SteadyMember(sha, packs, index, groups, g, Members(g)[k])
    {
      assert IntactFlags(sha, packs, index, Members(g))[k];
    }
  }

  /** Nothing can change in the meantime when no newest pack is missing, or no member is shared with an earlier group. */
  lemma SteadyCases(sha: Sha, packs: Packs, index: Index, groups: seq<ParityGroup>, g: ParityGroup)
    ensures (forall h :: h in index ==> Settled(packs, index, h)) ==>
              SteadyRange(sha, packs, index, groups, g, 0, |Members(g)|)
    ensures (forall h :: HasMember(g, h) ==> TurnOf(groups, g, h)) ==>
              SteadyRange(sha, packs, index, groups, g, 0, |Members(g)|)
  {
    hide Intact, Settled, TurnOf;
    forall k | 0 <= k < |Members(g)|
      ensures HasMember(g, Members(g)[k])
    {
      if k < |g.dataChunkHashes| {
        assert Members(g)[k] == g.dataChunkHashes[k];
      } else {
        assert Members(g)[k] == g.parityChunkHashes[k - |g.dataChunkHashes|];
      }
    }
    forall h | h !in index
      ensures Settled(packs, index, h)
    {
      AbsentIsSettled(packs, index, h);
    }
  }
}
