/**
 The retention policy of crates/core/src/snapshot.rs: the counting loop that decides which
 snapshots a prune keeps, and its specification by ranks.
 */
module Retention {
  import opened Repositories

  /** Bucket keys of a timestamp; the week key is (calendar year, ISO week). */
  datatype Calendar = Calendar(day: int -> int, week: int -> int, month: int -> int)

  datatype Policy = Policy(daily: nat, weekly: nat, monthly: nat)

  // ── Specification ────────────────────────────────────────────────────────

  /** How many of the first `n` snapshots fall into bucket `b`. */
  function CountIn(snaps: seq<Snapshot>, key: int -> int, b: int, n: nat): nat
    requires n <= |snaps|
  {
    if n == 0 then 0
    else CountIn(snaps, key, b, n - 1) + if key(snaps[n - 1].timestamp) == b then 1 else 0
  }

  /** How many earlier snapshots in the list share the bucket of snapshot `i`. */
  function Rank(snaps: seq<Snapshot>, key: int -> int, i: nat): nat
    requires i < |snaps|
  {
    CountIn(snaps, key, key(snaps[i].timestamp), i)
  }

  /** Snapshot `i` is among the first `keep` of its day, its week or its month. */
  predicate Kept(snaps: seq<Snapshot>, cal: Calendar, p: Policy, i: nat)
    requires i < |snaps|
  {
    || Rank(snaps, cal.day, i) < p.daily
    || Rank(snaps, cal.week, i) < p.weekly
    || Rank(snaps, cal.month, i) < p.monthly
  }

  predicate NewestFirst(snaps: seq<Snapshot>) {
    forall i, j :: 0 <= i < j < |snaps| ==> snaps[i].timestamp >= snaps[j].timestamp
  }

  predicate DistinctIds(snaps: seq<Snapshot>) {
    forall i, j :: 0 <= i < j < |snaps| ==> snaps[i].id != snaps[j].id
  }

  // ── The loop ─────────────────────────────────────────────────────────────

  function Get(counts: map<int, nat>, b: int): nat {
    if b in counts then counts[b] else 0
  }

  function Min(a: nat, b: nat): nat {
    if a < b then a else b
  }

  /** A counter stops at the limit, so it holds the smaller of the two. */
  ghost predicate Counts(counts: map<int, nat>, snaps: seq<Snapshot>, key: int -> int, keep: nat, n: nat)
    requires n <= |snaps|
  {
    forall b :: Get(counts, b) == Min(keep, CountIn(snaps, key, b, n))
  }

  /** One policy for one snapshot: count it if there is room. */
  method Tally(counts: map<int, nat>, key: int, keep: nat) returns (counts': map<int, nat>, room: bool)
    ensures room == (Get(counts, key) < keep)
    ensures forall b :: Get(counts', b) == if b == key && room then Get(counts, b) + 1 else Get(counts, b)
  {
    counts' := if key in counts then counts else counts[key := 0];
    room := counts'[key] < keep;
    if room {
      counts' := counts'[key := counts'[key] + 1];
    }
  }

  lemma CountsStep(counts: map<int, nat>, counts': map<int, nat>, snaps: seq<Snapshot>, key: int -> int, keep: nat, n: nat)
    requires n < |snaps| && Counts(counts, snaps, key, keep, n)
    requires var k := key(snaps[n].timestamp);
             forall b :: Get(counts', b) == if b == k && Get(counts, k) < keep then Get(counts, b) + 1 else Get(counts, b)
    ensures Counts(counts', snaps, key, keep, n + 1)
    ensures Get(counts, key(snaps[n].timestamp)) < keep <==> Rank(snaps, key, n) < keep
  {
  }

  /** The ids of the kept snapshots among the first `n`. */
  function KeptIds(snaps: seq<Snapshot>, cal: Calendar, p: Policy, n: nat): (ids: set<string>)
    requires n <= |snaps|
  {
    if n == 0 then {}
    else KeptIds(snaps, cal, p, n - 1) + if Kept(snaps, cal, p, n - 1) then {snaps[n - 1].id} else {}
  }

  lemma {:induction false} KeptIdsMember(snaps: seq<Snapshot>, cal: Calendar, p: Policy, n: nat, id: string)
    requires n <= |snaps|
    ensures id in KeptIds(snaps, cal, p, n) <==> exists i :: 0 <= i < n && Kept(snaps, cal, p, i) && snaps[i].id == id
  {
    hide Kept;
    if n > 0 {
      KeptIdsMember(snaps, cal, p, n - 1, id);
    }
  }

  method SelectKept(snaps: seq<Snapshot>, cal: Calendar, p: Policy) returns (toKeep: set<string>)
    ensures toKeep == KeptIds(snaps, cal, p, |snaps|)
    ensures forall i :: 0 <= i < |snaps| && DistinctIds(snaps) ==>
              (snaps[i].id in toKeep <==>
               || |set j | 0 <= j < i && cal.day(snaps[j].timestamp) == cal.day(snaps[i].timestamp)| < p.daily
               || |set j | 0 <= j < i && cal.week(snaps[j].timestamp) == cal.week(snaps[i].timestamp)| < p.weekly
               || |set j | 0 <= j < i && cal.month(snaps[j].timestamp) == cal.month(snaps[i].timestamp)| < p.monthly)
  {
    hide Counts, Rank, Get;
    toKeep := {};
    var daily: map<int, nat> := map[];
    var weekly: map<int, nat> := map[];
    var monthly: map<int, nat> := map[];
    NoCounts(snaps, cal, p);
    for n := 0 to |snaps|
      invariant Counts(daily, snaps, cal.day, p.daily, n)
      invariant Counts(weekly, snaps, cal.week, p.weekly, n)
      invariant Counts(monthly, snaps, cal.month, p.monthly, n)
      invariant toKeep == KeptIds(snaps, cal, p, n)
    {
      var t := snaps[n].timestamp;
      var shouldKeep := false;
      var daily', today := Tally(daily, cal.day(t), p.daily);
      CountsStep(daily, daily', snaps, cal.day, p.daily, n);
      if today {
        shouldKeep := true;
      }
      var weekly', thisWeek := Tally(weekly, cal.week(t), p.weekly);
      CountsStep(weekly, weekly', snaps, cal.week, p.weekly, n);
      if thisWeek {
        shouldKeep := true;
      }
      var monthly', thisMonth := Tally(monthly, cal.month(t), p.monthly);
      CountsStep(monthly, monthly', snaps, cal.month, p.monthly, n);
      if thisMonth {
        shouldKeep := true;
      }
      daily, weekly, monthly := daily', weekly', monthly';
      if shouldKeep {
        toKeep := toKeep + {snaps[n].id};
      }
    }
    forall i | 0 <= i < |snaps| && DistinctIds(snaps)
      ensures snaps[i].id in toKeep <==>
              || |set j | 0 <= j < i && cal.day(snaps[j].timestamp) == cal.day(snaps[i].timestamp)| < p.daily
              || |set j | 0 <= j < i && cal.week(snaps[j].timestamp) == cal.week(snaps[i].timestamp)| < p.weekly
              || |set j | 0 <= j < i && cal.month(snaps[j].timestamp) == cal.month(snaps[i].timestamp)| < p.monthly
    {
      StaysIff(snaps, cal, p, i);
    }
  }

  lemma NoCounts(snaps: seq<Snapshot>, cal: Calendar, p: Policy)
    ensures Counts(map[], snaps, cal.day, p.daily, 0)
    ensures Counts(map[], snaps, cal.week, p.weekly, 0)
    ensures Counts(map[], snaps, cal.month, p.monthly, 0)
  {
  }

  // ── Laws of the policy ───────────────────────────────────────────────────

  /** Larger limits keep a superset. */
  lemma LargerLimitsKeepMore(snaps: seq<Snapshot>, cal: Calendar, p: Policy, q: Policy, n: nat)
    requires n <= |snaps| && p.daily <= q.daily && p.weekly <= q.weekly && p.monthly <= q.monthly
    ensures KeptIds(snaps, cal, p, n) <= KeptIds(snaps, cal, q, n)
  {
    hide KeptIds, Rank;
    forall id | id in KeptIds(snaps, cal, p, n)
      ensures id in KeptIds(snaps, cal, q, n)
    {
      KeptIdsMember(snaps, cal, p, n, id);
      KeptIdsMember(snaps, cal, q, n, id);
    }
  }

  /** The ids among the first `n` snapshots that fall into bucket `b`. */
  function IdsIn(snaps: seq<Snapshot>, key: int -> int, b: int, n: nat): set<string>
    requires n <= |snaps|
  {
    if n == 0 then {}
    else IdsIn(snaps, key, b, n - 1) + if key(snaps[n - 1].timestamp) == b then {snaps[n - 1].id} else {}
  }

  lemma {:induction false} IdsInMember(snaps: seq<Snapshot>, key: int -> int, b: int, n: nat, id: string)
    requires n <= |snaps|
    ensures id in IdsIn(snaps, key, b, n) <==> exists i :: 0 <= i < n && snaps[i].id == id && key(snaps[i].timestamp) == b
  {
    if n > 0 {
      IdsInMember(snaps, key, b, n - 1, id);
    }
  }

  lemma CountIsIds(snaps: seq<Snapshot>, key: int -> int, b: int, n: nat)
    requires DistinctIds(snaps) && n <= |snaps|
    ensures CountIn(snaps, key, b, n) == |IdsIn(snaps, key, b, n)|
  {
    hide DistinctIds, CountIn, IdsIn;
    NoIds(snaps, key, b);
    for k := 0 to n
      invariant CountIn(snaps, key, b, k) == |IdsIn(snaps, key, b, k)|
    {
      OneMoreId(snaps, key, b, k);
    }
  }

  lemma NoIds(snaps: seq<Snapshot>, key: int -> int, b: int)
    ensures CountIn(snaps, key, b, 0) == 0 && IdsIn(snaps, key, b, 0) == {}
  {
  }

  lemma OneMoreId(snaps: seq<Snapshot>, key: int -> int, b: int, n: nat)
    requires DistinctIds(snaps) && n < |snaps| && CountIn(snaps, key, b, n) == |IdsIn(snaps, key, b, n)|
    ensures CountIn(snaps, key, b, n + 1) == |IdsIn(snaps, key, b, n + 1)|
  {
    IdsInMember(snaps, key, b, n, snaps[n].id);
  }

  /** Every element of `kept` is one that the policy keeps in `snaps`. */
  ghost predicate OnlyKept(kept: seq<Snapshot>, snaps: seq<Snapshot>, cal: Calendar, p: Policy) {
    forall i :: 0 <= i < |kept| ==> KeptAs(kept[i], snaps, cal, p)
  }

  ghost predicate KeptAs(s: Snapshot, snaps: seq<Snapshot>, cal: Calendar, p: Policy) {
    exists j :: 0 <= j < |snaps| && snaps[j] == s && Kept(snaps, cal, p, j)
  }

  /** The last kept snapshot with a given timestamp. */
  lemma {:induction false} LastKept(snaps: seq<Snapshot>, cal: Calendar, p: Policy, j: nat, n: nat) returns (last: nat)
    requires j < n <= |snaps| && Kept(snaps, cal, p, j)
    ensures j <= last < n && Kept(snaps, cal, p, last) && snaps[last].timestamp == snaps[j].timestamp
    ensures forall k :: last < k < n && Kept(snaps, cal, p, k) ==> snaps[k].timestamp != snaps[j].timestamp
  {
    hide Rank;
    last := n - 1;
    if !(Kept(snaps, cal, p, last) && snaps[last].timestamp == snaps[j].timestamp) {
      last := LastKept(snaps, cal, p, j, n - 1);
    }
  }

  /** What precedes snapshot `i` of the shorter list precedes the last kept one of that time in the longer list. */
  lemma RankShrinks(snaps: seq<Snapshot>, kept: seq<Snapshot>, cal: Calendar, p: Policy, key: int -> int, i: nat, last: nat)
    requires NewestFirst(snaps) && DistinctIds(snaps) && NewestFirst(kept) && DistinctIds(kept)
    requires OnlyKept(kept, snaps, cal, p) && i < |kept| && last < |snaps|
    requires snaps[last].timestamp == kept[i].timestamp
    requires forall k :: last < k < |snaps| && Kept(snaps, cal, p, k) ==> snaps[k].timestamp != kept[i].timestamp
    ensures Rank(kept, key, i) <= Rank(snaps, key, last)
  {
    hide Kept, CountIn, IdsIn;
    var b := key(kept[i].timestamp);
    var before, within := IdsIn(kept, key, b, i), IdsIn(snaps, key, b, last);
    CountIsIds(kept, key, b, i);
    CountIsIds(snaps, key, b, last);
    IdsInMember(kept, key, b, i, kept[i].id);
    IdsInMember(snaps, key, b, last, snaps[last].id);
    forall id | id in before + {kept[i].id}
      ensures id in within + {snaps[last].id}
    {
      IdsInMember(kept, key, b, i, id);
      IdsInMember(snaps, key, b, last, id);
      var k :| 0 <= k <= i && kept[k].id == id && key(kept[k].timestamp) == b;
      assert KeptAs(kept[k], snaps, cal, p);
      var j :| 0 <= j < |snaps| && snaps[j] == kept[k] && Kept(snaps, cal, p, j);
      assert kept[k].timestamp >= kept[i].timestamp;
      assert j <= last;
    }
    SubsetCardinality(before + {kept[i].id}, within + {snaps[last].id});
  }

  lemma SubsetCardinality(a: set<string>, b: set<string>)
    requires a <= b
    ensures |a| <= |b|
  {
    assert b == a + (b - a);
  }

  /** A snapshot that the policy kept is kept again among kept ones, in whatever order equal times are listed. */
  lemma KeptAgain(snaps: seq<Snapshot>, kept: seq<Snapshot>, cal: Calendar, p: Policy, i: nat)
    requires NewestFirst(snaps) && DistinctIds(snaps) && NewestFirst(kept) && DistinctIds(kept)
    requires OnlyKept(kept, snaps, cal, p) && i < |kept|
    ensures Kept(kept, cal, p, i)
  {
    assert KeptAs(kept[i], snaps, cal, p);
    var j :| 0 <= j < |snaps| && snaps[j] == kept[i] && Kept(snaps, cal, p, j);
    var last := LastKept(snaps, cal, p, j, |snaps|);
    hide Rank;
    RankShrinks(snaps, kept, cal, p, cal.day, i, last);
    RankShrinks(snaps, kept, cal, p, cal.week, i, last);
    RankShrinks(snaps, kept, cal, p, cal.month, i, last);
  }

  /** With distinct timestamps a rank is the number of newer snapshots in the bucket. */
  lemma RankCountsNewer(snaps: seq<Snapshot>, key: int -> int, i: nat)
    requires NewestFirst(snaps) && i < |snaps|
    requires forall j, k :: 0 <= j < k < |snaps| ==> snaps[j].timestamp != snaps[k].timestamp
    ensures Rank(snaps, key, i) ==
            |set j | 0 <= j < |snaps| && snaps[j].timestamp > snaps[i].timestamp
                     && key(snaps[j].timestamp) == key(snaps[i].timestamp)|
  {
    EarlierIsNewer(snaps, key, i);
    CountIsCardinality(snaps, key, key(snaps[i].timestamp), i);
  }

  lemma {:induction false} CountIsCardinality(snaps: seq<Snapshot>, key: int -> int, b: int, n: nat)
    requires n <= |snaps|
    ensures CountIn(snaps, key, b, n) == |set j | 0 <= j < n && key(snaps[j].timestamp) == b|
  {
    var upTo := set j | 0 <= j < n && key(snaps[j].timestamp) == b;
    if n == 0 {
      assert upTo == {};
    } else {
      CountIsCardinality(snaps, key, b, n - 1);
      var before := set j | 0 <= j < n - 1 && key(snaps[j].timestamp) == b;
      if key(snaps[n - 1].timestamp) == b {
        assert upTo == before + {n - 1};
      } else {
        assert upTo == before;
      }
    }
  }

  /**
   The policy without the loop: a snapshot stays exactly when fewer than `daily` snapshots before it in the
   listing share its day, or fewer than `weekly` its week, or fewer than `monthly` its month.
   */
  lemma StaysIff(snaps: seq<Snapshot>, cal: Calendar, p: Policy, i: nat)
    requires DistinctIds(snaps) && i < |snaps|
    ensures snaps[i].id in KeptIds(snaps, cal, p, |snaps|) <==>
            || |set j | 0 <= j < i && cal.day(snaps[j].timestamp) == cal.day(snaps[i].timestamp)| < p.daily
            || |set j | 0 <= j < i && cal.week(snaps[j].timestamp) == cal.week(snaps[i].timestamp)| < p.weekly
            || |set j | 0 <= j < i && cal.month(snaps[j].timestamp) == cal.month(snaps[i].timestamp)| < p.monthly
  {
    hide KeptIds, CountIn;
    KeptIdsMember(snaps, cal, p, |snaps|, snaps[i].id);
    CountIsCardinality(snaps, cal.day, cal.day(snaps[i].timestamp), i);
    CountIsCardinality(snaps, cal.week, cal.week(snaps[i].timestamp), i);
    CountIsCardinality(snaps, cal.month, cal.month(snaps[i].timestamp), i);
  }

  /** With distinct timestamps those before it are the newer ones. */
  lemma EarlierIsNewer(snaps: seq<Snapshot>, key: int -> int, i: nat)
    requires NewestFirst(snaps) && i < |snaps|
    requires forall j, k :: 0 <= j < k < |snaps| ==> snaps[j].timestamp != snaps[k].timestamp
    ensures (set j | 0 <= j < i && key(snaps[j].timestamp) == key(snaps[i].timestamp)) ==
            (set j | 0 <= j < |snaps| && snaps[j].timestamp > snaps[i].timestamp
                     && key(snaps[j].timestamp) == key(snaps[i].timestamp))
  {
  }
}
