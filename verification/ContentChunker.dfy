/**
 The content-defined chunker of crates/core/src/chunker.rs: one pass with a rolling hash,
 proved to produce the greedy partition of its input.
 */
module ContentChunker {
  import opened Wrappers
  import opened Bytes
  import opened RollingHash

  datatype ChunkerError = ZeroMinimum | MaximumTooSmall | TargetOutOfRange

  // ── The mask ─────────────────────────────────────────────────────────────

  predicate IsPowerOfTwo(n: nat) {
    n == 1 || (n > 1 && n % 2 == 0 && IsPowerOfTwo(n / 2))
  }

  /** The smallest power of two that is at least `n`. */
  function NextPowerOfTwo(n: nat): (p: nat)
    ensures IsPowerOfTwo(p)
    ensures p >= n
    ensures n >= 2 ==> p < 2 * n
    ensures p == 1 <==> n <= 1
  {
    if n <= 1 then 1 else 2 * NextPowerOfTwo((n + 1) / 2)
  }

  /** The largest power of two strictly below `target`; 1 when there is none. */
  function MaskFor(target: nat): (mask: nat)
    ensures IsPowerOfTwo(mask)
    ensures target >= 2 ==> mask < target <= 2 * mask
    ensures target < 2 ==> mask == 1
  {
    var half := NextPowerOfTwo(target) / 2;
    if half == 0 then 1 else half
  }

  const WORD_LIMIT: nat := 0x1_0000_0000

  function TwoTo(k: nat): (p: nat)
    ensures p > 0
  {
    if k == 0 then 1 else 2 * TwoTo(k - 1)
  }

  lemma {:induction false} LargePower(p: nat, k: nat) returns (q: nat)
    requires IsPowerOfTwo(p) && p >= TwoTo(k)
    ensures p == q * TwoTo(k)
    decreases k
  {
    if k == 0 {
      q := p;
    } else {
      q := LargePower(p / 2, k - 1);
    }
  }

  lemma WordIsTwoTo32()
    ensures TwoTo(32) == WORD_LIMIT
  {
    assert TwoTo(8) == 256;
    assert TwoTo(16) == 65536 by {
      assert TwoTo(12) == 4096;
    }
    assert TwoTo(24) == 16777216 by {
      assert TwoTo(20) == 1048576;
    }
    assert TwoTo(28) == 268435456;
  }

  /** Kept in 32 bits the mask is itself, or nothing is left of it. */
  lemma TruncatedMask(target: nat)
    ensures MaskFor(target) % WORD_LIMIT == if target <= WORD_LIMIT then MaskFor(target) else 0
  {
    hide IsPowerOfTwo;
    if target > WORD_LIMIT {
      WordIsTwoTo32();
      MaskIsLarge(target);
      var q := LargePower(MaskFor(target), 32);
      MultipleOfWord(MaskFor(target), q);
    }
  }

  lemma MaskIsLarge(target: nat)
    requires target > WORD_LIMIT
    ensures MaskFor(target) >= WORD_LIMIT
  {
    var mask := MaskFor(target);
    if mask < WORD_LIMIT {
      WordIsTwoTo32();
      BetweenPowers(mask, 31);
      assert false;
    }
  }

  /** There is no power of two strictly between 2^k and 2^(k + 1). */
  lemma {:induction false} BetweenPowers(p: nat, k: nat)
    requires IsPowerOfTwo(p)
    ensures p <= TwoTo(k) || p >= TwoTo(k + 1)
    decreases k
  {
    if k > 0 && p > 1 {
      BetweenPowers(p / 2, k - 1);
    }
  }

  lemma MultipleOfWord(m: nat, q: nat)
    requires m == q * WORD_LIMIT
    ensures m % WORD_LIMIT == 0
  {
  }

  const USIZE_LIMIT: nat := 0x1_0000_0000_0000_0000

  /** The mask as it is computed: a power of two that does not fit a machine word becomes 0, and the result is cut to 32 bits. */
  function StoredMask(target: nat): nat {
    var next := NextPowerOfTwo(target);
    var half := (if next < USIZE_LIMIT then next else 0) / 2;
    (if half == 0 then 1 else half) % WORD_LIMIT
  }

  lemma WideIsTwoTo64()
    ensures TwoTo(64) == USIZE_LIMIT && 2 * TwoTo(63) == USIZE_LIMIT
  {
    WordIsTwoTo32();
    assert TwoTo(36) == 0x10_0000_0000 by { assert TwoTo(34) == 0x4_0000_0000; }
    assert TwoTo(40) == 0x100_0000_0000 by { assert TwoTo(38) == 0x40_0000_0000; }
    assert TwoTo(44) == 0x1000_0000_0000 by { assert TwoTo(42) == 0x400_0000_0000; }
    assert TwoTo(48) == 0x1_0000_0000_0000 by { assert TwoTo(46) == 0x4000_0000_0000; }
    assert TwoTo(52) == 0x10_0000_0000_0000 by { assert TwoTo(50) == 0x4_0000_0000_0000; }
    assert TwoTo(56) == 0x100_0000_0000_0000 by { assert TwoTo(54) == 0x40_0000_0000_0000; }
    assert TwoTo(60) == 0x1000_0000_0000_0000 by { assert TwoTo(58) == 0x400_0000_0000_0000; }
    assert TwoTo(62) == 0x4000_0000_0000_0000;
  }

  /** Three ranges of targets: the mask is right, it is 0, and it is 1. */
  lemma StoredMaskCases(target: nat)
    ensures StoredMask(target) == if target <= WORD_LIMIT then MaskFor(target) else if target <= USIZE_LIMIT / 2 then 0 else 1
  {
    hide IsPowerOfTwo;
    WideIsTwoTo64();
    BetweenPowers(NextPowerOfTwo(target), 63);
    hide NextPowerOfTwo;
    TruncatedMask(target);
  }

  // ── The greedy partition ─────────────────────────────────────────────────

  function HashNumber(h: word): nat {
    h as nat
  }

  datatype Limits = Limits(min: nat, max: nat, mask: nat)

  predicate ValidLimits(c: Limits) {
    0 < c.min < c.max && 0 < c.mask
  }

  /** A chunk may end after exactly these bytes. */
  predicate MayEnd(c: Limits, chunk: Bytes)
    requires ValidLimits(c)
  {
    || |chunk| >= c.max
    || (|chunk| >= c.min && HashNumber(HashOf(chunk)) % c.mask == c.mask - 1)
  }

  /** The first length from `n` on at which a chunk may end, or all of the data. */
  function CutLength(c: Limits, data: Bytes, n: nat): (len: nat)
    requires ValidLimits(c) && 0 < n <= |data|
    ensures n <= len <= |data|
    ensures len < |data| ==> MayEnd(c, data[..len])
    ensures forall l :: n <= l < len ==> !MayEnd(c, data[..l])
    decreases |data| - n
  {
    if n == |data| || MayEnd(c, data[..n]) then n else CutLength(c, data, n + 1)
  }

  function Chunks(c: Limits, data: Bytes): (chunks: seq<Bytes>)
    requires ValidLimits(c)
    decreases |data|
  {
    if |data| == 0 then []
    else
      var len := CutLength(c, data, 1);
      [data[..len]] + Chunks(c, data[len..])
  }

  function Concat(chunks: seq<Bytes>): Bytes {
    if |chunks| == 0 then [] else chunks[0] + Concat(chunks[1..])
  }

  // ── Properties of the partition ──────────────────────────────────────────

  lemma {:induction false} ChunksRestoreData(c: Limits, data: Bytes)
    requires ValidLimits(c)
    ensures Concat(Chunks(c, data)) == data
    decreases |data|
  {
    hide MayEnd;
    if |data| > 0 {
      var len := CutLength(c, data, 1);
      ChunksRestoreData(c, data[len..]);
      assert data == data[..len] + data[len..];
    }
  }

  lemma {:induction false} ChunkBounds(c: Limits, data: Bytes, i: nat)
    requires ValidLimits(c) && i < |Chunks(c, data)|
    ensures 0 < |Chunks(c, data)[i]| <= c.max
    ensures i < |Chunks(c, data)| - 1 ==> c.min <= |Chunks(c, data)[i]|
    decreases |data|
  {
    var len := CutLength(c, data, 1);
    assert data[..1] <= data;
    if i > 0 {
      ChunkBounds(c, data[len..], i - 1);
    } else {
      FirstCutBounds(c, data);
      if len == |data| {
        assert Chunks(c, data[len..]) == [];
      }
    }
  }

  lemma FirstCutBounds(c: Limits, data: Bytes)
    requires ValidLimits(c) && |data| > 0
    ensures CutLength(c, data, 1) <= c.max
    ensures CutLength(c, data, 1) < |data| ==> CutLength(c, data, 1) >= c.min
  {
    var len := CutLength(c, data, 1);
    if len > c.max {
      assert MayEnd(c, data[..c.max]);
    }
  }

  lemma {:induction false} EndsFirst(c: Limits, data: Bytes, i: nat, l: nat)
    requires ValidLimits(c) && i < |Chunks(c, data)|
    ensures i < |Chunks(c, data)| - 1 ==> MayEnd(c, Chunks(c, data)[i])
    ensures 0 < l < |Chunks(c, data)[i]| ==> !MayEnd(c, Chunks(c, data)[i][..l])
    decreases |data|
  {
    hide MayEnd;
    var len := CutLength(c, data, 1);
    if i > 0 {
      EndsFirst(c, data[len..], i - 1, l);
    } else {
      assert 0 < l < len ==> data[..len][..l] == data[..l];
    }
  }

  /**
   Every chunk but the last ends at the maximum, or at a length of at least the minimum at which the hash of
   its bytes leaves the remainder mask - 1; and no chunk goes on past such a length.
   */
  lemma ChunkEndsFirst(c: Limits, data: Bytes, i: nat, l: nat)
    requires ValidLimits(c) && i < |Chunks(c, data)|
    ensures var chunk := Chunks(c, data)[i];
            i < |Chunks(c, data)| - 1 ==>
              |chunk| == c.max || (c.min <= |chunk| < c.max && (HashOf(chunk) as nat) % c.mask == c.mask - 1)
    ensures var chunk := Chunks(c, data)[i];
            0 < l < |chunk| ==> l < c.max && (l >= c.min ==> (HashOf(chunk[..l]) as nat) % c.mask != c.mask - 1)
  {
    hide HashOf, Chunks;
    EndsFirst(c, data, i, l);
    ChunkBounds(c, data, i);
  }

  // ── Resynchronisation ────────────────────────────────────────────────────

  /** The data of the first `k` chunks. */
  ghost predicate CutsAfter(c: Limits, data: Bytes, k: nat, n: nat)
    requires ValidLimits(c)
  {
    k <= |Chunks(c, data)| && n <= |data| && |Concat(Chunks(c, data)[..k])| == n
  }

  /** From a cut on, the chunks depend only on the data after it. */
  lemma {:induction false} ChunksAfterCut(c: Limits, data: Bytes, k: nat, n: nat)
    requires ValidLimits(c) && CutsAfter(c, data, k, n)
    ensures Chunks(c, data)[k..] == Chunks(c, data[n..])
    decreases |data|
  {
    hide *;
    if k == 0 {
      NothingCut(c, data, n);
    } else {
      var len := CutOff(c, data, k, n);
      ChunksAfterCut(c, data[len..], k - 1, n - len);
      assert data[len..][n - len..] == data[n..];
    }
  }

  lemma NothingCut(c: Limits, data: Bytes, n: nat)
    requires ValidLimits(c) && CutsAfter(c, data, 0, n)
    ensures n == 0 && Chunks(c, data)[0..] == Chunks(c, data[n..])
  {
    hide Chunks;
    assert data[0..] == data;
  }

  /** The first chunk, and what follows it. */
  lemma CutOff(c: Limits, data: Bytes, k: nat, n: nat) returns (len: nat)
    requires ValidLimits(c) && CutsAfter(c, data, k, n) && k > 0
    ensures 0 < len <= n <= |data| && CutsAfter(c, data[len..], k - 1, n - len)
    ensures Chunks(c, data)[k..] == Chunks(c, data[len..])[k - 1..]
  {
    hide MayEnd;
    len := CutLength(c, data, 1);
    var first, rest := data[..len], Chunks(c, data[len..]);
    ConsParts(first, rest, k);
    ConcatCons(first, rest[..k - 1]);
  }

  lemma ConsParts(first: Bytes, rest: seq<Bytes>, k: nat)
    requires 0 < k <= |rest| + 1
    ensures ([first] + rest)[..k] == [first] + rest[..k - 1] && ([first] + rest)[k..] == rest[k - 1..]
  {
  }

  lemma ConcatCons(first: Bytes, rest: seq<Bytes>)
    ensures Concat([first] + rest) == first + Concat(rest)
  {
    assert ([first] + rest)[1..] == rest;
  }

  /** Two inputs that both cut at the start of a common suffix agree on every chunk from there on. */
  lemma Resynchronise(c: Limits, p1: Bytes, p2: Bytes, suffix: Bytes, k1: nat, k2: nat)
    requires ValidLimits(c)
    requires CutsAfter(c, p1 + suffix, k1, |p1|) && CutsAfter(c, p2 + suffix, k2, |p2|)
    ensures Chunks(c, p1 + suffix)[k1..] == Chunks(c, p2 + suffix)[k2..] == Chunks(c, suffix)
  {
    ChunksAfterCut(c, p1 + suffix, k1, |p1|);
    ChunksAfterCut(c, p2 + suffix, k2, |p2|);
    assert (p1 + suffix)[|p1|..] == suffix == (p2 + suffix)[|p2|..];
  }

  /** Only the last 32 bytes decide: the hash forgets everything older. */
  lemma HashIsLocal(a: Bytes, b: Bytes, recent: Bytes)
    requires |recent| >= 32
    ensures HashOf(a + recent) == HashOf(b + recent)
  {
    WindowHashLocal(a, b, recent, WINDOW);
  }

  lemma {:induction false} WindowHashLocal(a: Bytes, b: Bytes, recent: Bytes, n: nat)
    requires n <= |recent|
    ensures WindowHash(a + recent, n) == WindowHash(b + recent, n)
  {
    hide Xor, Rotate, Lookup;
    if n > 0 {
      WindowHashLocal(a, b, recent, n - 1);
      assert Recent(a + recent, n - 1) == recent[|recent| - n] == Recent(b + recent, n - 1);
    }
  }

  // ── The chunker object ───────────────────────────────────────────────────

  class Chunker {
    const minSize: nat
    const maxSize: nat
    const targetSize: nat
    const mask: nat

    ghost predicate Valid() {
      && 0 < minSize < maxSize
      && minSize <= targetSize <= maxSize
      && mask == StoredMask(targetSize) && mask > 0
    }

    function Sizes(): (c: Limits)
      requires Valid()
      ensures ValidLimits(c)
    {
      Limits(minSize, maxSize, mask)
    }

    constructor (minSize: nat, maxSize: nat, targetSize: nat)
      requires 0 < minSize < maxSize && minSize <= targetSize <= maxSize
      ensures this.minSize == minSize && this.maxSize == maxSize && this.targetSize == targetSize
      ensures mask == StoredMask(targetSize)
    {
      this.minSize, this.maxSize, this.targetSize := minSize, maxSize, targetSize;
      this.mask := StoredMask(targetSize);
    }

    /** A target above 2^32 is accepted, but up to 2^63 it leaves a mask of 0, by which the chunk loop then divides. */
    static method New(minSize: nat, maxSize: nat, targetSize: nat) returns (r: Result<Chunker, ChunkerError>)
      requires targetSize < USIZE_LIMIT
      ensures minSize == 0 ==> r == Err(ZeroMinimum)
      ensures 0 < minSize && maxSize <= minSize ==> r == Err(MaximumTooSmall)
      ensures 0 < minSize < maxSize ==>
                if minSize <= targetSize <= maxSize then r.Ok? else r == Err(TargetOutOfRange)
      ensures r.Ok? ==>
                && r.value.minSize == minSize && r.value.maxSize == maxSize && r.value.targetSize == targetSize
                && r.value.mask == (if targetSize <= 0x1_0000_0000 then MaskFor(targetSize)
                                    else if targetSize <= 0x8000_0000_0000_0000 then 0 else 1)
                && (r.value.Valid() <==> r.value.mask > 0)
    {
      if minSize == 0 {
        return Err(ZeroMinimum);
      }
      if maxSize <= minSize {
        return Err(MaximumTooSmall);
      }
      if targetSize < minSize || targetSize > maxSize {
        return Err(TargetOutOfRange);
      }
      var chunker := new Chunker(minSize, maxSize, targetSize);
      StoredMaskCases(targetSize);
      r := Ok(chunker);
    }

    /** The three tests of the loop body: too short, forced at the maximum, mask. */
    method AtBoundary(len: nat, buzhash: Buzhash) returns (cut: bool)
      requires Valid() && buzhash.Valid() && len == |buzhash.fed|
      ensures cut == MayEnd(Sizes(), buzhash.fed)
    {
      hide HashOf, HashNumber, Buzhash.Valid;
      if len < minSize {
        return false;
      }
      if len >= maxSize {
        return true;
      }
      var h := buzhash.HashValue();
      cut := HashNumber(h) % mask == mask - 1;
    }

    method ChunkData(data: Bytes) returns (chunks: seq<Bytes>)
      requires Valid()
      ensures chunks == Chunks(Sizes(), data)
    {
      hide *;
      if |data| == 0 {
        NoChunks(Sizes(), data);
        return [];
      }
      var buzhash := new Buzhash();
      chunks := [];
      var chunkStart := 0;
      ghost var c := Sizes();
      ScanStart(c, data);
      for i := 0 to |data|
        invariant fresh(buzhash) && fresh(buzhash.window) && buzhash.Valid()
        invariant chunkStart <= i
        invariant Scanned(c, data, chunks, chunkStart, i, buzhash.fed)
      {
        ScanLength(c, data, chunks, chunkStart, i, buzhash.fed);
        var posInChunk := i - chunkStart;
        ghost var fed := buzhash.fed;
        buzhash.Update(data[i]);
        var cut := AtBoundary(posInChunk + 1, buzhash);
        if cut {
          ScanCut(c, data, chunks, chunkStart, i, fed);
          chunks := chunks + [data[chunkStart..i + 1]];
          chunkStart := i + 1;
          buzhash.Reset();
        } else {
          ScanOn(c, data, chunks, chunkStart, i, fed);
        }
      }
      ScanEnd(c, data, chunks, chunkStart, buzhash.fed);
      if chunkStart < |data| {
        chunks := chunks + [data[chunkStart..]];
      }
    }
  }

  // ── The scan ─────────────────────────────────────────────────────────────

  /** State of the pass before position `i`: `chunks` are cut off, `fed` is hashed. */
  ghost predicate Scanned(c: Limits, data: Bytes, chunks: seq<Bytes>, start: nat, i: nat, fed: Bytes)
    requires ValidLimits(c) && start <= i <= |data|
  {
    && fed == data[start..i]
    && NoCut(c, data[start..], i - start)
    && Chunks(c, data) == chunks + Chunks(c, data[start..])
  }

  lemma NoChunks(c: Limits, data: Bytes)
    requires ValidLimits(c) && |data| == 0
    ensures Chunks(c, data) == []
  {
  }

  lemma ScanStart(c: Limits, data: Bytes)
    requires ValidLimits(c)
    ensures Scanned(c, data, [], 0, 0, [])
  {
    assert data[0..] == data;
  }

  lemma ScanLength(c: Limits, data: Bytes, chunks: seq<Bytes>, start: nat, i: nat, fed: Bytes)
    requires ValidLimits(c) && start <= i <= |data| && Scanned(c, data, chunks, start, i, fed)
    ensures |fed| == i - start
  {
  }

  lemma ScanOn(c: Limits, data: Bytes, chunks: seq<Bytes>, start: nat, i: nat, fed: Bytes)
    requires ValidLimits(c) && start <= i < |data| && Scanned(c, data, chunks, start, i, fed)
    requires !MayEnd(c, fed + [data[i]])
    ensures Scanned(c, data, chunks, start, i + 1, fed + [data[i]])
  {
    hide MayEnd, Chunks;
    ExtendSlice(data, start, i);
    NoCutStep(c, data, start, i + 1);
  }

  lemma ScanCut(c: Limits, data: Bytes, chunks: seq<Bytes>, start: nat, i: nat, fed: Bytes)
    requires ValidLimits(c) && start <= i < |data| && Scanned(c, data, chunks, start, i, fed)
    requires MayEnd(c, fed + [data[i]])
    ensures Scanned(c, data, chunks + [data[start..i + 1]], i + 1, i + 1, [])
  {
    hide MayEnd, Chunks;
    ExtendSlice(data, start, i);
    CutHere(c, data, start, i + 1, chunks);
  }

  lemma ScanEnd(c: Limits, data: Bytes, chunks: seq<Bytes>, start: nat, fed: Bytes)
    requires ValidLimits(c) && start <= |data| && Scanned(c, data, chunks, start, |data|, fed)
    ensures Chunks(c, data) == if start < |data| then chunks + [data[start..]] else chunks
  {
    hide MayEnd;
    if start < |data| {
      LastChunk(c, data[start..]);
    }
  }

  /** No chunk may end within the first `n` bytes. */
  predicate NoCut(c: Limits, rest: Bytes, n: nat)
    requires ValidLimits(c) && n <= |rest|
  {
    forall l :: 0 < l <= n ==> !MayEnd(c, rest[..l])
  }

  lemma ExtendSlice(data: Bytes, start: nat, i: nat)
    requires start <= i < |data|
    ensures data[start..i] + [data[i]] == data[start..i + 1]
  {
  }

  lemma NoCutStep(c: Limits, data: Bytes, start: nat, end: nat)
    requires ValidLimits(c) && start < end <= |data|
    requires NoCut(c, data[start..], end - start - 1) && !MayEnd(c, data[start..end])
    ensures NoCut(c, data[start..], end - start)
  {
    hide MayEnd;
    assert data[start..][..end - start] == data[start..end];
  }

  /** The first position that may end the chunk starting at `start` is `end`. */
  lemma CutHere(c: Limits, data: Bytes, start: nat, end: nat, chunks: seq<Bytes>)
    requires ValidLimits(c) && start < end <= |data|
    requires NoCut(c, data[start..], end - start - 1) && MayEnd(c, data[start..end])
    requires Chunks(c, data) == chunks + Chunks(c, data[start..])
    ensures Chunks(c, data) == chunks + [data[start..end]] + Chunks(c, data[end..])
  {
    hide MayEnd;
    var rest := data[start..];
    var len := CutLength(c, rest, 1);
    assert rest[..end - start] == data[start..end];
    assert rest[end - start..] == data[end..];
    assert len == end - start;
    var tail := Chunks(c, data[end..]);
    assert Chunks(c, rest) == [data[start..end]] + tail;
    assert chunks + ([data[start..end]] + tail) == chunks + [data[start..end]] + tail;
  }

  lemma LastChunk(c: Limits, rest: Bytes)
    requires ValidLimits(c) && |rest| > 0 && NoCut(c, rest, |rest|)
    ensures Chunks(c, rest) == [rest]
  {
    hide MayEnd;
    var len := CutLength(c, rest, 1);
    assert rest[..|rest|] == rest;
  }
}
