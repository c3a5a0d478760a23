/**
 The Buzhash rolling hash of crates/core/src/chunker.rs: a 32-byte circular window and a
 hash updated in constant time, proved equal to a hash computed afresh from the window.
 */
module RollingHash {
  import opened Bytes

  type word = bv32

  const WINDOW: nat := 32

  // ── Words ────────────────────────────────────────────────────────────────

  function Xor(a: word, b: word): word {
    a ^ b
  }

  function RotateOne(v: word): word {
    v.RotateLeft(1)
  }

  /** Rotation to the left by `k` bits. */
  function Rotate(v: word, k: nat): word {
    if k == 0 then v else RotateOne(Rotate(v, k - 1))
  }

  lemma XorLaws(a: word, b: word, c: word)
    ensures Xor(Xor(a, b), c) == Xor(a, Xor(b, c))
    ensures Xor(a, b) == Xor(b, a)
    ensures Xor(a, 0) == a && Xor(0, a) == a && Xor(a, a) == 0
  {
  }

  lemma RotateOneLinear(a: word, b: word)
    ensures RotateOne(Xor(a, b)) == Xor(RotateOne(a), RotateOne(b))
    ensures RotateOne(0) == 0
  {
  }

  lemma RotateOneInjective(a: word, b: word)
    requires RotateOne(a) == RotateOne(b)
    ensures a == b
  {
  }

  lemma RotateEightSteps(v: word)
    ensures v.RotateLeft(8) == RotateOne(RotateOne(RotateOne(RotateOne(RotateOne(RotateOne(RotateOne(RotateOne(v))))))))
    ensures v.RotateLeft(8).RotateLeft(8).RotateLeft(8).RotateLeft(8) == v
  {
  }

  lemma {:induction false} RotateAdd(v: word, i: nat, j: nat)
    ensures Rotate(v, i + j) == Rotate(Rotate(v, j), i)
  {
    hide RotateOne;
    if i > 0 {
      RotateAdd(v, i - 1, j);
    }
  }

  lemma RotateEight(v: word)
    ensures Rotate(v, 8) == v.RotateLeft(8)
  {
    RotateEightSteps(v);
    hide RotateOne;
    assert Rotate(v, 1) == RotateOne(v);
    assert Rotate(v, 2) == RotateOne(Rotate(v, 1));
    assert Rotate(v, 4) == RotateOne(RotateOne(Rotate(v, 2)));
    assert Rotate(v, 6) == RotateOne(RotateOne(Rotate(v, 4)));
  }

  lemma RotateFull(v: word)
    ensures Rotate(v, 32) == v
  {
    var a := Rotate(v, 8);
    var b := Rotate(a, 8);
    var c := Rotate(b, 8);
    RotateAdd(v, 8, 8);
    RotateAdd(v, 8, 16);
    RotateAdd(v, 8, 24);
    RotateEight(v);
    RotateEight(a);
    RotateEight(b);
    RotateEight(c);
    RotateEightSteps(v);
  }

  /** The program rotates by 31 in one go. */
  lemma RotateThirtyOne(v: word)
    ensures v.RotateLeft(31) == Rotate(v, 31)
  {
    RotateFull(v);
    assert RotateOne(v.RotateLeft(31)) == v;
    RotateOneInjective(v.RotateLeft(31), Rotate(v, 31));
  }

  lemma {:induction false} RotateLinear(a: word, b: word, k: nat)
    ensures Rotate(Xor(a, b), k) == Xor(Rotate(a, k), Rotate(b, k))
  {
    hide RotateOne, Xor;
    if k > 0 {
      RotateLinear(a, b, k - 1);
      RotateOneLinear(Rotate(a, k - 1), Rotate(b, k - 1));
    }
  }

  // ── The lookup table ─────────────────────────────────────────────────────

  const SEED: bv64 := 0x0123_4567_89AB_CDEF

  function XorShift(s0: bv64): bv64 {
    var s1 := s0 ^ (s0 << 13);
    var s2 := s1 ^ (s1 >> 7);
    s2 ^ (s2 << 17)
  }

  function StateAt(i: nat): bv64 {
    if i == 0 then SEED else XorShift(StateAt(i - 1))
  }

  /** The three shifts by 13, 7 and 17 bits and the low 32 bits, and the entries that they give first. */
  lemma GeneratorIs(s: bv64)
    ensures XorShift(s) == (var a := s ^ (s << 13); var b := a ^ (a >> 7); b ^ (b << 17))
    ensures LowHalf(s) == (s & 0xFFFF_FFFF) as bv32
    ensures TableEntry(0) == 0x569E_01B4 && TableEntry(1) == 0x3CEB_D0B7
    ensures TableEntry(2) == 0xDDDC_CAD6 && TableEntry(3) == 0xBF89_06C3
  {
    FirstStates();
  }

  lemma FirstStates()
    ensures StateAt(1) == 0x3F28_00D6_569E_01B4 && StateAt(2) == 0x606F_949A_3CEB_D0B7
    ensures StateAt(3) == 0xC69B_BA40_DDDC_CAD6 && StateAt(4) == 0xBDC1_62A6_BF89_06C3
  {
    assert StateAt(1) == XorShift(SEED);
    assert StateAt(2) == XorShift(0x3F28_00D6_569E_01B4);
    assert StateAt(3) == XorShift(0x606F_949A_3CEB_D0B7);
    assert StateAt(4) == XorShift(0xC69B_BA40_DDDC_CAD6);
  }

  function LowHalf(s: bv64): word {
    (s & 0xFFFF_FFFF) as word
  }

  function TableEntry(i: nat): word {
    LowHalf(StateAt(i + 1))
  }

  function Lookup(b: byte): word {
    TableEntry(Value(b))
  }

  // ── Hashing a window from scratch ────────────────────────────────────────

  /** The k-th most recent byte; zero before the start. */
  function Recent(fed: seq<byte>, k: nat): byte {
    if k < |fed| then fed[|fed| - 1 - k] else 0
  }

  /** XOR of the first `n` terms: the k-th most recent byte's entry rotated by `k`. */
  function WindowHash(fed: seq<byte>, n: nat): word {
    if n == 0 then 0 else Xor(WindowHash(fed, n - 1), Rotate(Lookup(Recent(fed, n - 1)), n - 1))
  }

  /** The value of the program's hash after the bytes `fed`. */
  function HashOf(fed: seq<byte>): word {
    WindowHash(fed, WINDOW)
  }

  lemma {:induction false} WindowHashPush(fed: seq<byte>, b: byte, n: nat)
    ensures WindowHash(fed + [b], n + 1) == Xor(Lookup(b), RotateOne(WindowHash(fed, n)))
  {
    hide Xor, RotateOne, Lookup;
    if n == 0 {
      assert Recent(fed + [b], 0) == b;
      assert WindowHash(fed + [b], 0) == 0;
      assert Rotate(Lookup(b), 0) == Lookup(b);
      RotateOneLinear(0, 0);
      XorLaws(Lookup(b), 0, 0);
    } else {
      WindowHashPush(fed, b, n - 1);
      assert Recent(fed + [b], n) == Recent(fed, n - 1);
      var t := Rotate(Lookup(Recent(fed, n - 1)), n - 1);
      RotateOneLinear(WindowHash(fed, n - 1), t);
      XorLaws(Lookup(b), RotateOne(WindowHash(fed, n - 1)), RotateOne(t));
    }
  }

  /** One step of the rolling update, whatever constant `m` the state is off by. */
  lemma RollingStep(fed: seq<byte>, b: byte)
    ensures var oldest := Rotate(Lookup(Recent(fed, 31)), 31);
            HashOf(fed + [b]) == Xor(RotateOne(Xor(HashOf(fed), oldest)), Lookup(b))
  {
    hide Xor, RotateOne, Lookup, Rotate, Recent;
    WindowHashPush(fed, b, 31);
    var w, oldest := WindowHash(fed, 31), Rotate(Lookup(Recent(fed, 31)), 31);
    assert WindowHash(fed, 32) == Xor(w, oldest);
    XorLaws(w, oldest, oldest);
    XorLaws(oldest, oldest, oldest);
    XorLaws(Lookup(b), RotateOne(w), w);
  }

  /** The same as the program computes it, operator by operator. */
  lemma RollingStepIs(fed: seq<byte>, b: byte)
    ensures HashOf(fed + [b]) ==
            (HashOf(fed) ^ Lookup(Recent(fed, 31)).RotateLeft(31)).RotateLeft(1) ^ Lookup(b)
  {
    hide HashOf, Lookup, Recent, Rotate, Xor, RotateOne;
    var oldest := Lookup(Recent(fed, 31));
    RotateThirtyOne(oldest);
    RollingStep(fed, b);
    OperatorsAre(HashOf(fed), Rotate(oldest, 31), Lookup(b));
  }

  lemma OperatorsAre(h: word, oldest: word, entry: word)
    ensures Xor(RotateOne(Xor(h, oldest)), entry) == (h ^ oldest).RotateLeft(1) ^ entry
  {
  }

  // ── The hash of the empty history ────────────────────────────────────────

  /** XOR of the first `n` rotations of one word. */
  function RotationSum(v: word, n: nat): word {
    if n == 0 then 0 else Xor(RotationSum(v, n - 1), Rotate(v, n - 1))
  }

  lemma {:induction false} RotationSumSplit(v: word, n: nat, m: nat)
    ensures RotationSum(v, n + m) == Xor(RotationSum(v, n), Rotate(RotationSum(v, m), n))
  {
    hide Xor, RotateOne;
    if m == 0 {
      RotateZero(n);
      XorLaws(RotationSum(v, n), 0, 0);
    } else {
      RotationSumSplit(v, n, m - 1);
      RotateLinear(RotationSum(v, m - 1), Rotate(v, m - 1), n);
      RotateAdd(v, n, m - 1);
      XorLaws(RotationSum(v, n), Rotate(RotationSum(v, m - 1), n), Rotate(v, n + m - 1));
    }
  }

  lemma {:induction false} RotateZero(n: nat)
    ensures Rotate(0, n) == 0
  {
    if n > 0 {
      RotateZero(n - 1);
    }
  }

  lemma {:induction false} EmptyWindow(n: nat)
    ensures WindowHash([], n) == RotationSum(Lookup(0), n)
  {
    hide Xor, RotateOne, Lookup;
    if n > 0 {
      EmptyWindow(n - 1);
    }
  }

  lemma FirstTableEntry()
    ensures Lookup(0) == 0x569E_01B4
  {
    assert StateAt(1) == XorShift(StateAt(0));
  }

  /** Entry 0 has an even number of one bits: resetting the hash to 0 leaves no offset. */
  lemma EmptyHashIsZero()
    ensures HashOf([]) == 0
  {
    FirstTableEntry();
    EmptyWindow(32);
    RotationSumOfEntry(0x569E_01B4);
  }

  lemma RotationSumOfEntry(v: word)
    requires v == 0x569E_01B4
    ensures RotationSum(v, 32) == 0
  {
    assert RotationSum(v, 0) == 0;
    assert RotationSum(v, 1) == v;
    FoldTwo(v, v, 0xFBA2_02DC);
    FoldFour(v, 0xFBA2_02DC, 0x152A_09AF);
    FoldEight(v, 0x152A_09AF, 0x478A_935E);
    FoldSixteen(v, 0x478A_935E, 0xCD19_CD19);
    FoldAll(v, 0xCD19_CD19, 0);
  }

  lemma SmallRotations(s: word)
    ensures RotateOne(s) == s.RotateLeft(1)
    ensures RotateOne(RotateOne(s)) == s.RotateLeft(2)
    ensures RotateOne(RotateOne(RotateOne(RotateOne(s)))) == s.RotateLeft(4)
  {
  }

  lemma RotateFour(s: word)
    ensures Rotate(s, 1) == s.RotateLeft(1)
    ensures Rotate(s, 2) == s.RotateLeft(2)
    ensures Rotate(s, 4) == s.RotateLeft(4)
  {
    SmallRotations(s);
    hide RotateOne;
    assert Rotate(s, 1) == RotateOne(s);
    assert Rotate(s, 2) == RotateOne(Rotate(s, 1));
    assert Rotate(s, 4) == RotateOne(RotateOne(Rotate(s, 2)));
  }

  lemma FoldTwo(v: word, s: word, t: word)
    requires RotationSum(v, 1) == s && t == Xor(s, s.RotateLeft(1))
    ensures RotationSum(v, 2) == t
  {
    hide RotateOne, Xor;
    RotationSumSplit(v, 1, 1);
    RotateFour(s);
  }

  lemma FoldFour(v: word, s: word, t: word)
    requires RotationSum(v, 2) == s && t == Xor(s, s.RotateLeft(2))
    ensures RotationSum(v, 4) == t
  {
    RotationSumSplit(v, 2, 2);
    RotateFour(s);
  }

  lemma FoldEight(v: word, s: word, t: word)
    requires RotationSum(v, 4) == s && t == Xor(s, s.RotateLeft(4))
    ensures RotationSum(v, 8) == t
  {
    RotationSumSplit(v, 4, 4);
    RotateFour(s);
  }

  lemma FoldSixteen(v: word, s: word, t: word)
    requires RotationSum(v, 8) == s && t == Xor(s, s.RotateLeft(8))
    ensures RotationSum(v, 16) == t
  {
    RotationSumSplit(v, 8, 8);
    RotateEight(s);
  }

  lemma FoldAll(v: word, s: word, t: word)
    requires RotationSum(v, 16) == s && t == Xor(s, s.RotateLeft(8).RotateLeft(8))
    ensures RotationSum(v, 32) == t
  {
    RotationSumSplit(v, 16, 16);
    RotateAdd(s, 8, 8);
    RotateEight(s);
    RotateEight(s.RotateLeft(8));
  }

  // ── The rolling hash object ──────────────────────────────────────────────

  class Buzhash {
    var hash: word
    const window: array<byte>
    var windowPos: nat
    const table: seq<word>

    /** The bytes fed in since the last reset. */
    ghost var fed: seq<byte>

    ghost predicate Valid()
      reads this, window
    {
      && window.Length == WINDOW
      && windowPos < WINDOW
      && |table| == 256
      && (forall i :: 0 <= i < 256 ==> table[i] == TableEntry(i))
      && (forall k :: 0 <= k < WINDOW ==> window[Slot(windowPos, k)] == Recent(fed, k))
      && hash == HashOf(fed)
    }

    constructor ()
      ensures Valid() && fed == [] && fresh(window)
    {
      hide WindowHash;
      var entries, _ := InitTable();
      table := entries;
      hash := 0;
      window := new byte[WINDOW](_ => 0);
      windowPos := 0;
      fed := [];
      EmptyHashIsZero();
    }

    /**
     The seeded xorshift generator: 257 states, each the `XorShift` of the one before, and every entry of the
     table is the low half of the next state.
     */
    static method InitTable() returns (table: seq<word>, ghost states: seq<bv64>)
      ensures |table| == 256 && |states| == 257 && states[0] == 0x0123_4567_89AB_CDEF
      ensures forall i :: 0 <= i < 256 ==> states[i + 1] == XorShift(states[i])
      ensures forall i :: 0 <= i < 256 ==> table[i] == LowHalf(states[i + 1])
      ensures forall i :: 0 <= i < 256 ==> table[i] == TableEntry(i)
    {
      hide XorShift, LowHalf;
      var entries := new word[256](_ => 0);
      var state := SEED;
      states := [SEED];
      for i := 0 to 256
        invariant state == StateAt(i) && |states| == i + 1 && states[i] == state && states[0] == SEED
        invariant forall j :: 0 <= j < i ==> states[j + 1] == XorShift(states[j])
        invariant forall j :: 0 <= j < i ==> entries[j] == LowHalf(states[j + 1]) == TableEntry(j)
      {
        state := XorShift(state);
        entries[i] := LowHalf(state);
        states := states + [state];
      }
      table := entries[..];
    }

    method Reset()
      requires Valid()
      modifies this, window
      ensures Valid() && fed == []
    {
      hide WindowHash;
      hash := 0;
      forall i | 0 <= i < window.Length {
        window[i] := 0;
      }
      windowPos := 0;
      fed := [];
      EmptyHashIsZero();
    }

    method Update(b: byte)
      requires Valid()
      modifies this, window
      ensures Valid() && fed == old(fed) + [b]
    {
      hide WindowHash, Xor, RotateOne, TableEntry, HashOf;
      var oldest := window[windowPos];
      assert windowPos == Slot(windowPos, 31);
      RotateThirtyOne(table[Value(oldest)]);
      RollingStep(fed, b);
      hash := Xor(hash, table[Value(oldest)].RotateLeft(31));
      hash := RotateOne(hash);
      hash := Xor(hash, table[Value(b)]);
      window[windowPos] := b;
      windowPos := (windowPos + 1) % 32;
      fed := fed + [b];
      forall k | 0 <= k < WINDOW
        ensures window[Slot(windowPos, k)] == Recent(fed, k)
      {
        SlotShift(old(windowPos), k);
      }
    }

    function HashValue(): (h: word)
      requires Valid()
      reads this, window
      ensures h == HashOf(fed)
    {
      hash
    }
  }

  /** Where the circular window keeps the k-th most recent byte. */
  function Slot(pos: nat, k: nat): (i: nat)
    requires pos < WINDOW && k < WINDOW
    ensures i < WINDOW
  {
    (pos + 31 - k) % 32
  }

  lemma SlotShift(pos: nat, k: nat)
    requires pos < WINDOW && k < WINDOW
    ensures var next := (pos + 1) % 32;
            if k == 0 then Slot(next, k) == pos
            else Slot(next, k) == Slot(pos, k - 1) && Slot(pos, k - 1) != pos
  {
  }
}
