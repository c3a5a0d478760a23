/**
 GF(256) with the polynomial x^8 + x^4 + x^3 + x^2 + 1 (0x11D).

 `Mul` is the reference product: polynomial multiplication modulo 0x11D, written as the
 shift-and-add ("peasant") recursion.  The class `Gf256` is the table-driven arithmetic
 of the program; its operations are proved equal to the reference ones.
 */
module GaloisField {

  import opened Bytes

  const GF_POLY: bv16 := 0x11D

  /** The order of the multiplicative group. */
  const ORDER: nat := 255

  // ── Reference arithmetic ─────────────────────────────────────────────────

  function Add(a: byte, b: byte): byte {
    a ^ b
  }

  /** Multiplication by x modulo 0x11D. */
  function Double(x: byte): byte {
    var h := x >> 7;
    (x << 1) ^ (h << 4) ^ (h << 3) ^ (h << 2) ^ h
  }

  predicate Odd(a: byte) {
    a & 1 == 1
  }

  function Half(a: byte): byte {
    a >> 1
  }

  function Peasant(a: byte, b: byte, n: nat): byte
    decreases n
  {
    if n == 0 then 0
    else Add(if Odd(a) then b else 0, Peasant(Half(a), Double(b), n - 1))
  }

  /** The product of two polynomials over GF(2), reduced modulo 0x11D. */
  function Mul(a: byte, b: byte): byte {
    Peasant(a, b, 8)
  }

  // ── XOR ──────────────────────────────────────────────────────────────────

  lemma AddComm(a: byte, b: byte)
    ensures Add(a, b) == Add(b, a)
  {
  }

  lemma AddAssoc(a: byte, b: byte, c: byte)
    ensures Add(Add(a, b), c) == Add(a, Add(b, c))
  {
  }

  lemma AddZero(a: byte)
    ensures Add(a, 0) == a && Add(0, a) == a && Add(a, a) == 0
  {
  }

  lemma AddSwap(a: byte, b: byte, c: byte, d: byte)
    ensures Add(Add(a, b), Add(c, d)) == Add(Add(a, c), Add(b, d))
  {
    hide Add;
    AddAssoc(a, b, Add(c, d));
    AddAssoc(b, c, d);
    AddComm(b, c);
    AddAssoc(c, b, d);
    AddAssoc(a, c, Add(b, d));
  }

  lemma AddCancel(a: byte, b: byte)
    ensures Add(a, Add(a, b)) == b
    ensures Add(a, b) == 0 <==> a == b
  {
  }

  // ── Doubling is linear ───────────────────────────────────────────────────

  lemma DoubleLinear(x: byte, y: byte)
    ensures Double(Add(x, y)) == Add(Double(x), Double(y))
    ensures Double(0) == 0
  {
  }

  lemma DoubleInjective(x: byte, y: byte)
    requires Double(x) == Double(y)
    ensures x == y
  {
  }

  lemma HalfLinear(a: byte, b: byte)
    ensures Half(Add(a, b)) == Add(Half(a), Half(b))
    ensures Odd(Add(a, b)) <==> Odd(a) != Odd(b)
    ensures Half(0) == 0 && !Odd(0)
  {
  }

  // ── The reference product is bilinear ────────────────────────────────────

  lemma {:induction false} PeasantLinearRight(a: byte, b: byte, c: byte, n: nat)
    ensures Peasant(a, Add(b, c), n) == Add(Peasant(a, b, n), Peasant(a, c, n))
    decreases n
  {
    hide Add, Odd, Half, Double;
    AddZero(0);
    if n > 0 {
      DoubleLinear(b, c);
      PeasantLinearRight(Half(a), Double(b), Double(c), n - 1);
      var p, q := Peasant(Half(a), Double(b), n - 1), Peasant(Half(a), Double(c), n - 1);
      AddSwap(b, c, p, q);
      AddSwap(0, 0, p, q);
    }
  }

  lemma {:induction false} PeasantLinearLeft(a: byte, b: byte, c: byte, n: nat)
    ensures Peasant(Add(a, b), c, n) == Add(Peasant(a, c, n), Peasant(b, c, n))
    decreases n
  {
    hide Add, Odd, Half, Double;
    AddZero(0);
    if n > 0 {
      HalfLinear(a, b);
      PeasantLinearLeft(Half(a), Half(b), Double(c), n - 1);
      var p, q := Peasant(Half(a), Double(c), n - 1), Peasant(Half(b), Double(c), n - 1);
      var a', b' := if Odd(a) then c else 0, if Odd(b) then c else 0;
      AddZero(c);
      AddSwap(a', b', p, q);
    }
  }

  lemma {:induction false} PeasantDouble(a: byte, b: byte, n: nat)
    ensures Double(Peasant(a, b, n)) == Peasant(a, Double(b), n)
    decreases n
  {
    hide Add, Odd, Half, Double;
    DoubleLinear(0, 0);
    if n > 0 {
      PeasantDouble(Half(a), Double(b), n - 1);
      DoubleLinear(if Odd(a) then b else 0, Peasant(Half(a), Double(b), n - 1));
    }
  }

  /** Once the remaining bits of `a` are used up, further rounds add nothing. */
  lemma {:induction false} PeasantZero(b: byte, n: nat)
    ensures Peasant(0, b, n) == 0
    decreases n
  {
    hide Add, Odd, Half, Double;
    HalfLinear(0, 0);
    AddZero(0);
    if n > 0 {
      PeasantZero(Double(b), n - 1);
    }
  }

  // ── Powers of the generator ──────────────────────────────────────────────

  /** Doubling `k` times. */
  function Iter(k: nat, b: byte): byte {
    if k == 0 then b else Double(Iter(k - 1, b))
  }

  /** The k-th power of alpha = x. */
  function Pow(k: nat): byte {
    Iter(k, 1)
  }

  lemma {:induction false} IterAdd(i: nat, j: nat, b: byte)
    ensures Iter(i + j, b) == Iter(i, Iter(j, b))
  {
    hide Double;
    if i > 0 {
      IterAdd(i - 1, j, b);
    }
  }

  lemma {:induction false} IterInjective(k: nat, b: byte, c: byte)
    requires Iter(k, b) == Iter(k, c)
    ensures b == c
  {
    hide Double;
    if k > 0 {
      DoubleInjective(Iter(k - 1, b), Iter(k - 1, c));
      IterInjective(k - 1, b, c);
    }
  }

  lemma {:induction false} IterZero(k: nat)
    ensures Iter(k, 0) == 0
  {
    hide Double;
    DoubleLinear(0, 0);
    if k > 0 {
      IterZero(k - 1);
    }
  }

  lemma PowNonZero(k: nat)
    ensures Pow(k) != 0
  {
    hide Double, Iter;
    IterZero(k);
    if Pow(k) == 0 {
      IterInjective(k, 1, 0);
    }
  }

  // ── The order of alpha is 255 = 3 · 5 · 17 ───────────────────────────────

  function Eight(b: byte): byte {
    Double(Double(Double(Double(Double(Double(Double(Double(b))))))))
  }

  lemma IterEight(b: byte)
    ensures Iter(8, b) == Eight(b)
  {
    hide Double;
    assert Iter(1, b) == Double(b);
    assert Iter(2, b) == Double(Iter(1, b));
    assert Iter(4, b) == Double(Double(Iter(2, b)));
    assert Iter(6, b) == Double(Double(Iter(4, b)));
  }

  /** Seventeen doublings; 51, 85 and 255 are multiples of 17. */
  function Seventeen(b: byte): byte {
    Double(Eight(Eight(b)))
  }

  lemma PowSeventeen(k: nat)
    ensures Pow(k + 17) == Seventeen(Pow(k))
  {
    hide Double, Eight;
    IterAdd(17, k, 1);
    IterEight(Pow(k));
    IterAdd(8, 8, Pow(k));
    IterEight(Eight(Pow(k)));
  }

  lemma PowStep(k: nat, v: byte, w: byte)
    requires Pow(k) == v && Seventeen(v) == w
    ensures Pow(k + 17) == w
  {
    hide Seventeen, Pow;
    PowSeventeen(k);
  }

  lemma PowAnchors()
    ensures Pow(15) == 38 && Pow(51) == 10 && Pow(85) == 214 && Pow(255) == 1
  {
    hide Iter;
    assert Pow(15) == 38 by {
      IterAdd(8, 7, 1);
      IterEight(Iter(7, 1));
      PowSeven();
    }
    assert Pow(0) == 1 by { PowSeven(); }
    hide Pow;
    PowStep(0, 1, 152);
    PowStep(17, 152, 78);
    PowStep(34, 78, 10);
    PowStep(51, 10, 153);
    PowStep(68, 153, 214);
    PowStep(85, 214, 68);
    PowStep(102, 68, 147);
    PowStep(119, 147, 79);
    PowStep(136, 79, 146);
    PowStep(153, 146, 215);
    PowStep(170, 215, 220);
    PowStep(187, 220, 221);
    PowStep(204, 221, 69);
    PowStep(221, 69, 11);
    PowStep(238, 11, 1);
  }

  lemma PowSeven()
    ensures Pow(0) == 1 && Iter(7, 1) == 128
  {
    assert Iter(1, 1) == 2;
    assert Iter(2, 1) == 4;
    assert Iter(3, 1) == 8;
    assert Iter(4, 1) == 16;
    assert Iter(5, 1) == 32;
    assert Iter(6, 1) == 64;
  }

  lemma {:induction false} PowMultiple(m: nat, c: nat, r: nat)
    requires Pow(m) == 1
    ensures Pow(c * m + r) == Pow(r)
    decreases c
  {
    hide Iter;
    if c > 0 {
      PowMultiple(m, c - 1, r);
      assert c * m + r == ((c - 1) * m + r) + m;
      IterAdd((c - 1) * m + r, m, 1);
    }
  }

  /** A period `m` prime to `q` would make alpha^(255/q) = 1. */
  lemma PeriodReduces(m: nat, q: nat, g: nat, s: nat)
    requires Pow(m) == 1 && q > 0 && q * g == ORDER && (s * m) % q == 1
    ensures Pow(g) == 1
  {
    hide Iter, Pow;
    PowAnchors();
    var u := (s * m) / q;
    assert (g * s) * m == ORDER * u + g by {
      assert s * m == q * u + 1;
      assert (g * s) * m == g * (s * m) == g * (q * u + 1);
      assert g * (q * u + 1) == (q * g) * u + g;
    }
    PowMultiple(m, g * s, 0);
    PowMultiple(ORDER, u, g);
    assert g * s * m + 0 == u * ORDER + g;
    assert Pow(0) == 1 by { PowSeven(); }
  }

  lemma ResidueMod17(x: nat, y: nat)
    ensures (17 * x + y) % 17 == y % 17
  {
  }

  lemma InverseMod5(m: nat) returns (s: nat)
    requires m % 5 != 0
    ensures (s * m) % 5 == 1
  {
    var r, k := m % 5, m / 5;
    s := [1, 3, 2, 4][r - 1];
    assert (s * r) % 5 == 1;
    assert s * m == 5 * (s * k) + s * r;
  }

  lemma InverseMod17(m: nat) returns (s: nat)
    requires m % 17 != 0
    ensures (s * m) % 17 == 1
  {
    var r, k := m % 17, m / 17;
    s := [1, 9, 6, 13, 7, 3, 5, 15, 2, 12, 14, 10, 4, 11, 8, 16][r - 1];
    assert (s * r) % 17 == 1;
    assert s * m == 17 * (s * k) + s * r;
    ResidueMod17(s * k, s * r);
  }

  lemma OrderOfAlpha(m: nat)
    requires Pow(m) == 1
    ensures m % ORDER == 0
  {
    hide *;
    ThreeDivides(m);
    FiveDivides(m);
    SeventeenDivides(m);
    DivisibleByAll(m);
  }

  lemma ThreeDivides(m: nat)
    requires Pow(m) == 1
    ensures m % 3 == 0
  {
    hide *;
    NoPeriodByThree(m, 1);
    NoPeriodByThree(m, 2);
  }

  lemma NoPeriodByThree(m: nat, s: nat)
    requires Pow(m) == 1
    ensures (s * m) % 3 != 1
  {
    hide Iter, Pow;
    PowAnchors();
    if (s * m) % 3 == 1 {
      PeriodReduces(m, 3, 85, s);
    }
  }

  lemma FiveDivides(m: nat)
    requires Pow(m) == 1
    ensures m % 5 == 0
  {
    hide Iter, Pow;
    PowAnchors();
    if m % 5 != 0 {
      var s := InverseMod5(m);
      PeriodReduces(m, 5, 51, s);
    }
  }

  lemma SeventeenDivides(m: nat)
    requires Pow(m) == 1
    ensures m % 17 == 0
  {
    hide Iter, Pow;
    PowAnchors();
    if m % 17 != 0 {
      var s := InverseMod17(m);
      PeriodReduces(m, 17, 15, s);
    }
  }

  lemma DivisibleByAll(m: nat)
    requires m % 3 == 0 && m % 5 == 0 && m % 17 == 0
    ensures m % ORDER == 0
  {
  }

  /** alpha^i = alpha^j exactly when i and j agree modulo 255. */
  lemma PowEqual(i: nat, j: nat)
    ensures Pow(i) == Pow(j) <==> i % ORDER == j % ORDER
  {
    hide Iter;
    PowReduce(i);
    PowReduce(j);
    if Pow(i) == Pow(j) {
      if i <= j {
        PowDifference(i, j);
      } else {
        PowDifference(j, i);
      }
    }
  }

  lemma PowReduce(i: nat)
    ensures Pow(i) == Pow(i % ORDER)
  {
    hide Iter, Pow;
    PowAnchors();
    PowMultiple(ORDER, i / ORDER, i % ORDER);
  }

  lemma PowDifference(i: nat, j: nat)
    requires i <= j && Pow(i) == Pow(j)
    ensures i % ORDER == j % ORDER
  {
    hide Iter;
    IterAdd(i, j - i, 1);
    IterInjective(i, 1, Pow(j - i));
    OrderOfAlpha(j - i);
  }

  // ── Every non-zero byte is a power of alpha ──────────────────────────────

  ghost function PowSet(n: nat): (s: set<int>)
    requires n <= ORDER
    ensures forall v :: v in s <==> exists k: nat :: k < n && Value(Pow(k)) == v
    ensures |s| == n
  {
    hide Iter, Pow, Value;
    if n == 0 then {}
    else
      assert Value(Pow(n - 1)) !in PowSet(n - 1) by {
        forall k: nat | k < n - 1
          ensures Value(Pow(k)) != Value(Pow(n - 1))
        {
          PowEqual(k, n - 1);
          ValueInjective(Pow(k), Pow(n - 1));
        }
      }
      PowSet(n - 1) + {Value(Pow(n - 1))}
  }

  ghost function Interval(n: nat): (s: set<int>)
    ensures forall v :: v in s <==> 1 <= v <= n
    ensures |s| == n
  {
    if n == 0 then {} else Interval(n - 1) + {n}
  }

  /** `n` distinct numbers between 1 and `n` are all of them. */
  lemma FullInterval(s: set<int>, n: nat, v: int)
    requires |s| == n && 1 <= v <= n
    requires forall w :: w in s ==> 1 <= w <= n
    ensures v in s
  {
    assert s <= Interval(n);
    assert |Interval(n) - s| == 0;
    assert v !in Interval(n) - s;
  }

  lemma EveryByteIsPower(v: byte, n: nat)
    requires v != 0 && n == ORDER
    ensures exists k: nat :: k < n && Pow(k) == v
  {
    hide Iter, Pow, Value;
    var powers := PowSet(n);
    forall w | w in powers
      ensures 1 <= w <= n
    {
      var k: nat :| k < n && Value(Pow(k)) == w;
      PowNonZero(k);
      ValueInjective(Pow(k), 0);
    }
    ValueInjective(v, 0);
    FullInterval(powers, n, Value(v));
    var k: nat :| k < n && Value(Pow(k)) == Value(v);
    ValueInjective(Pow(k), v);
  }

  /** The discrete logarithm to base alpha. */
  ghost function Log(v: byte): (k: nat)
    requires v != 0
    ensures k < ORDER && Pow(k) == v
  {
    hide Iter, Pow;
    EveryByteIsPower(v, ORDER);
    var k: nat :| k < ORDER && Pow(k) == v;
    k
  }

  // ── The reference product in terms of powers ─────────────────────────────

  lemma MulDouble(a: byte, b: byte)
    ensures Mul(Double(a), b) == Double(Mul(a, b))
  {
    hide Peasant;
    PeasantDouble(a, b, 8);
    PeasantShift(a, b);
  }

  /** The bit that leaves on the left comes back as 0x1D. */
  lemma PeasantShift(a: byte, b: byte)
    ensures Peasant(Double(a), b, 8) == Peasant(a, Double(b), 8)
  {
    hide Add, Double, Peasant;
    var low, high := a & 0x7F, a & 0x80;
    SplitTopBit(a);
    PeasantLinearLeft(low, high, Double(b), 8);
    DoubleLinear(low, high);
    PeasantLinearLeft(Double(low), Double(high), b, 8);
    ShiftLow(low, b);
    if high == 0 {
      DoubleLinear(0, 0);
      PeasantZero(b, 8);
      PeasantZero(Double(b), 8);
    } else {
      ShiftHigh(b);
    }
  }

  lemma SplitTopBit(a: byte)
    ensures a == Add(a & 0x7F, a & 0x80)
    ensures a & 0x80 == 0 || a & 0x80 == 0x80
    ensures (a & 0x7F) & 0x80 == 0
    ensures Double(0x80) == 0x1D
  {
  }

  lemma ShiftLow(a: byte, b: byte)
    requires a & 0x80 == 0
    ensures Peasant(Double(a), b, 8) == Peasant(a, Double(b), 8)
  {
    hide Add, Double, Odd, Half;
    HalfOfDouble(a);
    AddZero(Peasant(a, Double(b), 7));
    LastRound(a, Double(b), 7);
  }

  lemma HalfOfDouble(a: byte)
    requires a & 0x80 == 0
    ensures Half(Double(a)) == a && !Odd(Double(a)) && Fits(a, 7)
  {
  }

  /** The bits of `a` from position `n` on are zero. */
  predicate Fits(a: byte, n: nat) {
    n < 8 ==> a >> (n as bv4) == 0
  }

  lemma FitsHalf(a: byte, n: nat)
    requires 0 < n < 8 && Fits(a, n)
    ensures Fits(Half(a), n - 1)
  {
  }

  /** A further round adds nothing when no bit is left for it. */
  lemma {:induction false} LastRound(a: byte, b: byte, n: nat)
    requires n <= 7 && Fits(a, n)
    ensures Peasant(a, b, n + 1) == Peasant(a, b, n)
    decreases n
  {
    if n == 0 {
      assert a == 0;
    }
    hide Double, Half, Odd, Add;
    if n == 0 {
      PeasantZero(b, 1);
    } else {
      FitsHalf(a, n);
      LastRound(Half(a), Double(b), n - 1);
    }
  }

  /** 0x80 · 2b and 0x1D · b are both eight doublings of `b`. */
  lemma ShiftHigh(b: byte)
    ensures Peasant(0x1D, b, 8) == Peasant(0x80, Double(b), 8)
  {
    hide Add, Double, Peasant;
    var b1 := Double(b);
    PeasantTop(b1);
    IterAdd(7, 1, b);
    assert Iter(1, b) == b1;
    IterEight(b);
    EightReduced(b);
    PeasantPoly(b);
  }

  lemma PeasantPoly(b: byte)
    ensures Peasant(0x1D, b, 8) ==
            Add(b, Add(Double(Double(b)), Add(Double(Double(Double(b))), Double(Double(Double(Double(b)))))))
  {
    LowRounds();
    hide Double, Half, Odd, Add;
    var b1 := Double(b);
    var b2 := Double(b1);
    var b3 := Double(b2);
    var b4 := Double(b3);
    PeasantZero(Double(b4), 3);
    AddZero(b4);
    AddZero(Peasant(0x07, b2, 6));
    assert Peasant(0x01, b4, 4) == b4;
    assert Peasant(0x03, b3, 5) == Add(b3, b4);
    assert Peasant(0x07, b2, 6) == Add(b2, Add(b3, b4));
    assert Peasant(0x0E, b1, 7) == Add(b2, Add(b3, b4));
  }

  lemma LowRounds()
    ensures Half(0x1D) == 0x0E && Half(0x0E) == 0x07 && Half(0x07) == 0x03 && Half(0x03) == 0x01 && Half(0x01) == 0
    ensures Odd(0x1D) && !Odd(0x0E) && Odd(0x07) && Odd(0x03) && Odd(0x01)
  {
  }

  lemma PeasantTop(b: byte)
    ensures Peasant(0x80, b, 8) == Iter(7, b)
  {
    assert Half(0x80) == 0x40 && Half(0x40) == 0x20 && Half(0x20) == 0x10 && Half(0x10) == 0x08;
    assert Half(0x08) == 0x04 && Half(0x04) == 0x02 && Half(0x02) == 0x01;
    assert !Odd(0x80) && !Odd(0x40) && !Odd(0x20) && !Odd(0x10) && !Odd(0x08) && !Odd(0x04) && !Odd(0x02) && Odd(0x01);
    hide Double, Half, Odd, Add;
    forall x: byte
      ensures Add(x, 0) == x && Add(0, x) == x
    {
      AddZero(x);
    }
    assert Iter(1, b) == Double(b);
    assert Peasant(0x01, Iter(7, b), 1) == Iter(7, b);
    assert Peasant(0x02, Iter(6, b), 2) == Iter(7, b);
    assert Peasant(0x04, Iter(5, b), 3) == Iter(7, b);
    assert Peasant(0x08, Iter(4, b), 4) == Iter(7, b);
    assert Peasant(0x10, Iter(3, b), 5) == Iter(7, b);
    assert Peasant(0x20, Iter(2, b), 6) == Iter(7, b);
    assert Peasant(0x40, Iter(1, b), 7) == Iter(7, b);
  }

  lemma EightReduced(b: byte)
    ensures Eight(b) == Add(b, Add(Double(Double(b)), Add(Double(Double(Double(b))), Double(Double(Double(Double(b)))))))
  {
  }

  lemma {:induction false} MulPowLeft(k: nat, b: byte)
    ensures Mul(Pow(k), b) == Iter(k, b)
  {
    if k == 0 {
      MulOne(b);
    } else {
      hide Mul, Double;
      MulPowLeft(k - 1, b);
      MulDouble(Pow(k - 1), b);
    }
  }

  lemma MulPow(i: nat, j: nat)
    ensures Mul(Pow(i), Pow(j)) == Pow(i + j)
  {
    hide Mul, Iter;
    MulPowLeft(i, Pow(j));
    IterAdd(i, j, 1);
  }

  // ── Field laws ───────────────────────────────────────────────────────────

  lemma MulOne(b: byte)
    ensures Mul(1, b) == b
  {
    LowRounds();
    hide Double, Half, Odd, Add;
    PeasantZero(Double(b), 7);
    AddZero(b);
  }

  /**
   With `Distributive` this fixes the product: times alpha is a shift by one place, and the bit that leaves
   on the left comes back as 0x1D.
   */
  lemma TimesAlpha(b: byte)
    ensures Mul(2, b) == if b & 0x80 == 0 then b << 1 else (b << 1) ^ 0x1D
  {
    DoubleIs(1);
    DoubleIs(b);
    MulDouble(1, b);
    MulOne(b);
    hide *;
    assert Double(1) == 2;
  }

  lemma DoubleIs(b: byte)
    ensures Double(b) == if b & 0x80 == 0 then b << 1 else (b << 1) ^ 0x1D
  {
  }

  lemma MulZero(b: byte)
    ensures Mul(0, b) == 0 && Mul(b, 0) == 0
  {
    hide Double, Half, Odd, Add;
    PeasantZero(b, 8);
    PeasantLinearRight(b, 0, 0, 8);
    AddZero(0);
    AddZero(Peasant(b, 0, 8));
  }

  lemma MulComm(a: byte, b: byte)
    ensures Mul(a, b) == Mul(b, a)
  {
    hide Mul, Pow;
    MulZero(a);
    MulZero(b);
    if a != 0 && b != 0 {
      MulPow(Log(a), Log(b));
      MulPow(Log(b), Log(a));
      assert Log(a) + Log(b) == Log(b) + Log(a);
    }
  }

  lemma MulAssoc(a: byte, b: byte, c: byte)
    ensures Mul(Mul(a, b), c) == Mul(a, Mul(b, c))
  {
    hide Mul, Pow;
    forall x: byte
      ensures Mul(0, x) == 0 && Mul(x, 0) == 0
    {
      MulZero(x);
    }
    if a != 0 && b != 0 && c != 0 {
      var i, j, k := Log(a), Log(b), Log(c);
      MulPow(i, j);
      MulPow(j, k);
      MulPow(i + j, k);
      MulPow(i, j + k);
      assert (i + j) + k == i + (j + k);
    }
  }

  lemma Distributive(a: byte, b: byte, c: byte)
    ensures Mul(a, Add(b, c)) == Add(Mul(a, b), Mul(a, c))
    ensures Mul(Add(b, c), a) == Add(Mul(b, a), Mul(c, a))
  {
    hide Peasant, Add;
    PeasantLinearRight(a, b, c, 8);
    PeasantLinearLeft(b, c, a, 8);
  }

  lemma NoZeroDivisors(a: byte, b: byte)
    ensures Mul(a, b) == 0 <==> a == 0 || b == 0
  {
    hide Mul, Pow;
    MulZero(a);
    MulZero(b);
    if a != 0 && b != 0 {
      MulPow(Log(a), Log(b));
      PowNonZero(Log(a) + Log(b));
    }
  }

  ghost function Inverse(a: byte): (b: byte)
    requires a != 0
    ensures b != 0 && Mul(a, b) == 1 && Mul(b, a) == 1
  {
    hide Mul, Iter;
    PowNonZero(ORDER - Log(a));
    MulPow(Log(a), ORDER - Log(a));
    MulPow(ORDER - Log(a), Log(a));
    PowAnchors();
    Pow(ORDER - Log(a))
  }
}
