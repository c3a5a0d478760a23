/**
 The table-driven arithmetic of crates/ecc/src/reed_solomon.rs: the generator loop that
 fills the exponent and logarithm tables, and the four operations that look things up.
 */
module Gf256Tables {
  import opened Bytes
  import opened GaloisField
  import opened Wrappers

  datatype EccError = DivisionByZero | InverseOfZero

  /** Reference power: `n` factors `a`. */
  function Power(a: byte, n: nat): byte {
    if n == 0 then 1 else Mul(a, Power(a, n - 1))
  }

  lemma SumOfLogs(i: nat, j: nat)
    ensures Pow((i + j) % 255) == Mul(Pow(i), Pow(j))
  {
    hide Pow, Mul;
    MulPow(i, j);
    PowReduce(i + j);
  }

  lemma DifferenceOfLogs(i: nat, j: nat)
    requires j < 255
    ensures Mul(Pow((i + 255 - j) % 255), Pow(j)) == Pow(i)
  {
    hide Pow, Mul;
    var s := i + 255 - j;
    PowReduce(s);
    MulPow(s, j);
    PowEqual(s + j, i);
  }

  lemma {:induction false} PowerOfPow(k: nat, n: nat)
    ensures Power(Pow(k), n) == Pow(k * n)
    decreases n
  {
    hide Mul, Pow;
    if n == 0 {
      PowSeven();
    } else {
      PowerOfPow(k, n - 1);
      MulPow(k, k * (n - 1));
      assert k + k * (n - 1) == k * n;
    }
  }

  class Gf256 {
    const expTable: seq<byte>
    const logTable: seq<byte>

    /** The tables hold the powers of alpha and their logarithms. */
    ghost predicate Valid() {
      && |expTable| == 512
      && |logTable| == 256
      && (forall i :: 0 <= i < 512 ==> expTable[i] == Pow(i % ORDER))
      && (forall v: byte :: v != 0 ==> Value(logTable[Value(v)]) == Log(v))
    }

    constructor ()
      ensures Valid()
    {
      hide Pow, Value, Log;
      var exp := new byte[512](_ => 0);
      var log := new byte[256](_ => 0);
      GeneratorLoop(exp, log);
      var i := 255;
      while i < 512
        invariant 255 <= i <= 512
        invariant forall k :: 0 <= k < i ==> exp[k] == Pow(k % ORDER)
        invariant forall k :: 0 <= k < 255 ==> Value(log[Value(Pow(k))]) == k
      {
        exp[i] := exp[i - 255];
        i := i + 1;
      }
      forall v: byte | v != 0
        ensures Value(log[Value(v)]) == Log(v)
      {
        var k := Log(v);
        assert Value(log[Value(Pow(k))]) == k;
      }
      expTable := exp[..];
      logTable := log[..];
    }

    static method GeneratorLoop(exp: array<byte>, log: array<byte>)
      requires exp.Length == 512 && log.Length == 256 && exp != log
      modifies exp, log
      ensures forall k :: 0 <= k < 255 ==> exp[k] == Pow(k)
      ensures forall k :: 0 <= k < 255 ==> Value(log[Value(Pow(k))]) == k
    {
      hide Pow, Double, Value, ToByte;
      var x: bv16 := 1;
      PowSeven();
      var i := 0;
      while i < 255
        invariant 0 <= i <= 255
        invariant x < 256 && x as byte == Pow(i)
        invariant forall k :: 0 <= k < i ==> exp[k] == Pow(k)
        invariant forall k :: 0 <= k < i ==> Value(log[Value(Pow(k))]) == k
      {
        exp[i] := x as byte;
        forall k | 0 <= k < i
          ensures Value(Pow(k)) != Value(Pow(i))
        {
          PowEqual(k, i);
          ValueInjective(Pow(k), Pow(i));
        }
        ValueOfByte(i);
        log[Value(x as byte)] := ToByte(i);
        DoubleStep(x);
        PowSuccessor(i);
        x := x << 1;
        if x >= 256 {
          x := x ^ GF_POLY;
        }
        i := i + 1;
      }
    }

    function LogAt(v: byte): (k: nat)
      requires Valid() && v != 0
      ensures k < ORDER && Pow(k) == v
    {
      hide Pow, Value;
      Value(logTable[Value(v)])
    }

    function ExpAt(i: nat): (v: byte)
      requires Valid() && i < 512
      ensures v == Pow(i)
    {
      hide Pow, Value;
      PowReduce(i);
      expTable[i]
    }

    function GfMul(a: byte, b: byte): (c: byte)
      requires Valid()
      ensures c == Mul(a, b)
    {
      hide Pow, Mul, LogAt, ExpAt;
      MulZero(a);
      MulZero(b);
      if a == 0 || b == 0 then 0
      else
        SumOfLogs(LogAt(a), LogAt(b));
        ExpAt((LogAt(a) + LogAt(b)) % 255)
    }

    function GfDiv(a: byte, b: byte): (r: Result<byte, EccError>)
      requires Valid()
      ensures r.Err? <==> b == 0
      ensures r.Err? ==> r.error == DivisionByZero
      ensures r.Ok? ==> Mul(r.value, b) == a
    {
      hide Pow, Mul, LogAt, ExpAt;
      if b == 0 then Err(DivisionByZero)
      else if a == 0 then
        MulZero(b);
        Ok(0)
      else
        DifferenceOfLogs(LogAt(a), LogAt(b));
        Ok(ExpAt((LogAt(a) + 255 - LogAt(b)) % 255))
    }

    function GfInv(a: byte): (r: Result<byte, EccError>)
      requires Valid()
      ensures r.Err? <==> a == 0
      ensures r.Err? ==> r.error == InverseOfZero
      ensures r.Ok? ==> r.value == Inverse(a)
    {
      hide Pow, Mul, LogAt, ExpAt;
      if a == 0 then Err(InverseOfZero)
      else
        InverseByLog(a, LogAt(a));
        Ok(ExpAt(255 - LogAt(a)))
    }

    /**
     The source multiplies the logarithm by `n` in a 64-bit word, which wraps around silently in a
     build without overflow checks.  Since 2^64 leaves 1 modulo 255, the power is right exactly when
     the number of wraps is a multiple of 255, so always when there is none.
     */
    function GfPow(a: byte, n: nat): (c: byte)
      requires Valid() && n < WORD
      ensures n == 0 || a == 0 ==> c == Power(a, n)
      ensures n != 0 && a != 0 ==> (c == Power(a, n) <==> Wraps(LogAt(a) * n) % 255 == 0)
    {
      hide Pow, Mul, LogAt, ExpAt, Wraps, WrappedLog;
      if n == 0 then 1
      else if a == 0 then
        MulZero(Power(a, n - 1));
        0
      else
        WrappedPower(a, LogAt(a), n);
        ExpAt(WrappedLog(LogAt(a) * n))
    }
  }

  const WORD: nat := 0x1_0000_0000_0000_0000

  /** How often a 64-bit word has wrapped around. */
  function Wraps(e: nat): nat {
    e / WORD
  }

  function WrappedLog(e: nat): (k: nat)
    ensures k < 255
  {
    (e % WORD) % 255
  }

  lemma WrappedPower(a: byte, log: nat, n: nat)
    requires Pow(log) == a
    ensures Pow(WrappedLog(log * n)) == Power(a, n) <==> Wraps(log * n) % 255 == 0
  {
    hide Pow, Mul, Power;
    PowerOfPow(log, n);
    PowReduce(log * n % WORD);
    PowEqual(log * n % WORD, log * n);
    WrapsModulo(log * n);
  }

  lemma WrapsModulo(e: nat)
    ensures (e % WORD) % 255 == e % 255 <==> (e / WORD) % 255 == 0
  {
    var q, r := e / WORD, e % WORD;
    var c := 0x101_0101_0101_0101;
    assert WORD == 255 * c + 1;
    assert e == 255 * (q * c) + (q + r);
    Congruent(q * c, q + r);
    ModuloSum(q, r);
  }

  lemma Congruent(m: nat, x: nat)
    ensures (255 * m + x) % 255 == x % 255
  {
  }

  lemma ModuloSum(q: nat, r: nat)
    ensures r % 255 == (q + r) % 255 <==> q % 255 == 0
  {
  }

  /** One turn of the generator loop on a 16-bit word is one doubling. */
  lemma DoubleStep(x: bv16)
    requires x < 256
    ensures var y := x << 1;
            var z := if y >= 256 then y ^ GF_POLY else y;
            z < 256 && z as byte == Double(x as byte)
  {
  }

  lemma PowSuccessor(k: nat)
    ensures Pow(k + 1) == Double(Pow(k))
  {
  }

  lemma InverseByLog(a: byte, k: nat)
    requires a != 0 && k < ORDER && Pow(k) == a
    ensures Pow(255 - k) == Inverse(a)
  {
    hide Pow, Mul;
    DifferenceOfLogs(0, k);
    PowSeven();
    PowReduce(255 - k);
    InverseUnique(a, Pow(255 - k));
  }

  lemma InverseUnique(a: byte, b: byte)
    requires a != 0 && Mul(b, a) == 1
    ensures b == Inverse(a)
  {
    hide Mul;
    var c := Inverse(a);
    MulAssoc(b, a, c);
    MulOne(c);
    MulOne(b);
    MulComm(b, 1);
  }
}
