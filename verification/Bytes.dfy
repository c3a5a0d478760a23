/** Bytes, their values as numbers, and little-endian integers. */
module Bytes {
  type byte = bv8

  type Bytes = seq<byte>

  function Value(v: byte): (n: nat)
    ensures n < 256
  {
    v as nat
  }

  function ToByte(n: nat): byte
    requires n < 256
  {
    n as byte
  }

  lemma ValueOfByte(n: nat)
    requires n < 256
    ensures Value(ToByte(n)) == n
  {
    var b := n as byte;
    assert b as nat == n;
  }

  lemma ValueInjective(a: byte, b: byte)
    ensures Value(a) == Value(b) ==> a == b
    ensures a != 0 ==> 1 <= Value(a) <= 255
  {
  }

  // ── Little-endian integers ───────────────────────────────────────────────

  function Pow256(k: nat): (p: nat)
    ensures p > 0
  {
    if k == 0 then 1 else 256 * Pow256(k - 1)
  }

  /** The low `width` bytes of `n`, least significant first; higher bytes are cut off. */
  function ToLe(n: nat, width: nat): (b: Bytes)
    ensures |b| == width
    decreases width
  {
    if width == 0 then [] else [ToByte(n % 256)] + ToLe(n / 256, width - 1)
  }

  function FromLe(b: Bytes): nat {
    if |b| == 0 then 0 else Value(b[0]) + 256 * FromLe(b[1..])
  }

  lemma {:induction false} LeRoundTrip(n: nat, width: nat)
    requires n < Pow256(width)
    ensures FromLe(ToLe(n, width)) == n
    decreases width
  {
    hide Value, ToByte;
    if width > 0 {
      LeRoundTrip(n / 256, width - 1);
      ValueOfByte(n % 256);
      assert ToLe(n, width)[1..] == ToLe(n / 256, width - 1);
    }
  }

  lemma {:induction false} FromLeBound(b: Bytes)
    ensures FromLe(b) < Pow256(|b|)
    decreases |b|
  {
    hide Value;
    if |b| > 0 {
      FromLeBound(b[1..]);
    }
  }

  /** Reading a field and writing it again gives the same bytes. */
  lemma {:induction false} LeUnique(b: Bytes)
    ensures ToLe(FromLe(b), |b|) == b
    decreases |b|
  {
    hide Value, ToByte;
    if |b| > 0 {
      LeUnique(b[1..]);
      var low, rest := Value(b[0]), FromLe(b[1..]);
      LowDigit(low, rest);
      ByteOfValue(b[0]);
      assert b == [b[0]] + b[1..];
    }
  }

  lemma LowDigit(low: nat, rest: nat)
    requires low < 256
    ensures (low + 256 * rest) % 256 == low && (low + 256 * rest) / 256 == rest
  {
  }

  lemma ByteOfValue(v: byte)
    ensures ToByte(Value(v)) == v
  {
  }

  lemma Width4(n: nat)
    ensures Pow256(4) == 0x1_0000_0000
  {
  }
}
