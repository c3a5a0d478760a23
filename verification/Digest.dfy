/** SHA-256 as an arbitrary function to 32 bytes, and its hexadecimal text. */
module Digest {
  import opened Bytes

  /** The digest function; nothing else about SHA-256 is assumed. */
  type Sha = f: Bytes -> Bytes | forall x: Bytes :: |f(x)| == 32
    ghost witness ((x: Bytes) => seq(32, _ => 0))

  /** Sixty-four ASCII bytes. */
  type Hash = h: Bytes | |h| == 64
    witness seq(64, _ => 0)

  function HexDigit(n: nat): byte
    requires n < 16
  {
    ToByte(if n < 10 then 48 + n else 87 + n)
  }

  function Hex(b: Bytes): (text: Bytes)
    ensures |text| == 2 * |b|
  {
    if |b| == 0 then []
    else [HexDigit(Value(b[0]) / 16), HexDigit(Value(b[0]) % 16)] + Hex(b[1..])
  }

  /** The name under which a chunk is stored. */
  function HashOfChunk(sha: Sha, data: Bytes): Hash {
    Hex(sha(data))
  }

  /** Contents of the same name are the same: the one pair that must not collide. */
  predicate SameUnlessCollision(sha: Sha, a: Bytes, b: Bytes) {
    HashOfChunk(sha, a) == HashOfChunk(sha, b) ==> a == b
  }
}
