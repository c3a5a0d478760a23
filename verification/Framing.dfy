/**
 How a chunk is wrapped before it is stored and unwrapped when it is restored: the size header
 of crates/compression/src/compressor.rs, the nonce header of crates/crypto/src/encryption.rs,
 and their composition in crates/cli/src/main.rs.  zstd and AES-256-GCM are arbitrary functions
 of which only "decoding undoes encoding" is assumed.
 */
module Framing {
  import opened Wrappers
  import opened Bytes

  // ── zstd ─────────────────────────────────────────────────────────────────

  datatype ZstdFunctions = ZstdFunctions(encode: (Bytes, int) -> Bytes, decode: (Bytes, nat) -> Option<Bytes>)

  /** Decoding undoes encoding at every level, provided the given capacity holds the result. */
  ghost predicate Lossless(z: ZstdFunctions) {
    forall x: Bytes, level: int, capacity: nat ::
      z.decode(z.encode(x, level), capacity) == if |x| <= capacity then Some(x) else None
  }

  ghost function PlainZstd(): (z: ZstdFunctions)
    ensures Lossless(z)
  {
    ZstdFunctions((x, level) => x, (x, capacity) => if |x| <= capacity then Some(x) else None)
  }

  type Zstd = z: ZstdFunctions | Lossless(z)
    ghost witness PlainZstd()

  const MAX_DECOMPRESS_SIZE: nat := 256 * 1024 * 1024

  datatype CompressionError = HeaderMissing | TooLarge(size: nat) | DecodeFailed

  /** The header holds the low 32 bits of the size. */
  function CompressChunk(z: Zstd, level: int, data: Bytes): Bytes {
    ToLe(|data|, 4) + z.encode(data, level)
  }

  function DecompressChunk(z: Zstd, data: Bytes): Result<Bytes, CompressionError> {
    if |data| < 4 then Err(HeaderMissing)
    else
      var size := FromLe(data[..4]);
      if size > MAX_DECOMPRESS_SIZE then Err(TooLarge(size))
      else
        match z.decode(data[4..], size)
        case Some(output) => Ok(output)
        case None => Err(DecodeFailed)
  }

  /** The header of any chunk, of whatever size: exact when 32 bits suffice, too small otherwise. */
  lemma HeaderValue(n: nat)
    ensures FromLe(ToLe(n, 4)) <= n
    ensures n < 0x1_0000_0000 ==> FromLe(ToLe(n, 4)) == n
    ensures n >= 0x1_0000_0000 ==> FromLe(ToLe(n, 4)) < n
  {
    hide FromLe, ToLe;
    Width4(0);
    FromLeBound(ToLe(n, 4));
    if n < 0x1_0000_0000 {
      LeRoundTrip(n, 4);
    }
  }

  /** Decompression gives the chunk back exactly up to 256 MiB and fails above. */
  lemma DecompressIff(z: Zstd, level: int, data: Bytes)
    ensures |data| <= 268435456 ==> DecompressChunk(z, CompressChunk(z, level, data)) == Ok(data)
    ensures |data| > 268435456 ==> DecompressChunk(z, CompressChunk(z, level, data)).Err?
  {
    hide FromLe, ToLe;
    HeaderValue(|data|);
    var framed := CompressChunk(z, level, data);
    assert framed[..4] == ToLe(|data|, 4) && framed[4..] == z.encode(data, level);
  }

  // ── Encryption ───────────────────────────────────────────────────────────

  const NONCE_SIZE: nat := 12

  type Nonce = n: Bytes | |n| == 12
    witness seq(12, _ => 0)

  datatype CipherFunctions = CipherFunctions(seal: (Bytes, Bytes, Bytes) -> Bytes, open: (Bytes, Bytes, Bytes) -> Option<Bytes>)

  /** With the same key and nonce, opening undoes sealing; a sealed text holds at least its tag. */
  ghost predicate Authentic(c: CipherFunctions) {
    forall key: Bytes, nonce: Bytes, x: Bytes ::
      c.open(key, nonce, c.seal(key, nonce, x)) == Some(x) && c.seal(key, nonce, x) != []
  }

  function AddTag(x: Bytes): Bytes {
    x + [0]
  }

  function StripTag(x: Bytes): Option<Bytes> {
    if |x| == 0 then None else Some(x[..|x| - 1])
  }

  lemma TagIsStripped(x: Bytes)
    ensures StripTag(AddTag(x)) == Some(x)
  {
  }

  ghost function PlainCipher(): (c: CipherFunctions)
    ensures Authentic(c)
  {
    var c := CipherFunctions((key, nonce, x) => AddTag(x), (key, nonce, x) => StripTag(x));
    assert forall x: Bytes :: StripTag(AddTag(x)) == Some(x) by {
      forall x: Bytes
        ensures StripTag(AddTag(x)) == Some(x)
      {
        TagIsStripped(x);
      }
    }
    c
  }

  type Cipher = c: CipherFunctions | Authentic(c)
    ghost witness PlainCipher()

  datatype EncryptedData = EncryptedData(nonce: Bytes, ciphertext: Bytes)

  datatype CryptoError = NoLengthPrefix | NonceCut | WrongNonceSize(size: nat) | NoCiphertext | NotAuthentic

  function ToBytes(e: EncryptedData): Bytes {
    ToLe(|e.nonce|, 4) + e.nonce + e.ciphertext
  }

  function FromBytes(data: Bytes): Result<EncryptedData, CryptoError> {
    if |data| < 4 then Err(NoLengthPrefix)
    else
      var nonceLen := FromLe(data[..4]);
      if |data| - 4 < nonceLen then Err(NonceCut)
      else if nonceLen != NONCE_SIZE then Err(WrongNonceSize(nonceLen))
      else if |data| == 4 + nonceLen then Err(NoCiphertext)
      else Ok(EncryptedData(data[4..4 + nonceLen], data[4 + nonceLen..]))
  }

  /** Parsing undoes serialising exactly for the records that encryption makes. */
  lemma SerialisedParsesIff(e: EncryptedData)
    ensures FromBytes(ToBytes(e)) == Ok(e) <==> |e.nonce| == NONCE_SIZE && e.ciphertext != []
  {
    hide FromLe, ToLe;
    HeaderValue(|e.nonce|);
    var b := ToBytes(e);
    assert b[..4] == ToLe(|e.nonce|, 4);
    if |e.nonce| == NONCE_SIZE {
      assert b[4..16] == e.nonce && b[16..] == e.ciphertext;
    }
  }

  /** And serialising undoes parsing: no two byte strings parse to the same record. */
  lemma ParsedSerialises(data: Bytes)
    requires FromBytes(data).Ok?
    ensures ToBytes(FromBytes(data).value) == data
  {
    hide FromLe, ToLe;
    LeUnique(data[..4]);
    assert data == data[..4] + data[4..16] + data[16..];
  }

  function EncryptChunk(c: Cipher, key: Bytes, nonce: Nonce, data: Bytes): Bytes {
    ToBytes(EncryptedData(nonce, c.seal(key, nonce, data)))
  }

  function DecryptChunk(c: Cipher, key: Bytes, data: Bytes): Result<Bytes, CryptoError> {
    match FromBytes(data)
    case Err(e) => Err(e)
    case Ok(e) =>
      match c.open(key, e.nonce, e.ciphertext)
      case Some(plain) => Ok(plain)
      case None => Err(NotAuthentic)
  }

  lemma DecryptUndoesEncrypt(c: Cipher, key: Bytes, nonce: Nonce, data: Bytes)
    ensures DecryptChunk(c, key, EncryptChunk(c, key, nonce, data)) == Ok(data)
  {
    hide ToBytes, FromBytes;
    SerialisedParsesIff(EncryptedData(nonce, c.seal(key, nonce, data)));
  }

  // ── Both together ────────────────────────────────────────────────────────

  /** The settings of a backup; `key` is absent without encryption. */
  datatype Pipeline = Pipeline(zstd: Zstd, level: int, cipher: Cipher, key: Option<Bytes>)

  function ProcessChunk(pl: Pipeline, nonce: Nonce, data: Bytes): Bytes {
    var compressed := CompressChunk(pl.zstd, pl.level, data);
    match pl.key
    case Some(key) => EncryptChunk(pl.cipher, key, nonce, compressed)
    case None => compressed
  }

  /** Decrypt, then decompress; what does not decompress is taken as it is. */
  function UnprocessChunk(pl: Pipeline, compressionEnabled: bool, stored: Bytes): Result<Bytes, CryptoError> {
    var decrypted := match pl.key
      case Some(key) => DecryptChunk(pl.cipher, key, stored)
      case None => Ok(stored);
    match decrypted
    case Err(e) => Err(e)
    case Ok(data) =>
      if !compressionEnabled then Ok(data)
      else
        match DecompressChunk(pl.zstd, data)
        case Ok(raw) => Ok(raw)
        case Err(_) => Ok(data)
  }

  /**
   A restored chunk equals the original exactly when it has at most 256 MiB or is a fixed point of
   the compression framing.  Above the limit the framed bytes are returned as if they were the data.
   */
  lemma RestoredChunkIff(pl: Pipeline, nonce: Nonce, data: Bytes)
    ensures var r := UnprocessChunk(pl, true, ProcessChunk(pl, nonce, data));
            && r == Ok(if |data| <= 268435456 then data else CompressChunk(pl.zstd, pl.level, data))
            && (r == Ok(data) <==> |data| <= 268435456 || CompressChunk(pl.zstd, pl.level, data) == data)
  {
    hide CompressChunk, DecompressChunk, EncryptChunk, DecryptChunk;
    DecompressIff(pl.zstd, pl.level, data);
    match pl.key
    case Some(key) => DecryptUndoesEncrypt(pl.cipher, key, nonce, CompressChunk(pl.zstd, pl.level, data));
    case None =>
  }
}
