/**
 The file formats byte by byte: what a written pack, a compressed chunk and an encrypted chunk consist
 of, and exactly which byte strings the readers accept (crates/core/src/pack.rs,
 crates/compression/src/compressor.rs, crates/crypto/src/encryption.rs).
 */
module ByteLayouts {
  import opened Wrappers
  import opened Bytes
  import opened Digest
  import opened PackFormat
  import opened ChunkStore
  import opened Framing

  // ── Numbers and names ────────────────────────────────────────────────────

  lemma LeTwo(b: Bytes)
    requires |b| == 2
    ensures FromLe(b) == b[0] as nat + 0x100 * b[1] as nat
  {
    assert FromLe(b[2..]) == 0;
    assert b[1..][1..] == b[2..] && b[1..][0] == b[1];
  }

  /** The value of a 32-bit field. */
  lemma LeFour(b: Bytes)
    requires |b| == 4
    ensures FromLe(b) == b[0] as nat + 0x100 * b[1] as nat + 0x1_0000 * b[2] as nat + 0x100_0000 * b[3] as nat
  {
    hide Value;
    LeTwo(b[2..]);
    LeMore(b, 0);
    LeMore(b, 1);
    ValuesAre(b);
  }

  /** The value of a 64-bit field. */
  lemma LeEight(b: Bytes)
    requires |b| == 8
    ensures FromLe(b) == FromLe(b[..4]) + 0x1_0000_0000 * FromLe(b[4..])
  {
    hide *;
    LeLow(b);
    LeLow(b[..4]);
    NothingAbove(b);
  }

  lemma NothingAbove(b: Bytes)
    requires |b| >= 4
    ensures FromLe(b[..4][4..]) == 0
  {
    hide Value;
  }

  /** The lowest four bytes, and what is above them. */
  lemma LeLow(b: Bytes)
    requires |b| >= 4
    ensures FromLe(b) == Value(b[0]) + 0x100 * Value(b[1]) + 0x1_0000 * Value(b[2]) + 0x100_0000 * Value(b[3])
                         + 0x1_0000_0000 * FromLe(b[4..])
  {
    hide *;
    LeMore(b, 0);
    LeMore(b, 1);
    LeMore(b, 2);
    LeMore(b, 3);
    assert b[0..] == b;
  }

  lemma LeMore(b: Bytes, k: nat)
    requires k < |b|
    ensures FromLe(b[k..]) == Value(b[k]) + 256 * FromLe(b[k + 1..])
    ensures FromLe(b[|b|..]) == 0 && b[0..] == b
  {
    assert b[k..][1..] == b[k + 1..];
  }

  lemma ValuesAre(b: Bytes)
    ensures forall k :: 0 <= k < |b| ==> Value(b[k]) == b[k] as nat
  {
  }

  /** A name is lower-case hexadecimal, the high half of each byte first. */
  lemma {:induction false} HexIs(b: Bytes, k: nat)
    requires k < |b|
    ensures Value(Hex(b)[2 * k]) == (var n := Value(b[k]) / 16; if n < 10 then 48 + n else 87 + n)
    ensures Value(Hex(b)[2 * k + 1]) == (var n := Value(b[k]) % 16; if n < 10 then 48 + n else 87 + n)
  {
    hide Value, ToByte;
    if k > 0 {
      HexIs(b[1..], k - 1);
    } else {
      DigitIs(Value(b[0]) / 16);
      DigitIs(Value(b[0]) % 16);
    }
  }

  lemma DigitIs(n: nat)
    requires n < 16
    ensures Value(HexDigit(n)) == if n < 10 then 48 + n else 87 + n
  {
    hide Value, ToByte;
    ValueOfByte(if n < 10 then 48 + n else 87 + n);
  }

  // ── Packs ────────────────────────────────────────────────────────────────

  /** The bytes of the chunks of a pack, with 69 bytes before each. */
  function ChunkBytes(entries: seq<Entry>): nat {
    if |entries| == 0 then 0 else ChunkBytes(entries[..|entries| - 1]) + 69 + |entries[|entries| - 1].data|
  }

  lemma {:induction false} EntriesLength(entries: seq<Entry>)
    ensures |EntriesBytes(entries)| == ChunkBytes(entries) == BufferBytes(entries)
  {
    hide EntryBytes;
    if |entries| > 0 {
      EntriesLength(entries[..|entries| - 1]);
    }
  }

  /**
   A written pack: "BKSP", version 1, its id, the chunks, a zero byte, and the digest of all that.  Its length
   is what the writer estimates before it writes.
   */
  lemma PackIs(sha: Sha, id: nat, entries: seq<Entry>)
    ensures var file := PackFile(sha, id, entries);
            && |file| == 47 + ChunkBytes(entries) == HEADER_SIZE + BufferBytes(entries) + FOOTER_SIZE
            && file[0] == 0x42 && file[1] == 0x4B && file[2] == 0x53 && file[3] == 0x50
            && FromLe(file[4..6]) == 1 && (id < 0x1_0000_0000_0000_0000 ==> FromLe(file[6..14]) == id)
            && file[|file| - 33] == 0 && file[|file| - 32..] == sha(file[..|file| - 32])
  {
    hide EntriesBytes, FromLe, ToLe;
    var file, body := PackFile(sha, id, entries), PackBody(id, entries);
    EntriesLength(entries);
    assert |file| == |body| + 32 && file[..|body|] == body && file[|body|..] == sha(body);
    HeaderIs(id);
    assert file[..14] == Header(id);
    assert file[4..6] == Header(id)[4..6] && file[6..14] == Header(id)[6..14];
  }

  lemma HeaderIs(id: nat)
    ensures var h := Header(id);
            && h[0] == 0x42 && h[1] == 0x4B && h[2] == 0x53 && h[3] == 0x50
            && FromLe(h[4..6]) == 1 && (id < 0x1_0000_0000_0000_0000 ==> FromLe(h[6..14]) == id)
  {
    var h := Header(id);
    assert h[4..6] == ToLe(1, 2) && h[6..14] == ToLe(id, 8);
    assert Pow256(4) == 0x1_0000_0000;
    assert Pow256(8) == 0x1_0000_0000_0000_0000;
    hide ToLe, FromLe;
    LeRoundTrip(1, 2);
    if id < Pow256(8) {
      LeRoundTrip(id, 8);
    }
  }

  /** Exactly when the reader gives a chunk: marker, name, length, bytes and digest are all as they should be. */
  lemma ReadsIff(sha: Sha, file: Bytes, offset: nat, h: Hash, data: Bytes)
    ensures ReadChunkAt(sha, file, offset, h) == Ok(data) <==>
            && offset + 69 + |data| <= |file|
            && file[offset] == 1 && file[offset + 1..offset + 65] == h
            && FromLe(file[offset + 65..offset + 69]) == |data| && file[offset + 69..offset + 69 + |data|] == data
            && HashOfChunk(sha, data) == h
  {
    hide HashOfChunk, FromLe;
  }

  /** There is a chunk of this name at the offset: as many bytes as the length field says have it as digest. */
  predicate IsChunkAt(sha: Sha, file: Bytes, o: nat, h: Hash) {
    && o + 69 <= |file| && file[o] == 1 && file[o + 1..o + 65] == h
    && var n := FromLe(file[o + 65..o + 69]);
    && o + 69 + n <= |file| && HashOfChunk(sha, file[o + 69..o + 69 + n]) == h
  }

  lemma ReadsSomething(sha: Sha, file: Bytes, o: nat, h: Hash)
    ensures ReadChunkAt(sha, file, o, h).Ok? <==> IsChunkAt(sha, file, o, h)
  {
    hide HashOfChunk, FromLe, ReadChunkAt;
    if ReadChunkAt(sha, file, o, h).Ok? {
      ReadsIff(sha, file, o, h, ReadChunkAt(sha, file, o, h).value);
    }
    if IsChunkAt(sha, file, o, h) {
      var n := FromLe(file[o + 65..o + 69]);
      ReadsIff(sha, file, o, h, file[o + 69..o + 69 + n]);
    }
  }

  /** Exactly when the scrub leaves a chunk alone: its entry names a pack on disk that has it at the offset of the entry. */
  lemma IntactIff(sha: Sha, packs: Packs, index: Index, h: Hash)
    ensures Intact(sha, packs, index, h) <==>
            && h in index && index[h].packId > 0 && index[h].packId in packs
            && IsChunkAt(sha, packs[index[h].packId], index[h].packOffset, h)
  {
    hide HashOfChunk, FromLe, ReadChunkAt, IsChunkAt;
    if h in index && index[h].packId in packs {
      ReadsSomething(sha, packs[index[h].packId], index[h].packOffset, h);
    }
  }

  /** Where entry `k` of a listing that starts at `offset` ends. */
  function EndOf(locs: seq<Location>, offset: nat, k: nat): nat
    requires k <= |locs|
  {
    if k == 0 then offset else locs[k - 1].offset + 69 + locs[k - 1].size
  }

  predicate EntryParses(file: Bytes, locs: seq<Location>, offset: nat, k: nat)
    requires k < |locs|
  {
    && locs[k].offset == EndOf(locs, offset, k) && locs[k].offset + 69 <= |file|
    && file[locs[k].offset] == 1
    && file[locs[k].offset + 1..locs[k].offset + 65] == locs[k].hash
    && FromLe(file[locs[k].offset + 65..locs[k].offset + 69]) == locs[k].size
  }

  /** Exactly what a listing is: entries that follow each other without a gap, and a zero byte after the last one. */
  lemma {:induction false} ListsIff(file: Bytes, offset: nat, locs: seq<Location>)
    ensures ListFrom(file, offset) == Ok(locs) <==>
            && (forall k :: 0 <= k < |locs| ==> EntryParses(file, locs, offset, k))
            && EndOf(locs, offset, |locs|) < |file| && file[EndOf(locs, offset, |locs|)] == 0
    decreases |locs|
  {
    hide FromLe;
    if |locs| > 0 && EntryParses(file, locs, offset, 0) {
      var next := EndOf(locs, offset, 1);
      ListsIff(file, next, locs[1..]);
      TailParses(file, locs, offset);
      HeadListed(file, offset, locs);
    } else if |locs| > 0 {
      NotListed(file, offset, locs);
    }
  }

  lemma TailParses(file: Bytes, locs: seq<Location>, offset: nat)
    requires |locs| > 0
    ensures var next := EndOf(locs, offset, 1);
            && EndOf(locs[1..], next, |locs| - 1) == EndOf(locs, offset, |locs|)
            && (forall k :: 0 <= k < |locs| - 1 ==> EntryParses(file, locs[1..], next, k) == EntryParses(file, locs, offset, k + 1))
            && ((forall k :: 0 <= k < |locs| ==> EntryParses(file, locs, offset, k)) <==>
                EntryParses(file, locs, offset, 0) && forall k :: 0 <= k < |locs| - 1 ==> EntryParses(file, locs[1..], next, k))
  {
    hide FromLe;
    var next := EndOf(locs, offset, 1);
    forall k | 0 <= k < |locs| - 1
      ensures EntryParses(file, locs[1..], next, k) == EntryParses(file, locs, offset, k + 1)
    {
      assert locs[1..][k] == locs[k + 1];
    }
    if forall k :: 0 <= k < |locs| - 1 ==> EntryParses(file, locs[1..], next, k) {
      forall k | 1 <= k < |locs|
        ensures EntryParses(file, locs, offset, k)
      {
        assert EntryParses(file, locs[1..], next, k - 1);
      }
    }
  }

  lemma HeadListed(file: Bytes, offset: nat, locs: seq<Location>)
    requires |locs| > 0 && EntryParses(file, locs, offset, 0)
    ensures ListFrom(file, offset) == Ok(locs) <==> ListFrom(file, EndOf(locs, offset, 1)) == Ok(locs[1..])
  {
    hide FromLe;
    assert locs == [locs[0]] + locs[1..];
    if ListFrom(file, offset) == Ok(locs) {
      var r := ListFrom(file, EndOf(locs, offset, 1));
      assert r.Ok? && [locs[0]] + r.value == locs;
      assert r.value == locs[1..];
    }
  }

  lemma NotListed(file: Bytes, offset: nat, locs: seq<Location>)
    requires |locs| > 0 && !EntryParses(file, locs, offset, 0)
    ensures ListFrom(file, offset) != Ok(locs)
  {
    hide FromLe;
  }

  // ── Framed chunks ────────────────────────────────────────────────────────

  /** A compressed chunk: the low 32 bits of its length, then what zstd made of it. */
  lemma CompressedIs(z: Zstd, level: int, data: Bytes)
    ensures var framed := CompressChunk(z, level, data);
            && |framed| >= 4 && framed[4..] == z.encode(data, level)
            && (|data| < 0x1_0000_0000 ==> FromLe(framed[..4]) == |data|)
  {
    hide FromLe, ToLe;
    HeaderValue(|data|);
    var framed := CompressChunk(z, level, data);
    assert framed[..4] == ToLe(|data|, 4) && framed[4..] == z.encode(data, level);
  }

  /** Exactly when decompression succeeds: a header of at most 256 MiB, and zstd accepts the rest with that capacity. */
  lemma DecompressesIff(z: Zstd, framed: Bytes, data: Bytes)
    ensures DecompressChunk(z, framed) == Ok(data) <==>
            |framed| >= 4 && FromLe(framed[..4]) <= 268435456 && z.decode(framed[4..], FromLe(framed[..4])) == Some(data)
  {
    hide FromLe;
  }

  /** An encrypted chunk: the number 12, the nonce, the sealed text. */
  lemma EncryptedIs(c: Cipher, key: Bytes, nonce: Nonce, data: Bytes)
    ensures var b := EncryptChunk(c, key, nonce, data);
            && |b| >= 16 && b[0] == 12 && b[1] == 0 && b[2] == 0 && b[3] == 0
            && b[4..16] == nonce && b[16..] == c.seal(key, nonce, data)
  {
    assert ToLe(12, 4) == [12, 0, 0, 0] by {
      TwelveIs();
    }
  }

  lemma TwelveIs()
    ensures ToLe(12, 4) == [12, 0, 0, 0]
  {
    assert ToLe(0, 1) == [0];
    assert ToLe(0, 2) == [0] + ToLe(0, 1);
    assert ToLe(0, 3) == [0] + ToLe(0, 2);
    assert ToLe(12, 4) == [ToByte(12)] + ToLe(0, 3);
  }

  /** Exactly when decryption succeeds: a nonce of 12 bytes, something after it, and the cipher accepts them. */
  lemma DecryptsIff(c: Cipher, key: Bytes, data: Bytes, plain: Bytes)
    ensures DecryptChunk(c, key, data) == Ok(plain) <==>
            |data| > 16 && FromLe(data[..4]) == 12 && c.open(key, data[4..16], data[16..]) == Some(plain)
    ensures |data| > 16 && FromLe(data[..4]) == 12 && c.open(key, data[4..16], data[16..]) == None ==>
              DecryptChunk(c, key, data) == Err(NotAuthentic)
  {
    hide FromLe;
  }

  /** Compress, then encrypt if there is a key. */
  lemma ProcessedIs(pl: Pipeline, nonce: Nonce, data: Bytes)
    ensures pl.key.None? ==> ProcessChunk(pl, nonce, data) == CompressChunk(pl.zstd, pl.level, data)
    ensures pl.key.Some? ==>
              ProcessChunk(pl, nonce, data) == EncryptChunk(pl.cipher, pl.key.value, nonce, CompressChunk(pl.zstd, pl.level, data))
  {
  }

  /** Decrypt if there is a key; then decompress, and take what does not decompress as it is. */
  lemma UnprocessedIs(pl: Pipeline, stored: Bytes)
    ensures pl.key.None? ==>
              UnprocessChunk(pl, true, stored) ==
              (match DecompressChunk(pl.zstd, stored) case Ok(raw) => Ok(raw) case Err(_) => Ok(stored))
    ensures pl.key.Some? ==>
              UnprocessChunk(pl, true, stored) ==
              (match DecryptChunk(pl.cipher, pl.key.value, stored)
               case Err(e) => Err(e)
               case Ok(data) => match DecompressChunk(pl.zstd, data) case Ok(raw) => Ok(raw) case Err(_) => Ok(data))
  {
    hide DecompressChunk, DecryptChunk;
  }
}
