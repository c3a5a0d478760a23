/**
 The pack file format of crates/core/src/pack.rs: what a flush writes, and how the readers
 parse it back.
 */
module PackFormat {
  import opened Wrappers
  import opened Bytes
  import opened Digest

  const HEADER_SIZE: nat := 14
  const CHUNK_OVERHEAD: nat := 69
  const FOOTER_SIZE: nat := 33
  const CHUNK_MARKER: byte := 1
  const END_MARKER: byte := 0
  const PACK_VERSION: nat := 1

  /** Sizes are stored in 32 bits. */
  const MAX_STORED: nat := 0x1_0000_0000

  /** "BKSP" */
  const PACK_MAGIC: Bytes := [0x42, 0x4B, 0x53, 0x50]

  datatype Entry = Entry(hash: Hash, data: Bytes)

  datatype Location = Location(hash: Hash, offset: nat, size: nat)

  datatype PackError =
    | MissingPack(id: nat)
    | Truncated
    | BadMarker(marker: byte)
    | WrongHash(found: Hash)
    | CorruptData
    | TooSmall(size: nat)
    | BadChecksum
    | BadMagic

  // ── Writing ──────────────────────────────────────────────────────────────

  function EntryBytes(e: Entry): (b: Bytes)
    ensures |b| == CHUNK_OVERHEAD + |e.data|
  {
    [CHUNK_MARKER] + e.hash + ToLe(|e.data|, 4) + e.data
  }

  function EntriesBytes(entries: seq<Entry>): Bytes {
    if |entries| == 0 then []
    else EntriesBytes(entries[..|entries| - 1]) + EntryBytes(entries[|entries| - 1])
  }

  function Header(id: nat): (b: Bytes)
    ensures |b| == HEADER_SIZE
  {
    PACK_MAGIC + ToLe(PACK_VERSION, 2) + ToLe(id, 8)
  }

  /** Everything the checksum covers. */
  function PackBody(id: nat, entries: seq<Entry>): Bytes {
    Header(id) + EntriesBytes(entries) + [END_MARKER]
  }

  function PackFile(sha: Sha, id: nat, entries: seq<Entry>): Bytes {
    PackBody(id, entries) + sha(PackBody(id, entries))
  }

  /** Where entry `k` starts. */
  function OffsetOf(entries: seq<Entry>, k: nat): nat
    requires k <= |entries|
  {
    HEADER_SIZE + |EntriesBytes(entries[..k])|
  }

  function LocationOf(entries: seq<Entry>, k: nat): Location
    requires k < |entries|
  {
    Location(entries[k].hash, OffsetOf(entries, k), |entries[k].data|)
  }

  function Locations(entries: seq<Entry>): (locs: seq<Location>)
    ensures |locs| == |entries|
  {
    seq(|entries|, k requires 0 <= k < |entries| => LocationOf(entries, k))
  }

  /** The program stores sizes in 32 bits. */
  predicate SizesFit(entries: seq<Entry>) {
    forall k :: 0 <= k < |entries| ==> |entries[k].data| < MAX_STORED
  }

  predicate HashesMatch(sha: Sha, entries: seq<Entry>) {
    forall k :: 0 <= k < |entries| ==> entries[k].hash == HashOfChunk(sha, entries[k].data)
  }

  // ── Reading one chunk ────────────────────────────────────────────────────

  /** Read the chunk at `offset`, checking marker, name and content. */
  function ReadChunkAt(sha: Sha, file: Bytes, offset: nat, expected: Hash): (r: Result<Bytes, PackError>)
    ensures r.Ok? ==> HashOfChunk(sha, r.value) == expected
  {
    if offset + 1 > |file| then Err(Truncated)
    else if file[offset] != CHUNK_MARKER then Err(BadMarker(file[offset]))
    else if offset + 65 > |file| then Err(Truncated)
    else if file[offset + 1..offset + 65] != expected then Err(WrongHash(file[offset + 1..offset + 65]))
    else if offset + 69 > |file| then Err(Truncated)
    else
      var len := FromLe(file[offset + 65..offset + 69]);
      if offset + 69 + len > |file| then Err(Truncated)
      else
        var data := file[offset + 69..offset + 69 + len];
        if HashOfChunk(sha, data) != expected then Err(CorruptData) else Ok(data)
  }

  /** Sizes are 32-bit fields, so whatever is read back is below 4 GiB. */
  lemma ReadFits(sha: Sha, file: Bytes, offset: nat, expected: Hash)
    requires ReadChunkAt(sha, file, offset, expected).Ok?
    ensures |ReadChunkAt(sha, file, offset, expected).value| < MAX_STORED
  {
    hide HashOfChunk, FromLe;
    FromLeBound(file[offset + 65..offset + 69]);
    Width4(0);
  }

  // ── Listing a pack ───────────────────────────────────────────────────────

  type Listing = Result<seq<Location>, PackError>

  function Prepend(head: seq<Location>, r: Listing): Listing {
    match r
    case Err(e) => Err(e)
    case Ok(rest) => Ok(head + rest)
  }

  /** The entries from `offset` to the end marker. */
  function ListFrom(file: Bytes, offset: nat): Listing
    decreases |file| - offset
  {
    if offset + 1 > |file| then Err(Truncated)
    else if file[offset] == END_MARKER then Ok([])
    else if file[offset] != CHUNK_MARKER then Err(BadMarker(file[offset]))
    else if offset + 69 > |file| then Err(Truncated)
    else
      var size := FromLe(file[offset + 65..offset + 69]);
      Prepend([Location(file[offset + 1..offset + 65], offset, size)], ListFrom(file, offset + 69 + size))
  }

  lemma PrependLaws(a: seq<Location>, b: seq<Location>, r: Listing)
    ensures Prepend([], r) == r
    ensures Prepend(a, Prepend(b, r)) == Prepend(a + b, r)
    ensures Prepend(a, Ok([])) == Ok(a)
  {
    if r.Ok? {
      assert [] + r.value == r.value;
      assert a + (b + r.value) == a + b + r.value;
    }
    assert a + [] == a;
  }

  /** One pass over the file, as the program does it. */
  method ListChunks(file: Bytes) returns (r: Listing)
    ensures r == ListFrom(file, HEADER_SIZE)
  {
    hide Prepend, FromLe;
    var chunks: seq<Location> := [];
    var offset := HEADER_SIZE;
    PrependLaws([], [], ListFrom(file, offset));
    while true
      invariant ListFrom(file, HEADER_SIZE) == Prepend(chunks, ListFrom(file, offset))
      decreases |file| + HEADER_SIZE - offset
    {
      PrependLaws(chunks, [], Err(Truncated));
      if offset + 1 > |file| {
        return PropagateListing(chunks, Truncated);
      }
      var marker := file[offset];
      if marker == END_MARKER {
        return Ok(chunks);
      }
      if marker != CHUNK_MARKER {
        return PropagateListing(chunks, BadMarker(marker));
      }
      if offset + 69 > |file| {
        return PropagateListing(chunks, Truncated);
      }
      var size := FromLe(file[offset + 65..offset + 69]);
      var loc := Location(file[offset + 1..offset + 65], offset, size);
      PrependLaws(chunks, [loc], ListFrom(file, offset + 69 + size));
      chunks := chunks + [loc];
      offset := offset + 69 + size;
    }
  }

  /** A failure discards what was collected. */
  function PropagateListing(chunks: seq<Location>, e: PackError): (r: Listing)
    ensures r == Err(e) == Prepend(chunks, Err(e))
  {
    Err(e)
  }

  function VerifyPack(sha: Sha, file: Bytes): Result<(), PackError> {
    if |file| < HEADER_SIZE + FOOTER_SIZE then Err(TooSmall(|file|))
    else if file[|file| - 32..] != sha(file[..|file| - 32]) then Err(BadChecksum)
    else if file[..4] != PACK_MAGIC then Err(BadMagic)
    else Ok(())
  }

  // ── Layout of a written pack ─────────────────────────────────────────────

  lemma {:induction false} EntriesSplit(entries: seq<Entry>, k: nat)
    requires k < |entries|
    ensures |EntriesBytes(entries)| >= |EntriesBytes(entries[..k])| + |EntryBytes(entries[k])|
    ensures var a := |EntriesBytes(entries[..k])|;
            EntriesBytes(entries)[a..a + |EntryBytes(entries[k])|] == EntryBytes(entries[k])
    decreases |entries|
  {
    hide EntryBytes;
    var n := |entries| - 1;
    var before, last := EntriesBytes(entries[..n]), EntryBytes(entries[n]);
    var a := |EntriesBytes(entries[..k])|;
    if k < n {
      EntriesSplit(entries[..n], k);
      assert entries[..n][..k] == entries[..k];
      FrontSlice(before, last, a, a + |EntryBytes(entries[k])|);
    } else {
      BackSlice(before, last);
    }
  }

  lemma FrontSlice(front: Bytes, back: Bytes, i: nat, j: nat)
    requires i <= j <= |front|
    ensures (front + back)[i..j] == front[i..j]
  {
  }

  lemma BackSlice(front: Bytes, back: Bytes)
    ensures (front + back)[|front|..|front| + |back|] == back
  {
  }

  lemma MiddleSlice(head: Bytes, middle: Bytes, tail: Bytes, i: nat, j: nat)
    requires i <= j <= |middle|
    ensures (head + middle + tail)[|head| + i..|head| + j] == middle[i..j]
  {
  }

  /** The bytes of entry `k` sit at its offset. */
  lemma EntryInFile(sha: Sha, id: nat, entries: seq<Entry>, k: nat)
    requires k < |entries|
    ensures var file, offset, b := PackFile(sha, id, entries), OffsetOf(entries, k), EntryBytes(entries[k]);
            offset + |b| < |file| && file[offset..offset + |b|] == b
  {
    hide EntryBytes, EntriesBytes, Header, PackFile, PackBody;
    EntriesSplit(entries, k);
    FileParts(sha, id, entries);
    InMiddle(PackFile(sha, id, entries), Header(id), EntriesBytes(entries), [END_MARKER] + sha(PackBody(id, entries)),
             |EntriesBytes(entries[..k])|, EntryBytes(entries[k]));
  }

  lemma InMiddle(file: Bytes, head: Bytes, all: Bytes, tail: Bytes, a: nat, b: Bytes)
    requires file == head + all + tail && |tail| > 0
    requires a + |b| <= |all| && all[a..a + |b|] == b
    ensures |head| + a + |b| < |file| && file[|head| + a..|head| + a + |b|] == b
  {
    MiddleSlice(head, all, tail, a, a + |b|);
  }

  lemma FileParts(sha: Sha, id: nat, entries: seq<Entry>)
    ensures PackFile(sha, id, entries) == Header(id) + EntriesBytes(entries) + ([END_MARKER] + sha(PackBody(id, entries)))
  {
    hide EntriesBytes, Header;
    ConcatAssoc(Header(id) + EntriesBytes(entries), [END_MARKER], sha(PackBody(id, entries)));
  }

  lemma ConcatAssoc(a: Bytes, b: Bytes, c: Bytes)
    ensures a + b + c == a + (b + c)
  {
  }

  lemma NextOffset(entries: seq<Entry>, k: nat)
    requires k < |entries|
    ensures OffsetOf(entries, k + 1) == OffsetOf(entries, k) + CHUNK_OVERHEAD + |entries[k].data|
  {
    assert entries[..k + 1][..k] == entries[..k];
  }

  lemma EndInFile(sha: Sha, id: nat, entries: seq<Entry>)
    ensures var file, offset := PackFile(sha, id, entries), OffsetOf(entries, |entries|);
            offset < |file| && file[offset] == END_MARKER
  {
    hide EntriesBytes, Header;
    assert entries[..|entries|] == entries;
  }

  /** How an entry's fields are laid out inside its bytes. */
  lemma EntryFields(e: Entry)
    requires |e.data| < MAX_STORED
    ensures var b := EntryBytes(e);
            && b[0] == CHUNK_MARKER && b[1..65] == e.hash
            && FromLe(b[65..69]) == |e.data| && b[69..] == e.data
  {
    Width4(0);
    LeRoundTrip(|e.data|, 4);
    var size := ToLe(|e.data|, 4);
    assert EntryBytes(e)[65..69] == size;
  }

  // ── Round trips ──────────────────────────────────────────────────────────

  /** Reading steps through the fields of an entry that lies in the file. */
  lemma ReadFields(sha: Sha, file: Bytes, offset: nat, hash: Hash, data: Bytes)
    requires offset + CHUNK_OVERHEAD + |data| <= |file| && file[offset] == CHUNK_MARKER
    requires file[offset + 1..offset + 65] == hash && FromLe(file[offset + 65..offset + 69]) == |data|
    requires file[offset + 69..offset + 69 + |data|] == data && HashOfChunk(sha, data) == hash
    ensures ReadChunkAt(sha, file, offset, hash) == Ok(data)
  {
    hide HashOfChunk, FromLe;
  }

  /** Every chunk reads back at the location that the flush reported. */
  lemma ReadBack(sha: Sha, id: nat, entries: seq<Entry>, k: nat)
    requires k < |entries| && SizesFit(entries) && HashesMatch(sha, entries)
    ensures ReadChunkAt(sha, PackFile(sha, id, entries), OffsetOf(entries, k), entries[k].hash) == Ok(entries[k].data)
  {
    hide EntryBytes, PackFile, OffsetOf, HashOfChunk, FromLe, ReadChunkAt;
    var file, offset, e := PackFile(sha, id, entries), OffsetOf(entries, k), entries[k];
    var b := EntryBytes(e);
    EntryInFile(sha, id, entries, k);
    EntryFields(e);
    SubSlice(file, offset, b, 0, 1);
    SubSlice(file, offset, b, 1, 65);
    SubSlice(file, offset, b, 65, 69);
    SubSlice(file, offset, b, 69, |b|);
    ReadFields(sha, file, offset, e.hash, e.data);
  }

  lemma SubSlice(file: Bytes, offset: nat, b: Bytes, i: nat, j: nat)
    requires offset + |b| <= |file| && file[offset..offset + |b|] == b && i <= j <= |b|
    ensures file[offset + i..offset + j] == b[i..j]
    ensures i < |b| ==> file[offset + i] == b[i]
  {
    forall t | 0 <= t < |b|
      ensures file[offset + t] == b[t]
    {
      assert file[offset..offset + |b|][t] == b[t];
    }
  }

  /** Listing a written pack gives exactly the reported locations. */
  lemma ListRoundTrip(sha: Sha, id: nat, entries: seq<Entry>)
    requires SizesFit(entries)
    ensures ListFrom(PackFile(sha, id, entries), HEADER_SIZE) == Ok(Locations(entries))
  {
    assert entries[..0] == [];
    ListFromEntry(sha, id, entries, 0);
    assert Locations(entries)[0..] == Locations(entries);
  }

  /** Listing steps over the bytes of one entry. */
  lemma ListStep(file: Bytes, offset: nat, e: Entry, next: nat)
    requires |e.data| < MAX_STORED && next == offset + CHUNK_OVERHEAD + |e.data|
    requires offset + |EntryBytes(e)| <= |file| && file[offset..offset + |EntryBytes(e)|] == EntryBytes(e)
    ensures ListFrom(file, offset) ==
            Prepend([Location(e.hash, offset, |e.data|)], ListFrom(file, next))
  {
    hide EntryBytes, FromLe, Prepend;
    var b := EntryBytes(e);
    EntryFields(e);
    SubSlice(file, offset, b, 0, 1);
    SubSlice(file, offset, b, 1, 65);
    SubSlice(file, offset, b, 65, 69);
  }

  lemma {:induction false} ListFromEntry(sha: Sha, id: nat, entries: seq<Entry>, k: nat)
    requires k <= |entries| && SizesFit(entries)
    ensures ListFrom(PackFile(sha, id, entries), OffsetOf(entries, k)) == Ok(Locations(entries)[k..])
    decreases |entries| - k
  {
    hide *;
    var file, offset := PackFile(sha, id, entries), OffsetOf(entries, k);
    if k == |entries| {
      ListEnd(sha, id, entries);
      assert Locations(entries)[k..] == [];
    } else {
      var loc := Location(entries[k].hash, offset, |entries[k].data|);
      OneFits(entries, k);
      EntryInFile(sha, id, entries, k);
      var next := OffsetOf(entries, k + 1);
      NextOffset(entries, k);
      ListStep(file, offset, entries[k], next);
      var rest := Locations(entries)[k + 1..];
      ListFromEntry(sha, id, entries, k + 1);
      assert ListFrom(file, next) == Ok(rest);
      ListChain(file, offset, next, loc, rest);
      LocationsFrom(entries, k);
    }
  }

  lemma OneFits(entries: seq<Entry>, k: nat)
    requires SizesFit(entries) && k < |entries|
    ensures |entries[k].data| < MAX_STORED
  {
  }

  lemma ListChain(file: Bytes, offset: nat, next: nat, loc: Location, rest: seq<Location>)
    requires ListFrom(file, offset) == Prepend([loc], ListFrom(file, next)) && ListFrom(file, next) == Ok(rest)
    ensures ListFrom(file, offset) == Ok([loc] + rest)
  {
  }

  lemma LocationsFrom(entries: seq<Entry>, k: nat)
    requires k < |entries|
    ensures Locations(entries)[k..] ==
            [Location(entries[k].hash, OffsetOf(entries, k), |entries[k].data|)] + Locations(entries)[k + 1..]
  {
    hide OffsetOf;
  }

  lemma ListEnd(sha: Sha, id: nat, entries: seq<Entry>)
    ensures ListFrom(PackFile(sha, id, entries), OffsetOf(entries, |entries|)) == Ok([])
  {
    hide PackFile, OffsetOf;
    EndInFile(sha, id, entries);
  }

  /** A written pack verifies. */
  lemma VerifyRoundTrip(sha: Sha, id: nat, entries: seq<Entry>)
    ensures VerifyPack(sha, PackFile(sha, id, entries)) == Ok(())
  {
    hide EntriesBytes;
    var file, body := PackFile(sha, id, entries), PackBody(id, entries);
    assert |file| - 32 == |body| && file[..|body|] == body && file[|body|..] == sha(body);
    assert file[..4] == PACK_MAGIC;
  }

  function BodyOf(file: Bytes): Bytes
    requires |file| >= 32
  {
    file[..|file| - 32]
  }

  function FooterOf(file: Bytes): Bytes
    requires |file| >= 32
  {
    file[|file| - 32..]
  }

  /**
   A damaged pack, of whatever length, whose damage is confined to the body or to the checksum:
   it passes exactly when its body is another one with the same digest under an intact magic.
   So damage to the checksum is always noticed, and damage to the body unless these two bodies collide.
   */
  lemma VerifyDetects(sha: Sha, id: nat, entries: seq<Entry>, file: Bytes)
    requires file != PackFile(sha, id, entries) && |file| >= 32
    requires BodyOf(file) == PackBody(id, entries) || FooterOf(file) == sha(PackBody(id, entries))
    ensures VerifyPack(sha, file).Ok? <==>
            && BodyOf(file) != PackBody(id, entries) && sha(BodyOf(file)) == sha(PackBody(id, entries))
            && |file| >= 47 && file[..4] == [0x42, 0x4B, 0x53, 0x50]
  {
    hide PackBody;
    assert file == BodyOf(file) + FooterOf(file);
  }
}
