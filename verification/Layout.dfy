/**
 The blobs of directories and manifests byte by byte, in the order in which they are
 written. Nothing here mentions a codec but the laws, which say that the codecs write
 exactly this.
 */
module Layout {
  import opened Wrappers
  import opened Octets
  import opened Scale
  import opened Format

  // ---- The bytes ----

  /** The four bytes of `n`, least significant first. */
  function Four(n: u32): Bytes { [n % 0x100, n / 0x100 % 0x100, n / 0x1_0000 % 0x100, n / 0x100_0000] }

  /** The eight bytes of `n`, least significant first. */
  function Eight(n: u64): Bytes {
    [n % 0x100, n / 0x100 % 0x100, n / 0x1_0000 % 0x100, n / 0x100_0000 % 0x100, n / 0x1_0000_0000 % 0x100,
     n / 0x100_0000_0000 % 0x100, n / 0x1_0000_0000_0000 % 0x100, n / 0x100_0000_0000_0000]
  }

  /** A length: in one, two or four bytes with the tag 0, 1 or 2 in the two low bits, or after a byte 3. */
  function Count(n: u32): Bytes {
    if n < 0x40 then [4 * n]
    else if n < 0x4000 then [4 * n % 0x100 + 1, n / 0x40]
    else if n < 0x4000_0000 then Four(4 * n + 2)
    else [3] + Four(n)
  }

  function Text(b: Bytes): Bytes
    requires |b| < 0x1_0000_0000
  {
    Count(|b|) + b
  }

  /** Magic `W3FS` and version 1. */
  const HEAD: Bytes := [0x57, 0x33, 0x46, 0x53, 0x01]

  /** Name, 0 for a file or 1 for a directory, CID, size, modification time. */
  function EntryBytes(e: DirectoryEntry): Bytes
    requires EntryInBounds(e)
  {
    Text(e.name) + [if e.entryType == Directory then 1 else 0] + e.cid + Eight(e.size) + Eight(e.mtime)
  }

  function AllEntries(es: seq<DirectoryEntry>): Bytes
    requires forall e <- es :: EntryInBounds(e)
  {
    if es == [] then [] else EntryBytes(es[0]) + AllEntries(es[1..])
  }

  function MetadataBytes(m: MetadataEntry): Bytes
    requires MetadataInBounds(m)
  {
    Text(m.key) + Text(m.value)
  }

  function AllMetadata(ms: seq<MetadataEntry>): Bytes
    requires forall m <- ms :: MetadataInBounds(m)
  {
    if ms == [] then [] else MetadataBytes(ms[0]) + AllMetadata(ms[1..])
  }

  function AllChunks(cs: seq<FileChunk>): Bytes {
    if cs == [] then [] else cs[0].cid + Four(cs[0].sequence) + AllChunks(cs[1..])
  }

  /** Header, bucket, children, metadata. */
  function DirectoryBytes(d: DirectoryNode): Bytes
    requires DirectoryInBounds(d)
  {
    HEAD + Eight(d.bucketId) + Count(|d.children|) + AllEntries(d.children)
    + Count(|d.metadata|) + AllMetadata(d.metadata)
  }

  /** Chunks, encryption parameters, metadata. */
  function ManifestTail(m: FileManifest): Bytes
    requires ManifestInBounds(m)
  {
    Count(|m.chunks|) + AllChunks(m.chunks) + Text(m.encryptionParams)
    + Count(|m.userMetadata|) + AllMetadata(m.userMetadata)
  }

  /** Header, bucket, content type, size, and the rest. */
  function ManifestBytes(m: FileManifest): Bytes
    requires ManifestInBounds(m)
  {
    HEAD + Eight(m.bucketId) + Text(m.mimeType) + Eight(m.totalSize) + ManifestTail(m)
  }

  // ---- What the codecs write ----

  lemma FourLaw(n: u32)
    ensures LittleEndian(n, 4) == Four(n)
  {
    var (a, b, c) := (n / 0x100, n / 0x1_0000, n / 0x100_0000);
    assert a / 0x100 == b && b / 0x100 == c && c / 0x100 == 0;
    assert LittleEndian(c, 1) == [c];
    assert LittleEndian(b, 2) == [b % 0x100] + [c];
    assert LittleEndian(a, 3) == [a % 0x100] + ([b % 0x100] + [c]);
  }

  lemma EightLaw(n: u64)
    ensures LittleEndian(n, 8) == Eight(n)
  {
    hide LittleEndian;
    var (a, b, c, d) := (n / 0x100, n / 0x1_0000, n / 0x100_0000, n / 0x1_0000_0000);
    var (e, f, g) := (n / 0x100_0000_0000, n / 0x1_0000_0000_0000, n / 0x100_0000_0000_0000);
    assert a / 0x100 == b && b / 0x100 == c && c / 0x100 == d;
    assert d / 0x100 == e && e / 0x100 == f && f / 0x100 == g;
    OneByte(g);
    LowestByte(f, 2);
    LowestByte(e, 3);
    LowestByte(d, 4);
    LowestByte(c, 5);
    LowestByte(b, 6);
    LowestByte(a, 7);
    LowestByte(n, 8);
  }

  lemma LowestByte(n: nat, k: nat)
    requires k > 0
    ensures LittleEndian(n, k) == [n % 0x100] + LittleEndian(n / 0x100, k - 1)
  {
  }

  lemma OneByte(n: byte)
    ensures LittleEndian(n, 1) == [n]
  {
  }

  lemma CountLaw(n: u32)
    ensures Compact(n) == Count(n)
  {
    if 0x40 <= n < 0x4000 {
      var x := 4 * n + 1;
      assert LittleEndian(x / 0x100, 1) == [x / 0x100];
    } else if 0x4000 <= n < 0x4000_0000 {
      FourLaw(4 * n + 2);
    } else if n >= 0x4000_0000 {
      FourLaw(n);
    }
  }

  lemma {:induction false} RawBytes(b: Bytes)
    ensures EncodeAll(U8(), b) == b
    decreases |b|
  {
    if b != [] {
      RawBytes(b[1..]);
      assert b == [b[0]] + b[1..];
    }
  }

  lemma VectorLaw<T>(c: Codec<T>, limit: u32, xs: seq<T>)
    requires |xs| <= limit
    ensures Vector(c, limit).enc(xs) == Count(|xs|) + EncodeAll(c, xs)
  {
    hide EncodeAll;
    CountLaw(|xs|);
  }

  lemma TextLaw(limit: u32, b: Bytes)
    requires |b| <= limit
    ensures ByteString(limit).enc(b) == Text(b)
  {
    hide Vector, EncodeAll, Count;
    VectorLaw(U8(), limit, b);
    RawBytes(b);
  }

  lemma PairLaw<A, B>(a: Codec<A>, b: Codec<B>, x: A, y: B)
    ensures Pair(a, b).enc((x, y)) == a.enc(x) + b.enc(y)
  {
  }

  lemma RecordLaw<A, B>(c: Codec<A>, make: A -> B, fields: B -> A, v: B)
    ensures Record(c, make, fields).enc(v) == c.enc(fields(v))
  {
  }

  lemma Regroup(a: Bytes, b: Bytes, c: Bytes, d: Bytes, e: Bytes)
    ensures a + (b + (c + (d + e))) == a + b + c + d + e
    ensures a + (b + ((c + d) + e)) == a + b + c + d + e
  {
  }

  lemma EntryLaw(e: DirectoryEntry)
    requires EntryInBounds(e)
    ensures EntryCodec().enc(e) == EntryBytes(e)
  {
    hide Pair, Record, ByteString, Eight, Text;
    var name := ByteString(MAX_ENTRY_NAME_LENGTH);
    RecordLaw(EntryFields(), EntryOf, FieldsOfEntry, e);
    PairLaw(name, Pair(EntryTypeCodec(), Pair(CidCodec(), Pair(U64(), U64()))),
      e.name, (e.entryType, (e.cid, (e.size, e.mtime))));
    PairLaw(EntryTypeCodec(), Pair(CidCodec(), Pair(U64(), U64())), e.entryType, (e.cid, (e.size, e.mtime)));
    PairLaw(CidCodec(), Pair(U64(), U64()), e.cid, (e.size, e.mtime));
    PairLaw(U64(), U64(), e.size, e.mtime);
    TextLaw(MAX_ENTRY_NAME_LENGTH, e.name);
    EightLaw(e.size);
    EightLaw(e.mtime);
    Regroup(Text(e.name), [if e.entryType == Directory then 1 else 0], e.cid, Eight(e.size), Eight(e.mtime));
  }

  lemma {:induction false} EntriesLaw(es: seq<DirectoryEntry>)
    requires forall e <- es :: EntryInBounds(e)
    ensures EncodeAll(EntryCodec(), es) == AllEntries(es)
    decreases |es|
  {
    hide EntryCodec, EntryBytes;
    if es != [] {
      EntryLaw(es[0]);
      EntriesLaw(es[1..]);
    }
  }

  lemma MetadataLaw(m: MetadataEntry)
    requires MetadataInBounds(m)
    ensures MetadataCodec().enc(m) == MetadataBytes(m)
  {
    hide Pair, Record, ByteString, Text;
    var (key, value) := (ByteString(MAX_METADATA_KEY_LENGTH), ByteString(MAX_METADATA_VALUE_LENGTH));
    RecordLaw(Pair(key, value), MetadataOf, FieldsOfMetadata, m);
    PairLaw(key, value, m.key, m.value);
    TextLaw(MAX_METADATA_KEY_LENGTH, m.key);
    TextLaw(MAX_METADATA_VALUE_LENGTH, m.value);
  }

  lemma {:induction false} MetadataListLaw(ms: seq<MetadataEntry>)
    requires forall m <- ms :: MetadataInBounds(m)
    ensures EncodeAll(MetadataCodec(), ms) == AllMetadata(ms)
    decreases |ms|
  {
    hide MetadataCodec, MetadataBytes;
    if ms != [] {
      MetadataLaw(ms[0]);
      MetadataListLaw(ms[1..]);
    }
  }

  lemma {:induction false} ChunksLaw(cs: seq<FileChunk>)
    ensures EncodeAll(ChunkCodec(), cs) == AllChunks(cs)
    decreases |cs|
  {
    hide Pair, Record, Four;
    if cs != [] {
      RecordLaw(Pair(CidCodec(), U32()), ChunkOf, FieldsOfChunk, cs[0]);
      PairLaw(CidCodec(), U32(), cs[0].cid, cs[0].sequence);
      FourLaw(cs[0].sequence);
      ChunksLaw(cs[1..]);
    }
  }

  lemma HeadLaw()
    ensures HEADER == HEAD
  {
  }

  lemma DirectoryBytesLaw(d: DirectoryNode)
    requires DirectoryInBounds(d)
    ensures ToBlob(DirectoryCodec(), d) == DirectoryBytes(d)
  {
    hide Pair, Record, Vector, EntryCodec, MetadataCodec, Eight, Count, AllEntries, AllMetadata, EncodeAll;
    var (children, metadata) :=
      (Vector(EntryCodec(), MAX_DIRECTORY_CHILDREN), Vector(MetadataCodec(), MAX_METADATA_ENTRIES));
    RecordLaw(DirectoryFields(), DirectoryOf, FieldsOfDirectory, d);
    PairLaw(U64(), Pair(children, metadata), d.bucketId, (d.children, d.metadata));
    PairLaw(children, metadata, d.children, d.metadata);
    VectorLaw(EntryCodec(), MAX_DIRECTORY_CHILDREN, d.children);
    VectorLaw(MetadataCodec(), MAX_METADATA_ENTRIES, d.metadata);
    EightLaw(d.bucketId);
    EntriesLaw(d.children);
    MetadataListLaw(d.metadata);
    HeadLaw();
    var rest := Count(|d.metadata|) + AllMetadata(d.metadata);
    Regroup(HEAD, Eight(d.bucketId), Count(|d.children|), AllEntries(d.children), rest);
    Regroup([], HEAD + Eight(d.bucketId) + Count(|d.children|), AllEntries(d.children), Count(|d.metadata|),
      AllMetadata(d.metadata));
  }

  /** A blob decodes to a directory node exactly when it is the bytes of that node. */
  lemma DirectoryLayoutLaw(bytes: Bytes, d: DirectoryNode)
    requires DirectoryInBounds(d)
    ensures FromBlob(DirectoryCodec(), bytes) == Ok(d) <==> bytes == DirectoryBytes(d)
    ensures ToBlob(DirectoryCodec(), d) == DirectoryBytes(d)
  {
    hide DirectoryBytes, FromBlob, ToBlob, DirectoryCodec;
    DirectoryBytesLaw(d);
    DirectoryBlobLaw(bytes, d);
  }

  lemma ManifestTailLaw(m: FileManifest)
    requires ManifestInBounds(m)
    ensures ManifestTailFields().enc((m.chunks, (m.encryptionParams, m.userMetadata))) == ManifestTail(m)
  {
    hide Pair, Vector, ByteString, MetadataCodec, ChunkCodec, Count, Text, AllChunks, AllMetadata, EncodeAll;
    var params := ByteString(MAX_ENCRYPTION_PARAMS_LENGTH);
    var (chunks, metadata) :=
      (Vector(ChunkCodec(), MAX_FILE_CHUNKS), Vector(MetadataCodec(), MAX_METADATA_ENTRIES));
    PairLaw(chunks, Pair(params, metadata), m.chunks, (m.encryptionParams, m.userMetadata));
    PairLaw(params, metadata, m.encryptionParams, m.userMetadata);
    TextLaw(MAX_ENCRYPTION_PARAMS_LENGTH, m.encryptionParams);
    VectorLaw(ChunkCodec(), MAX_FILE_CHUNKS, m.chunks);
    ChunksLaw(m.chunks);
    VectorLaw(MetadataCodec(), MAX_METADATA_ENTRIES, m.userMetadata);
    MetadataListLaw(m.userMetadata);
  }

  lemma ManifestFieldsLaw(m: FileManifest)
    requires ManifestInBounds(m)
    ensures ManifestCodec().enc(m) == Eight(m.bucketId) + (Text(m.mimeType) + (Eight(m.totalSize) + ManifestTail(m)))
  {
    hide Pair, Record, ByteString, ManifestTailFields, ManifestTail, Eight, Text;
    var mime := ByteString(MAX_MIME_TYPE_LENGTH);
    var tail := (m.chunks, (m.encryptionParams, m.userMetadata));
    RecordLaw(ManifestFields(), ManifestOf, FieldsOfManifest, m);
    PairLaw(U64(), Pair(mime, Pair(U64(), ManifestTailFields())), m.bucketId, (m.mimeType, (m.totalSize, tail)));
    PairLaw(mime, Pair(U64(), ManifestTailFields()), m.mimeType, (m.totalSize, tail));
    PairLaw(U64(), ManifestTailFields(), m.totalSize, tail);
    EightLaw(m.bucketId);
    EightLaw(m.totalSize);
    TextLaw(MAX_MIME_TYPE_LENGTH, m.mimeType);
    ManifestTailLaw(m);
  }

  /** A blob decodes to a manifest exactly when it is the bytes of that manifest. */
  lemma ManifestLayoutLaw(bytes: Bytes, m: FileManifest)
    requires ManifestInBounds(m)
    ensures FromBlob(ManifestCodec(), bytes) == Ok(m) <==> bytes == ManifestBytes(m)
    ensures ToBlob(ManifestCodec(), m) == ManifestBytes(m)
  {
    hide ManifestCodec, FromBlob, ManifestTail, Eight, Text;
    ManifestFieldsLaw(m);
    HeadLaw();
    Regroup(HEAD, Eight(m.bucketId), Text(m.mimeType), Eight(m.totalSize), ManifestTail(m));
    ManifestBlobLaw(bytes, m);
  }
}
