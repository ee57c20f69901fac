/**
 The blobs of a drive: directory nodes and file manifests, their bounds, their
 one encoding, and the rules that decoding alone does not check.
 */
module Format {
  import opened Wrappers
  import opened Octets
  import opened Scale

  const MAX_ENTRY_NAME_LENGTH := 256
  const MAX_DIRECTORY_CHILDREN := 1024
  const MAX_METADATA_ENTRIES := 64
  const MAX_METADATA_KEY_LENGTH := 64
  const MAX_METADATA_VALUE_LENGTH := 256
  const MAX_FILE_CHUNKS := 65536
  const MAX_MIME_TYPE_LENGTH := 128
  const MAX_ENCRYPTION_PARAMS_LENGTH := 512

  /** The ASCII letters `W3FS`. */
  const FORMAT_MAGIC: Bytes := [0x57, 0x33, 0x46, 0x53]
  const FORMAT_VERSION: byte := 1
  const HEADER_LEN := 5

  type Cid = b: Bytes | |b| == 32 witness seq(32, _ => 0)

  datatype EntryType = File | Directory

  datatype DirectoryEntry = DirectoryEntry(
    name: Bytes, entryType: EntryType, cid: Cid, size: u64, mtime: u64)

  datatype MetadataEntry = MetadataEntry(key: Bytes, value: Bytes)

  datatype DirectoryNode = DirectoryNode(
    bucketId: u64, children: seq<DirectoryEntry>, metadata: seq<MetadataEntry>)

  datatype FileChunk = FileChunk(cid: Cid, sequence: u32)

  datatype FileManifest = FileManifest(
    bucketId: u64, mimeType: Bytes, totalSize: u64, chunks: seq<FileChunk>,
    encryptionParams: Bytes, userMetadata: seq<MetadataEntry>)

  datatype FormatError =
    | InvalidEntryName | InvalidDirectory | InvalidManifest
    | DirectoryFull | ContentTooLarge | MetadataTooLarge | DuplicateMetadataKey
    | NotAFormatBlob | UnsupportedVersion(version: byte)

  // ---- Bounds of the types ----

  predicate EntryInBounds(e: DirectoryEntry) { |e.name| <= MAX_ENTRY_NAME_LENGTH }

  predicate MetadataInBounds(m: MetadataEntry) {
    |m.key| <= MAX_METADATA_KEY_LENGTH && |m.value| <= MAX_METADATA_VALUE_LENGTH
  }

  predicate DirectoryInBounds(d: DirectoryNode) {
    && |d.children| <= MAX_DIRECTORY_CHILDREN
    && (forall i | 0 <= i < |d.children| :: EntryInBounds(d.children[i]))
    && |d.metadata| <= MAX_METADATA_ENTRIES
    && (forall i | 0 <= i < |d.metadata| :: MetadataInBounds(d.metadata[i]))
  }

  predicate ManifestInBounds(m: FileManifest) {
    && |m.mimeType| <= MAX_MIME_TYPE_LENGTH
    && |m.chunks| <= MAX_FILE_CHUNKS
    && |m.encryptionParams| <= MAX_ENCRYPTION_PARAMS_LENGTH
    && |m.userMetadata| <= MAX_METADATA_ENTRIES
    && (forall i | 0 <= i < |m.userMetadata| :: MetadataInBounds(m.userMetadata[i]))
  }

  // ---- Codecs, field by field in declaration order ----

  function EntryTypeCodec(): Codec<EntryType> {
    Codec(
      (t: EntryType) => true,
      (t: EntryType) => [if t == File then 0 else 1],
      (b: Bytes) =>
        if b == [] || b[0] > 1 then None
        else Some((if b[0] == 0 then File else Directory, b[1..])),
      1)
  }

  function CidCodec(): Codec<Cid> {
    Codec(
      (c: Cid) => true,
      (c: Cid) => c,
      (b: Bytes) => if |b| < 32 then None else Some((b[..32], b[32..])),
      32)
  }

  function ByteString(limit: u32): Codec<Bytes> { Vector(U8(), limit) }

  function EntryFields(): Codec<(Bytes, (EntryType, (Cid, (u64, u64))))> {
    Pair(ByteString(MAX_ENTRY_NAME_LENGTH), Pair(EntryTypeCodec(), Pair(CidCodec(), Pair(U64(), U64()))))
  }

  function EntryCodec(): Codec<DirectoryEntry> {
    Record(EntryFields(), EntryOf, FieldsOfEntry)
  }

  function EntryOf(v: (Bytes, (EntryType, (Cid, (u64, u64))))): DirectoryEntry {
    DirectoryEntry(v.0, v.1.0, v.1.1.0, v.1.1.1.0, v.1.1.1.1)
  }

  function FieldsOfEntry(e: DirectoryEntry): (Bytes, (EntryType, (Cid, (u64, u64)))) {
    (e.name, (e.entryType, (e.cid, (e.size, e.mtime))))
  }

  function MetadataCodec(): Codec<MetadataEntry> {
    Record(Pair(ByteString(MAX_METADATA_KEY_LENGTH), ByteString(MAX_METADATA_VALUE_LENGTH)),
           MetadataOf, FieldsOfMetadata)
  }

  function MetadataOf(v: (Bytes, Bytes)): MetadataEntry { MetadataEntry(v.0, v.1) }

  function FieldsOfMetadata(m: MetadataEntry): (Bytes, Bytes) { (m.key, m.value) }

  function DirectoryFields(): Codec<(u64, (seq<DirectoryEntry>, seq<MetadataEntry>))> {
    Pair(U64(), Pair(Vector(EntryCodec(), MAX_DIRECTORY_CHILDREN), Vector(MetadataCodec(), MAX_METADATA_ENTRIES)))
  }

  function DirectoryCodec(): Codec<DirectoryNode> {
    Record(DirectoryFields(), DirectoryOf, FieldsOfDirectory)
  }

  function DirectoryOf(v: (u64, (seq<DirectoryEntry>, seq<MetadataEntry>))): DirectoryNode {
    DirectoryNode(v.0, v.1.0, v.1.1)
  }

  function FieldsOfDirectory(d: DirectoryNode): (u64, (seq<DirectoryEntry>, seq<MetadataEntry>)) {
    (d.bucketId, (d.children, d.metadata))
  }

  function ChunkCodec(): Codec<FileChunk> {
    Record(Pair(CidCodec(), U32()), ChunkOf, FieldsOfChunk)
  }

  function ChunkOf(v: (Cid, u32)): FileChunk { FileChunk(v.0, v.1) }

  function FieldsOfChunk(c: FileChunk): (Cid, u32) { (c.cid, c.sequence) }

  type ManifestTail = (seq<FileChunk>, (Bytes, seq<MetadataEntry>))

  function ManifestTailFields(): Codec<ManifestTail> {
    Pair(Vector(ChunkCodec(), MAX_FILE_CHUNKS),
         Pair(ByteString(MAX_ENCRYPTION_PARAMS_LENGTH), Vector(MetadataCodec(), MAX_METADATA_ENTRIES)))
  }

  function ManifestFields(): Codec<(u64, (Bytes, (u64, ManifestTail)))> {
    Pair(U64(), Pair(ByteString(MAX_MIME_TYPE_LENGTH), Pair(U64(), ManifestTailFields())))
  }

  function ManifestCodec(): Codec<FileManifest> {
    Record(ManifestFields(), ManifestOf, FieldsOfManifest)
  }

  function ManifestOf(v: (u64, (Bytes, (u64, ManifestTail)))): FileManifest {
    FileManifest(v.0, v.1.0, v.1.1.0, v.1.1.1.0, v.1.1.1.1.0, v.1.1.1.1.1)
  }

  function FieldsOfManifest(m: FileManifest): (u64, (Bytes, (u64, ManifestTail))) {
    (m.bucketId, (m.mimeType, (m.totalSize, (m.chunks, (m.encryptionParams, m.userMetadata)))))
  }

  lemma EntryTypeLawful()
    ensures Lawful(EntryTypeCodec())
  {
    var c := EntryTypeCodec();
    forall t: EntryType, rest: Bytes
      ensures c.dec(c.enc(t) + rest) == Some((t, rest))
    {
      assert (c.enc(t) + rest)[1..] == rest;
    }
    assert c.ok(File) && |c.enc(File)| == c.max;
  }

  lemma CidLawful()
    ensures Lawful(CidCodec())
  {
    var c := CidCodec();
    forall h: Cid, rest: Bytes
      ensures c.dec(c.enc(h) + rest) == Some((h, rest))
    {
      assert (h + rest)[..32] == h && (h + rest)[32..] == rest;
    }
    var zero: Cid := seq(32, _ => 0);
    assert c.ok(zero) && |c.enc(zero)| == c.max;
  }

  lemma ByteStringLawful(limit: u32)
    ensures Lawful(ByteString(limit))
  {
    U8Lawful();
    VectorLawful(U8(), limit);
  }

  lemma EntryLawful()
    ensures Lawful(EntryCodec())
  {
    hide Pair, Record, U64, Lawful, EntryTypeCodec, CidCodec, ByteString;
    ByteStringLawful(MAX_ENTRY_NAME_LENGTH);
    EntryTypeLawful();
    CidLawful();
    U64Lawful();
    PairLawful(U64(), U64());
    PairLawful(CidCodec(), Pair(U64(), U64()));
    PairLawful(EntryTypeCodec(), Pair(CidCodec(), Pair(U64(), U64())));
    PairLawful(ByteString(MAX_ENTRY_NAME_LENGTH), Pair(EntryTypeCodec(), Pair(CidCodec(), Pair(U64(), U64()))));
    RecordLawful(EntryFields(), EntryOf, FieldsOfEntry);
  }

  lemma MetadataLawful()
    ensures Lawful(MetadataCodec())
  {
    hide Pair, Record, Lawful, ByteString;
    ByteStringLawful(MAX_METADATA_KEY_LENGTH);
    ByteStringLawful(MAX_METADATA_VALUE_LENGTH);
    PairLawful(ByteString(MAX_METADATA_KEY_LENGTH), ByteString(MAX_METADATA_VALUE_LENGTH));
    RecordLawful(Pair(ByteString(MAX_METADATA_KEY_LENGTH), ByteString(MAX_METADATA_VALUE_LENGTH)),
                 MetadataOf, FieldsOfMetadata);
  }

  lemma DirectoryLawful()
    ensures Lawful(DirectoryCodec())
  {
    hide Pair, Vector, Record, U64, Lawful, EntryCodec, MetadataCodec;
    EntryLawful();
    MetadataLawful();
    U64Lawful();
    VectorLawful(EntryCodec(), MAX_DIRECTORY_CHILDREN);
    VectorLawful(MetadataCodec(), MAX_METADATA_ENTRIES);
    PairLawful(Vector(EntryCodec(), MAX_DIRECTORY_CHILDREN), Vector(MetadataCodec(), MAX_METADATA_ENTRIES));
    PairLawful(U64(), Pair(Vector(EntryCodec(), MAX_DIRECTORY_CHILDREN),
      Vector(MetadataCodec(), MAX_METADATA_ENTRIES)));
    RecordLawful(DirectoryFields(), DirectoryOf, FieldsOfDirectory);
  }

  lemma ChunkLawful()
    ensures Lawful(ChunkCodec())
  {
    CidLawful();
    U32Lawful();
    PairLawful(CidCodec(), U32());
    RecordLawful(Pair(CidCodec(), U32()), ChunkOf, FieldsOfChunk);
  }

  lemma ManifestTailLawful()
    ensures Lawful(ManifestTailFields())
  {
    hide Pair, Vector, Lawful, ByteString, ChunkCodec, MetadataCodec;
    ChunkLawful();
    MetadataLawful();
    ByteStringLawful(MAX_ENCRYPTION_PARAMS_LENGTH);
    VectorLawful(ChunkCodec(), MAX_FILE_CHUNKS);
    VectorLawful(MetadataCodec(), MAX_METADATA_ENTRIES);
    PairLawful(ByteString(MAX_ENCRYPTION_PARAMS_LENGTH), Vector(MetadataCodec(), MAX_METADATA_ENTRIES));
    PairLawful(Vector(ChunkCodec(), MAX_FILE_CHUNKS),
               Pair(ByteString(MAX_ENCRYPTION_PARAMS_LENGTH), Vector(MetadataCodec(), MAX_METADATA_ENTRIES)));
  }

  lemma QuadrupleLawful<A(!new), B(!new), C(!new), D(!new)>(a: Codec<A>, b: Codec<B>, c: Codec<C>, d: Codec<D>)
    requires Lawful(a) && Lawful(b) && Lawful(c) && Lawful(d)
    ensures Lawful(Pair(a, Pair(b, Pair(c, d))))
  {
    PairLawful(c, d);
    PairLawful(b, Pair(c, d));
    PairLawful(a, Pair(b, Pair(c, d)));
  }

  lemma ManifestLawful()
    ensures Lawful(ManifestCodec())
  {
    hide Pair, Vector, Record, U64, Lawful, ManifestTailFields, ByteString;
    U64Lawful();
    ByteStringLawful(MAX_MIME_TYPE_LENGTH);
    ManifestTailLawful();
    QuadrupleLawful(U64(), ByteString(MAX_MIME_TYPE_LENGTH), U64(), ManifestTailFields());
    RecordLawful(ManifestFields(), ManifestOf, FieldsOfManifest);
  }

  // ---- Blobs ----

  const HEADER: Bytes := FORMAT_MAGIC + [FORMAT_VERSION]

  /** The blob of a node: the header, then its encoding. */
  function ToBlob<T>(c: Codec<T>, v: T): Bytes { HEADER + c.enc(v) }

  /** Decode a blob; trailing bytes are an error. */
  function FromBlob<T>(c: Codec<T>, bytes: Bytes): Result<T, FormatError> {
    if |bytes| < HEADER_LEN || bytes[..4] != FORMAT_MAGIC then Err(NotAFormatBlob)
    else if bytes[4] != FORMAT_VERSION then Err(UnsupportedVersion(bytes[4]))
    else match c.dec(bytes[HEADER_LEN..])
      case Some((v, rest)) => if rest == [] then Ok(v) else Err(NotAFormatBlob)
      case None => Err(NotAFormatBlob)
  }

  function MaxBlobLen<T>(c: Codec<T>): nat { HEADER_LEN + c.max }

  /** `bytes` is the blob of `v` exactly when `v` is within its bounds and `bytes` is what a writer writes for it. */
  lemma BlobLaw<T(!new)>(c: Codec<T>, bytes: Bytes, v: T)
    requires Lawful(c)
    ensures FromBlob(c, bytes) == Ok(v) <==> c.ok(v) && bytes == ToBlob(c, v)
  {
    if FromBlob(c, bytes) == Ok(v) {
      assert bytes[HEADER_LEN..] == c.enc(v) + [];
      assert bytes == bytes[..4] + [bytes[4]] + bytes[HEADER_LEN..];
    }
    if c.ok(v) && bytes == ToBlob(c, v) {
      assert bytes[..4] == FORMAT_MAGIC && bytes[4] == FORMAT_VERSION;
      assert bytes[HEADER_LEN..] == c.enc(v) + [];
    }
  }

  lemma DirectoryBlobLaw(bytes: Bytes, d: DirectoryNode)
    ensures FromBlob(DirectoryCodec(), bytes) == Ok(d) <==>
      DirectoryInBounds(d) && bytes == ToBlob(DirectoryCodec(), d)
  {
    hide DirectoryCodec, Lawful, ToBlob, FromBlob;
    DirectoryLawful();
    BlobLaw(DirectoryCodec(), bytes, d);
    DirectoryBoundsAreTheCodecs(d);
  }

  lemma ManifestBlobLaw(bytes: Bytes, m: FileManifest)
    ensures FromBlob(ManifestCodec(), bytes) == Ok(m) <==>
      ManifestInBounds(m) && bytes == ToBlob(ManifestCodec(), m)
  {
    hide ManifestCodec, Lawful, ToBlob, FromBlob;
    ManifestLawful();
    BlobLaw(ManifestCodec(), bytes, m);
    ManifestBoundsAreTheCodecs(m);
  }

  lemma ByteStringBounds(limit: u32, b: Bytes)
    ensures ByteString(limit).ok(b) <==> |b| <= limit
  {
    assert forall x: byte :: U8().ok(x);
  }

  lemma EntryBounds(e: DirectoryEntry)
    ensures EntryCodec().ok(e) <==> EntryInBounds(e)
  {
    hide Pair, Record, ByteString;
    RecordOk(EntryFields(), EntryOf, FieldsOfEntry, e);
    PairOk(ByteString(MAX_ENTRY_NAME_LENGTH), Pair(EntryTypeCodec(), Pair(CidCodec(), Pair(U64(), U64()))),
           e.name, (e.entryType, (e.cid, (e.size, e.mtime))));
    PairOk(EntryTypeCodec(), Pair(CidCodec(), Pair(U64(), U64())), e.entryType, (e.cid, (e.size, e.mtime)));
    PairOk(CidCodec(), Pair(U64(), U64()), e.cid, (e.size, e.mtime));
    PairOk(U64(), U64(), e.size, e.mtime);
    ByteStringBounds(MAX_ENTRY_NAME_LENGTH, e.name);
  }

  lemma MetadataBounds(m: MetadataEntry)
    ensures MetadataCodec().ok(m) <==> MetadataInBounds(m)
  {
    hide Pair, Record, ByteString;
    var (key, value) := (ByteString(MAX_METADATA_KEY_LENGTH), ByteString(MAX_METADATA_VALUE_LENGTH));
    RecordOk(Pair(key, value), MetadataOf, FieldsOfMetadata, m);
    PairOk(key, value, m.key, m.value);
    ByteStringBounds(MAX_METADATA_KEY_LENGTH, m.key);
    ByteStringBounds(MAX_METADATA_VALUE_LENGTH, m.value);
  }

  lemma MetadataListBounds(ms: seq<MetadataEntry>)
    ensures Vector(MetadataCodec(), MAX_METADATA_ENTRIES).ok(ms) <==>
      |ms| <= MAX_METADATA_ENTRIES && forall i | 0 <= i < |ms| :: MetadataInBounds(ms[i])
  {
    hide MetadataCodec;
    VectorOk(MetadataCodec(), MAX_METADATA_ENTRIES, ms);
    forall i | 0 <= i < |ms| ensures MetadataCodec().ok(ms[i]) <==> MetadataInBounds(ms[i]) {
      MetadataBounds(ms[i]);
    }
  }

  lemma DirectoryBoundsAreTheCodecs(d: DirectoryNode)
    ensures DirectoryCodec().ok(d) <==> DirectoryInBounds(d)
  {
    hide Pair, Record, Vector, EntryCodec, MetadataCodec;
    var (children, metadata) :=
      (Vector(EntryCodec(), MAX_DIRECTORY_CHILDREN), Vector(MetadataCodec(), MAX_METADATA_ENTRIES));
    RecordOk(DirectoryFields(), DirectoryOf, FieldsOfDirectory, d);
    PairOk(U64(), Pair(children, metadata), d.bucketId, (d.children, d.metadata));
    PairOk(children, metadata, d.children, d.metadata);
    VectorOk(EntryCodec(), MAX_DIRECTORY_CHILDREN, d.children);
    MetadataListBounds(d.metadata);
    forall i | 0 <= i < |d.children| ensures EntryCodec().ok(d.children[i]) <==> EntryInBounds(d.children[i]) {
      EntryBounds(d.children[i]);
    }
  }

  lemma ChunkListBounds(cs: seq<FileChunk>)
    ensures Vector(ChunkCodec(), MAX_FILE_CHUNKS).ok(cs) <==> |cs| <= MAX_FILE_CHUNKS
  {
    assert forall c: FileChunk :: ChunkCodec().ok(c);
  }

  lemma ManifestBoundsAreTheCodecs(m: FileManifest)
    ensures ManifestCodec().ok(m) <==> ManifestInBounds(m)
  {
    hide Pair, Record, Vector, ByteString, MetadataCodec, ChunkCodec;
    var (mime, params) := (ByteString(MAX_MIME_TYPE_LENGTH), ByteString(MAX_ENCRYPTION_PARAMS_LENGTH));
    var (chunks, metadata) :=
      (Vector(ChunkCodec(), MAX_FILE_CHUNKS), Vector(MetadataCodec(), MAX_METADATA_ENTRIES));
    var tail := (m.chunks, (m.encryptionParams, m.userMetadata));
    RecordOk(ManifestFields(), ManifestOf, FieldsOfManifest, m);
    PairOk(U64(), Pair(mime, Pair(U64(), ManifestTailFields())), m.bucketId, (m.mimeType, (m.totalSize, tail)));
    PairOk(mime, Pair(U64(), ManifestTailFields()), m.mimeType, (m.totalSize, tail));
    PairOk(U64(), ManifestTailFields(), m.totalSize, tail);
    PairOk(chunks, Pair(params, metadata), m.chunks, (m.encryptionParams, m.userMetadata));
    PairOk(params, metadata, m.encryptionParams, m.userMetadata);
    ByteStringBounds(MAX_MIME_TYPE_LENGTH, m.mimeType);
    ChunkListBounds(m.chunks);
    ByteStringBounds(MAX_ENCRYPTION_PARAMS_LENGTH, m.encryptionParams);
    MetadataListBounds(m.userMetadata);
  }

  /** Length bound of a codec's blobs: no blob of a value in bounds is longer, and one reaches it. */
  ghost predicate IsMaxBlobLen<T(!new)>(c: Codec<T>, max: nat) {
    && (forall v: T {:trigger ToBlob(c, v)} :: c.ok(v) ==> |ToBlob(c, v)| <= max)
    && (exists v: T {:trigger ToBlob(c, v)} :: c.ok(v) && |ToBlob(c, v)| == max)
  }

  lemma MaxBlobLenIsAttained<T(!new)>(c: Codec<T>)
    requires Lawful(c)
    ensures IsMaxBlobLen(c, MaxBlobLen(c))
  {
    var v: T :| c.ok(v) && |c.enc(v)| == c.max;
    assert |ToBlob(c, v)| == MaxBlobLen(c);
  }

  lemma DirectoryMaxBlobLen()
    ensures MaxBlobLen(DirectoryCodec()) == 335_121
    ensures IsMaxBlobLen(DirectoryCodec(), 335_121)
  {
    hide DirectoryCodec, Lawful;
    DirectoryLawful();
    DirectoryCodecMax();
    MaxBlobLenIsAttained(DirectoryCodec());
  }

  lemma ManifestMaxBlobLen()
    ensures MaxBlobLen(ManifestCodec()) == 2_380_703
    ensures IsMaxBlobLen(ManifestCodec(), 2_380_703)
  {
    hide ManifestCodec, Lawful;
    ManifestLawful();
    ManifestCodecMax();
    MaxBlobLenIsAttained(ManifestCodec());
  }

  lemma DirectoryCodecMax()
    ensures DirectoryCodec().max == 335_116
  {
    assert EntryCodec().max == 307;
    assert MetadataCodec().max == 324;
  }

  lemma ManifestCodecMax()
    ensures ManifestCodec().max == 2_380_698
  {
    assert MetadataCodec().max == 324;
    assert ChunkCodec().max == 36;
  }
}
