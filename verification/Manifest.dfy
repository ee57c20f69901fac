/** File manifests: building one for some content, and the rules a decoded one is checked against. */
module Manifests {
  import opened Wrappers
  import opened Octets
  import opened Format
  import opened Ordered
  import opened Hashing

  /** `application/octet-stream`, in ASCII. */
  const DEFAULT_MIME_TYPE: Bytes :=
    [0x61, 0x70, 0x70, 0x6C, 0x69, 0x63, 0x61, 0x74, 0x69, 0x6F, 0x6E, 0x2F,
     0x6F, 0x63, 0x74, 0x65, 0x74, 0x2D, 0x73, 0x74, 0x72, 0x65, 0x61, 0x6D]

  lemma DefaultMimeType()
    ensures var text := "application/octet-stream";
      |DEFAULT_MIME_TYPE| == |text| && forall i | 0 <= i < |text| :: DEFAULT_MIME_TYPE[i] == text[i] as int
  {
  }

  /** Key-value pairs within the bounds that their type enforces. */
  type UserMetadata = ms: seq<MetadataEntry> | forall m <- ms :: MetadataInBounds(m)

  function KeyOf(m: MetadataEntry): Bytes { m.key }

  /** The number of chunks of `size` bytes. */
  function ChunkTotal(size: nat): nat { (size + CHUNK_SIZE - 1) / CHUNK_SIZE }

  ghost predicate ValidManifest(m: FileManifest) {
    && ManifestInBounds(m)
    && Sorted(KeyOf, m.userMetadata)
    && |m.chunks| == ChunkTotal(m.totalSize)
    && (forall i | 0 <= i < |m.chunks| :: m.chunks[i].sequence == i)
  }

  function ValidateManifest(m: FileManifest): Option<FormatError> {
    if !AdjacentSorted(KeyOf, m.userMetadata) then Some(InvalidManifest)
    else if |m.chunks| != ChunkTotal(m.totalSize) then Some(InvalidManifest)
    else if exists i | 0 <= i < |m.chunks| :: m.chunks[i].sequence != i then Some(InvalidManifest)
    else None
  }

  /** A manifest within its bounds passes the check exactly when it is valid. */
  lemma ValidateManifestMeaning(m: FileManifest)
    requires ManifestInBounds(m)
    ensures ValidateManifest(m) == None <==> ValidManifest(m)
  {
    AdjacentIsSorted(KeyOf, m.userMetadata);
  }

  function ChunkCids(chunks: seq<FileChunk>): (cids: seq<Cid>)
    ensures |cids| == |chunks|
    ensures forall i | 0 <= i < |cids| :: cids[i] == chunks[i].cid
  {
    if chunks == [] then [] else [chunks[0].cid] + ChunkCids(chunks[1..])
  }

  /** Data root of the content. */
  function ContentRoot(k: Crypto, m: FileManifest): Cid { k.merkleRoot(ChunkCids(m.chunks)) }

  /** The chunks of `cids` from number `from` on; the number is truncated to 32 bits. */
  function Numbered(cids: seq<Cid>, from: nat): (chunks: seq<FileChunk>)
    ensures |chunks| == |cids|
    ensures forall i | 0 <= i < |chunks| :: chunks[i] == FileChunk(cids[i], (from + i) % 0x1_0000_0000)
  {
    if cids == [] then []
    else [FileChunk(cids[0], from % 0x1_0000_0000)] + Numbered(cids[1..], from + 1)
  }

  predicate HasAdjacentDuplicate(ms: seq<MetadataEntry>) {
    exists i | 0 <= i < |ms| - 1 :: ms[i].key == ms[i + 1].key
  }

  function ForContent(k: Crypto, bucketId: u64, content: Bytes, mimeType: Bytes, userMetadata: UserMetadata)
    : Result<FileManifest, FormatError>
  {
    var sorted := Sort(KeyOf, userMetadata);
    if HasAdjacentDuplicate(sorted) then Err(DuplicateMetadataKey) else
    var chunks := Numbered(ChunkHashes(k, content), 0);
    var mime := if mimeType == [] then DEFAULT_MIME_TYPE else mimeType;
    if |mime| > MAX_MIME_TYPE_LENGTH then Err(MetadataTooLarge)
    else if |chunks| > MAX_FILE_CHUNKS then Err(ContentTooLarge)
    else if |sorted| > MAX_METADATA_ENTRIES then Err(MetadataTooLarge)
    else Ok(FileManifest(bucketId, mime, |content| % 0x1_0000_0000_0000_0000, chunks, [], sorted))
  }

  // ---- What the manifest of some content says ----

  ghost predicate DistinctKeys(ms: seq<MetadataEntry>) {
    forall i, j | 0 <= i < j < |ms| :: ms[i].key != ms[j].key
  }

  /**
   The manifest is valid, its size and root are the content's, its chunks are the
   content's in order, no number is truncated, and metadata is kept.
   */
  lemma ForContentIsFaithful(k: Crypto, bucketId: u64, content: Bytes, mimeType: Bytes, userMetadata: UserMetadata)
    requires ForContent(k, bucketId, content, mimeType, userMetadata).Ok?
    ensures var m := ForContent(k, bucketId, content, mimeType, userMetadata).value;
      && ValidManifest(m)
      && m.bucketId == bucketId
      && m.totalSize == |content|
      && ContentRoot(k, m) == ComputeCid(k, content)
      && |m.chunks| == (|content| + CHUNK_SIZE - 1) / CHUNK_SIZE
      && (forall i | 0 <= i < |m.chunks| ::
            && i * CHUNK_SIZE <= ChunkEnd(|content|, i)
            && m.chunks[i] == FileChunk(k.hashLeaf(content[i * CHUNK_SIZE..ChunkEnd(|content|, i)]), i))
      && m.encryptionParams == []
      && multiset(m.userMetadata) == multiset(userMetadata)
      && m.mimeType == (if mimeType == [] then DEFAULT_MIME_TYPE else mimeType)
  {
    hide Less, Sort, Chunks, LeafHashes, Numbered, ChunkCids;
    var m := ForContent(k, bucketId, content, mimeType, userMetadata).value;
    ChunkCount(content);
    ChunkHashesAre(k, content);
    assert ChunkCids(m.chunks) == ChunkHashes(k, content);
    SortAscending(KeyOf, userMetadata);
    AscendingDistinct(m.userMetadata);
    forall i | 0 <= i < |m.userMetadata| ensures MetadataInBounds(m.userMetadata[i]) {
      assert m.userMetadata[i] in multiset(userMetadata);
    }
  }

  /** An ascending list without equal neighbours is strictly ascending. */
  lemma AscendingDistinct(ms: seq<MetadataEntry>)
    requires Ascending(KeyOf, ms)
    ensures !HasAdjacentDuplicate(ms) <==> Sorted(KeyOf, ms)
  {
    if !HasAdjacentDuplicate(ms) {
      forall i | 0 <= i < |ms| - 1 ensures Less(KeyOf(ms[i]), KeyOf(ms[i + 1])) {
        LessTotal(ms[i].key, ms[i + 1].key);
        assert !Less(KeyOf(ms[i + 1]), KeyOf(ms[i]));
      }
      AdjacentIsSorted(KeyOf, ms);
    } else {
      var i :| 0 <= i < |ms| - 1 && ms[i].key == ms[i + 1].key;
      LessIrreflexive(ms[i].key);
      assert !Less(KeyOf(ms[i]), KeyOf(ms[i + 1]));
    }
  }

  /** Exactly which inputs give which outcome. */
  lemma ForContentOutcome(k: Crypto, bucketId: u64, content: Bytes, mimeType: Bytes, userMetadata: UserMetadata)
    ensures ForContent(k, bucketId, content, mimeType, userMetadata) == Err(DuplicateMetadataKey)
      <==> !DistinctKeys(userMetadata)
    ensures ForContent(k, bucketId, content, mimeType, userMetadata).Ok? <==>
      && DistinctKeys(userMetadata)
      && |userMetadata| <= MAX_METADATA_ENTRIES
      && |mimeType| <= MAX_MIME_TYPE_LENGTH
      && |content| <= MAX_FILE_CHUNKS * CHUNK_SIZE
    ensures ForContent(k, bucketId, content, mimeType, userMetadata) == Err(ContentTooLarge) <==>
      && DistinctKeys(userMetadata)
      && |mimeType| <= MAX_MIME_TYPE_LENGTH
      && |content| > MAX_FILE_CHUNKS * CHUNK_SIZE
    ensures ForContent(k, bucketId, content, mimeType, userMetadata) == Err(MetadataTooLarge) <==>
      && DistinctKeys(userMetadata)
      && (|mimeType| > MAX_MIME_TYPE_LENGTH
          || (|userMetadata| > MAX_METADATA_ENTRIES && |content| <= MAX_FILE_CHUNKS * CHUNK_SIZE))
  {
    var sorted := Sort(KeyOf, userMetadata);
    SortAscending(KeyOf, userMetadata);
    AscendingDistinct(sorted);
    SortedIsDistinct(sorted);
    if DistinctKeys(userMetadata) { PermutationKeepsDistinct(userMetadata, sorted); }
    if DistinctKeys(sorted) { PermutationKeepsDistinct(sorted, userMetadata); }
    assert |sorted| == |multiset(sorted)| == |multiset(userMetadata)| == |userMetadata|;
    ChunkCount(content);
  }

  lemma SortedIsDistinct(ms: seq<MetadataEntry>)
    requires Ascending(KeyOf, ms)
    ensures Sorted(KeyOf, ms) <==> DistinctKeys(ms)
  {
    if Sorted(KeyOf, ms) {
      forall i, j | 0 <= i < j < |ms| ensures ms[i].key != ms[j].key {
        assert Less(KeyOf(ms[i]), KeyOf(ms[j]));
        LessIrreflexive(ms[i].key);
      }
    }
    if DistinctKeys(ms) {
      assert !HasAdjacentDuplicate(ms);
      AscendingDistinct(ms);
    }
  }

  lemma PermutationKeepsDistinct(a: seq<MetadataEntry>, b: seq<MetadataEntry>)
    requires multiset(a) == multiset(b) && DistinctKeys(a)
    ensures DistinctKeys(b)
  {
    forall i, j | 0 <= i < j < |b| ensures b[i].key != b[j].key {
      assert b[i] in multiset(a) && b[j] in multiset(a);
      var p := Place(a, b[i]);
      var q := Place(a, b[j]);
      if b[i] == b[j] {
        CountsTwice(b, i, j);
        p, q := TwoPlaces(a, b[i]);
      }
    }
  }

  lemma Place<T>(xs: seq<T>, x: T) returns (i: nat)
    requires x in multiset(xs)
    ensures i < |xs| && xs[i] == x
  {
    i :| 0 <= i < |xs| && xs[i] == x;
  }

  lemma CountsTwice<T>(xs: seq<T>, i: nat, j: nat)
    requires i < j < |xs| && xs[i] == xs[j]
    ensures multiset(xs)[xs[i]] >= 2
  {
    assert xs == xs[..j] + [xs[j]] + xs[j + 1..];
    assert xs[i] in xs[..j];
    assert multiset(xs[..j])[xs[i]] >= 1;
  }

  lemma {:induction false} TwoPlaces<T>(xs: seq<T>, x: T) returns (i: nat, j: nat)
    requires multiset(xs)[x] >= 2
    ensures i < j < |xs| && xs[i] == xs[j] == x
    decreases |xs|
  {
    assert xs == [xs[0]] + xs[1..];
    if xs[0] == x {
      assert x in multiset(xs[1..]);
      i := 0;
      j :| 0 < j < |xs| && xs[j] == x;
    } else {
      i, j := TwoPlaces(xs[1..], x);
      i, j := i + 1, j + 1;
    }
  }

  /** The order in which metadata is given does not matter. */
  lemma ForContentIgnoresMetadataOrder(
    k: Crypto, bucketId: u64, content: Bytes, mimeType: Bytes, a: UserMetadata, b: UserMetadata)
    requires multiset(a) == multiset(b)
    ensures ForContent(k, bucketId, content, mimeType, a) == ForContent(k, bucketId, content, mimeType, b)
  {
    var (x, y) := (Sort(KeyOf, a), Sort(KeyOf, b));
    SortAscending(KeyOf, a);
    SortAscending(KeyOf, b);
    ForContentOutcome(k, bucketId, content, mimeType, a);
    ForContentOutcome(k, bucketId, content, mimeType, b);
    if DistinctKeys(a) {
      PermutationKeepsDistinct(a, b);
      PermutationKeepsDistinct(a, x);
      PermutationKeepsDistinct(b, y);
      SortedIsDistinct(x);
      SortedIsDistinct(y);
      forall e ensures e in x <==> e in y {
        assert e in multiset(x) <==> e in multiset(y);
      }
      SortedIsDetermined(KeyOf, x, y);
    } else {
      if DistinctKeys(b) { PermutationKeepsDistinct(b, a); }
    }
  }
}
