/**
 What a read of a directory, a manifest or a root answers for whatever bytes are
 stored: which bytes it accepts, and which error it gives for all others.
 */
module ReadErrors {
  import opened Wrappers
  import opened Octets
  import opened Format
  import opened Hashing
  import opened Directories
  import opened Manifests
  import opened Paths
  import opened Plans
  import opened Represents
  import opened Layout

  /** The bytes have the magic, and after it another version than 1. */
  predicate OtherVersion(b: Bytes) { |b| >= 5 && b[..4] == [0x57, 0x33, 0x46, 0x53] && b[4] != 1 }

  /** The bytes are those of `d`, which is valid. */
  ghost predicate IsDirectory(b: Bytes, d: DirectoryNode) {
    ValidDirectory(d) && DirectoryInBounds(d) && b == DirectoryBytes(d)
  }

  ghost predicate IsManifest(b: Bytes, m: FileManifest) { ValidManifest(m) && b == ManifestBytes(m) }

  ghost predicate IsSomeDirectory(b: Bytes) { exists d :: IsDirectory(b, d) }

  ghost predicate IsSomeManifest(b: Bytes) { exists m :: IsManifest(b, m) }

  lemma VersionError<T>(c: Scale.Codec<T>, b: Bytes)
    ensures OtherVersion(b) <==> FromBlob(c, b).Err? && FromBlob(c, b).error.UnsupportedVersion?
    ensures OtherVersion(b) ==> FromBlob(c, b) == Err(UnsupportedVersion(b[4]))
  {
  }

  lemma DecodeDirOutcome(path: Bytes, b: Bytes)
    ensures var r := DecodeDir(path, b);
      if OtherVersion(b) then r == Err(UnsupportedFormatVersion(b[4]))
      else if IsSomeDirectory(b) then r.Ok? && IsDirectory(b, r.value)
      else r == Err(InvalidBlob(path))
  {
    hide DirectoryCodec, FromBlob, ValidDirectory, DirBlob, DirectoryBytes, DirectoryInBounds, Validate, OtherVersion;
    VersionError(DirectoryCodec(), b);
    var r := DecodeDir(path, b);
    if r.Ok? {
      DecodedDirIsValid(path, b, r.value);
      BytesOfDirectory(b, r.value);
      assert IsDirectory(b, r.value);
    } else if d :| IsDirectory(b, d) {
      BytesOfDirectory(b, d);
      DecodedDirIsValid(path, b, d);
    }
  }

  lemma BytesOfDirectory(b: Bytes, d: DirectoryNode)
    requires ValidDirectory(d)
    ensures IsDirectory(b, d) <==> b == DirBlob(d)
  {
    hide DirectoryCodec, ToBlob, DirectoryBytes, ValidDirectory;
    ValidIsInBounds(d);
    DirectoryLayoutLaw(b, d);
  }

  lemma DecodeManifestOutcome(path: Bytes, b: Bytes)
    ensures var r := DecodeManifest(path, b);
      if OtherVersion(b) then r == Err(UnsupportedFormatVersion(b[4]))
      else if IsSomeManifest(b) then r.Ok? && IsManifest(b, r.value)
      else r == Err(InvalidBlob(path))
  {
    hide ManifestCodec, FromBlob, ValidManifest, ManifestBlob, ManifestBytes, ValidateManifest, OtherVersion;
    VersionError(ManifestCodec(), b);
    var r := DecodeManifest(path, b);
    if r.Ok? {
      DecodedManifestIsValid(path, b, r.value);
      BytesOfManifest(b, r.value);
      assert IsManifest(b, r.value);
    } else if m :| IsManifest(b, m) {
      BytesOfManifest(b, m);
      DecodedManifestIsValid(path, b, m);
    }
  }

  lemma BytesOfManifest(b: Bytes, m: FileManifest)
    requires ValidManifest(m)
    ensures IsManifest(b, m) <==> b == ManifestBlob(m)
  {
    hide ManifestCodec, ToBlob, ManifestBytes;
    ManifestLayoutLaw(b, m);
  }

  /**
   Reading a directory: missing, too long, not this CID, of another version, no valid
   directory, or that directory.
   */
  lemma ReadDirOutcome(k: Crypto, blobs: Blobs, path: Bytes, cid: Cid)
    ensures var r := ReadDir(k, blobs, path, cid);
      if cid !in blobs then r == Err(MissingBlob(cid))
      else
        var b := blobs[cid];
        if |b| > 335_121 then r == Err(InvalidBlob(path))
        else if ComputeCid(k, b) != cid then r == Err(CidMismatch(cid, ComputeCid(k, b)))
        else if OtherVersion(b) then r == Err(UnsupportedFormatVersion(b[4]))
        else if IsSomeDirectory(b) then r.Ok? && IsDirectory(b, r.value)
        else r == Err(InvalidBlob(path))
  {
    hide DecodeDir, DirectoryCodec, MaxBlobLen, ComputeCid, OtherVersion, IsSomeDirectory, IsDirectory;
    DirectoryMaxBlobLen();
    if cid in blobs {
      DecodeDirOutcome(path, blobs[cid]);
    }
  }

  /** The same for a manifest. */
  lemma ReadManifestOutcome(k: Crypto, blobs: Blobs, path: Bytes, cid: Cid)
    ensures var r := ReadManifest(k, blobs, path, cid);
      if cid !in blobs then r == Err(MissingBlob(cid))
      else
        var b := blobs[cid];
        if |b| > 2_380_703 then r == Err(InvalidBlob(path))
        else if ComputeCid(k, b) != cid then r == Err(CidMismatch(cid, ComputeCid(k, b)))
        else if OtherVersion(b) then r == Err(UnsupportedFormatVersion(b[4]))
        else if IsSomeManifest(b) then r.Ok? && IsManifest(b, r.value)
        else r == Err(InvalidBlob(path))
  {
    hide DecodeManifest, ManifestCodec, MaxBlobLen, ComputeCid, OtherVersion, IsSomeManifest, IsManifest;
    ManifestMaxBlobLen();
    if cid in blobs {
      DecodeManifestOutcome(path, blobs[cid]);
    }
  }

  /** The same for a root, which must be a directory of this bucket: otherwise the bucket is not a drive. */
  lemma ReadRootOutcome(ctx: Context, blobs: Blobs, cid: Cid)
    ensures var r := ReadRoot(ctx, blobs, cid);
      if cid !in blobs then r == Err(MissingBlob(cid))
      else
        var b := blobs[cid];
        if |b| > 335_121 then r == Err(NotAFileSystemBucket)
        else if ComputeCid(ctx.k, b) != cid then r == Err(CidMismatch(cid, ComputeCid(ctx.k, b)))
        else if OtherVersion(b) then r == Err(UnsupportedFormatVersion(b[4]))
        else if exists d :: IsDirectory(b, d) && d.bucketId == ctx.bucketId
        then r.Ok? && IsDirectory(b, r.value) && r.value.bucketId == ctx.bucketId
        else r == Err(NotAFileSystemBucket)
  {
    hide DirectoryCodec, FromBlob, Validate, MaxBlobLen, ComputeCid, OtherVersion, IsDirectory, ValidDirectory, DirBlob;
    DirectoryMaxBlobLen();
    if cid in blobs {
      var (r, b) := (ReadRoot(ctx, blobs, cid), blobs[cid]);
      VersionError(DirectoryCodec(), b);
      DecodeDirOutcome([], b);
      forall d | IsDirectory(b, d) && d.bucketId == ctx.bucketId && |b| <= 335_121 && ComputeCid(ctx.k, b) == cid
        ensures r == Ok(d)
      {
        assert ValidDirectory(d) by { DirectoryOfBytes(b, d); }
        BytesOfDirectory(b, d);
        ReadRootMeaning(ctx, blobs, cid, d);
      }
      if r.Ok? {
        ReadRootMeaning(ctx, blobs, cid, r.value);
        BytesOfDirectory(b, r.value);
      }
    }
  }

  lemma DirectoryOfBytes(b: Bytes, d: DirectoryNode)
    requires IsDirectory(b, d)
    ensures ValidDirectory(d)
  {
  }

  /** Reading a blob of a known length: missing, of another length, not this CID, or these bytes. */
  lemma ReadContentOutcome(k: Crypto, blobs: Blobs, path: Bytes, cid: Cid, size: nat)
    ensures var r := ReadBlob(k, blobs, path, cid, Exact(size));
      if cid !in blobs then r == Err(MissingBlob(cid))
      else if |blobs[cid]| != size then r == Err(InvalidBlob(path))
      else if ComputeCid(k, blobs[cid]) != cid then r == Err(CidMismatch(cid, ComputeCid(k, blobs[cid])))
      else r == Ok(blobs[cid])
  {
    hide ComputeCid;
  }

  // ---- What is valid ----

  /** `a` comes before `b` byte by byte. */
  ghost predicate Before(a: Bytes, b: Bytes) { exists i: nat :: FirstDifference(a, b, i) }

  /** The rules of a directory: at most 1024 children by ascending name, directories of size 0, no metadata. */
  lemma DirectoryRules(d: DirectoryNode)
    ensures ValidDirectory(d) <==>
      && |d.children| <= 1024 && d.metadata == []
      && (forall i | 0 <= i < |d.children| :: IsName(d.children[i].name))
      && (forall i | 0 <= i < |d.children| :: d.children[i].entryType == Directory ==> d.children[i].size == 0)
      && (forall i, j | 0 <= i < j < |d.children| :: Before(d.children[i].name, d.children[j].name))
  {
    hide Less, FirstDifference, ValidName, IsName;
    forall i | 0 <= i < |d.children| ensures ValidName(d.children[i].name) <==> IsName(d.children[i].name) {
      NameMeaning(d.children[i].name);
    }
    forall i, j | 0 <= i < j < |d.children|
      ensures Less(NameOf(d.children[i]), NameOf(d.children[j])) <==> Before(d.children[i].name, d.children[j].name)
    {
      LessMeaning(d.children[i].name, d.children[j].name);
    }
    assert forall i | 0 <= i < |d.children| :: d.children[i] in d.children;
  }

  /** The rules of a manifest: a chunk for each started 256 KiB, numbered in order, metadata by ascending key. */
  lemma ManifestRules(m: FileManifest)
    ensures ValidManifest(m) <==>
      && |m.mimeType| <= 128 && |m.chunks| <= 65536 && |m.encryptionParams| <= 512 && |m.userMetadata| <= 64
      && (forall i | 0 <= i < |m.userMetadata| :: |m.userMetadata[i].key| <= 64 && |m.userMetadata[i].value| <= 256)
      && (forall i, j | 0 <= i < j < |m.userMetadata| :: Before(m.userMetadata[i].key, m.userMetadata[j].key))
      && |m.chunks| == (m.totalSize + 262_143) / 262_144
      && (forall i | 0 <= i < |m.chunks| :: m.chunks[i].sequence == i)
  {
    hide Less, FirstDifference;
    forall i, j | 0 <= i < j < |m.userMetadata|
      ensures Less(KeyOf(m.userMetadata[i]), KeyOf(m.userMetadata[j]))
        <==> Before(m.userMetadata[i].key, m.userMetadata[j].key)
    {
      LessMeaning(m.userMetadata[i].key, m.userMetadata[j].key);
    }
  }
}
