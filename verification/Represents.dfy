/**
 When blobs represent a drive. The relation is recursive on the abstract tree, so
 a represented directory is finite and acyclic, every reference in it resolves,
 and a CID is read as a directory or as a manifest only where an entry says so.
 */
module Represents {
  import opened Wrappers
  import opened Octets
  import opened Format
  import opened Hashing
  import opened Directories
  import opened Manifests
  import opened Drives
  import opened Plans

  /** The entry `e` and the blobs below it are the node `n`. */
  ghost predicate RepNode(ctx: Context, blobs: Blobs, e: DirectoryEntry, n: Node)
    decreases n
  {
    e.mtime == n.mtime &&
    match n
    case FileNode(_, m, content) =>
      && e.entryType == File
      && e.size == |content| == m.totalSize
      && ReadManifest(ctx.k, blobs, [], e.cid) == Ok(m)
      && ContentRoot(ctx.k, m) == ComputeCid(ctx.k, content)
      && (content != [] ==> Stored(ctx.k, blobs, content))
    case DirNode(_, kids) =>
      && e.entryType == Directory
      && e.size == 0
      && ReadDir(ctx.k, blobs, [], e.cid).Ok?
      && var d := ReadDir(ctx.k, blobs, [], e.cid).value;
      && d.bucketId == ctx.bucketId
      && EntryMap(d).Keys == kids.Keys
      && forall name | name in kids :: RepNode(ctx, blobs, EntryMap(d)[name], kids[name])
  }

  /** The directory `d` and the blobs below it are the directory `kids`. */
  ghost predicate RepKids(ctx: Context, blobs: Blobs, d: DirectoryNode, kids: Drive) {
    && ValidDirectory(d)
    && d.bucketId == ctx.bucketId
    && EntryMap(d).Keys == kids.Keys
    && forall name | name in kids :: RepNode(ctx, blobs, EntryMap(d)[name], kids[name])
  }

  /** The bucket's last leaf and the blobs are the drive; a bucket without leaves is the empty drive. */
  ghost predicate RepDrive(ctx: Context, blobs: Blobs, leaf: Option<Cid>, drive: Drive) {
    && LoadedRoot(ctx, blobs, leaf).Ok?
    && RepKids(ctx, blobs, LoadedRoot(ctx, blobs, leaf).value, drive)
  }

  /** The blob `b` can be read by its CID. */
  ghost predicate Stored(k: Crypto, blobs: Blobs, b: Bytes) {
    ComputeCid(k, b) in blobs && blobs[ComputeCid(k, b)] == b
  }

  ghost predicate Extends(blobs: Blobs, more: Blobs) {
    forall cid <- blobs :: cid in more && more[cid] == blobs[cid]
  }

  // ---- Reading back what was written ----

  lemma DecodedDirIsValid(path: Bytes, bytes: Bytes, d: DirectoryNode)
    ensures DecodeDir(path, bytes) == Ok(d) <==> ValidDirectory(d) && bytes == DirBlob(d)
  {
    hide DirectoryCodec, FromBlob, ToBlob, Validate, ValidDirectory;
    DirectoryBlobLaw(bytes, d);
    if |d.children| <= MAX_DIRECTORY_CHILDREN {
      ValidateMeaning(d);
    }
    if ValidDirectory(d) {
      ValidIsInBounds(d);
      ChildrenBound(d);
    }
  }

  lemma ChildrenBound(d: DirectoryNode)
    requires ValidDirectory(d)
    ensures |d.children| <= MAX_DIRECTORY_CHILDREN
  {
  }

  lemma DecodedManifestIsValid(path: Bytes, bytes: Bytes, m: FileManifest)
    ensures DecodeManifest(path, bytes) == Ok(m) <==> ValidManifest(m) && bytes == ManifestBlob(m)
  {
    hide ManifestCodec, FromBlob, ToBlob, ValidateManifest;
    ManifestBlobLaw(bytes, m);
    if ManifestInBounds(m) {
      ValidateManifestMeaning(m);
    }
  }

  lemma DirBlobLength(d: DirectoryNode)
    requires ValidDirectory(d)
    ensures |DirBlob(d)| <= MaxBlobLen(DirectoryCodec())
  {
    hide DirectoryCodec, ToBlob, ValidDirectory;
    ValidIsInBounds(d);
    DirectoryBoundsAreTheCodecs(d);
    DirectoryMaxBlobLen();
  }

  lemma ManifestBlobLength(m: FileManifest)
    requires ValidManifest(m)
    ensures |ManifestBlob(m)| <= MaxBlobLen(ManifestCodec())
  {
    hide ManifestCodec, ToBlob;
    ManifestBoundsAreTheCodecs(m);
    ManifestMaxBlobLen();
  }

  /** A read succeeds exactly with a valid directory whose blob is stored; lengths never get in the way. */
  lemma ReadDirMeaning(k: Crypto, blobs: Blobs, path: Bytes, cid: Cid, d: DirectoryNode)
    ensures ReadDir(k, blobs, path, cid) == Ok(d) <==>
      ValidDirectory(d) && Stored(k, blobs, DirBlob(d)) && cid == ComputeCid(k, DirBlob(d))
  {
    hide DirectoryCodec, ToBlob, DecodeDir, ValidDirectory, DirBlob, ComputeCid, MaxBlobLen;
    if cid in blobs {
      DecodedDirIsValid(path, blobs[cid], d);
    }
    if ValidDirectory(d) {
      DirBlobLength(d);
    }
  }

  lemma ReadManifestMeaning(k: Crypto, blobs: Blobs, path: Bytes, cid: Cid, m: FileManifest)
    ensures ReadManifest(k, blobs, path, cid) == Ok(m) <==>
      ValidManifest(m) && Stored(k, blobs, ManifestBlob(m)) && cid == ComputeCid(k, ManifestBlob(m))
  {
    hide ManifestCodec, ToBlob, DecodeManifest, ValidManifest, ManifestBlob, ComputeCid, MaxBlobLen;
    if cid in blobs {
      DecodedManifestIsValid(path, blobs[cid], m);
    }
    if ValidManifest(m) {
      ManifestBlobLength(m);
    }
  }

  lemma ReadRootMeaning(ctx: Context, blobs: Blobs, cid: Cid, d: DirectoryNode)
    ensures ReadRoot(ctx, blobs, cid) == Ok(d) <==>
      && ValidDirectory(d) && d.bucketId == ctx.bucketId
      && Stored(ctx.k, blobs, DirBlob(d)) && cid == ComputeCid(ctx.k, DirBlob(d))
  {
    hide DirectoryCodec, ToBlob, FromBlob, Validate, ValidDirectory, DirBlob, ComputeCid, MaxBlobLen;
    if cid in blobs {
      DecodedDirIsValid([], blobs[cid], d);
    }
    if ValidDirectory(d) {
      DirBlobLength(d);
    }
  }

  /** Reads that succeed do not depend on the path in their error messages. */
  lemma ReadDirAnyPath(k: Crypto, blobs: Blobs, path: Bytes, cid: Cid)
    requires ReadDir(k, blobs, [], cid).Ok?
    ensures ReadDir(k, blobs, path, cid) == ReadDir(k, blobs, [], cid)
  {
    hide DirectoryCodec, MaxBlobLen, ComputeCid, FromBlob, Validate;
  }

  // ---- Growing stores ----

  lemma {:induction false} RepNodeGrows(ctx: Context, blobs: Blobs, more: Blobs, e: DirectoryEntry, n: Node)
    requires RepNode(ctx, blobs, e, n) && Extends(blobs, more)
    ensures RepNode(ctx, more, e, n)
    decreases n
  {
    hide ReadDir, ReadManifest, ValidDirectory, ValidManifest, DirBlob, ManifestBlob, ComputeCid, ContentRoot;
    match n
    case FileNode(_, m, content) =>
      ReadManifestMeaning(ctx.k, blobs, [], e.cid, m);
      ReadManifestMeaning(ctx.k, more, [], e.cid, m);
    case DirNode(_, kids) =>
      var d := ReadDir(ctx.k, blobs, [], e.cid).value;
      ReadDirMeaning(ctx.k, blobs, [], e.cid, d);
      ReadDirMeaning(ctx.k, more, [], e.cid, d);
      forall name | name in kids ensures RepNode(ctx, more, EntryMap(d)[name], kids[name]) {
        RepNodeGrows(ctx, blobs, more, EntryMap(d)[name], kids[name]);
      }
  }

  lemma RepKidsGrows(ctx: Context, blobs: Blobs, more: Blobs, d: DirectoryNode, kids: Drive)
    requires RepKids(ctx, blobs, d, kids) && Extends(blobs, more)
    ensures RepKids(ctx, more, d, kids)
  {
    hide RepNode, ValidDirectory;
    forall name | name in kids ensures RepNode(ctx, more, EntryMap(d)[name], kids[name]) {
      RepNodeGrows(ctx, blobs, more, EntryMap(d)[name], kids[name]);
    }
  }

  // ---- One tree, one CID ----

  /** A stored entry is one node. */
  lemma {:induction false} NodeIsDetermined(ctx: Context, blobs: Blobs, e: DirectoryEntry, a: Node, b: Node)
    requires RepNode(ctx, blobs, e, a) && RepNode(ctx, blobs, e, b)
    ensures a == b
    decreases a
  {
    hide ReadDir, ReadManifest, ComputeCid, ContentRoot;
    match (a, b)
    case (FileNode(_, m, x), FileNode(_, _, y)) =>
    case (DirNode(_, xs), DirNode(_, ys)) =>
      var d := ReadDir(ctx.k, blobs, [], e.cid).value;
      forall name | name in xs ensures xs[name] == ys[name] {
        NodeIsDetermined(ctx, blobs, EntryMap(d)[name], xs[name], ys[name]);
      }
      assert xs == ys;
    case _ =>
  }

  /** A node has one CID, in whatever stores it is represented. */
  lemma {:induction false} EntryIsDetermined(
    ctx: Context, one: Blobs, other: Blobs, a: DirectoryEntry, b: DirectoryEntry, n: Node)
    requires RepNode(ctx, one, a, n) && RepNode(ctx, other, b, n) && a.name == b.name
    ensures a == b
    decreases n
  {
    hide ReadDir, ReadManifest, ComputeCid, ContentRoot, ValidDirectory, DirBlob, ManifestBlob;
    match n
    case FileNode(_, m, _) =>
      ReadManifestMeaning(ctx.k, one, [], a.cid, m);
      ReadManifestMeaning(ctx.k, other, [], b.cid, m);
    case DirNode(_, kids) =>
      var x := ReadDir(ctx.k, one, [], a.cid).value;
      var y := ReadDir(ctx.k, other, [], b.cid).value;
      ReadDirMeaning(ctx.k, one, [], a.cid, x);
      ReadDirMeaning(ctx.k, other, [], b.cid, y);
      forall name | name in kids ensures EntryMap(x)[name] == EntryMap(y)[name] {
        EntryNamed(x, name);
        EntryNamed(y, name);
        EntryIsDetermined(ctx, one, other, EntryMap(x)[name], EntryMap(y)[name], kids[name]);
      }
      assert EntryMap(x) == EntryMap(y);
      DirectoryIsDetermined(x, y);
  }

  /** A drive has one root directory, and so one root CID. */
  lemma RootIsDetermined(ctx: Context, one: Blobs, other: Blobs, x: DirectoryNode, y: DirectoryNode, kids: Drive)
    requires RepKids(ctx, one, x, kids) && RepKids(ctx, other, y, kids)
    ensures x == y
  {
    hide RepNode, ValidDirectory;
    forall name | name in kids ensures EntryMap(x)[name] == EntryMap(y)[name] {
      EntryNamed(x, name);
      EntryNamed(y, name);
      EntryIsDetermined(ctx, one, other, EntryMap(x)[name], EntryMap(y)[name], kids[name]);
    }
    assert EntryMap(x) == EntryMap(y);
    DirectoryIsDetermined(x, y);
  }

  /** A root directory in a store is one drive. */
  lemma DriveIsDetermined(ctx: Context, blobs: Blobs, d: DirectoryNode, a: Drive, b: Drive)
    requires RepKids(ctx, blobs, d, a) && RepKids(ctx, blobs, d, b)
    ensures a == b
  {
    hide RepNode, ValidDirectory;
    forall name | name in a ensures a[name] == b[name] {
      NodeIsDetermined(ctx, blobs, EntryMap(d)[name], a[name], b[name]);
    }
  }
}
