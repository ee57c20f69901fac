/**
 Reading a drive: what `list`, `stat` and `get_file` answer from blobs, that they
 answer what the drive says, and that two stores cannot answer differently for
 the same root.
 */
module Reads {
  import opened Wrappers
  import opened Octets
  import opened Format
  import opened Hashing
  import opened Directories
  import opened Manifests
  import opened Paths
  import opened Drives
  import opened Zippers
  import opened Plans
  import opened Represents
  import opened OperationRefinement

  datatype FileStat = FileStat(entry: DirectoryEntry, manifest: FileManifest)

  datatype FileContent = FileContent(stat: FileStat, data: Bytes)

  // ---- On blobs ----

  /** The directory at `names`. */
  function DirOf(ctx: Context, blobs: Blobs, root: DirectoryNode, names: seq<Name>): Result<DirectoryNode, FsError> {
    match ExtendChain(ctx, blobs, [root], names, false)
    case Err(e) => Err(e)
    case Ok(chain) => Ok(chain[|names|])
  }

  /** The file `name` of the directory `d`. */
  function StatIn(ctx: Context, blobs: Blobs, d: DirectoryNode, name: Name, path: Bytes): Result<FileStat, FsError> {
    match Found(d, name)
    case None => Err(PathNotFound(path))
    case Some(entry) =>
      if entry.entryType != File then Err(NotAFile(path)) else
      match ReadManifest(ctx.k, blobs, path, entry.cid)
      case Err(e) => Err(e)
      case Ok(m) => Ok(FileStat(entry, m))
  }

  /** The content that `stat` describes; empty content is not read. */
  function ContentOf(ctx: Context, blobs: Blobs, stat: FileStat, path: Bytes): Result<FileContent, FsError> {
    if stat.manifest.totalSize == 0 then Ok(FileContent(stat, [])) else
    match ReadBlob(ctx.k, blobs, path, ContentRoot(ctx.k, stat.manifest), Exact(stat.manifest.totalSize))
    case Err(e) => Err(e)
    case Ok(data) => Ok(FileContent(stat, data))
  }

  // ---- From the last leaf, by path ----

  function DirAnswer(ctx: Context, blobs: Blobs, leaf: Option<Cid>, names: seq<Name>): Result<DirectoryNode, FsError> {
    match LoadedRoot(ctx, blobs, leaf)
    case Err(e) => Err(e)
    case Ok(root) => DirOf(ctx, blobs, root, names)
  }

  function ListAnswer(ctx: Context, blobs: Blobs, leaf: Option<Cid>, path: Bytes)
    : Result<seq<DirectoryEntry>, FsError>
  {
    match ParsePath(path)
    case Err(e) => Err(e)
    case Ok(names) =>
      match DirAnswer(ctx, blobs, leaf, names)
      case Err(e) => Err(e)
      case Ok(d) => Ok(d.children)
  }

  function StatAnswer(ctx: Context, blobs: Blobs, leaf: Option<Cid>, path: Bytes): Result<FileStat, FsError> {
    match NamesBelowRoot(path, NotAFile(path))
    case Err(e) => Err(e)
    case Ok(names) =>
      match DirAnswer(ctx, blobs, leaf, Parents(names))
      case Err(e) => Err(e)
      case Ok(d) => StatIn(ctx, blobs, d, Last(names), path)
  }

  function GetAnswer(ctx: Context, blobs: Blobs, leaf: Option<Cid>, path: Bytes): Result<FileContent, FsError> {
    match StatAnswer(ctx, blobs, leaf, path)
    case Err(e) => Err(e)
    case Ok(stat) => ContentOf(ctx, blobs, stat, path)
  }

  // ---- On drives ----

  /** The directory at `done + names`, where `kids` is the one at `done`. */
  function DirAt(kids: Drive, done: seq<Name>, names: seq<Name>): Result<Drive, FsError>
    decreases |names|
  {
    if names == [] then Ok(kids)
    else match SubDirectory(kids, done, names[0], Existing)
      case Err(e) => Err(e)
      case Ok(sub) => DirAt(sub, done + [names[0]], names[1..])
  }

  /** The file at `names`. */
  function FileAt(drive: Drive, names: seq<Name>, path: Bytes): Result<Node, FsError>
    requires names != []
  {
    match DirAt(drive, [], Parents(names))
    case Err(e) => Err(e)
    case Ok(kids) =>
      if Last(names) !in kids then Err(PathNotFound(path))
      else if kids[Last(names)].DirNode? then Err(NotAFile(path))
      else Ok(kids[Last(names)])
  }

  /** The directory at `path`, or the first error: of the path, of the root or of the drive. */
  function DirByPath(ctx: Context, blobs: Blobs, leaf: Option<Cid>, drive: Drive, path: Bytes): Result<Drive, FsError> {
    match ParsePath(path)
    case Err(e) => Err(e)
    case Ok(names) =>
      match LoadedRoot(ctx, blobs, leaf)
      case Err(e) => Err(e)
      case Ok(_) => DirAt(drive, [], names)
  }

  /** The file at `path`, or the first error: of the path, of the root or of the drive. */
  function FileByPath(ctx: Context, blobs: Blobs, leaf: Option<Cid>, drive: Drive, path: Bytes): Result<Node, FsError> {
    match NamesBelowRoot(path, NotAFile(path))
    case Err(e) => Err(e)
    case Ok(names) =>
      match LoadedRoot(ctx, blobs, leaf)
      case Err(e) => Err(e)
      case Ok(_) => FileAt(drive, names, path)
  }

  // ---- Reads answer what the drive says ----

  lemma {:induction false} DirAtByWalk(kids: Drive, done: seq<Name>, names: seq<Name>)
    ensures Extend(done, [kids], names, Existing).Err? ==>
      DirAt(kids, done, names) == Err(Extend(done, [kids], names, Existing).error)
    ensures Extend(done, [kids], names, Existing).Ok? ==>
      && |Extend(done, [kids], names, Existing).value| == |names| + 1
      && DirAt(kids, done, names) == Ok(Extend(done, [kids], names, Existing).value[|names|])
    decreases |names|
  {
    hide ValidName, Join;
    ExtendLength(done, [kids], names, Existing);
    if names != [] {
      assert done + names[..0] == done;
      match SubDirectory(kids, done, names[0], Existing)
      case Err(_) =>
      case Ok(sub) =>
        assert [kids] + [sub] == [kids, sub];
        ExtendTail(done, kids, [sub], names, Existing);
        DirAtByWalk(sub, done + [names[0]], names[1..]);
    }
  }

  /** The directory that is read is the directory of the drive, or the error is the same. */
  lemma DirRefines(ctx: Context, blobs: Blobs, root: DirectoryNode, drive: Drive, names: seq<Name>)
    requires RepKids(ctx, blobs, root, drive)
    ensures DirAt(drive, [], names).Err? ==> DirOf(ctx, blobs, root, names) == Err(DirAt(drive, [], names).error)
    ensures DirAt(drive, [], names).Ok? ==>
      && DirOf(ctx, blobs, root, names).Ok?
      && RepKids(ctx, blobs, DirOf(ctx, blobs, root, names).value, DirAt(drive, [], names).value)
  {
    hide RepKids, Extend, ExtendChain, DirAt;
    WalkRefines(ctx, blobs, root, drive, names, Existing);
    DirAtByWalk(drive, [], names);
  }

  /** If the root can be loaded, it is the drive. */
  ghost predicate RootIsDrive(ctx: Context, blobs: Blobs, leaf: Option<Cid>, drive: Drive) {
    LoadedRoot(ctx, blobs, leaf).Ok? ==> RepDrive(ctx, blobs, leaf, drive)
  }

  lemma DirAnswerRefines(ctx: Context, blobs: Blobs, leaf: Option<Cid>, names: seq<Name>, drive: Drive)
    requires RootIsDrive(ctx, blobs, leaf, drive)
    ensures LoadedRoot(ctx, blobs, leaf).Err? ==>
      DirAnswer(ctx, blobs, leaf, names) == Err(LoadedRoot(ctx, blobs, leaf).error)
    ensures LoadedRoot(ctx, blobs, leaf).Ok? && DirAt(drive, [], names).Err? ==>
      DirAnswer(ctx, blobs, leaf, names) == Err(DirAt(drive, [], names).error)
    ensures LoadedRoot(ctx, blobs, leaf).Ok? && DirAt(drive, [], names).Ok? ==>
      && DirAnswer(ctx, blobs, leaf, names).Ok?
      && RepKids(ctx, blobs, DirAnswer(ctx, blobs, leaf, names).value, DirAt(drive, [], names).value)
  {
    hide LoadedRoot, RepKids, DirAt, DirOf;
    if LoadedRoot(ctx, blobs, leaf).Ok? {
      DirRefines(ctx, blobs, LoadedRoot(ctx, blobs, leaf).value, drive, names);
    }
  }

  /** `list` gives the entries of the directory, sorted and without duplicates, or the first error. */
  lemma ListRefines(ctx: Context, blobs: Blobs, leaf: Option<Cid>, drive: Drive, path: Bytes)
    requires RootIsDrive(ctx, blobs, leaf, drive)
    ensures var (r, want) := (ListAnswer(ctx, blobs, leaf, path), DirByPath(ctx, blobs, leaf, drive, path));
      && (want.Err? ==> r == Err(want.error))
      && (want.Ok? ==> r.Ok? && AreEntriesOf(ctx, blobs, r.value, want.value))
  {
    hide DirAnswer, LoadedRoot, DirAt, RepKids, AreEntriesOf;
    if ParsePath(path).Ok? {
      DirAnswerRefines(ctx, blobs, leaf, ParsePath(path).value, drive);
      if DirByPath(ctx, blobs, leaf, drive, path).Ok? {
        EntriesOfDir(ctx, blobs, DirAnswer(ctx, blobs, leaf, ParsePath(path).value).value,
          DirByPath(ctx, blobs, leaf, drive, path).value);
      }
    }
  }

  /** Sorted entries that stand for exactly these children. */
  ghost predicate AreEntriesOf(ctx: Context, blobs: Blobs, entries: seq<DirectoryEntry>, kids: Drive) {
    && Ordered.Sorted(NameOf, entries)
    && |entries| == |kids|
    && (forall name | name in kids :: exists e :: e in entries && e.name == name && RepNode(ctx, blobs, e, kids[name]))
  }

  lemma EntriesOfDir(ctx: Context, blobs: Blobs, d: DirectoryNode, kids: Drive)
    requires RepKids(ctx, blobs, d, kids)
    ensures AreEntriesOf(ctx, blobs, d.children, kids)
  {
    hide RepNode;
    EntryCount(d);
    assert |kids| == |kids.Keys| && |EntryMap(d)| == |EntryMap(d).Keys|;
    forall name | name in kids
      ensures exists e :: e in d.children && e.name == name && RepNode(ctx, blobs, e, kids[name])
    {
      EntryNamed(d, name);
      var i := Ordered.ByKeyIndex(NameOf, d.children, name);
      assert d.children[i] in d.children;
    }
  }

  /** `stat` gives the entry and the manifest of the file, or the first error. */
  lemma StatRefines(ctx: Context, blobs: Blobs, leaf: Option<Cid>, drive: Drive, path: Bytes)
    requires RootIsDrive(ctx, blobs, leaf, drive)
    ensures var (r, want) := (StatAnswer(ctx, blobs, leaf, path), FileByPath(ctx, blobs, leaf, drive, path));
      && (want.Err? ==> r == Err(want.error))
      && (want.Ok? ==> r.Ok? && IsStatOf(ctx, blobs, r.value, want.value, Last(ParsePath(path).value)))
  {
    hide DirAnswer, LoadedRoot, DirAt, RepKids, IsStatOf, StatIn;
    if NamesBelowRoot(path, NotAFile(path)).Ok? {
      var names := NamesBelowRoot(path, NotAFile(path)).value;
      DirAnswerRefines(ctx, blobs, leaf, Parents(names), drive);
      if LoadedRoot(ctx, blobs, leaf).Ok? && DirAt(drive, [], Parents(names)).Ok? {
        FileOfDir(ctx, blobs, DirAnswer(ctx, blobs, leaf, Parents(names)).value, drive, names, path);
      }
    }
  }

  /** The entry and the manifest of this file, under this name. */
  ghost predicate IsStatOf(ctx: Context, blobs: Blobs, stat: FileStat, file: Node, name: Name) {
    && file.FileNode? && stat.manifest == file.manifest
    && stat.entry.name == name && RepNode(ctx, blobs, stat.entry, file)
  }

  lemma FileOfDir(ctx: Context, blobs: Blobs, d: DirectoryNode, drive: Drive, names: seq<Name>, path: Bytes)
    requires names != [] && DirAt(drive, [], Parents(names)).Ok?
    requires RepKids(ctx, blobs, d, DirAt(drive, [], Parents(names)).value)
    ensures var (r, want) := (StatIn(ctx, blobs, d, Last(names), path), FileAt(drive, names, path));
      && (want.Err? ==> r == Err(want.error))
      && (want.Ok? ==> r.Ok? && IsStatOf(ctx, blobs, r.value, want.value, Last(names)))
  {
    hide DirAt, RepKids, Found, ReadManifest, ReadDir, ContentRoot, ComputeCid, ValidName, EntryMap;
    var kids := DirAt(drive, [], Parents(names)).value;
    ChildRefines(ctx, blobs, d, kids, Last(names));
    if Last(names) in kids && kids[Last(names)].FileNode? {
      ReadManifestAnyPath(ctx.k, blobs, path, Found(d, Last(names)).value.cid);
    }
  }

  lemma ReadManifestAnyPath(k: Crypto, blobs: Blobs, path: Bytes, cid: Cid)
    requires ReadManifest(k, blobs, [], cid).Ok?
    ensures ReadManifest(k, blobs, path, cid) == ReadManifest(k, blobs, [], cid)
  {
    hide ManifestCodec, MaxBlobLen, ComputeCid, FromBlob, ValidateManifest;
  }

  /** `get_file` gives exactly the content of the file and its `stat`, or the first error. */
  lemma GetRefines(ctx: Context, blobs: Blobs, leaf: Option<Cid>, drive: Drive, path: Bytes)
    requires RootIsDrive(ctx, blobs, leaf, drive)
    ensures var (r, want) := (GetAnswer(ctx, blobs, leaf, path), FileByPath(ctx, blobs, leaf, drive, path));
      && (want.Err? ==> r == Err(want.error))
      && (want.Ok? ==> r.Ok? && IsContentOf(ctx, blobs, r.value, want.value, Last(ParsePath(path).value)))
  {
    hide StatAnswer, FileAt, LoadedRoot, ContentOf, RootIsDrive, IsStatOf, IsContentOf;
    StatRefines(ctx, blobs, leaf, drive, path);
    var want := FileByPath(ctx, blobs, leaf, drive, path);
    if want.Ok? {
      var name := Last(ParsePath(path).value);
      ContentRefines(ctx, blobs, StatAnswer(ctx, blobs, leaf, path).value, want.value, name, path);
    }
  }

  /** The content of this file, with its entry and manifest under this name. */
  ghost predicate IsContentOf(ctx: Context, blobs: Blobs, content: FileContent, file: Node, name: Name) {
    IsStatOf(ctx, blobs, content.stat, file, name) && content.data == file.content
  }

  lemma ContentRefines(ctx: Context, blobs: Blobs, stat: FileStat, file: Node, name: Name, path: Bytes)
    requires IsStatOf(ctx, blobs, stat, file, name)
    ensures var r := ContentOf(ctx, blobs, stat, path);
      r.Ok? && IsContentOf(ctx, blobs, r.value, file, name)
  {
    hide ReadManifest, ReadDir, ContentRoot, ComputeCid, EntryMap, RepKids;
  }

  // ---- Authenticated reads ----

  /** Every answer of both stores, as byte strings. */
  ghost function Answers(one: Blobs, other: Blobs): set<Bytes> { one.Values + other.Values }

  /** If both reads succeed, they give the same answer. */
  ghost predicate Agree<T>(x: Result<T, FsError>, y: Result<T, FsError>) {
    x.Ok? && y.Ok? ==> x == y
  }

  /** Two successful reads of one CID give the same bytes. */
  lemma SameBytes(
    k: Crypto, one: Blobs, other: Blobs, path: Bytes, path': Bytes, cid: Cid, length: BlobLength, length': BlobLength)
    requires NoCollision(k, Answers(one, other))
    requires ReadBlob(k, one, path, cid, length).Ok? && ReadBlob(k, other, path', cid, length').Ok?
    ensures ReadBlob(k, one, path, cid, length) == ReadBlob(k, other, path', cid, length')
  {
    assert one[cid] in one.Values && other[cid] in other.Values;
  }

  lemma SameDir(k: Crypto, one: Blobs, other: Blobs, path: Bytes, cid: Cid)
    requires NoCollision(k, Answers(one, other))
    requires ReadDir(k, one, path, cid).Ok? && ReadDir(k, other, path, cid).Ok?
    ensures ReadDir(k, one, path, cid) == ReadDir(k, other, path, cid)
  {
    hide DecodeDir, DirectoryCodec, MaxBlobLen, ReadBlob, NoCollision;
    var length := AtMost(MaxBlobLen(DirectoryCodec()));
    SameBytes(k, one, other, path, path, cid, length, length);
  }

  lemma SameManifest(k: Crypto, one: Blobs, other: Blobs, path: Bytes, cid: Cid)
    requires NoCollision(k, Answers(one, other))
    requires ReadManifest(k, one, path, cid).Ok? && ReadManifest(k, other, path, cid).Ok?
    ensures ReadManifest(k, one, path, cid) == ReadManifest(k, other, path, cid)
  {
    hide DecodeManifest, ManifestCodec, MaxBlobLen, ReadBlob, NoCollision;
    var length := AtMost(MaxBlobLen(ManifestCodec()));
    SameBytes(k, one, other, path, path, cid, length, length);
  }

  lemma {:induction false} SameChain(
    ctx: Context, one: Blobs, other: Blobs, chain: DirChain, names: seq<Name>, createMissing: bool)
    requires NoCollision(ctx.k, Answers(one, other))
    requires ExtendChain(ctx, one, chain, names, createMissing).Ok?
      && ExtendChain(ctx, other, chain, names, createMissing).Ok?
    ensures ExtendChain(ctx, one, chain, names, createMissing) == ExtendChain(ctx, other, chain, names, createMissing)
    decreases |names| + 1 - |chain|
  {
    hide Found, ReadDir, NoCollision, Join, ValidName;
    if |chain| <= |names| {
      var depth := |chain| - 1;
      var found := Found(chain[depth], names[depth]);
      if found.Some? {
        SameDir(ctx.k, one, other, Join(names[..depth] + [names[depth]]), found.value.cid);
      }
      var next := NextDir(ctx, one, chain[depth], names[..depth], names[depth], createMissing).value;
      SameChain(ctx, one, other, chain + [next], names, createMissing);
    }
  }

  lemma SameRoot(ctx: Context, one: Blobs, other: Blobs, cid: Cid)
    requires NoCollision(ctx.k, Answers(one, other))
    requires ReadRoot(ctx, one, cid).Ok? && ReadRoot(ctx, other, cid).Ok?
    ensures ReadRoot(ctx, one, cid) == ReadRoot(ctx, other, cid)
  {
    hide DirectoryCodec, MaxBlobLen, FromBlob, Validate;
    assert one[cid] in one.Values && other[cid] in other.Values;
  }

  /**
   For any two stores, honest or not, and the same root CID: reads of the same path
   that succeed on both give the same answer.
   */
  lemma ReadsAreAuthenticated(ctx: Context, one: Blobs, other: Blobs, leaf: Option<Cid>, path: Bytes)
    requires NoCollision(ctx.k, Answers(one, other))
    ensures Agree(ListAnswer(ctx, one, leaf, path), ListAnswer(ctx, other, leaf, path))
    ensures Agree(StatAnswer(ctx, one, leaf, path), StatAnswer(ctx, other, leaf, path))
    ensures Agree(GetAnswer(ctx, one, leaf, path), GetAnswer(ctx, other, leaf, path))
  {
    hide ReadManifest, ReadBlob, NoCollision, DirAnswer, ContentRoot, StatIn;
    if ParsePath(path).Ok? {
      var names := ParsePath(path).value;
      SameDirectory(ctx, one, other, leaf, names);
      if names != [] {
        SameDirectory(ctx, one, other, leaf, Parents(names));
        SameStat(ctx, one, other, leaf, names, path);
        var (x, y) := (GetAnswer(ctx, one, leaf, path), GetAnswer(ctx, other, leaf, path));
        if x.Ok? && y.Ok? && x.value.stat.manifest.totalSize != 0 {
          var m := x.value.stat.manifest;
          SameBytes(ctx.k, one, other, path, path, ContentRoot(ctx.k, m), Exact(m.totalSize), Exact(m.totalSize));
        }
      }
    }
  }

  lemma SameDirectory(ctx: Context, one: Blobs, other: Blobs, leaf: Option<Cid>, names: seq<Name>)
    requires NoCollision(ctx.k, Answers(one, other))
    ensures Agree(DirAnswer(ctx, one, leaf, names), DirAnswer(ctx, other, leaf, names))
  {
    hide ReadRoot, NoCollision, ExtendChain;
    if DirAnswer(ctx, one, leaf, names).Ok? && DirAnswer(ctx, other, leaf, names).Ok? {
      if leaf.Some? {
        SameRoot(ctx, one, other, leaf.value);
      }
      SameChain(ctx, one, other, [LoadedRoot(ctx, one, leaf).value], names, false);
    }
  }

  lemma SameStat(ctx: Context, one: Blobs, other: Blobs, leaf: Option<Cid>, names: seq<Name>, path: Bytes)
    requires NoCollision(ctx.k, Answers(one, other)) && ParsePath(path) == Ok(names) && names != []
    requires Agree(DirAnswer(ctx, one, leaf, Parents(names)), DirAnswer(ctx, other, leaf, Parents(names)))
    ensures Agree(StatAnswer(ctx, one, leaf, path), StatAnswer(ctx, other, leaf, path))
  {
    hide ReadManifest, NoCollision, DirAnswer, Found;
    if StatAnswer(ctx, one, leaf, path).Ok? && StatAnswer(ctx, other, leaf, path).Ok? {
      var d := DirAnswer(ctx, one, leaf, Parents(names)).value;
      SameManifest(ctx.k, one, other, path, Found(d, Last(names)).value.cid);
    }
  }
}
