/**
 The file tree of one bucket: the operations on a store, step by step. Each is
 proved against the plan of the same name, and so against the operation on
 drives.
 */
module Trees {
  import opened Wrappers
  import opened Octets
  import opened Format
  import opened Hashing
  import opened Directories
  import opened Manifests
  import opened Paths
  import opened Drives
  import opened Plans
  import opened Represents
  import opened Refinement
  import opened Reads
  import opened Stores
  import opened Effects
  import opened Listings

  /** The current root directory; a drive without commits has no root CID. */
  datatype Root = Root(cid: Option<Cid>, node: DirectoryNode)

  /** `encoded`, then what a rewrite encodes. */
  ghost function After(encoded: seq<Bytes>, r: Result<Rewritten, FsError>): Result<Rewritten, FsError> {
    match r
    case Err(e) => Err(e)
    case Ok(w) => Ok(Rewritten(encoded + w.encoded, w.chain))
  }

  class Tree {
    const store: MemoryStore
    const bucketId: u64

    constructor (store: MemoryStore, bucketId: u64)
      ensures this.store == store && this.bucketId == bucketId
    {
      this.store, this.bucketId := store, bucketId;
    }

    function Ctx(): Context { Context(store.k, bucketId) }

    // ---- Root discovery ----

    /** One read of the last leaf: a commitment, and a proof of its last leaf. */
    method ReadLastLeaf() returns (r: Result<Option<Cid>, FsError>)
      requires store.Valid()
      modifies store
      ensures store.Valid()
      ensures OneRead(store.k, old(Now()), old(Surroundings()), Now(), Surroundings())
      ensures r.Ok? && (MmrSound(store.k, store.trail) || old(store.forged) == []) ==>
        r.value == LastLeafOf(old(store.commits))
      ensures r.Err? ==>
        && r.error == InvalidMmrProof && store.forged == Tail(old(store.forged))
        && (MmrComplete(store.k, store.trail) ==> CanFail(old(Surroundings()), 0))
    {
      ghost var leaves := store.Leaves();
      var commitment := store.Commitment();
      if commitment == None {
        return Ok(None);
      }
      var index := commitment.value.leafCount - 1;
      if store.commits != old(store.commits) {
        FlattenAppend(old(store.commits), [ComputeCid(store.k, old(store.racing)[0])]);
      }
      var proof := store.MmrProof(index);
      if !store.k.verifyMmrProof(proof, index, commitment.value) {
        return Err(InvalidMmrProof);
      }
      return Ok(Some(proof.leaf));
    }

    /** The last leaf, with one more read if the first proof is not one. */
    method LastLeaf() returns (r: Result<Option<Cid>, FsError>)
      requires store.Valid()
      modifies store
      ensures store.Valid() && Interleaved(store.k, old(Now()), old(store.racing), Now())
      ensures r.Ok? ==> RightLeaf(store.k, old(Surroundings()), old(Now()), RootSeen(Now(), r.value))
      ensures r.Err? ==> LostBoth(store.k, old(Surroundings()), Now(), r)
    {
      hide ComputeCid, LastLeafOf, MmrSound, MmrComplete;
      r := ReadLastLeaf();
      OneReadInterleaves(store.k, old(Now()), old(Surroundings()), Now(), Surroundings());
      if r.Err? {
        ghost var (between, around) := (Now(), Surroundings());
        r := ReadLastLeaf();
        TwoReadsInterleave(store.k, old(Now()), old(Surroundings()), between, around, Now(), Surroundings());
        ShorterTrail(store.k, between.trail, store.trail);
      }
    }

    /** The current root directory; `leaf` is the last leaf that was found. */
    method LoadRoot() returns (r: Result<Root, FsError>, ghost leaf: Option<Cid>)
      requires store.Valid()
      modifies store
      ensures OnlyRead(old(Now()), old(Surroundings()), leaf, r)
      ensures !LostBoth(store.k, old(Surroundings()), Now(), r) ==>
        LoadedRoot(Ctx(), store.blobs, leaf) == if r.Ok? then Ok(r.value.node) else Err(r.error)
      ensures r.Ok? ==> r.value.cid == leaf && ValidDirectory(r.value.node)
    {
      hide ValidDirectory, ComputeCid, Plans.ReadRoot, LastLeafOf, MmrSound, MmrComplete, Interleaved, RightLeaf;
      var last := LastLeaf();
      leaf := None;
      if last.Err? {
        r := Err(last.error);
        return;
      }
      leaf := last.value;
      if last.value == None {
        EmptyIsValid(bucketId);
        r := Ok(Root(None, NewEmpty(bucketId)));
        return;
      }
      var cid := last.value.value;
      var node := ReadRoot(cid);
      if node.Err? {
        r := Err(node.error);
        return;
      }
      r := Ok(Root(Some(cid), node.value));
    }

    /** The root directory with CID `cid`. */
    method ReadRoot(cid: Cid) returns (r: Result<DirectoryNode, FsError>)
      ensures r == Plans.ReadRoot(Ctx(), store.blobs, cid)
      ensures r.Ok? ==> ValidDirectory(r.value)
      ensures r != Err(InvalidMmrProof)
    {
      hide ValidDirectory, ComputeCid, MaxBlobLen, DirBlob, DirectoryCodec, FromBlob, Validate;
      var bytes := store.GetBlob(cid);
      if bytes.Err? {
        return Err(bytes.error);
      }
      if |bytes.value| > MaxBlobLen(DirectoryCodec()) {
        return Err(NotAFileSystemBucket);
      }
      if ComputeCid(store.k, bytes.value) != cid {
        return Err(CidMismatch(cid, ComputeCid(store.k, bytes.value)));
      }
      var node := FromBlob(DirectoryCodec(), bytes.value);
      if node.Err? {
        return Err(if node.error.UnsupportedVersion? then UnsupportedFormatVersion(node.error.version)
                   else NotAFileSystemBucket);
      }
      if Validate(node.value).Some? || node.value.bucketId != bucketId {
        return Err(NotAFileSystemBucket);
      }
      ReadRootMeaning(Ctx(), store.blobs, cid, node.value);
      return Ok(node.value);
    }

    // ---- Blobs and chains ----

    method ReadBlob(path: Bytes, cid: Cid, length: BlobLength) returns (r: Result<Bytes, FsError>)
      ensures r == Plans.ReadBlob(store.k, store.blobs, path, cid, length)
    {
      var bytes := store.GetBlob(cid);
      if bytes.Err? {
        return Err(bytes.error);
      }
      if !LengthOk(bytes.value, length) {
        return Err(InvalidBlob(path));
      }
      if ComputeCid(store.k, bytes.value) != cid {
        return Err(CidMismatch(cid, ComputeCid(store.k, bytes.value)));
      }
      return Ok(bytes.value);
    }

    method ReadDir(path: Bytes, cid: Cid) returns (r: Result<DirectoryNode, FsError>)
      ensures r == Plans.ReadDir(store.k, store.blobs, path, cid)
      ensures r.Ok? ==> ValidDirectory(r.value)
    {
      hide DecodeDir, MaxBlobLen, DirectoryCodec, Plans.ReadBlob, ValidDirectory;
      var bytes := ReadBlob(path, cid, AtMost(MaxBlobLen(DirectoryCodec())));
      if bytes.Err? {
        return Err(bytes.error);
      }
      r := DecodeDir(path, bytes.value);
      if r.Ok? {
        DecodedDirIsValid(path, bytes.value, r.value);
      }
    }

    method ReadManifest(path: Bytes, cid: Cid) returns (r: Result<FileManifest, FsError>)
      ensures r == Plans.ReadManifest(store.k, store.blobs, path, cid)
    {
      hide DecodeManifest, MaxBlobLen, ManifestCodec, Plans.ReadBlob;
      var bytes := ReadBlob(path, cid, AtMost(MaxBlobLen(ManifestCodec())));
      if bytes.Err? {
        return Err(bytes.error);
      }
      r := DecodeManifest(path, bytes.value);
    }

    /** Extend `start`, the directories along its first names, to all of `names`. */
    method ExtendChain(start: DirChain, names: seq<Name>, createMissing: bool) returns (r: Result<DirChain, FsError>)
      requires AllValid(start)
      ensures r == Plans.ExtendChain(Ctx(), store.blobs, start, names, createMissing)
      ensures r.Ok? ==> AllValid(r.value)
    {
      hide Plans.ReadDir, ValidDirectory, Found, NewEmpty, EntryMap, ValidName, Join;
      var chain := start;
      while |chain| <= |names|
        invariant AllValid(chain)
        invariant Plans.ExtendChain(Ctx(), store.blobs, start, names, createMissing) ==
          Plans.ExtendChain(Ctx(), store.blobs, chain, names, createMissing)
        decreases |names| + 1 - |chain|
      {
        var depth := |chain| - 1;
        var path := Join(names[..depth] + [names[depth]]);
        var dir := new DirectoryBuffer(chain[depth]);
        var entry := dir.FindChild(names[depth]);
        var next: DirectoryNode;
        if entry.Some? {
          if entry.value.entryType != Directory {
            return Err(NotADirectory(path));
          }
          var read := ReadDir(path, entry.value.cid);
          if read.Err? {
            return Err(read.error);
          }
          next := read.value;
        } else if createMissing {
          next := NewEmpty(bucketId);
          EmptyIsValid(bucketId);
        } else {
          return Err(PathNotFound(path));
        }
        chain := chain + [next];
      }
      return Ok(chain);
    }

    /** Encode the directories of `start` deeper than `depth`, put each CID into the parent, and drop them. */
    method RewriteBelow(start: DirChain, names: seq<Name>, depth: nat, mtime: u64, path: Bytes)
      returns (r: Result<Rewritten, FsError>)
      requires |start| == |names| + 1 && depth <= |names| && AllValid(start)
      ensures r == Plans.RewriteBelow(store.k, start, names, depth, mtime, path)
      ensures r.Ok? ==> AllValid(r.value.chain)
    {
      hide ValidDirectory, Upserted, EntryMap, ValidName, DirBlob, ComputeCid;
      var chain: DirChain := start;
      var encoded: seq<Bytes> := [];
      var index := |names|;
      RemainingAtFirst(store.k, start, names, depth, mtime, path);
      while index > depth
        invariant depth <= index <= |names| && |chain| == |names| + 1 && AllValid(chain)
        invariant Plans.RewriteBelow(store.k, start, names, depth, mtime, path) ==
          Remaining(store.k, encoded, chain, names, index, depth, mtime, path)
      {
        index := index - 1;
        var bytes := DirBlob(chain[index + 1]);
        var entry := EntryForDir(store.k, names[index], chain[index + 1], mtime);
        NameIsValid(names[index]);
        var parent := new DirectoryBuffer(chain[index]);
        var full := parent.UpsertChild(entry);
        RemainingStep(store.k, encoded, chain, names, index, depth, mtime, path);
        if full.Some? {
          return Err(BrokenRule(path, full.value));
        }
        chain := chain[index := parent.node];
        encoded := encoded + [bytes];
      }
      RemainingAtLast(store.k, encoded, chain, names, depth, mtime, path);
      return Ok(Rewritten(encoded, chain[..depth + 1]));
    }

    /**
     Upload `all` in order, each CID once; answer their CIDs. This store answers an
     upload with the CID of what it stored, so the check for another CID never fires.
     */
    method Upload(all: seq<Bytes>) returns (cids: seq<Cid>)
      requires store.Valid()
      modifies store`blobs, store`seen, store`uploads
      ensures store.Valid() && cids == CidsOf(store.k, all)
      ensures store.uploads == old(store.uploads) + FirstBlobs(store.k, all)
      ensures store.seen == old(store.seen) + (set b | b in all)
      ensures store.blobs.Keys == old(store.blobs).Keys + (set c | c in CidsOf(store.k, all))
    {
      hide ComputeCid, FirstBlobs, CidsOf;
      var uploaded: set<Cid> := {};
      cids := [];
      var i := 0;
      NoBlobs(store.k);
      while i < |all|
        invariant 0 <= i <= |all| && store.Valid()
        invariant cids == CidsOf(store.k, all[..i])
        invariant uploaded == (set c | c in cids)
        invariant store.seen == old(store.seen) + (set b | b in all[..i])
        invariant store.uploads == old(store.uploads) + FirstBlobs(store.k, all[..i])
        invariant store.blobs.Keys == old(store.blobs).Keys + uploaded
      {
        var expected := ComputeCid(store.k, all[i]);
        OneMoreBlob(store.k, all[..i], all[i]);
        if expected !in uploaded {
          uploaded := uploaded + {expected};
          var got := store.PutBlob(all[i]);
          assert got == expected;
        } else {
          store.Saw(all[i]);
        }
        cids := cids + [expected];
        assert all[..i + 1] == all[..i] + [all[i]];
        i := i + 1;
      }
      assert all[..i] == all;
    }

    /** Upload the blobs of `plan` and commit their CIDs, in order, each once, the root last. */
    method Write(plan: Plan) returns (r: Cid)
      requires store.Valid()
      modifies store`blobs, store`commits, store`seen, store`uploads
      ensures store.Valid()
      ensures store.uploads == old(store.uploads) + FirstBlobs(store.k, plan.blobs + [plan.root])
      ensures r == ComputeCid(store.k, plan.root) && Wrote(store.k, plan, old(Now()), Now())
    {
      hide ComputeCid, CommitOrder, CidsOf;
      var cids := Upload(plan.blobs + [plan.root]);
      CommitOrderLaw(cids);
      store.Commit(CommitOrder(cids));
      return ComputeCid(store.k, plan.root);
    }

    // ---- Reading ----

    /** The directory at `names`. */
    method WalkTo(names: seq<Name>) returns (r: Result<DirectoryNode, FsError>, ghost leaf: Option<Cid>)
      requires store.Valid()
      modifies store
      ensures OnlyRead(old(Now()), old(Surroundings()), leaf, r)
      ensures !LostBoth(store.k, old(Surroundings()), Now(), r) ==> r == DirAnswer(Ctx(), store.blobs, leaf, names)
      ensures r.Ok? ==> ValidDirectory(r.value)
    {
      hide ValidDirectory, LoadedRoot, Plans.ExtendChain, MmrSound, MmrComplete, ComputeCid, LastLeafOf, WasLast,
        Interleaved;
      var root;
      root, leaf := LoadRoot();
      if root.Err? {
        return Err(root.error), leaf;
      }
      var chain := ExtendChain([root.value.node], names, false);
      if chain.Err? {
        return Err(chain.error), leaf;
      }
      return Ok(chain.value[|names|]), leaf;
    }

    /** The entries of the directory at `path`, sorted by name. */
    method List(path: Bytes) returns (r: Result<seq<DirectoryEntry>, FsError>, ghost leaf: Option<Cid>)
      requires store.Valid()
      modifies store
      ensures OnlyRead(old(Now()), old(Surroundings()), leaf, r)
      ensures !LostBoth(store.k, old(Surroundings()), Now(), r) ==> r == ListAnswer(Ctx(), store.blobs, leaf, path)
    {
      hide ValidDirectory, DirAnswer, MmrSound, MmrComplete, LastLeafOf, ParsePath, Interleaved;
      leaf := LastLeafOf(store.commits);
      NothingRaced(store.k, Now(), Surroundings());
      var names := ParsePath(path);
      if names.Err? {
        return Err(names.error), leaf;
      }
      var dir;
      dir, leaf := WalkTo(names.value);
      if dir.Err? {
        return Err(dir.error), leaf;
      }
      return Ok(dir.value.children), leaf;
    }

    /** The entry and manifest of the file at `path`. */
    method Stat(path: Bytes) returns (r: Result<FileStat, FsError>, ghost leaf: Option<Cid>)
      requires store.Valid()
      modifies store
      ensures OnlyRead(old(Now()), old(Surroundings()), leaf, r)
      ensures !LostBoth(store.k, old(Surroundings()), Now(), r) ==> r == StatAnswer(Ctx(), store.blobs, leaf, path)
    {
      hide ValidDirectory, DirAnswer, MmrSound, MmrComplete, LastLeafOf, NamesBelowRoot, StatIn, ValidName,
        Interleaved;
      leaf := LastLeafOf(store.commits);
      NothingRaced(store.k, Now(), Surroundings());
      var names := NamesBelowRoot(path, NotAFile(path));
      if names.Err? {
        return Err(names.error), leaf;
      }
      var dir;
      dir, leaf := WalkTo(Parents(names.value));
      if dir.Err? {
        return Err(dir.error), leaf;
      }
      r := StatEntry(dir.value, Last(names.value), path);
    }

    method StatEntry(dir: DirectoryNode, name: Name, path: Bytes) returns (r: Result<FileStat, FsError>)
      requires ValidDirectory(dir)
      ensures r == StatIn(Ctx(), store.blobs, dir, name, path)
    {
      hide ValidDirectory, Plans.ReadManifest, Found, EntryMap, ValidName;
      var parent := new DirectoryBuffer(dir);
      var entry := parent.FindChild(name);
      if entry == None {
        return Err(PathNotFound(path));
      }
      if entry.value.entryType != File {
        return Err(NotAFile(path));
      }
      var manifest := ReadManifest(path, entry.value.cid);
      if manifest.Err? {
        return Err(manifest.error);
      }
      return Ok(FileStat(entry.value, manifest.value));
    }

    /** The file at `path`; empty content is not read from the store. */
    method GetFile(path: Bytes) returns (r: Result<FileContent, FsError>, ghost leaf: Option<Cid>)
      requires store.Valid()
      modifies store
      ensures OnlyRead(old(Now()), old(Surroundings()), leaf, r)
      ensures !LostBoth(store.k, old(Surroundings()), Now(), r) ==> r == GetAnswer(Ctx(), store.blobs, leaf, path)
    {
      hide ValidDirectory, StatAnswer, MmrSound, MmrComplete, LastLeafOf, Plans.ReadBlob, ContentRoot;
      var stat;
      stat, leaf := Stat(path);
      if stat.Err? {
        return Err(stat.error), leaf;
      }
      if stat.value.manifest.totalSize == 0 {
        return Ok(FileContent(stat.value, [])), leaf;
      }
      var data := ReadBlob(path, ContentRoot(store.k, stat.value.manifest), Exact(stat.value.manifest.totalSize));
      if data.Err? {
        return Err(data.error), leaf;
      }
      return Ok(FileContent(stat.value, data.value)), leaf;
    }

    /**
     Every entry below the directory at `path`, each with its relative path. Where each
     root it may find represents a drive this ends, and lists each proper descendant
     exactly once.
     */
    method EntriesUnder(path: Bytes, ghost drives: RootSeen -> Drive)
      returns (r: Result<seq<Listed>, FsError>, ghost leaf: Option<Cid>)
      requires store.Valid()
      requires forall seen {:trigger drives(seen)} :: MayFind(store.k, Surroundings(), Now(), seen) ==>
        RootIsDrive(Ctx(), seen.state.blobs, seen.leaf, drives(seen))
      modifies store
      ensures OnlyRead(old(Now()), old(Surroundings()), leaf, r)
      ensures !LostBoth(store.k, old(Surroundings()), Now(), r) ==>
        IsListing(Ctx(), store.blobs, leaf, path, drives(RootSeen(Now(), leaf)), r)
    {
      hide ValidDirectory, DirAnswer, LoadedRoot, MmrSound, MmrComplete, LastLeafOf, ParsePath, DirAt, RepKids,
        RootIsDrive, ListsExactly, Interleaved;
      leaf := LastLeafOf(store.commits);
      NothingRaced(store.k, Now(), Surroundings());
      var names := ParsePath(path);
      if names.Err? {
        return Err(names.error), leaf;
      }
      var start;
      start, leaf := WalkTo(names.value);
      ghost var seen := RootSeen(Now(), leaf);
      if start.Err? {
        if !LostBoth(store.k, old(Surroundings()), Now(), start) {
          DirAnswerRefines(Ctx(), store.blobs, leaf, names.value, drives(seen));
        }
        return Err(start.error), leaf;
      }
      DirAnswerRefines(Ctx(), store.blobs, leaf, names.value, drives(seen));
      ghost var n := DirNode(0, DirAt(drives(seen), [], names.value).value);
      var entries := ListAll(start.value, n);
      ListedExactly(Ctx(), store.blobs, start.value, n, entries);
      return Ok(entries), leaf;
    }

    /** Walk the directories below `start` with a stack of those still to list. */
    method ListAll(start: DirectoryNode, ghost n: Node) returns (entries: seq<Listed>)
      requires n.DirNode? && RepKids(Ctx(), store.blobs, start, n.kids)
      ensures multiset(entries) == ListFrom(Ctx(), store.blobs, [], start, n, 0)
    {
      hide RepKids, ListFrom, Pending;
      ghost var total := ListFrom(Ctx(), store.blobs, [], start, n, 0);
      entries := [];
      var pending: seq<(Bytes, DirectoryNode)> := [([], start)];
      ghost var nodes := [n];
      PendingOne(Ctx(), store.blobs, [], start, n);
      while pending != []
        invariant PendingOk(Ctx(), store.blobs, pending, nodes)
        invariant multiset(entries) + Pending(Ctx(), store.blobs, pending, nodes) == total
        decreases |total| - |entries| + |pending|
      {
        var last := |pending| - 1;
        PendingShorter(Ctx(), store.blobs, pending, nodes);
        PendingPop(Ctx(), store.blobs, pending, nodes);
        var listed, found;
        ghost var more;
        listed, found, more := ListDir(pending[last].0, pending[last].1, nodes[last]);
        PendingAppend(Ctx(), store.blobs, pending[..last], nodes[..last], found, more);
        pending := pending[..last] + found;
        nodes := nodes[..last] + more;
        entries := entries + listed;
        assert |multiset(entries)| <= |total|;
      }
      PendingNone(Ctx(), store.blobs);
    }

    /** The entries of one directory, and the directories among them, still to list. */
    method ListDir(prefix: Bytes, dir: DirectoryNode, ghost node: Node)
      returns (listed: seq<Listed>, found: seq<(Bytes, DirectoryNode)>, ghost nodes: seq<Node>)
      requires node.DirNode? && RepKids(Ctx(), store.blobs, dir, node.kids)
      ensures PendingOk(Ctx(), store.blobs, found, nodes) && |found| <= |listed|
      ensures multiset(listed) + Pending(Ctx(), store.blobs, found, nodes) ==
        ListFrom(Ctx(), store.blobs, prefix, dir, node, 0)
    {
      hide RepKids, RepNode, EntryMap, ValidDirectory, ValidName, Plans.ReadDir, ListFrom, BelowChild, Pending;
      ghost var total := ListFrom(Ctx(), store.blobs, prefix, dir, node, 0);
      listed, found, nodes := [], [], [];
      PendingNone(Ctx(), store.blobs);
      var i := 0;
      while i < |dir.children|
        invariant 0 <= i <= |dir.children|
        invariant PendingOk(Ctx(), store.blobs, found, nodes) && |found| <= |listed|
        invariant multiset(listed) + Pending(Ctx(), store.blobs, found, nodes)
          + ListFrom(Ctx(), store.blobs, prefix, dir, node, i) == total
      {
        var entry := dir.children[i];
        var rel := prefix + entry.name;
        ChildNode(Ctx(), store.blobs, dir, node, i);
        ListFromStep(Ctx(), store.blobs, prefix, dir, node, i);
        if entry.entryType == Directory {
          ReadableChild(Ctx(), store.blobs, rel, entry, node.kids[entry.name]);
          var child := ReadDir(rel, entry.cid);
          PendingPush(Ctx(), store.blobs, found, nodes, prefix, entry, node.kids[entry.name], child.value);
          found := found + [(rel + [SLASH], child.value)];
          nodes := nodes + [node.kids[entry.name]];
        }
        listed := listed + [(rel, entry)];
        i := i + 1;
      }
      ListFromEnd(Ctx(), store.blobs, prefix, dir, node);
    }

    // ---- Operations ----

    /** Write `data` as the file at `path`: create missing directories, replace a file. */
    method PutFile(path: Bytes, data: Bytes, contentType: Bytes, userMetadata: UserMetadata, clock: Clock,
      ghost drive: Drive)
      returns (r: Result<(Cid, FileStat), FsError>, ghost seen: RootSeen)
      requires store.Valid()
      modifies store
      ensures store.Valid()
      ensures DoneAmong(Ctx(), Drives.PutFile(path, data, contentType, userMetadata), clock, CidOnly(r), old(Now()),
        old(Surroundings()), seen, Now())
      ensures PerformedAmong(Ctx(), Drives.PutFile(path, data, contentType, userMetadata), clock, drive, CidOnly(r),
        old(Surroundings()), seen, Now())
      ensures r.Ok? ==> IsStatOfPut(Ctx(), path, data, contentType, userMetadata, clock, r.value.1)
    {
      hide NamesBelowRoot, LoadedRoot, Interleaved, Plans.PlanPut, Plans.PlanMkdir, Plans.PlanDelete, Plans.PlanRename,
        ParsePath, LastLeafOf, Performed, Wrote, MmrSound, MmrComplete, ForContent, ValidDirectory, ValidName, RepDrive,
        ComputeCid, FileEntry;
      seen := RootSeen(Now(), LastLeafOf(store.commits));
      NothingRaced(store.k, Now(), Surroundings());
      PerformedIfDone(Ctx(), Drives.PutFile(path, data, contentType, userMetadata), clock, drive, seen);
      var names := NamesBelowRoot(path, NotAFile(path));
      if names.Err? {
        return Err(names.error), seen;
      }
      var manifest := ForContent(store.k, bucketId, data, contentType, userMetadata);
      if manifest.Err? {
        return Err(BrokenRule(path, manifest.error)), seen;
      }
      var root;
      ghost var leaf;
      root, leaf := LoadRoot();
      seen := RootSeen(Now(), leaf);
      PerformedIfDone(Ctx(), Drives.PutFile(path, data, contentType, userMetadata), clock, drive, seen);
      if root.Err? {
        return Err(root.error), seen;
      }
      var plan := PlanPut(root.value.node, names.value, path, manifest.value, data, clock);
      if plan.Err? {
        return Err(plan.error), seen;
      }
      var cid := Write(plan.value);
      var entry := FileEntry(store.k, Last(names.value), manifest.value, |data|, clock.first);
      return Ok((cid, FileStat(entry, manifest.value))), seen;
    }

    method PlanPut(root: DirectoryNode, names: seq<Name>, path: Bytes, m: FileManifest, data: Bytes, clock: Clock)
      returns (r: Result<Plan, FsError>)
      requires names != [] && ValidDirectory(root)
      ensures r == Plans.PlanPut(Ctx(), store.blobs, root, names, path, m, data, clock)
    {
      hide ValidDirectory, Plans.ExtendChain, Plans.PutInto, ValidName;
      var chain := ExtendChain([root], Parents(names), true);
      if chain.Err? {
        return Err(chain.error);
      }
      r := PutInto(chain.value, Parents(names), Last(names), path, m, data, clock);
    }

    /** Set the file in the last directory of `chain` and rewrite the chain. */
    method PutInto(chain: DirChain, parents: seq<Name>, name: Name, path: Bytes, m: FileManifest, data: Bytes,
      clock: Clock)
      returns (r: Result<Plan, FsError>)
      requires |chain| == |parents| + 1 && AllValid(chain)
      ensures r == Plans.PutInto(store.k, chain, parents, name, path, m, data, clock)
    {
      hide ValidDirectory, EntryMap, PlanRewrite, Upserted, Found, ManifestBlob, FileEntry, ValidEntry;
      var parent := new DirectoryBuffer(chain[|parents|]);
      var current := parent.FindChild(name);
      if current.Some? && current.value.entryType == Directory {
        return Err(NotAFile(path));
      }
      var entry := FileEntry(store.k, name, m, |data|, clock.first);
      FileEntryIsValid(store.k, name, m, |data|, clock.first);
      var full := parent.UpsertChild(entry);
      if full.Some? {
        return Err(BrokenRule(path, full.value));
      }
      var first := (if data == [] then [] else [data]) + [ManifestBlob(m)];
      r := Rewrite(first, WithLast(chain, parent.node), parents, clock.second, path);
    }

    /** Create an empty directory at `path`, and missing parents. */
    method Mkdir(path: Bytes, clock: Clock, ghost drive: Drive)
      returns (r: Result<Cid, FsError>, ghost seen: RootSeen)
      requires store.Valid()
      modifies store
      ensures store.Valid()
      ensures DoneAmong(Ctx(), Drives.Mkdir(path), clock, r, old(Now()), old(Surroundings()), seen, Now())
      ensures PerformedAmong(Ctx(), Drives.Mkdir(path), clock, drive, r, old(Surroundings()), seen, Now())
    {
      hide NamesBelowRoot, LoadedRoot, Interleaved, Plans.PlanPut, Plans.PlanMkdir, Plans.PlanDelete, Plans.PlanRename,
        ParsePath, LastLeafOf, Performed, Wrote, MmrSound, MmrComplete, ForContent, ValidDirectory, ValidName, RepDrive;
      seen := RootSeen(Now(), LastLeafOf(store.commits));
      NothingRaced(store.k, Now(), Surroundings());
      PerformedIfDone(Ctx(), Drives.Mkdir(path), clock, drive, seen);
      var names := NamesBelowRoot(path, EntryExists(path));
      if names.Err? {
        return Err(names.error), seen;
      }
      var root;
      ghost var leaf;
      root, leaf := LoadRoot();
      seen := RootSeen(Now(), leaf);
      PerformedIfDone(Ctx(), Drives.Mkdir(path), clock, drive, seen);
      if root.Err? {
        return Err(root.error), seen;
      }
      var plan := PlanMkdir(root.value.node, names.value, path, clock);
      if plan.Err? {
        return Err(plan.error), seen;
      }
      var cid := Write(plan.value);
      return Ok(cid), seen;
    }

    method PlanMkdir(root: DirectoryNode, names: seq<Name>, path: Bytes, clock: Clock)
      returns (r: Result<Plan, FsError>)
      requires names != [] && ValidDirectory(root)
      ensures r == Plans.PlanMkdir(Ctx(), store.blobs, root, names, path, clock)
    {
      hide ValidDirectory, Plans.ExtendChain, PlanRewrite, Found, EntryMap, NewEmpty, ValidName;
      var parents, name := Parents(names), Last(names);
      var chain := ExtendChain([root], parents, true);
      if chain.Err? {
        return Err(chain.error);
      }
      var parent := new DirectoryBuffer(chain.value[|parents|]);
      var current := parent.FindChild(name);
      if current.Some? {
        return Err(EntryExists(path));
      }
      EmptyIsValid(bucketId);
      r := Rewrite([], chain.value + [NewEmpty(bucketId)], names, clock.first, path);
    }

    /** Delete the file or empty directory at `path`. */
    method Delete(path: Bytes, emptyParents: EmptyParents, clock: Clock, ghost drive: Drive)
      returns (r: Result<Cid, FsError>, ghost seen: RootSeen)
      requires store.Valid()
      modifies store
      ensures store.Valid()
      ensures DoneAmong(Ctx(), Drives.Delete(path, emptyParents), clock, r, old(Now()), old(Surroundings()), seen,
        Now())
      ensures PerformedAmong(Ctx(), Drives.Delete(path, emptyParents), clock, drive, r, old(Surroundings()), seen,
        Now())
    {
      hide NamesBelowRoot, LoadedRoot, Interleaved, Plans.PlanPut, Plans.PlanMkdir, Plans.PlanDelete, Plans.PlanRename,
        ParsePath, LastLeafOf, Performed, Wrote, MmrSound, MmrComplete, ForContent, ValidDirectory, ValidName, RepDrive;
      seen := RootSeen(Now(), LastLeafOf(store.commits));
      NothingRaced(store.k, Now(), Surroundings());
      PerformedIfDone(Ctx(), Drives.Delete(path, emptyParents), clock, drive, seen);
      var names := NamesBelowRoot(path, InvalidPath(path));
      if names.Err? {
        return Err(names.error), seen;
      }
      var root;
      ghost var leaf;
      root, leaf := LoadRoot();
      seen := RootSeen(Now(), leaf);
      PerformedIfDone(Ctx(), Drives.Delete(path, emptyParents), clock, drive, seen);
      if root.Err? {
        return Err(root.error), seen;
      }
      var plan := PlanDelete(root.value.node, names.value, path, emptyParents, clock);
      if plan.Err? {
        return Err(plan.error), seen;
      }
      var cid := Write(plan.value);
      return Ok(cid), seen;
    }

    method PlanDelete(root: DirectoryNode, names: seq<Name>, path: Bytes, emptyParents: EmptyParents, clock: Clock)
      returns (r: Result<Plan, FsError>)
      requires names != [] && ValidDirectory(root)
      ensures r == Plans.PlanDelete(Ctx(), store.blobs, root, names, path, emptyParents, clock)
    {
      hide ValidDirectory, Plans.ExtendChain, Plans.DeleteFrom, ValidName;
      var chain := ExtendChain([root], Parents(names), false);
      if chain.Err? {
        return Err(chain.error);
      }
      r := DeleteFrom(chain.value, names, path, emptyParents, clock);
    }

    /** Remove the entry from the last directory of `start`, prune if asked, and rewrite the chain. */
    method DeleteFrom(start: DirChain, names: seq<Name>, path: Bytes, emptyParents: EmptyParents, clock: Clock)
      returns (r: Result<Plan, FsError>)
      requires names != [] && |start| == |names| && AllValid(start)
      ensures r == Plans.DeleteFrom(Ctx(), store.blobs, start, names, path, emptyParents, clock)
    {
      hide ValidDirectory, EntryMap, PlanRewrite, Found, Removed, Plans.ReadDir, ValidName;
      var parents, name := Parents(names), Last(names);
      var parent := new DirectoryBuffer(start[|parents|]);
      var entry := parent.RemoveChild(name);
      if entry == None {
        return Err(PathNotFound(path));
      }
      if entry.value.entryType == Directory && emptyParents == Remove {
        return Err(NotAFile(path));
      }
      if entry.value.entryType == Directory {
        var child := ReadDir(path, entry.value.cid);
        if child.Err? {
          return Err(child.error);
        }
        if child.value.children != [] {
          return Err(DirectoryNotEmpty(path));
        }
      }
      var chain := WithLast(start, parent.node);
      ghost var removed := chain;
      var kept := |parents|;
      assert parents[..kept] == parents;
      if emptyParents == Remove {
        while kept > 0 && chain[kept].children == []
          invariant 0 <= kept <= |parents| && |chain| == kept + 1 && AllValid(chain)
          invariant PruneChain(removed, parents) == PruneChain(chain, parents[..kept])
        {
          var above := new DirectoryBuffer(chain[kept - 1]);
          var _ := above.RemoveChild(parents[kept - 1]);
          assert parents[..kept][..kept - 1] == parents[..kept - 1];
          assert parents[..kept][kept - 1] == parents[kept - 1];
          chain := UpTo(chain, kept - 1, above.node);
          kept := kept - 1;
        }
      }
      r := Rewrite([], chain, parents[..kept], clock.first, path);
    }

    /** Move the file or directory at `from` to `to` in one commit. */
    method Rename(from: Bytes, to: Bytes, clock: Clock, ghost drive: Drive)
      returns (r: Result<Cid, FsError>, ghost seen: RootSeen)
      requires store.Valid()
      modifies store
      ensures store.Valid()
      ensures DoneAmong(Ctx(), Drives.Rename(from, to), clock, r, old(Now()), old(Surroundings()), seen, Now())
      ensures PerformedAmong(Ctx(), Drives.Rename(from, to), clock, drive, r, old(Surroundings()), seen, Now())
    {
      hide NamesBelowRoot, LoadedRoot, Interleaved, Plans.PlanPut, Plans.PlanMkdir, Plans.PlanDelete, Plans.PlanRename,
        ParsePath, LastLeafOf, Performed, Wrote, MmrSound, MmrComplete, ForContent, ValidDirectory, ValidName, RepDrive;
      seen := RootSeen(Now(), LastLeafOf(store.commits));
      NothingRaced(store.k, Now(), Surroundings());
      PerformedIfDone(Ctx(), Drives.Rename(from, to), clock, drive, seen);
      var fromNames := ParsePath(from);
      if fromNames.Err? {
        return Err(fromNames.error), seen;
      }
      var toNames := ParsePath(to);
      if toNames.Err? {
        return Err(toNames.error), seen;
      }
      if fromNames.value == [] || toNames.value == [] {
        return Err(InvalidPath([SLASH])), seen;
      }
      if fromNames.value <= toNames.value {
        return Err(InvalidPath(to)), seen;
      }
      var root;
      ghost var leaf;
      root, leaf := LoadRoot();
      seen := RootSeen(Now(), leaf);
      PerformedIfDone(Ctx(), Drives.Rename(from, to), clock, drive, seen);
      if root.Err? {
        return Err(root.error), seen;
      }
      var plan := PlanRename(root.value.node, fromNames.value, toNames.value, from, to, clock);
      if plan.Err? {
        return Err(plan.error), seen;
      }
      var cid := Write(plan.value);
      return Ok(cid), seen;
    }

    method PlanRename(
      root: DirectoryNode, fromNames: seq<Name>, toNames: seq<Name>, from: Bytes, to: Bytes, clock: Clock)
      returns (r: Result<Plan, FsError>)
      requires fromNames != [] && toNames != [] && ValidDirectory(root)
      ensures r == Plans.PlanRename(Ctx(), store.blobs, root, fromNames, toNames, from, to, clock)
    {
      hide ValidDirectory, Plans.ExtendChain, Plans.TakeAndMove, ValidName;
      var chain := ExtendChain([root], Parents(fromNames), false);
      if chain.Err? {
        return Err(chain.error);
      }
      r := TakeAndMove(chain.value, fromNames, toNames, from, to, clock);
    }

    /** Take the entry out, collapse its branch to the common directories, and go on along `to`. */
    method TakeAndMove(start: DirChain, fromNames: seq<Name>, toNames: seq<Name>, from: Bytes, to: Bytes, clock: Clock)
      returns (r: Result<Plan, FsError>)
      requires fromNames != [] && toNames != [] && |start| == |fromNames| && AllValid(start)
      ensures r == Plans.TakeAndMove(Ctx(), store.blobs, start, fromNames, toNames, from, to, clock)
    {
      hide ValidDirectory, EntryMap, Found, Removed, Plans.RewriteBelow, PlanMove, ValidName;
      var parents, name := Parents(fromNames), Last(fromNames);
      var parent := new DirectoryBuffer(start[|parents|]);
      FoundIsLookup(parent.node, name);
      var entry := parent.RemoveChild(name);
      if entry == None {
        return Err(PathNotFound(from));
      }
      var common := CommonPrefix(parents, Parents(toNames));
      var below := RewriteBelow(WithLast(start, parent.node), parents, common, clock.first, from);
      if below.Err? {
        return Err(below.error);
      }
      r := MoveTo(below.value, toNames, to, entry.value, clock);
    }

    /** Extend the collapsed chain along `to`, add the entry there, and rewrite the chain. */
    method MoveTo(below: Rewritten, toNames: seq<Name>, to: Bytes, entry: DirectoryEntry, clock: Clock)
      returns (r: Result<Plan, FsError>)
      requires toNames != [] && |below.chain| <= |toNames| && AllValid(below.chain) && ValidEntry(entry)
      ensures r == PlanMove(Ctx(), store.blobs, below, toNames, to, entry, clock)
    {
      hide ValidDirectory, EntryMap, PlanRewrite, Found, Upserted, Plans.ExtendChain, ValidName;
      var parents, name := Parents(toNames), Last(toNames);
      var chain := ExtendChain(below.chain, parents, true);
      if chain.Err? {
        return Err(chain.error);
      }
      var parent := new DirectoryBuffer(chain.value[|parents|]);
      var current := parent.FindChild(name);
      if current.Some? {
        return Err(EntryExists(to));
      }
      NameIsValid(name);
      var full := parent.UpsertChild(entry.(name := name));
      if full.Some? {
        return Err(BrokenRule(to, full.value));
      }
      r := Rewrite(below.encoded, WithLast(chain.value, parent.node), parents, clock.second, to);
    }

    /** Encode a whole chain, after the blobs `first`. */
    method Rewrite(first: seq<Bytes>, chain: DirChain, names: seq<Name>, mtime: u64, path: Bytes)
      returns (r: Result<Plan, FsError>)
      requires |chain| == |names| + 1 && AllValid(chain)
      ensures r == PlanRewrite(store.k, first, chain, names, mtime, path)
    {
      hide Plans.RewriteBelow, DirBlob;
      var below := RewriteBelow(chain, names, 0, mtime, path);
      if below.Err? {
        return Err(below.error);
      }
      return Ok(Plan(first + below.value.encoded, DirBlob(below.value.chain[0])));
    }

    /** Nothing changed except by other writers, and the answer is from a root they left, or both root reads failed. */
    ghost predicate OnlyRead<T>(before: Snapshot, around: Around, leaf: Option<Cid>, r: Result<T, FsError>)
      reads store
    {
      && store.Valid() && Interleaved(store.k, before, around.racing, Now())
      && (!LostBoth(store.k, around, Now(), r) ==> RightLeaf(store.k, around, before, RootSeen(Now(), leaf)))
    }

    ghost function Now(): Snapshot
      reads store
    {
      Snapshot(store.blobs, store.commits, store.seen, store.trail)
    }

    ghost function Surroundings(): Around
      reads store
    {
      Around(store.racing, store.forged)
    }
  }

  lemma FileEntryIsValid(k: Crypto, name: Name, m: FileManifest, size: nat, mtime: u64)
    ensures ValidEntry(FileEntry(k, name, m, size, mtime)) && FileEntry(k, name, m, size, mtime).name == name
  {
    hide ManifestBlob, ComputeCid;
  }

  // ---- What is left to rewrite ----

  /** The result of a rewrite that has encoded the directories deeper than `index`. */
  ghost function Remaining(
    k: Crypto, encoded: seq<Bytes>, chain: DirChain, names: seq<Name>, index: nat, depth: nat, mtime: u64, path: Bytes)
    : Result<Rewritten, FsError>
    requires |chain| == |names| + 1 && depth <= index <= |names|
  {
    var (above, parents) := (chain[..index + 1], names[..index]);
    assert |above| == |parents| + 1 && depth <= |parents|;
    After(encoded, Plans.RewriteBelow(k, above, parents, depth, mtime, path))
  }

  lemma RemainingAtFirst(k: Crypto, chain: DirChain, names: seq<Name>, depth: nat, mtime: u64, path: Bytes)
    requires |chain| == |names| + 1 && depth <= |names|
    ensures Remaining(k, [], chain, names, |names|, depth, mtime, path) ==
      Plans.RewriteBelow(k, chain, names, depth, mtime, path)
  {
    hide Plans.RewriteBelow;
    assert chain[..|names| + 1] == chain && names[..|names|] == names;
    var r := Plans.RewriteBelow(k, chain, names, depth, mtime, path);
    if r.Ok? {
      assert [] + r.value.encoded == r.value.encoded;
    }
  }

  lemma RemainingAtLast(
    k: Crypto, encoded: seq<Bytes>, chain: DirChain, names: seq<Name>, depth: nat, mtime: u64, path: Bytes)
    requires |chain| == |names| + 1 && depth <= |names|
    ensures Remaining(k, encoded, chain, names, depth, depth, mtime, path) == Ok(Rewritten(encoded, chain[..depth + 1]))
  {
    assert encoded + [] == encoded;
  }

  /** The same after one more directory is put back. */
  ghost function AfterOne(
    k: Crypto, encoded: seq<Bytes>, chain: DirChain, names: seq<Name>, index: nat, depth: nat, mtime: u64, path: Bytes)
    : Result<Rewritten, FsError>
    requires |chain| == |names| + 1 && depth <= index < |names|
  {
    hide PutBack, DirBlob;
    match PutBack(k, chain[index], names[index], chain[index + 1], mtime, path)
    case Err(e) => Err(e)
    case Ok(parent) =>
      Remaining(k, encoded + [DirBlob(chain[index + 1])], chain[index := parent], names, index, depth, mtime, path)
  }

  lemma RemainingStep(
    k: Crypto, encoded: seq<Bytes>, chain: DirChain, names: seq<Name>, index: nat, depth: nat, mtime: u64, path: Bytes)
    requires |chain| == |names| + 1 && depth <= index < |names|
    ensures Remaining(k, encoded, chain, names, index + 1, depth, mtime, path) ==
      AfterOne(k, encoded, chain, names, index, depth, mtime, path)
  {
    hide PutBack, DirBlob, ValidName;
    var sub: DirChain := chain[..index + 2];
    assert names[..index + 1][..index] == names[..index];
    var parent := PutBack(k, chain[index], names[index], chain[index + 1], mtime, path);
    if parent.Ok? {
      assert UpTo(sub, index, parent.value) == chain[index := parent.value][..index + 1];
      var above := Plans.RewriteBelow(k, UpTo(sub, index, parent.value), names[..index], depth, mtime, path);
      if above.Ok? {
        assert encoded + ([DirBlob(chain[index + 1])] + above.value.encoded) ==
          (encoded + [DirBlob(chain[index + 1])]) + above.value.encoded;
      }
    }
  }
}
