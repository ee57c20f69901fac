/**
 The order of uploads: what a blob references is stored before it, or comes earlier in
 the same plan. Whatever prefix of its uploads an operation gets done, no directory or
 manifest that was uploaded misses what it references.
 */
module UploadOrder {
  import opened Wrappers
  import opened Octets
  import opened Format
  import opened Hashing
  import opened Directories
  import opened Manifests
  import opened Paths
  import opened Drives
  import opened Plans
  import opened Represents
  import opened OperationRefinement
  import opened Effects

  /** All entries of `d` reference one of these CIDs. */
  ghost predicate RefsIn(d: DirectoryNode, has: set<Cid>) {
    forall e <- d.children :: e.cid in has
  }

  ghost predicate ChainRefsIn(chain: seq<DirectoryNode>, has: set<Cid>) {
    forall d <- chain :: ValidDirectory(d) && RefsIn(d, has)
  }

  /** Whatever directory can be read, what it references is among these CIDs. */
  ghost predicate ReferencesStored(k: Crypto, blobs: Blobs, has: set<Cid>) {
    forall cid {:trigger ReadDir(k, blobs, [], cid)} ::
      ReadDir(k, blobs, [], cid).Ok? ==> RefsIn(ReadDir(k, blobs, [], cid).value, has)
  }

  /** `b` is the blob of a directory whose entries reference these CIDs. */
  ghost predicate ReadyDirectory(b: Bytes, has: set<Cid>) {
    exists d: DirectoryNode :: ValidDirectory(d) && b == DirBlob(d) && RefsIn(d, has)
  }

  /** `b` is the blob of a manifest whose content is empty or has one of these CIDs. */
  ghost predicate ReadyManifest(k: Crypto, b: Bytes, has: set<Cid>) {
    exists m: FileManifest :: ValidManifest(m) && b == ManifestBlob(m) && (m.chunks == [] || ContentRoot(k, m) in has)
  }

  /** `b` is file content, or references only these CIDs. */
  ghost predicate Ready(k: Crypto, content: Bytes, has: set<Cid>, b: Bytes) {
    b == content || ReadyDirectory(b, has) || ReadyManifest(k, b, has)
  }

  /** Each blob references only these CIDs and those of the blobs before it. */
  ghost predicate InOrder(k: Crypto, content: Bytes, has: set<Cid>, items: seq<Bytes>)
    decreases |items|
  {
    items != [] ==>
      && Ready(k, content, has, items[0])
      && InOrder(k, content, has + {ComputeCid(k, items[0])}, items[1..])
  }

  ghost function CidSet(k: Crypto, items: seq<Bytes>): set<Cid> { set b <- items :: ComputeCid(k, b) }

  // ---- Sequences of blobs ----

  lemma {:induction false} InOrderAppend(k: Crypto, content: Bytes, has: set<Cid>, a: seq<Bytes>, b: seq<Bytes>)
    requires InOrder(k, content, has, a) && InOrder(k, content, has + CidSet(k, a), b)
    ensures InOrder(k, content, has, a + b)
    decreases |a|
  {
    hide ComputeCid, Ready;
    if a == [] {
      assert a + b == b && has + CidSet(k, a) == has;
    } else {
      assert (a + b)[1..] == a[1..] + b;
      CidSetStep(k, a);
      assert has + {ComputeCid(k, a[0])} + CidSet(k, a[1..]) == has + CidSet(k, a);
      InOrderAppend(k, content, has + {ComputeCid(k, a[0])}, a[1..], b);
    }
  }

  lemma CidSetStep(k: Crypto, a: seq<Bytes>)
    requires a != []
    ensures CidSet(k, a) == {ComputeCid(k, a[0])} + CidSet(k, a[1..])
  {
    hide ComputeCid;
    assert a[0] in a;
    assert forall b :: b in a <==> b == a[0] || b in a[1..];
  }

  lemma CidSetOfTwo(k: Crypto, a: seq<Bytes>, b: seq<Bytes>)
    ensures CidSet(k, a + b) == CidSet(k, a) + CidSet(k, b)
  {
    hide ComputeCid;
  }

  lemma OneInOrder(k: Crypto, content: Bytes, has: set<Cid>, b: Bytes)
    requires Ready(k, content, has, b)
    ensures InOrder(k, content, has, [b]) && CidSet(k, [b]) == {ComputeCid(k, b)}
  {
    hide Ready, ComputeCid;
    assert [b][1..] == [];
  }

  // ---- Directories ----

  lemma UpsertedRefs(d: DirectoryNode, e: DirectoryEntry, has: set<Cid>)
    requires ValidDirectory(d) && ValidEntry(e) && RefsIn(d, has) && e.cid in has && Upserted(d, e).Ok?
    ensures ValidDirectory(Upserted(d, e).value) && RefsIn(Upserted(d, e).value, has)
  {
    UpsertedIsUpdate(d, e);
    var ys := Ordered.Upsert(NameOf, d.children, e);
    assert forall y | y in ys :: y == e || y in d.children;
  }

  lemma RemovedRefs(d: DirectoryNode, name: Bytes, has: set<Cid>)
    requires ValidDirectory(d) && RefsIn(d, has)
    ensures ValidDirectory(Removed(d, name)) && RefsIn(Removed(d, name), has)
  {
    RemovedIsRemoval(d, name);
    var ys := Ordered.Without(NameOf, d.children, name);
    assert forall y | y in ys :: y in d.children;
  }

  lemma FoundRef(d: DirectoryNode, name: Bytes, has: set<Cid>)
    requires RefsIn(d, has) && Found(d, name).Some?
    ensures Found(d, name).value.cid in has
  {
  }

  lemma EmptyRefs(bucketId: u64, has: set<Cid>)
    ensures ValidDirectory(NewEmpty(bucketId)) && RefsIn(NewEmpty(bucketId), has)
  {
  }

  lemma MoreRefs(chain: seq<DirectoryNode>, has: set<Cid>, more: set<Cid>)
    requires ChainRefsIn(chain, has) && has <= more
    ensures ChainRefsIn(chain, more)
  {
    hide ValidDirectory;
  }

  // ---- Chains ----

  lemma ReadDirRefs(k: Crypto, blobs: Blobs, has: set<Cid>, path: Bytes, cid: Cid)
    requires ReferencesStored(k, blobs, has) && ReadDir(k, blobs, path, cid).Ok?
    ensures ValidDirectory(ReadDir(k, blobs, path, cid).value) && RefsIn(ReadDir(k, blobs, path, cid).value, has)
  {
    hide ReadDir, ValidDirectory, RefsIn, Stored, DirBlob, ComputeCid;
    var d := ReadDir(k, blobs, path, cid).value;
    ReadDirMeaning(k, blobs, path, cid, d);
    ReadDirMeaning(k, blobs, [], cid, d);
  }

  lemma {:induction false} ExtendRefs(
    ctx: Context, blobs: Blobs, stored: set<Cid>, has: set<Cid>, chain: DirChain, names: seq<Name>, createMissing: bool)
    requires ReferencesStored(ctx.k, blobs, stored) && stored <= has && ChainRefsIn(chain, has)
    requires ExtendChain(ctx, blobs, chain, names, createMissing).Ok?
    ensures ChainRefsIn(ExtendChain(ctx, blobs, chain, names, createMissing).value, has)
    decreases |names| + 1 - |chain|
  {
    hide ReadDir, Found, ValidDirectory, ReferencesStored, ValidName, Join;
    if |chain| <= |names| {
      var depth := |chain| - 1;
      var name := names[depth];
      var next := NextDir(ctx, blobs, chain[depth], names[..depth], name, createMissing).value;
      if Found(chain[depth], name).Some? {
        ReadDirRefs(ctx.k, blobs, stored, Join(names[..depth] + [name]), Found(chain[depth], name).value.cid);
      } else {
        EmptyRefs(ctx.bucketId, has);
      }
      ExtendRefs(ctx, blobs, stored, has, chain + [next], names, createMissing);
    }
  }

  lemma PutBackRefs(
    k: Crypto, parent: DirectoryNode, name: Name, child: DirectoryNode, mtime: u64, path: Bytes, has: set<Cid>)
    requires ValidDirectory(parent) && RefsIn(parent, has) && PutBack(k, parent, name, child, mtime, path).Ok?
    ensures var d := PutBack(k, parent, name, child, mtime, path).value;
      ValidDirectory(d) && RefsIn(d, has + {ComputeCid(k, DirBlob(child))})
  {
    hide ValidDirectory, Upserted, DirBlob, ComputeCid;
    UpsertedRefs(parent, EntryForDir(k, name, child, mtime), has + {ComputeCid(k, DirBlob(child))});
  }

  lemma ReadyDir(k: Crypto, content: Bytes, has: set<Cid>, d: DirectoryNode)
    requires ValidDirectory(d) && RefsIn(d, has)
    ensures Ready(k, content, has, DirBlob(d))
  {
    hide ValidDirectory, DirBlob, RefsIn, ReadyManifest;
    assert ReadyDirectory(DirBlob(d), has);
  }

  /** A rewrite encodes children before their parents. */
  lemma {:induction false} RewriteInOrder(
    k: Crypto, content: Bytes, has: set<Cid>, chain: DirChain, names: seq<Name>, depth: nat, mtime: u64, path: Bytes)
    requires |chain| == |names| + 1 && depth <= |names| && ChainRefsIn(chain, has)
    requires RewriteBelow(k, chain, names, depth, mtime, path).Ok?
    ensures var r := RewriteBelow(k, chain, names, depth, mtime, path).value;
      InOrder(k, content, has, r.encoded) && ChainRefsIn(r.chain, has + CidSet(k, r.encoded))
    decreases |names|
  {
    hide ValidDirectory, PutBack, DirBlob, ComputeCid, Ready, RewriteBelow, RefsIn;
    if |names| == depth {
      RewriteEnd(k, chain, names, mtime, path);
      assert has + CidSet(k, []) == has;
    } else {
      var last := |names| - 1;
      var child := chain[last + 1];
      RewriteStep(k, chain, names, depth, mtime, path);
      var parent := PutBack(k, chain[last], names[last], child, mtime, path).value;
      var (blob, more) := (DirBlob(child), has + {ComputeCid(k, DirBlob(child))});
      PutBackRefs(k, chain[last], names[last], child, mtime, path, has);
      MoreRefs(chain, has, more);
      ReadyDir(k, content, has, child);
      RewriteInOrder(k, content, more, UpTo(chain, last, parent), names[..last], depth, mtime, path);
      var above := RewriteBelow(k, UpTo(chain, last, parent), names[..last], depth, mtime, path).value;
      var encoded := [blob] + above.encoded;
      assert encoded[1..] == above.encoded;
      CidSetStep(k, encoded);
      assert more + CidSet(k, above.encoded) == has + CidSet(k, encoded);
    }
  }

  lemma PlanRewriteInOrder(
    k: Crypto, content: Bytes, has: set<Cid>, first: seq<Bytes>, chain: DirChain, names: seq<Name>, mtime: u64,
    path: Bytes)
    requires |chain| == |names| + 1 && InOrder(k, content, has, first) && ChainRefsIn(chain, has + CidSet(k, first))
    requires PlanRewrite(k, first, chain, names, mtime, path).Ok?
    ensures PlanInOrder(k, content, has, PlanRewrite(k, first, chain, names, mtime, path))
  {
    hide ValidDirectory, DirBlob, ComputeCid, Ready, RewriteBelow, RefsIn, InOrder;
    var r := RewriteBelow(k, chain, names, 0, mtime, path).value;
    var has' := has + CidSet(k, first);
    RewriteInOrder(k, content, has', chain, names, 0, mtime, path);
    InOrderAppend(k, content, has, first, r.encoded);
    CidSetOfTwo(k, first, r.encoded);
    assert has' + CidSet(k, r.encoded) == has + CidSet(k, first + r.encoded);
    assert r.chain[0] in r.chain;
    ReadyDir(k, content, has + CidSet(k, first + r.encoded), r.chain[0]);
    OneInOrder(k, content, has + CidSet(k, first + r.encoded), DirBlob(r.chain[0]));
    InOrderAppend(k, content, has, first + r.encoded, [DirBlob(r.chain[0])]);
  }

  /** If there is a plan, its uploads are in order. */
  ghost predicate PlanInOrder(k: Crypto, content: Bytes, has: set<Cid>, plan: Result<Plan, FsError>) {
    plan.Ok? ==> InOrder(k, content, has, plan.value.blobs + [plan.value.root])
  }

  lemma WithLastRefs(chain: DirChain, last: DirectoryNode, has: set<Cid>)
    requires ChainRefsIn(chain, has) && ValidDirectory(last) && RefsIn(last, has)
    ensures ChainRefsIn(WithLast(chain, last), has)
  {
    hide ValidDirectory, RefsIn;
  }

  // ---- The operations ----

  lemma PutInOrder(
    k: Crypto, has: set<Cid>, chain: DirChain, parents: seq<Name>, name: Name, path: Bytes, m: FileManifest,
    data: Bytes, clock: Clock)
    requires |chain| == |parents| + 1 && ChainRefsIn(chain, has)
    requires ValidManifest(m) && m.totalSize == |data| && ContentRoot(k, m) == ComputeCid(k, data)
    ensures PlanInOrder(k, data, has, PutInto(k, chain, parents, name, path, m, data, clock))
  {
    hide ValidDirectory, ComputeCid, ContentRoot, Upserted, Found, PlanRewrite, RefsIn, ManifestBlob, ValidManifest,
      InOrder, FileEntry;
    var parent := chain[|parents|];
    assert parent in chain;
    var e := FileEntry(k, name, m, |data|, clock.first);
    var first := (if data == [] then [] else [data]) + [ManifestBlob(m)];
    ContentFirst(k, has, m, data);
    FileRef(k, name, m, |data|, clock.first);
    if Upserted(parent, e).Ok? {
      var more := has + CidSet(k, first);
      assert ManifestBlob(m) in first;
      MoreRefs(chain, has, more);
      UpsertedRefs(parent, e, more);
      WithLastRefs(chain, Upserted(parent, e).value, more);
      if PlanRewrite(k, first, WithLast(chain, Upserted(parent, e).value), parents, clock.second, path).Ok? {
        PlanRewriteInOrder(k, data, has, first, WithLast(chain, Upserted(parent, e).value), parents, clock.second,
          path);
      }
    }
  }

  lemma FileRef(k: Crypto, name: Name, m: FileManifest, size: nat, mtime: u64)
    ensures FileEntry(k, name, m, size, mtime).cid == ComputeCid(k, ManifestBlob(m))
    ensures ValidEntry(FileEntry(k, name, m, size, mtime))
  {
    hide ManifestBlob, ComputeCid;
  }

  /** The content comes before its manifest. */
  lemma ContentFirst(k: Crypto, has: set<Cid>, m: FileManifest, data: Bytes)
    requires ValidManifest(m) && m.totalSize == |data| && ContentRoot(k, m) == ComputeCid(k, data)
    ensures InOrder(k, data, has, (if data == [] then [] else [data]) + [ManifestBlob(m)])
  {
    hide ComputeCid, ContentRoot, ManifestBlob, ReadyDirectory;
    var b := ManifestBlob(m);
    if data == [] {
      assert m.chunks == [];
      assert ReadyManifest(k, b, has);
      OneInOrder(k, data, has, b);
      assert [] + [b] == [b];
    } else {
      var more := has + {ComputeCid(k, data)};
      assert ReadyManifest(k, b, more);
      OneInOrder(k, data, more, b);
      assert ([data] + [b])[1..] == [b];
    }
  }

  lemma {:induction false} PruneRefs(chain: DirChain, names: seq<Name>, has: set<Cid>)
    requires |chain| == |names| + 1 && ChainRefsIn(chain, has)
    ensures ChainRefsIn(PruneChain(chain, names).0, has)
    decreases |names|
  {
    hide ValidDirectory, RefsIn, Removed, ValidName;
    if names != [] && chain[|names|].children == [] {
      var last := |names| - 1;
      assert chain[last] in chain;
      RemovedRefs(chain[last], names[last], has);
      PruneRefs(UpTo(chain, last, Removed(chain[last], names[last])), names[..last], has);
    }
  }

  lemma DeleteInOrder(
    ctx: Context, blobs: Blobs, has: set<Cid>, chain: DirChain, names: seq<Name>, path: Bytes,
    emptyParents: EmptyParents, clock: Clock)
    requires names != [] && |chain| == |names| && ChainRefsIn(chain, has)
    ensures PlanInOrder(ctx.k, [], has, DeleteFrom(ctx, blobs, chain, names, path, emptyParents, clock))
  {
    hide ValidDirectory, Found, PlanRewrite, RefsIn, InOrder, Removed, ReadDir, ValidName, PruneChain, NewEmpty, CidSet;
    var (parents, name) := (Parents(names), Last(names));
    assert chain[|parents|] in chain;
    RemovedRefs(chain[|parents|], name, has);
    var without := WithLast(chain, Removed(chain[|parents|], name));
    WithLastRefs(chain, Removed(chain[|parents|], name), has);
    PruneRefs(without, parents, has);
    var (kept, keptNames) := if emptyParents == Remove then PruneChain(without, parents) else (without, parents);
    RewriteOnly(ctx.k, has, kept, keptNames, clock.first, path);
  }

  lemma NothingFirst(k: Crypto, content: Bytes, has: set<Cid>)
    ensures InOrder(k, content, has, []) && has + CidSet(k, []) == has
  {
    hide ComputeCid, Ready;
  }

  /** A rewrite with nothing else to upload. */
  lemma RewriteOnly(k: Crypto, has: set<Cid>, chain: DirChain, names: seq<Name>, mtime: u64, path: Bytes)
    requires |chain| == |names| + 1 && ChainRefsIn(chain, has)
    ensures PlanInOrder(k, [], has, PlanRewrite(k, [], chain, names, mtime, path))
  {
    hide PlanRewrite, ChainRefsIn, InOrder, CidSet, ValidName;
    NothingFirst(k, [], has);
    if PlanRewrite(k, [], chain, names, mtime, path).Ok? {
      PlanRewriteInOrder(k, [], has, [], chain, names, mtime, path);
    }
  }

  lemma MkdirInOrder(
    ctx: Context, has: set<Cid>, chain: DirChain, names: seq<Name>, path: Bytes, mtime: u64)
    requires |chain| == |names| && ChainRefsIn(chain, has)
    ensures var longer := chain + [NewEmpty(ctx.bucketId)];
      PlanInOrder(ctx.k, [], has, PlanRewrite(ctx.k, [], longer, names, mtime, path))
  {
    hide ValidDirectory, PlanRewrite, RefsIn, PlanInOrder, NewEmpty, ValidName;
    EmptyRefs(ctx.bucketId, has);
    RewriteOnly(ctx.k, has, chain + [NewEmpty(ctx.bucketId)], names, mtime, path);
  }

  lemma MoveInOrder(
    k: Crypto, has: set<Cid>, first: seq<Bytes>, chain: DirChain, parents: seq<Name>, name: Name, to: Bytes,
    entry: DirectoryEntry, clock: Clock)
    requires |chain| == |parents| + 1 && InOrder(k, [], has, first) && ChainRefsIn(chain, has + CidSet(k, first))
    requires ValidEntry(entry) && entry.cid in has
    ensures PlanInOrder(k, [], has, MoveInto(k, first, chain, parents, name, to, entry, clock))
  {
    hide ValidDirectory, ComputeCid, Upserted, Found, PlanRewrite, RefsIn, InOrder;
    var parent := chain[|parents|];
    assert parent in chain;
    var e := entry.(name := name);
    if Upserted(parent, e).Ok? {
      var last := Upserted(parent, e).value;
      UpsertedRefs(parent, e, has + CidSet(k, first));
      WithLastRefs(chain, last, has + CidSet(k, first));
      if PlanRewrite(k, first, WithLast(chain, last), parents, clock.second, to).Ok? {
        PlanRewriteInOrder(k, [], has, first, WithLast(chain, last), parents, clock.second, to);
      }
    }
  }

  lemma RenameInOrder(
    ctx: Context, blobs: Blobs, has: set<Cid>, chain: DirChain, fromNames: seq<Name>, toNames: seq<Name>,
    from: Bytes, to: Bytes, clock: Clock)
    requires fromNames != [] && toNames != [] && |chain| == |fromNames|
    requires ReferencesStored(ctx.k, blobs, has) && ChainRefsIn(chain, has)
    ensures PlanInOrder(ctx.k, [], has, TakeAndMove(ctx, blobs, chain, fromNames, toNames, from, to, clock))
  {
    hide ValidDirectory, ComputeCid, Found, RefsIn, InOrder, Removed, RewriteBelow, ExtendChain, MoveInto, ValidName,
      ReferencesStored, ValidEntry;
    var (parents, name) := (Parents(fromNames), Last(fromNames));
    var common := CommonPrefix(parents, Parents(toNames));
    var parent := chain[|parents|];
    assert parent in chain;
    RemovedRefs(parent, name, has);
    FoundIsLookup(parent, name);
    var without := WithLast(chain, Removed(parent, name));
    WithLastRefs(chain, Removed(parent, name), has);
    var below := RewriteBelow(ctx.k, without, parents, common, clock.first, from);
    if Found(parent, name).Some? && below.Ok? {
      FoundRef(parent, name, has);
      RewriteInOrder(ctx.k, [], has, without, parents, common, clock.first, from);
      var more := has + CidSet(ctx.k, below.value.encoded);
      var chain' := ExtendChain(ctx, blobs, below.value.chain, Parents(toNames), true);
      if chain'.Ok? {
        ExtendRefs(ctx, blobs, has, more, below.value.chain, Parents(toNames), true);
        MoveInOrder(ctx.k, has, below.value.encoded, chain'.value, Parents(toNames), Last(toNames), to,
                    Found(parent, name).value, clock);
      }
    }
  }

  /** The content that an operation uploads. */
  function ContentOf(op: Operation): Bytes { if op.PutFile? then op.data else [] }

  /**
   If what the stored directories reference is there, each blob that an operation
   uploads references only what is there or was uploaded before it: content before its
   manifest, and both before the directories, from the changed one up to the root.
   */
  lemma UploadsInOrder(ctx: Context, blobs: Blobs, has: set<Cid>, leaf: Option<Cid>, op: Operation, clock: Clock)
    requires ReferencesStored(ctx.k, blobs, has)
    ensures PlanInOrder(ctx.k, ContentOf(op), has, PlanOf(ctx, blobs, leaf, op, clock))
  {
    hide PlanPut, PlanMkdir, PlanDelete, PlanRename, Prepare, LoadedRoot, ReferencesStored, InOrder, WellFormed, RefsIn,
      ValidDirectory, ValidManifest, ContentRoot, ComputeCid;
    var (prepared, loaded) := (Prepare(ctx.k, ctx.bucketId, op), LoadedRoot(ctx, blobs, leaf));
    if prepared.Ok? && loaded.Ok? {
      var root := loaded.value;
      RootRefs(ctx, blobs, has, leaf);
      PreparedIsFaithful(ctx.k, ctx.bucketId, op);
      TaskOf(ctx.k, ctx.bucketId, op);
      TaskInOrder(ctx, blobs, has, root, prepared.value, clock);
    }
  }

  lemma RootRefs(ctx: Context, blobs: Blobs, has: set<Cid>, leaf: Option<Cid>)
    requires ReferencesStored(ctx.k, blobs, has) && LoadedRoot(ctx, blobs, leaf).Ok?
    ensures ChainRefsIn([LoadedRoot(ctx, blobs, leaf).value], has)
  {
    hide ReadDir, ReadRoot, ValidDirectory, RefsIn, Stored, DirBlob, ComputeCid, NewEmpty;
    if leaf.Some? {
      var d := ReadRoot(ctx, blobs, leaf.value).value;
      ReadRootMeaning(ctx, blobs, leaf.value, d);
      ReadDirMeaning(ctx.k, blobs, [], leaf.value, d);
    } else {
      EmptyRefs(ctx.bucketId, has);
    }
  }

  lemma TaskOf(k: Crypto, bucketId: u64, op: Operation)
    requires Prepare(k, bucketId, op).Ok?
    ensures var task := Prepare(k, bucketId, op).value;
      && WellFormed(task)
      && (if task.PutTask? then op.PutFile? && task.data == op.data else !op.PutFile?)
  {
    hide ForContent, ParsePath;
  }

  function TaskContent(task: Task): Bytes { if task.PutTask? then task.data else [] }

  lemma TaskInOrder(ctx: Context, blobs: Blobs, has: set<Cid>, root: DirectoryNode, task: Task, clock: Clock)
    requires ReferencesStored(ctx.k, blobs, has) && ChainRefsIn([root], has) && WellFormed(task)
      && Faithful(ctx.k, task)
    ensures PlanInOrder(ctx.k, TaskContent(task), has, PlanTask(ctx, blobs, root, task, clock))
  {
    hide ReferencesStored, InOrder, RefsIn, ValidDirectory, ValidManifest, ContentRoot, ComputeCid, ExtendChain,
      PutInto, DeleteFrom, TakeAndMove, PlanRewrite, Found, ValidName;
    var dirs := match task
      case PutTask(names, _, _, _) => Parents(names)
      case MkdirTask(names, _) => Parents(names)
      case DeleteTask(names, _, _) => Parents(names)
      case RenameTask(fromNames, _, _, _) => Parents(fromNames);
    var create := task.PutTask? || task.MkdirTask?;
    var walk := ExtendChain(ctx, blobs, [root], dirs, create);
    if walk.Ok? {
      ExtendRefs(ctx, blobs, has, has, [root], dirs, create);
      var chain := walk.value;
      match task
      case PutTask(names, path, m, data) => PutInOrder(ctx.k, has, chain, dirs, Last(names), path, m, data, clock);
      case MkdirTask(names, path) => MkdirInOrder(ctx, has, chain, names, path, clock.first);
      case DeleteTask(names, path, emptyParents) =>
        DeleteInOrder(ctx, blobs, has, chain, names, path, emptyParents, clock);
      case RenameTask(fromNames, toNames, from, to) =>
        RenameInOrder(ctx, blobs, has, chain, fromNames, toNames, from, to, clock);
    }
  }

  // ---- What is really uploaded ----

  lemma {:induction false} InOrderSnoc(k: Crypto, content: Bytes, has: set<Cid>, items: seq<Bytes>)
    requires items != []
    ensures var (init, last) := (items[..|items| - 1], items[|items| - 1]);
      InOrder(k, content, has, items) <==>
        InOrder(k, content, has, init) && Ready(k, content, has + CidSet(k, init), last)
    decreases |items|
  {
    hide ComputeCid, Ready;
    var init := items[..|items| - 1];
    if |items| == 1 {
      assert has + CidSet(k, init) == has;
    } else {
      var more := has + {ComputeCid(k, items[0])};
      InOrderSnoc(k, content, more, items[1..]);
      assert items[1..][..|items| - 2] == init[1..];
      CidSetStep(k, init);
      assert more + CidSet(k, init[1..]) == has + CidSet(k, init);
    }
  }

  lemma {:induction false} FirstBlobsCids(k: Crypto, items: seq<Bytes>)
    ensures CidSet(k, FirstBlobs(k, items)) == CidSet(k, items)
    decreases |items|
  {
    hide ComputeCid;
    if items != [] {
      var (init, last) := (items[..|items| - 1], items[|items| - 1]);
      FirstBlobsCids(k, init);
      assert items == init + [last];
      CidSetOfTwo(k, init, [last]);
      CidSetOfTwo(k, FirstBlobs(k, init), [last]);
      if ComputeCid(k, last) in CidsOf(k, init) {
        var i :| 0 <= i < |init| && CidsOf(k, init)[i] == ComputeCid(k, last);
        assert init[i] in init;
        assert CidSet(k, init) + CidSet(k, [last]) == CidSet(k, init);
      }
    }
  }

  /** Leaving out what has a CID that was uploaded before keeps the order. */
  lemma {:induction false} FirstBlobsInOrder(k: Crypto, content: Bytes, has: set<Cid>, items: seq<Bytes>)
    requires InOrder(k, content, has, items)
    ensures InOrder(k, content, has, FirstBlobs(k, items))
    decreases |items|
  {
    hide ComputeCid, Ready, InOrder;
    if items == [] {
      NothingFirst(k, content, has);
    } else {
      var (init, last) := (items[..|items| - 1], items[|items| - 1]);
      InOrderSnoc(k, content, has, items);
      FirstBlobsInOrder(k, content, has, init);
      FirstBlobsCids(k, init);
      var uploaded := FirstBlobs(k, init) + [last];
      assert FirstBlobs(k, init) + [] == FirstBlobs(k, init);
      assert uploaded[..|uploaded| - 1] == FirstBlobs(k, init);
      InOrderSnoc(k, content, has, uploaded);
    }
  }

  /** After any number of the uploads of an operation, each of them references only what is stored. */
  lemma UploadsAreClosed(
    ctx: Context, blobs: Blobs, has: set<Cid>, leaf: Option<Cid>, op: Operation, clock: Clock, n: nat)
    requires ReferencesStored(ctx.k, blobs, has) && PlanOf(ctx, blobs, leaf, op, clock).Ok?
    requires var plan := PlanOf(ctx, blobs, leaf, op, clock).value;
      n < |FirstBlobs(ctx.k, plan.blobs + [plan.root])|
    ensures var plan := PlanOf(ctx, blobs, leaf, op, clock).value;
      var uploads := FirstBlobs(ctx.k, plan.blobs + [plan.root]);
      Ready(ctx.k, ContentOf(op), has + CidSet(ctx.k, uploads[..n]), uploads[n])
  {
    hide PlanOf, ComputeCid, Ready, InOrder, FirstBlobs, ReferencesStored;
    UploadsInOrder(ctx, blobs, has, leaf, op, clock);
    var plan := PlanOf(ctx, blobs, leaf, op, clock).value;
    FirstBlobsInOrder(ctx.k, ContentOf(op), has, plan.blobs + [plan.root]);
    ReadyAt(ctx.k, ContentOf(op), has, FirstBlobs(ctx.k, plan.blobs + [plan.root]), n);
  }

  lemma {:induction false} ReadyAt(k: Crypto, content: Bytes, has: set<Cid>, items: seq<Bytes>, n: nat)
    requires InOrder(k, content, has, items) && n < |items|
    ensures Ready(k, content, has + CidSet(k, items[..n]), items[n])
    decreases |items|
  {
    hide ComputeCid, Ready, InOrder;
    var (init, last) := (items[..|items| - 1], items[|items| - 1]);
    InOrderSnoc(k, content, has, items);
    if n < |init| {
      ReadyAt(k, content, has, init, n);
      assert init[..n] == items[..n];
    } else {
      assert items[..n] == init;
    }
  }
}
