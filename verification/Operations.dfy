/** Each operation of the file tree refines the operation of the same name on drives. */
module OperationRefinement {
  import opened Wrappers
  import opened Octets
  import opened Format
  import opened Hashing
  import opened Directories
  import opened Manifests
  import opened Paths
  import opened Drives
  import opened Zippers
  import opened Plans
  import opened Represents
  import opened Refinement

  /**
   The plan has the outcome of the abstract result; and once its blobs are stored
   beside the ones it was made from, its root represents the resulting drive.
   */
  ghost predicate Refines(ctx: Context, more: Blobs, plan: Result<Plan, FsError>, result: Result<Drive, FsError>) {
    && SameOutcome(plan, result)
    && (plan.Ok? && PlanStored(ctx.k, more, plan.value) ==> RootRep(ctx, more, plan.value, result.value))
  }

  lemma LastIsValid(names: seq<Name>)
    requires names != []
    ensures ValidName(Last(names))
  {
  }

  /** A chain that is represented, changed in its last directory. */
  lemma AmendChain(ctx: Context, blobs: Blobs, chain: DirChain, kids: Chain, last: DirectoryNode, lastKids: Drive)
    requires |chain| == |kids| && SameNames(ctx, last, lastKids)
    requires forall i | 0 <= i < |chain| - 1 :: SameNames(ctx, chain[i], kids[i])
    ensures SameNamesChain(ctx, WithLast(chain, last), Amend(kids, lastKids))
    ensures RepChain(ctx, blobs, chain, kids, 0) && RepKids(ctx, blobs, last, lastKids)
      ==> RepChain(ctx, blobs, WithLast(chain, last), Amend(kids, lastKids), 0)
  {
    hide RepKids, SameNames;
  }

  lemma RepIsSameNames(ctx: Context, blobs: Blobs, chain: seq<DirectoryNode>, kids: seq<Drive>)
    requires RepChain(ctx, blobs, chain, kids, 0)
    ensures SameNamesChain(ctx, chain, kids)
  {
    hide RepNode, ValidDirectory, EntryMap;
    forall i | 0 <= i < |chain| ensures SameNames(ctx, chain[i], kids[i]) {
      assert RepKids(ctx, blobs, chain[i], kids[i]);
    }
  }

  /** The chain of directories to `names`, on both sides. */
  lemma WalkRefines(ctx: Context, blobs: Blobs, root: DirectoryNode, drive: Drive, names: seq<Name>, mode: Mode)
    requires RepKids(ctx, blobs, root, drive)
    ensures SameWalk(ctx, blobs, ExtendChain(ctx, blobs, [root], names, mode == CreateMissing),
                     Extend([], [drive], names, mode), 0, |names| + 1)
  {
    hide RepNode, ValidDirectory, EntryMap, Extend, ExtendChain;
    ExtendRefines(ctx, blobs, [root], [drive], names, mode);
    if Extend([], [drive], names, mode).Ok? {
      var chain := ExtendChain(ctx, blobs, [root], names, mode == CreateMissing).value;
      ExtendKeepsPrefix(ctx, blobs, [root], names, mode == CreateMissing);
      assert [root] <= chain && chain[0] == root;
      assert Extend([], [drive], names, mode).value[0] == drive;
    }
  }

  lemma ChildRefines(ctx: Context, blobs: Blobs, d: DirectoryNode, kids: Drive, name: Name)
    requires RepKids(ctx, blobs, d, kids)
    ensures Found(d, name).Some? <==> name in kids
    ensures Found(d, name).Some? ==>
      && var e := Found(d, name).value;
      && e.name == name && ValidEntry(e) && RepNode(ctx, blobs, e, kids[name])
      && (e.entryType == Directory <==> kids[name].DirNode?)
  {
    hide RepNode, ValidDirectory, EntryMap, Found;
    FoundRefines(ctx, blobs, d, kids, name);
  }

  // ---- put_file ----

  lemma FileEntryRefines(
    ctx: Context, more: Blobs, name: Name, m: FileManifest, data: Bytes, mtime: u64)
    requires ValidManifest(m) && m.totalSize == |data| && ContentRoot(ctx.k, m) == ComputeCid(ctx.k, data)
    requires Stored(ctx.k, more, ManifestBlob(m)) && (data != [] ==> Stored(ctx.k, more, data))
    ensures RepNode(ctx, more, FileEntry(ctx.k, name, m, |data|, mtime), FileNode(mtime, m, data))
  {
    hide ManifestBlob, ComputeCid, ContentRoot, ReadManifest, ReadDir, ValidManifest, Stored, EntryMap, ValidName;
    ReadManifestMeaning(ctx.k, more, [], ComputeCid(ctx.k, ManifestBlob(m)), m);
  }

  lemma PutRefines(
    ctx: Context, blobs: Blobs, more: Blobs, root: DirectoryNode, drive: Drive,
    names: seq<Name>, path: Bytes, m: FileManifest, data: Bytes, clock: Clock)
    requires names != [] && RepKids(ctx, blobs, root, drive) && Extends(blobs, more)
    requires ValidManifest(m) && m.totalSize == |data| && ContentRoot(ctx.k, m) == ComputeCid(ctx.k, data)
    ensures Refines(ctx, more, PlanPut(ctx, blobs, root, names, path, m, data, clock),
                    ApplyPut(drive, names, path, m, data, clock))
  {
    hide RepKids, RepNode, Found, Upserted, Bind, Extend, ExtendChain, Fold, PlanRewrite, EditAt, Stored, RootRep,
      ManifestBlob, ValidManifest, FileEntry, ComputeCid, ContentRoot, ValidName, SameNames, PutInto, FinishEdit;
    var (parents, name) := (Parents(names), Last(names));
    LastIsValid(names);
    var node := FileNode(clock.first, m, data);
    ZipEditIsEditAt(drive, [], parents, CreateMissing, clock.second, path, SetFile(name, node, path));
    ExtendLength([], [drive], parents, CreateMissing);
    WalkRefines(ctx, blobs, root, drive, parents, CreateMissing);
    if Extend([], [drive], parents, CreateMissing).Ok? {
      var kids := Extend([], [drive], parents, CreateMissing).value;
      var chain := ExtendChain(ctx, blobs, [root], parents, true).value;
      PutIntoRefines(ctx, blobs, more, chain, kids, parents, name, path, m, data, clock);
    }
  }

  lemma PutIntoRefines(
    ctx: Context, blobs: Blobs, more: Blobs, chain: DirChain, kids: Chain,
    parents: seq<Name>, name: Name, path: Bytes, m: FileManifest, data: Bytes, clock: Clock)
    requires |kids| == |parents| + 1 && RepChain(ctx, blobs, chain, kids, 0) && Extends(blobs, more)
    requires ValidManifest(m) && m.totalSize == |data| && ContentRoot(ctx.k, m) == ComputeCid(ctx.k, data)
    ensures RefinesChain(ctx, more, PutInto(ctx.k, chain, parents, name, path, m, data, clock),
                         FinishEdit(kids, parents, CreateMissing, clock.second, path,
                                    SetFile(name, FileNode(clock.first, m, data), path)))
  {
    hide RepKids, RepNode, Found, Upserted, Bind, Fold, PlanRewrite, Stored, RootRep,
      ManifestBlob, ValidManifest, ComputeCid, ContentRoot, ValidName, SameNames, EntryMap;
    var (parent, pkids) := (chain[|parents|], kids[|parents|]);
    var entry := FileEntry(ctx.k, name, m, |data|, clock.first);
    var node := FileNode(clock.first, m, data);
    var first := (if data == [] then [] else [data]) + [ManifestBlob(m)];
    ChildRefines(ctx, blobs, parent, pkids, name);
    RepIsSameNames(ctx, blobs, chain, kids);
    assert SameNames(ctx, parent, pkids);
    NameIsValid(name);
    ChainGrows(ctx, blobs, more, chain, kids, 0);
    BindRefines(ctx, more, parent, pkids, entry, node, path);
    if Upserted(parent, entry).Ok? {
      var chain' := WithLast(chain, Upserted(parent, entry).value);
      var kids' := Amend(kids, Bind(pkids, name, node, path).value);
      AmendChain(ctx, more, chain, kids, Upserted(parent, entry).value, Bind(pkids, name, node, path).value);
      PlanRewriteRefines(ctx, more, first, chain', kids', parents, clock.second, path);
      var plan := PlanRewrite(ctx.k, first, chain', parents, clock.second, path);
      if plan.Ok? && PlanStored(ctx.k, more, plan.value) {
        FirstIsStored(ctx, more, first, chain', parents, clock.second, path);
        assert data != [] ==> data in first;
        assert ManifestBlob(m) in first;
        FileEntryRefines(ctx, more, name, m, data, clock.first);
      }
    }
  }

  lemma FirstIsStored(
    ctx: Context, more: Blobs, first: seq<Bytes>, chain: DirChain, names: seq<Name>, mtime: u64, path: Bytes)
    requires |chain| == |names| + 1
    requires PlanRewrite(ctx.k, first, chain, names, mtime, path).Ok?
    requires PlanStored(ctx.k, more, PlanRewrite(ctx.k, first, chain, names, mtime, path).value)
    ensures AllStored(ctx.k, more, first)
  {
    hide RewriteBelow, Stored, DirBlob;
    assert forall b <- first :: b in PlanRewrite(ctx.k, first, chain, names, mtime, path).value.blobs;
  }

  // ---- mkdir ----

  /** Making a directory is folding a chain that ends in a new empty one. */
  lemma AddNewByFold(kids: Chain, names: seq<Name>, mtime: u64, path: Bytes)
    requires names != [] && |kids| == |names| && Last(names) !in kids[|names| - 1]
    ensures
      var edited := AddNew(Last(names), DirNode(mtime, map[]), path)(kids[|names| - 1]);
      (edited.Err? ==> Fold(kids + [map[]], names, 0, mtime, path) == Err(edited.error)) &&
      (edited.Ok? ==> Fold(kids + [map[]], names, 0, mtime, path) ==
                      Fold(Amend(kids, edited.value), Parents(names), 0, mtime, path))
  {
    var last := |names| - 1;
    var longer: Chain := kids + [map[]];
    match Bind(longer[last], names[last], DirNode(mtime, longer[last + 1]), path)
    case Err(_) =>
    case Ok(parent) => assert longer[..last] + [parent] == Amend(kids, parent);
  }

  lemma MkdirRefines(
    ctx: Context, blobs: Blobs, more: Blobs, root: DirectoryNode, drive: Drive,
    names: seq<Name>, path: Bytes, clock: Clock)
    requires names != [] && RepKids(ctx, blobs, root, drive) && Extends(blobs, more)
    ensures Refines(ctx, more, PlanMkdir(ctx, blobs, root, names, path, clock), ApplyMkdir(drive, names, path, clock))
  {
    hide RepKids, RepNode, Found, Bind, Extend, ExtendChain, Fold, PlanRewrite, EditAt, Stored, RootRep, ValidName;
    var (parents, name) := (Parents(names), Last(names));
    ZipEditIsEditAt(drive, [], parents, CreateMissing, clock.first, path,
      AddNew(name, DirNode(clock.first, map[]), path));
    ExtendLength([], [drive], parents, CreateMissing);
    WalkRefines(ctx, blobs, root, drive, parents, CreateMissing);
    if Extend([], [drive], parents, CreateMissing).Ok? {
      var kids := Extend([], [drive], parents, CreateMissing).value;
      var chain := ExtendChain(ctx, blobs, [root], parents, true).value;
      assert RepKids(ctx, blobs, chain[|parents|], kids[|parents|]);
      ChildRefines(ctx, blobs, chain[|parents|], kids[|parents|], name);
      if name !in kids[|parents|] {
        EmptyRefines(ctx, blobs);
        var chain' := chain + [NewEmpty(ctx.bucketId)];
        var kids' := kids + [map[]];
        assert RepChain(ctx, blobs, chain', kids', 0);
        RepIsSameNames(ctx, blobs, chain', kids');
        ChainGrows(ctx, blobs, more, chain', kids', 0);
        AddNewByFold(kids, names, clock.first, path);
        PlanRewriteRefines(ctx, more, [], chain', kids', names, clock.first, path);
      }
    }
  }

  // ---- delete ----

  lemma DeleteRefines(
    ctx: Context, blobs: Blobs, more: Blobs, root: DirectoryNode, drive: Drive,
    names: seq<Name>, path: Bytes, emptyParents: EmptyParents, clock: Clock)
    requires names != [] && RepKids(ctx, blobs, root, drive) && Extends(blobs, more)
    ensures Refines(ctx, more, PlanDelete(ctx, blobs, root, names, path, emptyParents, clock),
                    ApplyDelete(drive, names, path, emptyParents, clock))
  {
    hide RepKids, RepNode, Found, Bind, Extend, ExtendChain, Fold, PlanRewrite, EditAt, Stored, RootRep, ValidName,
      PruneChain, Prune, ReadDir, Removed;
    var (parents, name) := (Parents(names), Last(names));
    var mode := if emptyParents == Keep then Existing else PruneEmpty;
    var edit := if emptyParents == Keep then RemoveEntry(name, path) else RemoveFile(name, path);
    ZipEditIsEditAt(drive, [], parents, mode, clock.first, path, edit);
    ExtendLength([], [drive], parents, mode);
    WalkRefines(ctx, blobs, root, drive, parents, mode);
    if Extend([], [drive], parents, mode).Ok? {
      var kids := Extend([], [drive], parents, mode).value;
      var chain := ExtendChain(ctx, blobs, [root], parents, false).value;
      var (parent, pkids) := (chain[|parents|], kids[|parents|]);
      assert RepKids(ctx, blobs, parent, pkids);
      ChildRefines(ctx, blobs, parent, pkids, name);
      if name in pkids {
        var entry := Found(parent, name).value;
        if pkids[name].DirNode? {
          ChildDirRefines(ctx, blobs, path, entry, pkids[name]);
        }
        RemoveRefines(ctx, blobs, parent, pkids, name);
        var without := WithLast(chain, Removed(parent, name));
        var awithout := Amend(kids, pkids - {name});
        assert RepChain(ctx, blobs, without, awithout, 0);
        PruneRefines(ctx, blobs, without, awithout, parents);
        var (kept, keptNames) := if emptyParents == Remove then PruneChain(without, parents) else (without, parents);
        var (akept, akeptNames) := if emptyParents == Remove then Prune(awithout, parents) else (awithout, parents);
        RepIsSameNames(ctx, blobs, kept, akept);
        ChainGrows(ctx, blobs, more, kept, akept, 0);
        PlanRewriteRefines(ctx, more, [], kept, akept, keptNames, clock.first, path);
      }
    }
  }

  lemma ChildDirRefines(ctx: Context, blobs: Blobs, path: Bytes, e: DirectoryEntry, n: Node)
    requires RepNode(ctx, blobs, e, n) && n.DirNode?
    ensures ReadDir(ctx.k, blobs, path, e.cid).Ok?
    ensures RepKids(ctx, blobs, ReadDir(ctx.k, blobs, path, e.cid).value, n.kids)
    ensures ReadDir(ctx.k, blobs, path, e.cid).value.children == [] <==> n.kids == map[]
  {
    hide ReadDir, ReadManifest, ValidDirectory, EntryMap, DirBlob, ComputeCid, ContentRoot;
    ReadDirAnyPath(ctx.k, blobs, path, e.cid);
    var d := ReadDir(ctx.k, blobs, [], e.cid).value;
    ReadDirMeaning(ctx.k, blobs, [], e.cid, d);
    EmptinessRefines(ctx, d, n.kids);
  }

  // ---- rename ----

  /** Looking up a path is walking to its directory and looking there. */
  lemma {:induction false} LookupByWalk(done: seq<Name>, drive: Drive, names: seq<Name>)
    requires names != [] && Extend(done, [drive], Parents(names), Existing).Ok?
    ensures
      var kids := Extend(done, [drive], Parents(names), Existing).value;
      |kids| == |names| &&
      Lookup(drive, names) == if Last(names) in kids[|names| - 1] then Some(kids[|names| - 1][Last(names)]) else None
    decreases |names|
  {
    hide ValidName, Join;
    var parents := Parents(names);
    ExtendLength(done, [drive], parents, Existing);
    if |names| > 1 {
      assert done + parents[..0] == done;
      var sub := SubDirectory(drive, done, names[0], Existing).value;
      assert [drive] + [sub] == [drive, sub];
      ExtendTail(done, drive, [sub], parents, Existing);
      assert parents[1..] == Parents(names[1..]);
      LookupByWalk(done + [names[0]], sub, names[1..]);
    }
  }

  /** What the first half of a rename leaves: the collapsed chain, in which already stored entries can be read. */
  ghost predicate Collapsed(ctx: Context, blobs: Blobs, more: Blobs, r: Rewritten, kids: Chain, names: seq<Name>) {
    && |r.chain| == |kids| <= |names|
    && SameNamesChain(ctx, r.chain, kids)
    && (|kids| < |names| ==> RepAt(ctx, blobs, r.chain[|kids| - 1], kids[|kids| - 1], names[|kids| - 1]))
    && (AllStored(ctx.k, more, r.encoded) ==> RepChain(ctx, more, r.chain, kids, 0))
  }

  /** The second half. */
  lemma MoveRefines(
    ctx: Context, blobs: Blobs, more: Blobs, r: Rewritten, kids: Chain, names: seq<Name>, to: Bytes,
    entry: DirectoryEntry, moved: Node, clock: Clock)
    requires names != [] && Collapsed(ctx, blobs, more, r, kids, names) && Extends(blobs, more)
    requires ValidEntry(entry) && RepNode(ctx, blobs, entry, moved)
    ensures RefinesChain(ctx, more, PlanMove(ctx, blobs, r, names, to, entry, clock),
                         ZipEdit([], kids, Parents(names), CreateMissing, clock.second, to,
                                 AddNew(Last(names), moved, to)))
  {
    hide RepKids, RepNode, Found, Upserted, Bind, Extend, ExtendChain, Fold, PlanRewrite, Stored, RootRep, ValidName,
      SameNames, RepAt, Extends, MoveInto, FinishEdit;
    var (parents, name) := (Parents(names), Last(names));
    ExtendLength([], kids, parents, CreateMissing);
    ExtendRefines(ctx, blobs, r.chain, kids, parents, CreateMissing);
    if Extend([], kids, parents, CreateMissing).Ok? {
      var full := Extend([], kids, parents, CreateMissing).value;
      var chain := ExtendChain(ctx, blobs, r.chain, parents, true).value;
      ExtendKeepsPrefix(ctx, blobs, r.chain, parents, true);
      ExtendedSameNames(ctx, blobs, r.chain, kids, chain, full);
      ExtendedGrows(ctx, blobs, more, r.chain, kids, chain, full);
      MoveIntoRefines(ctx, blobs, more, r.encoded, chain, full, parents, name, to, entry, moved, clock);
    }
  }

  lemma ExtendedSameNames(
    ctx: Context, blobs: Blobs, short: DirChain, shortKids: Chain, chain: DirChain, kids: Chain)
    requires SameNamesChain(ctx, short, shortKids) && short <= chain && shortKids <= kids
    requires RepChain(ctx, blobs, chain, kids, |short|)
    ensures SameNamesChain(ctx, chain, kids)
  {
    hide RepNode, ValidDirectory, EntryMap;
    forall i | 0 <= i < |chain| ensures SameNames(ctx, chain[i], kids[i]) {
      if i < |short| {
        assert chain[i] == short[i] && kids[i] == shortKids[i];
      } else {
        assert RepKids(ctx, blobs, chain[i], kids[i]);
      }
    }
  }

  lemma ExtendedGrows(
    ctx: Context, blobs: Blobs, more: Blobs, short: DirChain, shortKids: Chain, chain: DirChain, kids: Chain)
    requires |short| == |shortKids| && short <= chain && shortKids <= kids && Extends(blobs, more)
    requires RepChain(ctx, blobs, chain, kids, |short|)
    ensures RepChain(ctx, more, short, shortKids, 0) ==> RepChain(ctx, more, chain, kids, 0)
  {
    hide RepKids, Extends;
    ChainGrows(ctx, blobs, more, chain, kids, |short|);
  }

  lemma MoveIntoRefines(
    ctx: Context, blobs: Blobs, more: Blobs, first: seq<Bytes>, chain: DirChain, kids: Chain,
    parents: seq<Name>, name: Name, to: Bytes, entry: DirectoryEntry, moved: Node, clock: Clock)
    requires |kids| == |parents| + 1 && SameNamesChain(ctx, chain, kids) && Extends(blobs, more)
    requires ValidEntry(entry) && RepNode(ctx, blobs, entry, moved)
    requires AllStored(ctx.k, more, first) ==> RepChain(ctx, more, chain, kids, 0)
    ensures RefinesChain(ctx, more, MoveInto(ctx.k, first, chain, parents, name, to, entry, clock),
                         FinishEdit(kids, parents, CreateMissing, clock.second, to, AddNew(name, moved, to)))
  {
    hide RepKids, Found, Upserted, Bind, Fold, PlanRewrite, Stored, RootRep, ValidName, EntryMap, Extends,
      ReadDir, ReadManifest, ContentRoot, ComputeCid, ValidDirectory;
    var (parent, pkids) := (chain[|parents|], kids[|parents|]);
    var e := entry.(name := name);
    NameIsValid(name);
    assert SameNames(ctx, parent, pkids);
    FoundIsLookup(parent, name);
    RepNodeGrows(ctx, blobs, more, entry, moved);
    RenamedEntry(ctx, more, entry, moved, name);
    BindRefines(ctx, more, parent, pkids, e, moved, to);
    if Upserted(parent, e).Ok? {
      var (last, lastKids) := (Upserted(parent, e).value, Bind(pkids, name, moved, to).value);
      AmendChain(ctx, more, chain, kids, last, lastKids);
      PlanRewriteRefines(ctx, more, first, WithLast(chain, last), Amend(kids, lastKids), parents, clock.second, to);
      var plan := PlanRewrite(ctx.k, first, WithLast(chain, last), parents, clock.second, to);
      if plan.Ok? && PlanStored(ctx.k, more, plan.value) {
        FirstIsStored(ctx, more, first, WithLast(chain, last), parents, clock.second, to);
      }
    }
  }

  lemma RenamedEntry(ctx: Context, blobs: Blobs, e: DirectoryEntry, n: Node, name: Name)
    requires RepNode(ctx, blobs, e, n)
    ensures RepNode(ctx, blobs, e.(name := name), n)
  {
    hide ReadDir, ReadManifest, ContentRoot, ComputeCid, EntryMap;
  }

  /**
   Rename. The walk along `to` starts in directories that were rewritten but not
   uploaded; it only ever reads entries that the rewrite did not touch.
   */
  lemma RenameRefines(
    ctx: Context, blobs: Blobs, more: Blobs, root: DirectoryNode, drive: Drive,
    fromNames: seq<Name>, toNames: seq<Name>, from: Bytes, to: Bytes, clock: Clock)
    requires fromNames != [] && toNames != [] && !(fromNames <= toNames)
    requires RepKids(ctx, blobs, root, drive) && Extends(blobs, more)
    ensures Refines(ctx, more, PlanRename(ctx, blobs, root, fromNames, toNames, from, to, clock),
                    ApplyRename(drive, fromNames, toNames, from, to, clock))
  {
    hide RepKids, RepNode, Found, Extend, ExtendChain, Fold, RewriteBelow, PlanMove, ZipEdit, EditAt, Stored, RootRep,
      ValidName, Removed, SameNames, Lookup, Extends, FinishRename;
    var (parents, name) := (Parents(fromNames), Last(fromNames));
    WalkRefines(ctx, blobs, root, drive, parents, Existing);
    ExtendLength([], [drive], parents, Existing);
    RenameAsZip(drive, fromNames, toNames, from, to, clock);
    if Extend([], [drive], parents, Existing).Ok? {
      var kids := Extend([], [drive], parents, Existing).value;
      var chain := ExtendChain(ctx, blobs, [root], parents, false).value;
      assert RepKids(ctx, blobs, chain[|parents|], kids[|parents|]);
      ChildRefines(ctx, blobs, chain[|parents|], kids[|parents|], name);
      if name in kids[|parents|] {
        TakeAndMoveRefines(ctx, blobs, more, chain, kids, fromNames, toNames, from, to, clock);
      }
    }
  }

  /** The abstract rename as its zipper, and the node it moves. */
  lemma RenameAsZip(
    drive: Drive, fromNames: seq<Name>, toNames: seq<Name>, from: Bytes, to: Bytes, clock: Clock)
    requires fromNames != [] && toNames != []
    ensures Extend([], [drive], Parents(fromNames), Existing).Err? ==>
      Whole(ApplyRename(drive, fromNames, toNames, from, to, clock)) ==
        Extend([], [drive], Parents(fromNames), Existing)
    ensures Extend([], [drive], Parents(fromNames), Existing).Ok? ==>
      var kids := Extend([], [drive], Parents(fromNames), Existing).value;
      |kids| == |fromNames| &&
      Whole(ApplyRename(drive, fromNames, toNames, from, to, clock)) ==
        if Last(fromNames) !in kids[|fromNames| - 1] then Err(PathNotFound(from))
        else ZipRename(drive, [], Parents(fromNames), Parents(toNames), TakeOut(Last(fromNames), from),
                       AddNew(Last(toNames), kids[|fromNames| - 1][Last(fromNames)], to),
                       clock.first, clock.second, from, to)
  {
    hide ValidName, Bind, Extend, Fold, EditAt, Lookup, ZipEdit;
    var (parents, name) := (Parents(fromNames), Last(fromNames));
    ExtendLength([], [drive], parents, Existing);
    ZipEditIsEditAt(drive, [], parents, Existing, clock.first, from, TakeOut(name, from));
    ZipEditWalks(drive, parents, clock.first, from, TakeOut(name, from));
    if Extend([], [drive], parents, Existing).Ok? {
      LookupByWalk([], drive, fromNames);
      var kids := Extend([], [drive], parents, Existing).value;
      if name in kids[|parents|] {
        ZipRenameIsSequential(drive, [], parents, Parents(toNames), TakeOut(name, from),
                              AddNew(Last(toNames), kids[|parents|][name], to),
                              clock.first, clock.second, from, to);
      }
    }
  }

  lemma ZipEditWalks(drive: Drive, names: seq<Name>, mtime: u64, path: Bytes, edit: Edit)
    ensures Extend([], [drive], names, Existing).Err? ==>
      ZipEdit([], [drive], names, Existing, mtime, path, edit) == Extend([], [drive], names, Existing)
    ensures Extend([], [drive], names, Existing).Ok? ==>
      var kids := Extend([], [drive], names, Existing).value;
      |kids| == |names| + 1 &&
      (edit(kids[|names|]).Err? ==>
         ZipEdit([], [drive], names, Existing, mtime, path, edit) == Err(edit(kids[|names|]).error))
  {
    ExtendLength([], [drive], names, Existing);
  }

  lemma TakeAndMoveRefines(
    ctx: Context, blobs: Blobs, more: Blobs, chain: DirChain, kids: Chain,
    fromNames: seq<Name>, toNames: seq<Name>, from: Bytes, to: Bytes, clock: Clock)
    requires fromNames != [] && toNames != [] && !(fromNames <= toNames) && Extends(blobs, more)
    requires |kids| == |fromNames| && RepChain(ctx, blobs, chain, kids, 0)
    requires Last(fromNames) in kids[|fromNames| - 1]
    ensures RefinesChain(ctx, more, TakeAndMove(ctx, blobs, chain, fromNames, toNames, from, to, clock),
                         FinishRename([], kids, Parents(fromNames), Parents(toNames), TakeOut(Last(fromNames), from),
                                      AddNew(Last(toNames), kids[|fromNames| - 1][Last(fromNames)], to),
                                      clock.first, clock.second, from, to))
  {
    hide RepKids, RepNode, Found, Fold, RewriteBelow, PlanMove, ZipEdit, Stored, RootRep, ValidName, Removed,
      SameNames, Extends, RepAt;
    var (parents, name) := (Parents(fromNames), Last(fromNames));
    var common := CommonPrefix(parents, Parents(toNames));
    var (parent, pkids) := (chain[|parents|], kids[|parents|]);
    assert RepKids(ctx, blobs, parent, pkids);
    ChildRefines(ctx, blobs, parent, pkids, name);
    RemoveRefines(ctx, blobs, parent, pkids, name);
    var without, awithout := WithLast(chain, Removed(parent, name)), Amend(kids, pkids - {name});
    assert RepChain(ctx, blobs, without, awithout, 0);
    RepIsSameNames(ctx, blobs, without, awithout);
    RewriteShape(ctx, without, awithout, parents, common, clock.first, from);
    FoldInSteps(awithout, parents, common, common, clock.first, from);
    var below := RewriteBelow(ctx.k, without, parents, common, clock.first, from);
    if below.Ok? {
      var collapsed := Fold(awithout, parents, common, clock.first, from).value;
      if common < |toNames| - 1 {
        UntouchedEntry(ctx, blobs, chain, kids, fromNames, toNames, from, clock);
      }
      if AllStored(ctx.k, more, below.value.encoded) {
        ChainGrows(ctx, blobs, more, without, awithout, 0);
        RewriteContent(ctx, more, without, awithout, parents, common, clock.first, from);
      }
      MoveRefines(ctx, blobs, more, below.value, collapsed, toNames, to, Found(parent, name).value, pkids[name], clock);
    }
  }

  lemma ToInsideFrom(fromNames: seq<Name>, toNames: seq<Name>)
    requires fromNames != [] && toNames != []
    requires CommonPrefix(Parents(fromNames), Parents(toNames)) == |fromNames| - 1 < |toNames| - 1
    requires toNames[|fromNames| - 1] == Last(fromNames)
    ensures fromNames <= toNames
  {
    hide ValidName;
    var common := |fromNames| - 1;
    assert fromNames == Parents(fromNames) + [Last(fromNames)];
    assert toNames[..common] == Parents(toNames)[..common];
  }

  /** In the collapsed chain, the next directory on the way to `to` is one that is already stored. */
  lemma UntouchedEntry(
    ctx: Context, blobs: Blobs, chain: DirChain, kids: Chain,
    fromNames: seq<Name>, toNames: seq<Name>, from: Bytes, clock: Clock)
    requires fromNames != [] && toNames != [] && !(fromNames <= toNames)
    requires |kids| == |fromNames| && RepChain(ctx, blobs, chain, kids, 0)
    requires CommonPrefix(Parents(fromNames), Parents(toNames)) < |toNames| - 1
    requires
      var (parents, name) := (Parents(fromNames), Last(fromNames));
      var common := CommonPrefix(parents, Parents(toNames));
      && SameNamesChain(ctx, WithLast(chain, Removed(chain[|parents|], name)), Amend(kids, kids[|parents|] - {name}))
      && RewriteBelow(ctx.k, WithLast(chain, Removed(chain[|parents|], name)), parents, common, clock.first, from).Ok?
      && Fold(Amend(kids, kids[|parents|] - {name}), parents, common, clock.first, from).Ok?
    ensures
      var (parents, name) := (Parents(fromNames), Last(fromNames));
      var common := CommonPrefix(parents, Parents(toNames));
      var r := RewriteBelow(ctx.k, WithLast(chain, Removed(chain[|parents|], name)), parents, common, clock.first,
        from).value;
      var collapsed := Fold(Amend(kids, kids[|parents|] - {name}), parents, common, clock.first, from).value;
      |collapsed| == common + 1 && SameNamesChain(ctx, r.chain, collapsed) &&
      RepAt(ctx, blobs, r.chain[common], collapsed[common], toNames[common])
  {
    hide RepNode, Found, Fold, RewriteBelow, ValidName, Removed, EntryMap, ValidDirectory;
    var (parents, name) := (Parents(fromNames), Last(fromNames));
    var common := CommonPrefix(parents, Parents(toNames));
    var next := toNames[common];
    var without, awithout := WithLast(chain, Removed(chain[|parents|], name)), Amend(kids, kids[|parents|] - {name});
    assert next == Parents(toNames)[common];
    if common == |parents| && next == name {
      ToInsideFrom(fromNames, toNames);
    }
    RewriteShape(ctx, without, awithout, parents, common, clock.first, from);
    FoldInSteps(awithout, parents, common, common, clock.first, from);
    RewriteKeepsOthers(ctx, without, awithout, parents, common, clock.first, from, next);
    assert RepKids(ctx, blobs, chain[common], kids[common]);
    RemovedIsRemoval(chain[|parents|], name);
  }

  // ---- All operations ----

  /** The manifest of a file to write describes its data. */
  ghost predicate Faithful(k: Crypto, task: Task) {
    task.PutTask? ==>
      && ValidManifest(task.manifest)
      && task.manifest.totalSize == |task.data|
      && ContentRoot(k, task.manifest) == ComputeCid(k, task.data)
  }

  lemma PreparedIsFaithful(k: Crypto, bucketId: u64, op: Operation)
    requires Prepare(k, bucketId, op).Ok?
    ensures Faithful(k, Prepare(k, bucketId, op).value)
  {
    hide ForContent, ContentRoot, ComputeCid, ParsePath, ValidManifest;
    if op.PutFile? {
      ForContentIsFaithful(k, bucketId, op.data, op.contentType, op.userMetadata);
    }
  }

  lemma TaskRefines(
    ctx: Context, blobs: Blobs, more: Blobs, root: DirectoryNode, drive: Drive, task: Task, clock: Clock)
    requires WellFormed(task) && Faithful(ctx.k, task)
    requires RepKids(ctx, blobs, root, drive) && Extends(blobs, more)
    ensures Refines(ctx, more, PlanTask(ctx, blobs, root, task, clock), ApplyTask(task, clock, drive))
  {
    hide RepKids, PlanPut, PlanMkdir, PlanDelete, PlanRename, ApplyPut, ApplyMkdir, ApplyDelete, ApplyRename,
      RootRep, PlanStored, Extends, ContentRoot, ComputeCid, ValidManifest;
    match task
    case PutTask(names, path, m, data) => PutRefines(ctx, blobs, more, root, drive, names, path, m, data, clock);
    case MkdirTask(names, path) => MkdirRefines(ctx, blobs, more, root, drive, names, path, clock);
    case DeleteTask(names, path, emptyParents) =>
      DeleteRefines(ctx, blobs, more, root, drive, names, path, emptyParents, clock);
    case RenameTask(fromNames, toNames, from, to) =>
      RenameRefines(ctx, blobs, more, root, drive, fromNames, toNames, from, to, clock);
  }

  /** The refinement: where the last leaf is a drive, a plan follows the operation on the drive. */
  lemma PlanRefinesApply(
    ctx: Context, blobs: Blobs, more: Blobs, leaf: Option<Cid>, drive: Drive, op: Operation, clock: Clock)
    requires RepDrive(ctx, blobs, leaf, drive) && Extends(blobs, more)
    ensures Refines(ctx, more, PlanOf(ctx, blobs, leaf, op, clock), Apply(ctx.k, ctx.bucketId, op, clock, drive))
  {
    hide RepKids, PlanTask, ApplyTask, Prepare, LoadedRoot, RootRep, PlanStored, Extends, Faithful, WellFormed;
    if Prepare(ctx.k, ctx.bucketId, op).Ok? {
      PreparedIsFaithful(ctx.k, ctx.bucketId, op);
      TaskRefines(ctx, blobs, more, LoadedRoot(ctx, blobs, leaf).value, drive,
                  Prepare(ctx.k, ctx.bucketId, op).value, clock);
    }
  }
}
