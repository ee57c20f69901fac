/**
 The plans of module Plans refine the operations of module Drives: an operation on
 blobs that represent a drive fails exactly as the operation on the drive, and
 otherwise the blobs it uploads represent the drive's new value.
 */
module Refinement {
  import opened Wrappers
  import opened Octets
  import opened Format
  import opened Hashing
  import opened Directories
  import opened Manifests
  import opened Paths
  import opened Drives
  import opened Zippers
  import opened Plans
  import opened Represents

  // ---- Single directories ----

  /** `d` is a valid directory of this bucket with the names of `kids`. */
  ghost predicate SameNames(ctx: Context, d: DirectoryNode, kids: Drive) {
    ValidDirectory(d) && d.bucketId == ctx.bucketId && EntryMap(d).Keys == kids.Keys
  }

  /** `d` agrees with `kids` at `name`, where its blobs can already be read. */
  ghost predicate RepAt(ctx: Context, blobs: Blobs, d: DirectoryNode, kids: Drive, name: Name) {
    && ValidDirectory(d)
    && (name in EntryMap(d) <==> name in kids)
    && (name in kids ==> RepNode(ctx, blobs, EntryMap(d)[name], kids[name]))
  }

  lemma FoundRefines(ctx: Context, blobs: Blobs, d: DirectoryNode, kids: Drive, name: Name)
    requires RepAt(ctx, blobs, d, kids, name)
    ensures Found(d, name).Some? <==> name in kids
    ensures Found(d, name).Some? ==>
      && var e := Found(d, name).value;
      && e.name == name && ValidEntry(e) && RepNode(ctx, blobs, e, kids[name])
      && (e.entryType == Directory <==> kids[name].DirNode?)
  {
    hide ReadDir, ReadManifest, EntryMap, ValidDirectory, ContentRoot, ComputeCid;
    FoundIsLookup(d, name);
  }

  lemma EmptyRefines(ctx: Context, blobs: Blobs)
    ensures RepKids(ctx, blobs, NewEmpty(ctx.bucketId), map[])
  {
    EmptyIsValid(ctx.bucketId);
  }

  lemma EmptinessRefines(ctx: Context, d: DirectoryNode, kids: Drive)
    requires SameNames(ctx, d, kids)
    ensures d.children == [] <==> kids == map[]
  {
    EntryCount(d);
    assert |kids.Keys| == |kids|;
    if kids == map[] {
      assert EntryMap(d).Keys == {};
      assert |EntryMap(d).Keys| == |EntryMap(d)|;
    }
  }

  lemma BindRefines(ctx: Context, blobs: Blobs, d: DirectoryNode, kids: Drive, e: DirectoryEntry, n: Node, path: Bytes)
    requires SameNames(ctx, d, kids) && ValidEntry(e)
    ensures Bind(kids, e.name, n, path).Err? <==> Upserted(d, e).Err?
    ensures Upserted(d, e).Err? ==>
      Upserted(d, e).error == DirectoryFull && Bind(kids, e.name, n, path) == Err(BrokenRule(path, DirectoryFull))
    ensures Upserted(d, e).Ok? ==>
      && SameNames(ctx, Upserted(d, e).value, Bind(kids, e.name, n, path).value)
      && EntryMap(Upserted(d, e).value) == EntryMap(d)[e.name := e]
      && (RepKids(ctx, blobs, d, kids) && RepNode(ctx, blobs, e, n) ==>
            RepKids(ctx, blobs, Upserted(d, e).value, Bind(kids, e.name, n, path).value))
  {
    hide RepNode, Upserted, EntryMap, ValidDirectory;
    UpsertedIsUpdate(d, e);
    assert |EntryMap(d)| == |EntryMap(d).Keys| && |kids| == |kids.Keys|;
    EntryBound(d);
  }

  lemma EntryBound(d: DirectoryNode)
    requires ValidDirectory(d)
    ensures |EntryMap(d)| <= MAX_DIRECTORY_CHILDREN
  {
    EntryCount(d);
  }

  lemma RemoveRefines(ctx: Context, blobs: Blobs, d: DirectoryNode, kids: Drive, name: Name)
    requires RepKids(ctx, blobs, d, kids)
    ensures RepKids(ctx, blobs, Removed(d, name), kids - {name})
  {
    hide RepNode, Removed, EntryMap, ValidDirectory;
    RemovedIsRemoval(d, name);
  }

  // ---- Chains ----

  ghost predicate RepChain(ctx: Context, blobs: Blobs, chain: seq<DirectoryNode>, kids: seq<Drive>, from: nat) {
    && |chain| == |kids|
    && forall i | from <= i < |chain| :: RepKids(ctx, blobs, chain[i], kids[i])
  }

  ghost predicate SameNamesChain(ctx: Context, chain: seq<DirectoryNode>, kids: seq<Drive>) {
    |chain| == |kids| && forall i | 0 <= i < |chain| :: SameNames(ctx, chain[i], kids[i])
  }

  lemma NextDirRefines(
    ctx: Context, blobs: Blobs, d: DirectoryNode, kids: Drive, upto: seq<Name>, name: Name, mode: Mode)
    requires RepAt(ctx, blobs, d, kids, name)
    ensures SubDirectory(kids, upto, name, mode).Err? ==>
      NextDir(ctx, blobs, d, upto, name, mode == CreateMissing) == Err(SubDirectory(kids, upto, name, mode).error)
    ensures SubDirectory(kids, upto, name, mode).Ok? ==>
      && NextDir(ctx, blobs, d, upto, name, mode == CreateMissing).Ok?
      && RepKids(ctx, blobs, NextDir(ctx, blobs, d, upto, name, mode == CreateMissing).value,
                 SubDirectory(kids, upto, name, mode).value)
  {
    hide ReadDir, ReadManifest, EntryMap, ValidDirectory, Found, ContentRoot, ComputeCid, Join, NewEmpty, DirBlob;
    FoundRefines(ctx, blobs, d, kids, name);
    if name in kids {
      var e := Found(d, name).value;
      if kids[name].DirNode? {
        ReadDirAnyPath(ctx.k, blobs, Join(upto + [name]), e.cid);
        ReadDirMeaning(ctx.k, blobs, [], e.cid, ReadDir(ctx.k, blobs, [], e.cid).value);
      }
    } else {
      EmptyRefines(ctx, blobs);
    }
  }

  /** Two walks with the same outcome: the same error, or chains of length `n` that agree from `from` on. */
  ghost predicate SameWalk(
    ctx: Context, blobs: Blobs, walk: Result<DirChain, FsError>, kids: Result<Chain, FsError>, from: nat, n: nat)
  {
    match kids
    case Err(e) => walk == Err(e)
    case Ok(ks) => walk.Ok? && |ks| == n && RepChain(ctx, blobs, walk.value, ks, from)
  }

  lemma {:induction false} ExtendRefines(
    ctx: Context, blobs: Blobs, chain: DirChain, kids: Chain, names: seq<Name>, mode: Mode)
    requires |chain| == |kids| <= |names| + 1
    requires |kids| <= |names| ==> RepAt(ctx, blobs, chain[|kids| - 1], kids[|kids| - 1], names[|kids| - 1])
    ensures SameWalk(ctx, blobs, ExtendChain(ctx, blobs, chain, names, mode == CreateMissing),
                     Extend([], kids, names, mode), |kids|, |names| + 1)
    ensures Extend([], kids, names, mode).Ok? ==> kids <= Extend([], kids, names, mode).value
    decreases |names| + 1 - |kids|
  {
    hide RepNode, NextDir, SubDirectory, EntryMap, ValidDirectory;
    if |kids| <= |names| {
      var depth := |kids| - 1;
      assert [] + names[..depth] == names[..depth];
      NextDirRefines(ctx, blobs, chain[depth], kids[depth], names[..depth], names[depth], mode);
      match SubDirectory(kids[depth], names[..depth], names[depth], mode)
      case Err(_) =>
      case Ok(sub) =>
        var next := NextDir(ctx, blobs, chain[depth], names[..depth], names[depth], mode == CreateMissing).value;
        ExtendRefines(ctx, blobs, chain + [next], kids + [sub], names, mode);
        ExtendKeepsPrefix(ctx, blobs, chain + [next], names, mode == CreateMissing);
    }
  }

  lemma NameIsValid(name: Name)
    ensures ValidName(name)
  {
  }

  lemma {:induction false} RewriteShape(
    ctx: Context, chain: DirChain, kids: Chain, names: seq<Name>, depth: nat, mtime: u64, path: Bytes)
    requires |chain| == |names| + 1 && depth <= |names| && SameNamesChain(ctx, chain, kids)
    ensures Fold(kids, names, depth, mtime, path).Err? ==>
      RewriteBelow(ctx.k, chain, names, depth, mtime, path) == Err(Fold(kids, names, depth, mtime, path).error)
    ensures Fold(kids, names, depth, mtime, path).Ok? ==>
      && RewriteBelow(ctx.k, chain, names, depth, mtime, path).Ok?
      && SameNamesChain(ctx, RewriteBelow(ctx.k, chain, names, depth, mtime, path).value.chain,
                        Fold(kids, names, depth, mtime, path).value)
    decreases |names|
  {
    hide Bind, Upserted, EntryMap, ValidDirectory, DirBlob, ComputeCid, RepKids, ValidName, Fold, RewriteBelow;
    if |names| == depth {
      FoldEnd(kids, names, mtime, path);
      RewriteEnd(ctx.k, chain, names, mtime, path);
    } else {
      var last := |names| - 1;
      FoldStep(kids, names, depth, mtime, path);
      RewriteStep(ctx.k, chain, names, depth, mtime, path);
      var e := EntryForDir(ctx.k, names[last], chain[last + 1], mtime);
      NameIsValid(names[last]);
      BindRefines(ctx, map[], chain[last], kids[last], e, DirNode(mtime, kids[last + 1]), path);
      if Upserted(chain[last], e).Ok? {
        var parent := Upserted(chain[last], e).value;
        var aparent := Bind(kids[last], names[last], DirNode(mtime, kids[last + 1]), path).value;
        RewriteShape(ctx, UpTo(chain, last, parent), kids[..last] + [aparent], names[..last], depth, mtime, path);
      }
    }
  }

  ghost predicate AllStored(k: Crypto, blobs: Blobs, bs: seq<Bytes>) {
    forall b <- bs :: Stored(k, blobs, b)
  }

  lemma {:induction false} RewriteContent(
    ctx: Context, blobs: Blobs, chain: DirChain, kids: Chain, names: seq<Name>, depth: nat, mtime: u64, path: Bytes)
    requires |chain| == |names| + 1 && depth <= |names| && RepChain(ctx, blobs, chain, kids, 0)
    requires RewriteBelow(ctx.k, chain, names, depth, mtime, path).Ok?
    requires AllStored(ctx.k, blobs, RewriteBelow(ctx.k, chain, names, depth, mtime, path).value.encoded)
    ensures Fold(kids, names, depth, mtime, path).Ok?
    ensures RepChain(ctx, blobs, RewriteBelow(ctx.k, chain, names, depth, mtime, path).value.chain,
                     Fold(kids, names, depth, mtime, path).value, 0)
    decreases |names|
  {
    hide Bind, Upserted, EntryMap, ValidDirectory, DirBlob, ComputeCid, RepNode, ValidName, Fold, RewriteBelow;
    if |names| == depth {
      FoldEnd(kids, names, mtime, path);
      RewriteEnd(ctx.k, chain, names, mtime, path);
    } else {
      var last := |names| - 1;
      FoldStep(kids, names, depth, mtime, path);
      RewriteStep(ctx.k, chain, names, depth, mtime, path);
      var e := EntryForDir(ctx.k, names[last], chain[last + 1], mtime);
      var n := DirNode(mtime, kids[last + 1]);
      BindRefines(ctx, blobs, chain[last], kids[last], e, n, path);
      var parent := Upserted(chain[last], e).value;
      var aparent := Bind(kids[last], names[last], n, path).value;
      var above := RewriteBelow(ctx.k, UpTo(chain, last, parent), names[..last], depth, mtime, path).value;
      var encoded := RewriteBelow(ctx.k, chain, names, depth, mtime, path).value.encoded;
      assert encoded == [DirBlob(chain[last + 1])] + above.encoded;
      assert encoded[0] in encoded;
      assert forall b <- above.encoded :: b in encoded;
      DirEntryRefines(ctx, blobs, chain[last + 1], kids[last + 1], names[last], mtime);
      RewriteContent(ctx, blobs, UpTo(chain, last, parent), kids[..last] + [aparent], names[..last], depth, mtime,
        path);
    }
  }

  lemma DirEntryRefines(ctx: Context, blobs: Blobs, d: DirectoryNode, kids: Drive, name: Name, mtime: u64)
    requires RepKids(ctx, blobs, d, kids) && Stored(ctx.k, blobs, DirBlob(d))
    ensures RepNode(ctx, blobs, EntryForDir(ctx.k, name, d, mtime), DirNode(mtime, kids))
  {
    hide ReadDir, ReadManifest, EntryMap, ValidDirectory, DirBlob, ComputeCid;
    ReadDirMeaning(ctx.k, blobs, [], ComputeCid(ctx.k, DirBlob(d)), d);
  }

  /** Below `depth` nothing changes, and at `depth` only the entry `names[depth]` does. */
  lemma {:induction false} RewriteKeepsOthers(
    ctx: Context, chain: DirChain, kids: Chain, names: seq<Name>, depth: nat, mtime: u64, path: Bytes, other: Name)
    requires |chain| == |names| + 1 && depth <= |names| && SameNamesChain(ctx, chain, kids)
    requires depth < |names| ==> other != names[depth]
    requires Fold(kids, names, depth, mtime, path).Ok?
    requires RewriteBelow(ctx.k, chain, names, depth, mtime, path).Ok?
    ensures var (d, f) := (RewriteBelow(ctx.k, chain, names, depth, mtime, path).value.chain[depth],
                           Fold(kids, names, depth, mtime, path).value);
      && |f| == depth + 1
      && (other in EntryMap(d) <==> other in EntryMap(chain[depth]))
      && (other in EntryMap(d) ==> EntryMap(d)[other] == EntryMap(chain[depth])[other])
      && (other in f[depth] <==> other in kids[depth])
      && (other in f[depth] ==> f[depth][other] == kids[depth][other])
    decreases |names|
  {
    hide Bind, Upserted, EntryMap, ValidDirectory, DirBlob, ComputeCid, ValidName, Fold, RewriteBelow;
    if |names| == depth {
      FoldEnd(kids, names, mtime, path);
      RewriteEnd(ctx.k, chain, names, mtime, path);
    } else {
      var last := |names| - 1;
      FoldStep(kids, names, depth, mtime, path);
      RewriteStep(ctx.k, chain, names, depth, mtime, path);
      var e := EntryForDir(ctx.k, names[last], chain[last + 1], mtime);
      var n := DirNode(mtime, kids[last + 1]);
      BindRefines(ctx, map[], chain[last], kids[last], e, n, path);
      var parent := Upserted(chain[last], e).value;
      var aparent := Bind(kids[last], names[last], n, path).value;
      BindKeepsOthers(kids[last], names[last], n, path, other);
      RewriteKeepsOthers(ctx, UpTo(chain, last, parent), kids[..last] + [aparent], names[..last], depth, mtime, path,
        other);
    }
  }

  lemma BindKeepsOthers(kids: Drive, name: Name, n: Node, path: Bytes, other: Name)
    ensures Bind(kids, name, n, path).Ok? ==> Bind(kids, name, n, path).value == kids[name := n]
  {
  }

  lemma {:induction false} PruneRefines(ctx: Context, blobs: Blobs, chain: DirChain, kids: Chain, names: seq<Name>)
    requires |chain| == |names| + 1 && RepChain(ctx, blobs, chain, kids, 0)
    ensures PruneChain(chain, names).1 == Prune(kids, names).1
    ensures RepChain(ctx, blobs, PruneChain(chain, names).0, Prune(kids, names).0, 0)
    decreases |names|
  {
    hide RepNode, Removed, EntryMap, ValidDirectory;
    EmptinessRefines(ctx, chain[|names|], kids[|names|]);
    if names != [] && kids[|names|] == map[] {
      var last := |names| - 1;
      RemoveRefines(ctx, blobs, chain[last], kids[last], names[last]);
      PruneRefines(ctx, blobs, UpTo(chain, last, Removed(chain[last], names[last])),
                   kids[..last] + [kids[last] - {names[last]}], names[..last]);
    }
  }

  // ---- Whole rewrites ----

  ghost predicate PlanStored(k: Crypto, blobs: Blobs, plan: Plan) {
    AllStored(k, blobs, plan.blobs) && Stored(k, blobs, plan.root)
  }

  /** A plan that follows an abstract result: the same error, or a plan. */
  ghost predicate SameOutcome<T>(plan: Result<Plan, FsError>, result: Result<T, FsError>) {
    match result
    case Err(e) => plan == Err(e)
    case Ok(_) => plan.Ok?
  }

  ghost predicate RootRep(ctx: Context, blobs: Blobs, plan: Plan, drive: Drive) {
    RepDrive(ctx, blobs, Some(ComputeCid(ctx.k, plan.root)), drive)
  }

  /** The plan has the outcome of the folded chain, and represents its top once it is stored. */
  ghost predicate RefinesChain(ctx: Context, blobs: Blobs, plan: Result<Plan, FsError>, result: Result<Chain, FsError>)
  {
    && SameOutcome(plan, result)
    && (plan.Ok? && PlanStored(ctx.k, blobs, plan.value) ==> RootRep(ctx, blobs, plan.value, result.value[0]))
  }

  lemma PlanRewriteRefines(
    ctx: Context, blobs: Blobs, first: seq<Bytes>, chain: DirChain, kids: Chain, names: seq<Name>, mtime: u64,
    path: Bytes)
    requires |chain| == |names| + 1 && SameNamesChain(ctx, chain, kids)
    ensures SameOutcome(PlanRewrite(ctx.k, first, chain, names, mtime, path), Fold(kids, names, 0, mtime, path))
    ensures PlanRewrite(ctx.k, first, chain, names, mtime, path).Ok? && RepChain(ctx, blobs, chain, kids, 0)
      && PlanStored(ctx.k, blobs, PlanRewrite(ctx.k, first, chain, names, mtime, path).value)
      ==> RootRep(ctx, blobs, PlanRewrite(ctx.k, first, chain, names, mtime, path).value,
                  Fold(kids, names, 0, mtime, path).value[0])
  {
    hide RewriteBelow, Fold, EntryMap, ValidDirectory, DirBlob, ComputeCid, RepNode, ReadRoot;
    RewriteShape(ctx, chain, kids, names, 0, mtime, path);
    var plan := PlanRewrite(ctx.k, first, chain, names, mtime, path);
    if plan.Ok? && RepChain(ctx, blobs, chain, kids, 0) && PlanStored(ctx.k, blobs, plan.value) {
      var r := RewriteBelow(ctx.k, chain, names, 0, mtime, path).value;
      assert forall b <- r.encoded :: b in plan.value.blobs;
      RewriteContent(ctx, blobs, chain, kids, names, 0, mtime, path);
      ReadRootMeaning(ctx, blobs, ComputeCid(ctx.k, DirBlob(r.chain[0])), r.chain[0]);
    }
  }

  lemma ChainGrows(ctx: Context, blobs: Blobs, more: Blobs, chain: seq<DirectoryNode>, kids: seq<Drive>, from: nat)
    requires RepChain(ctx, blobs, chain, kids, from) && Extends(blobs, more)
    ensures RepChain(ctx, more, chain, kids, from)
  {
    hide RepKids;
    forall i | from <= i < |chain| ensures RepKids(ctx, more, chain[i], kids[i]) {
      RepKidsGrows(ctx, blobs, more, chain[i], kids[i]);
    }
  }
}
