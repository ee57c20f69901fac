/**
 What a write commits hangs together: every leaf of its commit (content, manifest or
 directory) is reached from the new root by a path of names.
 */
module Reachability {
  import opened Wrappers
  import opened Octets
  import opened Format
  import opened Hashing
  import opened Directories
  import opened Manifests
  import opened Paths
  import opened Drives
  import opened Plans
  import opened Represents
  import opened Refinement
  import opened OperationRefinement
  import opened Stores
  import opened Effects

  /** `cid` is the CID, or the content root, of the entry at `q` below the directory `d`. */
  ghost predicate Reaches(ctx: Context, blobs: Blobs, d: DirectoryNode, q: seq<Bytes>, cid: Cid)
    decreases |q|
  {
    && q != [] && Found(d, q[0]).Some?
    && var e := Found(d, q[0]).value;
    if |q| == 1 then e.cid == cid || (e.entryType == File && HasContent(ctx, blobs, e.cid, cid))
    else
      && e.entryType == Directory && ReadDir(ctx.k, blobs, [], e.cid).Ok?
      && Reaches(ctx, blobs, ReadDir(ctx.k, blobs, [], e.cid).value, q[1..], cid)
  }

  ghost predicate HasContent(ctx: Context, blobs: Blobs, manifest: Cid, content: Cid) {
    && ReadManifest(ctx.k, blobs, [], manifest).Ok?
    && ContentRoot(ctx.k, ReadManifest(ctx.k, blobs, [], manifest).value) == content
  }

  // ---- One directory put back into its parent ----

  lemma PutBackLaw(k: Crypto, parent: DirectoryNode, name: Name, child: DirectoryNode, mtime: u64, path: Bytes,
    other: Bytes)
    requires ValidDirectory(parent) && PutBack(k, parent, name, child, mtime, path).Ok?
    ensures var d := PutBack(k, parent, name, child, mtime, path).value;
      && ValidDirectory(d)
      && Found(d, name) == Some(EntryForDir(k, name, child, mtime))
      && (other != name ==> Found(d, other) == Found(parent, other))
  {
    hide ValidDirectory, Found, Upserted, EntryMap, DirBlob, ComputeCid;
    var e := EntryForDir(k, name, child, mtime);
    UpsertedIsUpdate(parent, e);
    var d := PutBack(k, parent, name, child, mtime, path).value;
    FoundIsLookup(d, name);
    FoundIsLookup(d, other);
    FoundIsLookup(parent, other);
  }

  lemma {:induction false} ReachesThrough(ctx: Context, blobs: Blobs, d: DirectoryNode, name: Bytes,
    child: DirectoryNode, q: seq<Bytes>, cid: Cid)
    requires ValidDirectory(child) && Stored(ctx.k, blobs, DirBlob(child))
    requires Found(d, name).Some? && Found(d, name).value.entryType == Directory
    requires Found(d, name).value.cid == ComputeCid(ctx.k, DirBlob(child))
    ensures Reaches(ctx, blobs, d, [name], ComputeCid(ctx.k, DirBlob(child)))
    ensures Reaches(ctx, blobs, child, q, cid) ==> Reaches(ctx, blobs, d, [name] + q, cid)
  {
    hide ValidDirectory, Found, DirBlob, ComputeCid, ReadDir, Stored, HasContent;
    ReadDirMeaning(ctx.k, blobs, [], ComputeCid(ctx.k, DirBlob(child)), child);
    var longer := [name] + q;
    assert longer[0] == name && longer[1..] == q;
    if Reaches(ctx, blobs, child, q, cid) {
      assert |longer| > 1;
      assert Reaches(ctx, blobs, d, longer, cid);
    }
  }

  // ---- Rewriting a chain ----

  lemma StoredSplit(k: Crypto, blobs: Blobs, blob: Bytes, rest: seq<Bytes>)
    requires AllStored(k, blobs, [blob] + rest)
    ensures Stored(k, blobs, blob) && AllStored(k, blobs, rest)
  {
    hide Stored;
    assert blob == ([blob] + rest)[0];
    forall b | b in rest ensures Stored(k, blobs, b) { assert b in [blob] + rest; }
  }

  /** What the last directory of a chain reaches, the rewritten one at `depth` reaches through the names between. */
  lemma {:induction false} RewriteCarries(
    ctx: Context, blobs: Blobs, chain: DirChain, names: seq<Name>, depth: nat, mtime: u64, path: Bytes,
    q: seq<Bytes>, cid: Cid)
    requires |chain| == |names| + 1 && depth <= |names| && AllValid(chain)
    requires RewriteBelow(ctx.k, chain, names, depth, mtime, path).Ok?
    requires AllStored(ctx.k, blobs, RewriteBelow(ctx.k, chain, names, depth, mtime, path).value.encoded)
    requires Reaches(ctx, blobs, chain[|names|], q, cid)
    ensures Reaches(ctx, blobs, RewriteBelow(ctx.k, chain, names, depth, mtime, path).value.chain[depth],
      names[depth..] + q, cid)
    decreases |names|
  {
    hide ValidDirectory, Found, DirBlob, ComputeCid, PutBack, Stored, AllStored, Reaches;
    if |names| == depth {
      assert names[depth..] + q == q;
    } else {
      var last := |names| - 1;
      var parent := PutBack(ctx.k, chain[last], names[last], chain[last + 1], mtime, path).value;
      var above := RewriteBelow(ctx.k, UpTo(chain, last, parent), names[..last], depth, mtime, path).value;
      PutBackLaw(ctx.k, chain[last], names[last], chain[last + 1], mtime, path, []);
      StoredSplit(ctx.k, blobs, DirBlob(chain[last + 1]), above.encoded);
      ReachesThrough(ctx, blobs, parent, names[last], chain[last + 1], q, cid);
      RewriteCarries(ctx, blobs, UpTo(chain, last, parent), names[..last], depth, mtime, path, [names[last]] + q, cid);
      assert names[..last][depth..] + ([names[last]] + q) == names[depth..] + q;
    }
  }

  /** Every directory that a rewrite encodes is reached from the one at `depth`, by way of `names[depth]`. */
  lemma {:induction false} RewriteReaches(
    ctx: Context, blobs: Blobs, chain: DirChain, names: seq<Name>, depth: nat, mtime: u64, path: Bytes, b: Bytes)
    requires |chain| == |names| + 1 && depth <= |names| && AllValid(chain)
    requires RewriteBelow(ctx.k, chain, names, depth, mtime, path).Ok?
    requires AllStored(ctx.k, blobs, RewriteBelow(ctx.k, chain, names, depth, mtime, path).value.encoded)
    requires b in RewriteBelow(ctx.k, chain, names, depth, mtime, path).value.encoded
    ensures depth < |names|
    ensures var d := RewriteBelow(ctx.k, chain, names, depth, mtime, path).value.chain[depth];
      exists q: seq<Bytes> :: q != [] && q[0] == names[depth] && Reaches(ctx, blobs, d, q, ComputeCid(ctx.k, b))
    decreases |names|
  {
    hide ValidDirectory, Found, DirBlob, ComputeCid, PutBack, Stored, AllStored, Reaches;
    var last := |names| - 1;
    var parent := PutBack(ctx.k, chain[last], names[last], chain[last + 1], mtime, path).value;
    var up := UpTo(chain, last, parent);
    var above := RewriteBelow(ctx.k, up, names[..last], depth, mtime, path).value;
    PutBackLaw(ctx.k, chain[last], names[last], chain[last + 1], mtime, path, []);
    StoredSplit(ctx.k, blobs, DirBlob(chain[last + 1]), above.encoded);
    if b in above.encoded {
      RewriteReaches(ctx, blobs, up, names[..last], depth, mtime, path, b);
    } else {
      var cid := ComputeCid(ctx.k, b);
      ReachesThrough(ctx, blobs, parent, names[last], chain[last + 1], [], cid);
      RewriteCarries(ctx, blobs, up, names[..last], depth, mtime, path, [names[last]], cid);
      var q: seq<Bytes> := names[..last][depth..] + [names[last]];
      assert q[0] == names[depth];
    }
  }

  /** A rewrite to `depth` keeps the directories above, and at `depth` every entry but one. */
  lemma {:induction false} RewriteKeeps(
    k: Crypto, chain: DirChain, names: seq<Name>, depth: nat, mtime: u64, path: Bytes, other: Bytes)
    requires |chain| == |names| + 1 && depth <= |names| && AllValid(chain)
    requires RewriteBelow(k, chain, names, depth, mtime, path).Ok?
    requires depth < |names| ==> other != names[depth]
    ensures var r := RewriteBelow(k, chain, names, depth, mtime, path).value.chain;
      AllValid(r) && r[..depth] == chain[..depth] && Found(r[depth], other) == Found(chain[depth], other)
    decreases |names|
  {
    hide ValidDirectory, Found, DirBlob, ComputeCid, PutBack;
    if |names| != depth {
      var last := |names| - 1;
      var parent := PutBack(k, chain[last], names[last], chain[last + 1], mtime, path).value;
      PutBackLaw(k, chain[last], names[last], chain[last + 1], mtime, path, other);
      RewriteKeeps(k, UpTo(chain, last, parent), names[..last], depth, mtime, path, other);
    }
  }

  /** A rewrite goes in two steps. */
  lemma {:induction false} RewriteInTwo(k: Crypto, chain: DirChain, names: seq<Name>, at: nat, mtime: u64, path: Bytes)
    requires |chain| == |names| + 1 && at <= |names| && RewriteBelow(k, chain, names, 0, mtime, path).Ok?
    ensures RewriteBelow(k, chain, names, at, mtime, path).Ok?
    ensures var below := RewriteBelow(k, chain, names, at, mtime, path).value;
      var above := RewriteBelow(k, below.chain, names[..at], 0, mtime, path);
      && above.Ok?
      && RewriteBelow(k, chain, names, 0, mtime, path).value ==
        Rewritten(below.encoded + above.value.encoded, above.value.chain)
    decreases |names|
  {
    hide DirBlob, ComputeCid, PutBack, RewriteBelow, ValidName;
    if |names| == at {
      assert names[..at] == names;
      RewriteEnd(k, chain, names, mtime, path);
      var r := RewriteBelow(k, chain, names, 0, mtime, path).value;
      assert [] + r.encoded == r.encoded;
    } else {
      var last := |names| - 1;
      RewriteStep(k, chain, names, 0, mtime, path);
      RewriteStep(k, chain, names, at, mtime, path);
      var parent := PutBack(k, chain[last], names[last], chain[last + 1], mtime, path).value;
      RewriteInTwo(k, UpTo(chain, last, parent), names[..last], at, mtime, path);
      assert names[..last][..at] == names[..at];
    }
  }

  // ---- Plans ----

  /** `b` is reached from `d` without the entry `names[at]`, which a rewrite may replace. */
  ghost predicate HangsAt(ctx: Context, blobs: Blobs, d: DirectoryNode, names: seq<Name>, at: nat, b: Bytes) {
    exists q: seq<Bytes> ::
      q != [] && (at < |names| ==> q[0] != names[at]) && Reaches(ctx, blobs, d, q, ComputeCid(ctx.k, b))
  }

  /** The root of the plan is a directory from which every other blob of the plan is reached. */
  ghost predicate Connected(ctx: Context, blobs: Blobs, plan: Plan) {
    var root := ReadDir(ctx.k, blobs, [], ComputeCid(ctx.k, plan.root));
    root.Ok? && forall b <- plan.blobs :: ReachedFrom(ctx, blobs, root.value, ComputeCid(ctx.k, b))
  }

  ghost predicate ReachedFrom(ctx: Context, blobs: Blobs, d: DirectoryNode, cid: Cid) {
    exists q :: Reaches(ctx, blobs, d, q, cid)
  }

  lemma SameFoundReaches(ctx: Context, blobs: Blobs, d: DirectoryNode, e: DirectoryNode, q: seq<Bytes>, cid: Cid)
    requires Reaches(ctx, blobs, d, q, cid) && Found(d, q[0]) == Found(e, q[0])
    ensures Reaches(ctx, blobs, e, q, cid)
  {
    hide Found, ReadDir, HasContent;
  }

  lemma PlanRewriteConnects(
    ctx: Context, blobs: Blobs, first: seq<Bytes>, chain: DirChain, names: seq<Name>, mtime: u64, path: Bytes, at: nat)
    requires |chain| == |names| + 1 && at <= |names| && AllValid(chain)
    requires PlanRewrite(ctx.k, first, chain, names, mtime, path).Ok?
    requires PlanStored(ctx.k, blobs, PlanRewrite(ctx.k, first, chain, names, mtime, path).value)
    requires forall b <- first :: HangsAt(ctx, blobs, chain[at], names, at, b)
    ensures Connected(ctx, blobs, PlanRewrite(ctx.k, first, chain, names, mtime, path).value)
  {
    hide ValidDirectory, Found, DirBlob, ComputeCid, Stored, Reaches, RewriteBelow, HangsAt;
    var plan := PlanRewrite(ctx.k, first, chain, names, mtime, path).value;
    var r := RewriteBelow(ctx.k, chain, names, 0, mtime, path).value;
    var root := r.chain[0];
    assert AllStored(ctx.k, blobs, r.encoded) by {
      assert forall b <- r.encoded :: b in plan.blobs;
    }
    RootOfRewrite(ctx, blobs, chain, names, mtime, path);
    forall b | b in plan.blobs ensures ReachedFrom(ctx, blobs, root, ComputeCid(ctx.k, b)) {
      if b in r.encoded {
        RewriteReaches(ctx, blobs, chain, names, 0, mtime, path, b);
      } else {
        assert b in first;
        FirstIsReached(ctx, blobs, chain, names, mtime, path, at, b);
      }
    }
  }

  lemma RootOfRewrite(ctx: Context, blobs: Blobs, chain: DirChain, names: seq<Name>, mtime: u64, path: Bytes)
    requires |chain| == |names| + 1 && AllValid(chain) && RewriteBelow(ctx.k, chain, names, 0, mtime, path).Ok?
    ensures var root := RewriteBelow(ctx.k, chain, names, 0, mtime, path).value.chain[0];
      Stored(ctx.k, blobs, DirBlob(root)) ==>
        ReadDir(ctx.k, blobs, [], ComputeCid(ctx.k, DirBlob(root))) == Ok(root)
  {
    hide ValidDirectory, Found, DirBlob, ComputeCid, Stored, RewriteBelow, ReadDir;
    var root := RewriteBelow(ctx.k, chain, names, 0, mtime, path).value.chain[0];
    var other: Bytes := if names == [] then [] else names[0] + [0];
    assert names != [] ==> |other| != |names[0]|;
    RewriteKeeps(ctx.k, chain, names, 0, mtime, path, other);
    ReadDirMeaning(ctx.k, blobs, [], ComputeCid(ctx.k, DirBlob(root)), root);
  }

  lemma FirstIsReached(
    ctx: Context, blobs: Blobs, chain: DirChain, names: seq<Name>, mtime: u64, path: Bytes, at: nat, b: Bytes)
    requires |chain| == |names| + 1 && at <= |names| && AllValid(chain)
    requires RewriteBelow(ctx.k, chain, names, 0, mtime, path).Ok?
    requires AllStored(ctx.k, blobs, RewriteBelow(ctx.k, chain, names, 0, mtime, path).value.encoded)
    requires HangsAt(ctx, blobs, chain[at], names, at, b)
    ensures ReachedFrom(ctx, blobs, RewriteBelow(ctx.k, chain, names, 0, mtime, path).value.chain[0],
      ComputeCid(ctx.k, b))
  {
    hide ValidDirectory, Found, DirBlob, ComputeCid, Stored, Reaches, RewriteBelow;
    var q: seq<Bytes> :| q != [] && (at < |names| ==> q[0] != names[at])
      && Reaches(ctx, blobs, chain[at], q, ComputeCid(ctx.k, b));
    RewriteInTwo(ctx.k, chain, names, at, mtime, path);
    var below := RewriteBelow(ctx.k, chain, names, at, mtime, path).value;
    var above := RewriteBelow(ctx.k, below.chain, names[..at], 0, mtime, path).value;
    assert forall x <- above.encoded :: x in below.encoded + above.encoded;
    RewriteKeeps(ctx.k, chain, names, at, mtime, path, q[0]);
    SameFoundReaches(ctx, blobs, chain[at], below.chain[at], q, ComputeCid(ctx.k, b));
    RewriteCarries(ctx, blobs, below.chain, names[..at], 0, mtime, path, q, ComputeCid(ctx.k, b));
  }

  lemma {:induction false} ExtendKeepsValid(
    ctx: Context, blobs: Blobs, chain: DirChain, names: seq<Name>, createMissing: bool)
    requires AllValid(chain) && ExtendChain(ctx, blobs, chain, names, createMissing).Ok?
    ensures AllValid(ExtendChain(ctx, blobs, chain, names, createMissing).value)
    decreases |names| + 1 - |chain|
  {
    hide ValidDirectory, Found, DirBlob, ComputeCid, ReadDir, Join, ValidName, Stored;
    if |chain| <= |names| {
      var depth := |chain| - 1;
      var next := NextDir(ctx, blobs, chain[depth], names[..depth], names[depth], createMissing).value;
      EmptyIsValid(ctx.bucketId);
      var entry := Found(chain[depth], names[depth]);
      if entry.Some? {
        ReadDirMeaning(ctx.k, blobs, Join(names[..depth] + [names[depth]]), entry.value.cid, next);
      }
      ExtendKeepsValid(ctx, blobs, chain + [next], names, createMissing);
    }
  }

  lemma WithLastKeepsValid(chain: DirChain, last: DirectoryNode)
    requires AllValid(chain) && ValidDirectory(last)
    ensures AllValid(WithLast(chain, last))
  {
    hide ValidDirectory;
  }

  lemma {:induction false} PruneKeepsValid(chain: DirChain, names: seq<Name>)
    requires |chain| == |names| + 1 && AllValid(chain)
    ensures AllValid(PruneChain(chain, names).0)
    decreases |names|
  {
    hide ValidDirectory, Removed;
    if names != [] && chain[|names|].children == [] {
      var last := |names| - 1;
      RemovedIsRemoval(chain[last], names[last]);
      PruneKeepsValid(UpTo(chain, last, Removed(chain[last], names[last])), names[..last]);
    }
  }

  // ---- Operations ----

  /** The entry of a written file leads to its manifest and its content. */
  lemma FileReaches(
    ctx: Context, blobs: Blobs, d: DirectoryNode, name: Name, m: FileManifest, data: Bytes, mtime: u64)
    requires ValidManifest(m) && ContentRoot(ctx.k, m) == ComputeCid(ctx.k, data)
    requires Stored(ctx.k, blobs, ManifestBlob(m))
    requires Found(d, name) == Some(FileEntry(ctx.k, name, m, |data|, mtime))
    ensures Reaches(ctx, blobs, d, [name], ComputeCid(ctx.k, ManifestBlob(m)))
    ensures Reaches(ctx, blobs, d, [name], ComputeCid(ctx.k, data))
  {
    hide ManifestBlob, ComputeCid, ContentRoot, ReadManifest, ValidManifest, Stored, Found;
    ReadManifestMeaning(ctx.k, blobs, [], ComputeCid(ctx.k, ManifestBlob(m)), m);
  }

  lemma SetsFile(k: Crypto, parent: DirectoryNode, name: Name, m: FileManifest, size: nat, mtime: u64)
    requires ValidDirectory(parent) && Upserted(parent, FileEntry(k, name, m, size, mtime)).Ok?
    ensures var d := Upserted(parent, FileEntry(k, name, m, size, mtime)).value;
      ValidDirectory(d) && Found(d, name) == Some(FileEntry(k, name, m, size, mtime))
  {
    hide ValidDirectory, Upserted, EntryMap, Found, ManifestBlob, ComputeCid;
    NameIsValid(name);
    UpsertedIsUpdate(parent, FileEntry(k, name, m, size, mtime));
    FoundIsLookup(Upserted(parent, FileEntry(k, name, m, size, mtime)).value, name);
  }

  lemma FirstOfPlan(
    k: Crypto, blobs: Blobs, first: seq<Bytes>, chain: DirChain, names: seq<Name>, mtime: u64, path: Bytes)
    requires |chain| == |names| + 1 && PlanRewrite(k, first, chain, names, mtime, path).Ok?
    requires PlanStored(k, blobs, PlanRewrite(k, first, chain, names, mtime, path).value)
    ensures forall b <- first :: Stored(k, blobs, b)
  {
    hide Stored, RewriteBelow, DirBlob;
    var plan := PlanRewrite(k, first, chain, names, mtime, path).value;
    assert forall b <- first :: b in plan.blobs;
  }

  lemma {:induction false} HangsOnLast(ctx: Context, blobs: Blobs, d: DirectoryNode, parents: seq<Name>, name: Name,
    b: Bytes)
    requires Reaches(ctx, blobs, d, [name], ComputeCid(ctx.k, b))
    ensures HangsAt(ctx, blobs, d, parents, |parents|, b)
  {
    hide Reaches, ComputeCid;
    var q: seq<Bytes> := [name];
    assert q != [] && Reaches(ctx, blobs, d, q, ComputeCid(ctx.k, b));
  }

  lemma PutConnects(
    ctx: Context, blobs: Blobs, chain: DirChain, parents: seq<Name>, name: Name, path: Bytes,
    m: FileManifest, data: Bytes, clock: Clock)
    requires |chain| == |parents| + 1 && AllValid(chain)
    requires ValidManifest(m) && ContentRoot(ctx.k, m) == ComputeCid(ctx.k, data)
    requires PutInto(ctx.k, chain, parents, name, path, m, data, clock).Ok?
    requires PlanStored(ctx.k, blobs, PutInto(ctx.k, chain, parents, name, path, m, data, clock).value)
    ensures Connected(ctx, blobs, PutInto(ctx.k, chain, parents, name, path, m, data, clock).value)
  {
    hide ManifestBlob, ComputeCid, ContentRoot, ValidManifest, Stored, Found, ValidDirectory, Upserted, EntryMap,
      Reaches, RewriteBelow, Connected, HangsAt, PlanRewrite, PlanStored, FileEntry, ValidEntry, ValidName;
    var parent := chain[|parents|];
    var e := FileEntry(ctx.k, name, m, |data|, clock.first);
    SetsFile(ctx.k, parent, name, m, |data|, clock.first);
    var parent' := Upserted(parent, e).value;
    var first := (if data == [] then [] else [data]) + [ManifestBlob(m)];
    assert first[|first| - 1] == ManifestBlob(m);
    FirstOfPlan(ctx.k, blobs, first, WithLast(chain, parent'), parents, clock.second, path);
    FileReaches(ctx, blobs, parent', name, m, data, clock.first);
    forall b | b in first ensures HangsAt(ctx, blobs, parent', parents, |parents|, b) {
      HangsOnLast(ctx, blobs, parent', parents, name, b);
    }
    WithLastKeepsValid(chain, parent');
    PlanRewriteConnects(ctx, blobs, first, WithLast(chain, parent'), parents, clock.second, path, |parents|);
  }

  lemma MkdirConnects(
    ctx: Context, blobs: Blobs, chain: DirChain, names: seq<Name>, path: Bytes, clock: Clock)
    requires |chain| == |names| && names != [] && AllValid(chain)
    requires PlanRewrite(ctx.k, [], chain + [NewEmpty(ctx.bucketId)], names, clock.first, path).Ok?
    requires PlanStored(ctx.k, blobs, PlanRewrite(ctx.k, [], chain + [NewEmpty(ctx.bucketId)], names,
      clock.first, path).value)
    ensures Connected(ctx, blobs, PlanRewrite(ctx.k, [], chain + [NewEmpty(ctx.bucketId)], names,
      clock.first, path).value)
  {
    hide ValidDirectory, NewEmpty, PlanStored, Connected, PlanRewrite, HangsAt;
    EmptyIsValid(ctx.bucketId);
    PlanRewriteConnects(ctx, blobs, [], chain + [NewEmpty(ctx.bucketId)], names, clock.first, path, 0);
  }

  lemma DeleteConnects(
    ctx: Context, blobs: Blobs, more: Blobs, chain: DirChain, names: seq<Name>, path: Bytes,
    emptyParents: EmptyParents, clock: Clock)
    requires names != [] && |chain| == |names| && AllValid(chain)
    requires DeleteFrom(ctx, blobs, chain, names, path, emptyParents, clock).Ok?
    requires PlanStored(ctx.k, more, DeleteFrom(ctx, blobs, chain, names, path, emptyParents, clock).value)
    ensures Connected(ctx, more, DeleteFrom(ctx, blobs, chain, names, path, emptyParents, clock).value)
  {
    hide ValidDirectory, Found, Removed, PlanStored, Connected, PlanRewrite, HangsAt, ReadDir, PruneChain, ValidName;
    var parents := Parents(names);
    RemovedIsRemoval(chain[|parents|], Last(names));
    var without := WithLast(chain, Removed(chain[|parents|], Last(names)));
    WithLastKeepsValid(chain, Removed(chain[|parents|], Last(names)));
    PruneKeepsValid(without, parents);
    var (kept, keptNames) := if emptyParents == Remove then PruneChain(without, parents) else (without, parents);
    PlanRewriteConnects(ctx, more, [], kept, keptNames, clock.first, path, 0);
  }

  /** What the collapsed branch of a rename encoded is reached beside the way to `to`. */
  lemma CollapsedHangs(
    ctx: Context, blobs: Blobs, r: Rewritten, chain: DirChain, parents: seq<Name>, name: Name, last: DirectoryNode,
    q: seq<Bytes>, b: Bytes)
    requires |chain| == |parents| + 1 && r.chain <= chain
    requires Found(chain[|parents|], name).None?
    requires forall other: Bytes {:trigger Found(last, other)} :: other != name ==>
      Found(last, other) == Found(chain[|parents|], other)
    requires q != [] && Reaches(ctx, blobs, r.chain[|r.chain| - 1], q, ComputeCid(ctx.k, b))
    requires |r.chain| - 1 < |parents| ==> q[0] != parents[|r.chain| - 1]
    ensures HangsAt(ctx, blobs, WithLast(chain, last)[|r.chain| - 1], parents, |r.chain| - 1, b)
  {
    hide Found, ReadDir, HasContent, ComputeCid;
    var at := |r.chain| - 1;
    assert chain[at] == r.chain[at];
    SameFoundReaches(ctx, blobs, r.chain[at], WithLast(chain, last)[at], q, ComputeCid(ctx.k, b));
  }

  lemma MoveConnects(
    ctx: Context, blobs: Blobs, r: Rewritten, chain: DirChain, parents: seq<Name>, name: Name, to: Bytes,
    entry: DirectoryEntry, clock: Clock, branch: seq<Name>)
    requires |chain| == |parents| + 1 && AllValid(chain) && r.chain <= chain && ValidEntry(entry)
    requires MoveInto(ctx.k, r.encoded, chain, parents, name, to, entry, clock).Ok?
    requires PlanStored(ctx.k, blobs, MoveInto(ctx.k, r.encoded, chain, parents, name, to, entry, clock).value)
    requires var at := |r.chain| - 1;
      && (at < |branch| && at < |parents| ==> branch[at] != parents[at])
      && forall b <- r.encoded :: at < |branch| && exists q: seq<Bytes> ::
           q != [] && q[0] == branch[at] && Reaches(ctx, blobs, r.chain[at], q, ComputeCid(ctx.k, b))
    ensures Connected(ctx, blobs, MoveInto(ctx.k, r.encoded, chain, parents, name, to, entry, clock).value)
  {
    hide ComputeCid, PlanStored, Found, ValidDirectory, Upserted, EntryMap, Reaches, PlanRewrite, Connected, HangsAt;
    var at := |r.chain| - 1;
    NameIsValid(name);
    var last := chain[|parents|];
    UpsertedIsUpdate(last, entry.(name := name));
    var parent := Upserted(last, entry.(name := name)).value;
    forall other: Bytes {:trigger Found(parent, other)} | other != name
      ensures Found(parent, other) == Found(last, other)
    {
      FoundIsLookup(parent, other);
      FoundIsLookup(last, other);
    }
    forall b | b in r.encoded ensures HangsAt(ctx, blobs, WithLast(chain, parent)[at], parents, at, b) {
      var q: seq<Bytes> :| q != [] && q[0] == branch[at] && Reaches(ctx, blobs, r.chain[at], q, ComputeCid(ctx.k, b));
      CollapsedHangs(ctx, blobs, r, chain, parents, name, parent, q, b);
    }
    WithLastKeepsValid(chain, parent);
    PlanRewriteConnects(ctx, blobs, r.encoded, WithLast(chain, parent), parents, clock.second, to, at);
  }

  lemma RenameConnects(
    ctx: Context, blobs: Blobs, more: Blobs, chain: DirChain, fromNames: seq<Name>, toNames: seq<Name>,
    from: Bytes, to: Bytes, clock: Clock)
    requires fromNames != [] && toNames != [] && |chain| == |fromNames| && AllValid(chain)
    requires TakeAndMove(ctx, blobs, chain, fromNames, toNames, from, to, clock).Ok?
    requires PlanStored(ctx.k, more, TakeAndMove(ctx, blobs, chain, fromNames, toNames, from, to, clock).value)
    ensures Connected(ctx, more, TakeAndMove(ctx, blobs, chain, fromNames, toNames, from, to, clock).value)
  {
    hide ComputeCid, PlanStored, Found, ValidDirectory, Removed, Reaches, RewriteBelow, ExtendChain, MoveInto,
      Connected, ValidName, ValidEntry;
    var (parents, name) := (Parents(fromNames), Last(fromNames));
    var common := CommonPrefix(parents, Parents(toNames));
    RemovedIsRemoval(chain[|parents|], name);
    FoundIsLookup(chain[|parents|], name);
    var without := WithLast(chain, Removed(chain[|parents|], name));
    WithLastKeepsValid(chain, Removed(chain[|parents|], name));
    var r := RewriteBelow(ctx.k, without, parents, common, clock.first, from).value;
    var extended := ExtendChain(ctx, blobs, r.chain, Parents(toNames), true).value;
    KeepsValid(ctx.k, without, parents, common, clock.first, from);
    ExtendKeepsValid(ctx, blobs, r.chain, Parents(toNames), true);
    ExtendKeepsPrefix(ctx, blobs, r.chain, Parents(toNames), true);
    var plan := MoveInto(ctx.k, r.encoded, extended, Parents(toNames), Last(toNames), to,
      Found(chain[|parents|], name).value, clock).value;
    FirstIsPlanned(ctx.k, more, r.encoded, extended, Parents(toNames), Last(toNames), to,
      Found(chain[|parents|], name).value, clock);
    forall b | b in r.encoded
      ensures common < |parents| && exists q: seq<Bytes> ::
        q != [] && q[0] == parents[common] && Reaches(ctx, more, r.chain[common], q, ComputeCid(ctx.k, b))
    {
      RewriteReaches(ctx, more, without, parents, common, clock.first, from, b);
    }
    MoveConnects(ctx, more, r, extended, Parents(toNames), Last(toNames), to, Found(chain[|parents|], name).value,
      clock, parents);
  }

  lemma KeepsValid(k: Crypto, chain: DirChain, names: seq<Name>, depth: nat, mtime: u64, path: Bytes)
    requires |chain| == |names| + 1 && depth <= |names| && AllValid(chain)
    requires RewriteBelow(k, chain, names, depth, mtime, path).Ok?
    ensures AllValid(RewriteBelow(k, chain, names, depth, mtime, path).value.chain)
  {
    hide RewriteBelow, ValidDirectory, Found;
    var other: Bytes := if names == [] || depth == |names| then [] else names[depth] + [0];
    assert depth < |names| ==> |other| != |names[depth]|;
    RewriteKeeps(k, chain, names, depth, mtime, path, other);
  }

  lemma FirstIsPlanned(
    k: Crypto, blobs: Blobs, first: seq<Bytes>, chain: DirChain, parents: seq<Name>, name: Name, to: Bytes,
    entry: DirectoryEntry, clock: Clock)
    requires |chain| == |parents| + 1 && MoveInto(k, first, chain, parents, name, to, entry, clock).Ok?
    requires PlanStored(k, blobs, MoveInto(k, first, chain, parents, name, to, entry, clock).value)
    ensures AllStored(k, blobs, first)
  {
    hide Stored, Found, Upserted, RewriteBelow, DirBlob;
    var plan := MoveInto(k, first, chain, parents, name, to, entry, clock).value;
    assert forall b <- first :: b in plan.blobs;
  }

  lemma TaskConnects(ctx: Context, blobs: Blobs, more: Blobs, root: DirectoryNode, task: Task, clock: Clock)
    requires WellFormed(task) && Faithful(ctx.k, task) && ValidDirectory(root)
    requires PlanTask(ctx, blobs, root, task, clock).Ok?
    requires PlanStored(ctx.k, more, PlanTask(ctx, blobs, root, task, clock).value)
    ensures Connected(ctx, more, PlanTask(ctx, blobs, root, task, clock).value)
  {
    hide ExtendChain, PutInto, DeleteFrom, TakeAndMove, PlanRewrite, Found, NewEmpty, ValidName, ValidDirectory,
      Connected, PlanStored, ValidManifest, ContentRoot, ComputeCid;
    var (names, create) := match task
      case RenameTask(fromNames, _, _, _) => (fromNames, false)
      case DeleteTask(names, _, _) => (names, false)
      case PutTask(names, _, _, _) => (names, true)
      case MkdirTask(names, _) => (names, true);
    var chain := ExtendChain(ctx, blobs, [root], Parents(names), create).value;
    ExtendKeepsValid(ctx, blobs, [root], Parents(names), create);
    match task
    case PutTask(_, path, m, data) => PutConnects(ctx, more, chain, Parents(names), Last(names), path, m, data, clock);
    case MkdirTask(_, path) => MkdirConnects(ctx, more, chain, names, path, clock);
    case DeleteTask(_, path, emptyParents) => DeleteConnects(ctx, blobs, more, chain, names, path, emptyParents, clock);
    case RenameTask(_, toNames, from, to) => RenameConnects(ctx, blobs, more, chain, names, toNames, from, to, clock);
  }

  lemma LoadedRootIsValid(ctx: Context, blobs: Blobs, leaf: Option<Cid>)
    requires LoadedRoot(ctx, blobs, leaf).Ok?
    ensures ValidDirectory(LoadedRoot(ctx, blobs, leaf).value)
  {
    hide ReadRoot, ValidDirectory;
    match leaf
    case None => EmptyIsValid(ctx.bucketId);
    case Some(cid) => ReadRootMeaning(ctx, blobs, cid, ReadRoot(ctx, blobs, cid).value);
  }

  /** Every leaf that an operation commits is the new root, or reached from it. */
  lemma LeavesAreReached(ctx: Context, blobs: Blobs, more: Blobs, leaf: Option<Cid>, op: Operation, clock: Clock,
    cid: Cid)
    requires PlanOf(ctx, blobs, leaf, op, clock).Ok?
    requires PlanStored(ctx.k, more, PlanOf(ctx, blobs, leaf, op, clock).value)
    requires cid in LeavesOf(ctx.k, PlanOf(ctx, blobs, leaf, op, clock).value)
    ensures var root := ComputeCid(ctx.k, PlanOf(ctx, blobs, leaf, op, clock).value.root);
      && ReadDir(ctx.k, more, [], root).Ok?
      && (cid == root || ReachedFrom(ctx, more, ReadDir(ctx.k, more, [], root).value, cid))
  {
    hide Prepare, LoadedRoot, PlanTask, Faithful, WellFormed, ValidDirectory, PlanStored, ReachedFrom, ReadDir,
      ComputeCid, CommitOrder;
    var task := Prepare(ctx.k, ctx.bucketId, op).value;
    PreparedIsFaithful(ctx.k, ctx.bucketId, op);
    LoadedRootIsValid(ctx, blobs, leaf);
    var plan := PlanOf(ctx, blobs, leaf, op, clock).value;
    TaskConnects(ctx, blobs, more, LoadedRoot(ctx, blobs, leaf).value, task, clock);
    var all := plan.blobs + [plan.root];
    CommitOrderLaw(CidsOf(ctx.k, all));
    var i :| 0 <= i < |all| && CidsOf(ctx.k, all)[i] == cid;
    if i < |plan.blobs| {
      assert all[i] in plan.blobs;
    }
  }

  /** After any successful write, each leaf of its commit is the root it answers, or reached from it. */
  lemma WrittenIsReached(
    ctx: Context, op: Operation, clock: Clock, r: Result<Cid, FsError>, seen: RootSeen, after: Snapshot, cid: Cid)
    requires Done(ctx, op, clock, r, seen, after) && r.Ok?
    requires Keyed(ctx.k, after) && NoCollision(ctx.k, after.seen)
    requires |after.commits| == |seen.state.commits| + 1 && cid in after.commits[|seen.state.commits|]
    ensures ReadDir(ctx.k, after.blobs, [], r.value).Ok?
    ensures cid == r.value || ReachedFrom(ctx, after.blobs, ReadDir(ctx.k, after.blobs, [], r.value).value, cid)
  {
    hide PlanOf, ComputeCid, ReadDir, ReachedFrom, Keyed, NoCollision, LeavesOf, PlanStored;
    var plan := PlanOf(ctx, seen.state.blobs, seen.leaf, op, clock).value;
    StoredWithoutCollision(ctx.k, plan, after);
    LeavesAreReached(ctx, seen.state.blobs, after.blobs, seen.leaf, op, clock, cid);
  }

  // ---- In a growing store ----

  lemma ReadDirGrows(k: Crypto, blobs: Blobs, more: Blobs, cid: Cid)
    requires ReadDir(k, blobs, [], cid).Ok? && Extends(blobs, more)
    ensures ReadDir(k, more, [], cid) == ReadDir(k, blobs, [], cid)
  {
    hide ReadDir, DirBlob, ComputeCid, ValidDirectory;
    ReadDirMeaning(k, blobs, [], cid, ReadDir(k, blobs, [], cid).value);
    ReadDirMeaning(k, more, [], cid, ReadDir(k, blobs, [], cid).value);
  }

  lemma HasContentGrows(ctx: Context, blobs: Blobs, more: Blobs, manifest: Cid, content: Cid)
    requires HasContent(ctx, blobs, manifest, content) && Extends(blobs, more)
    ensures HasContent(ctx, more, manifest, content)
  {
    hide ReadManifest, ManifestBlob, ComputeCid, ValidManifest, ContentRoot;
    ReadManifestMeaning(ctx.k, blobs, [], manifest, ReadManifest(ctx.k, blobs, [], manifest).value);
    ReadManifestMeaning(ctx.k, more, [], manifest, ReadManifest(ctx.k, blobs, [], manifest).value);
  }

  lemma {:induction false} ReachesGrows(
    ctx: Context, blobs: Blobs, more: Blobs, d: DirectoryNode, q: seq<Bytes>, cid: Cid)
    requires Reaches(ctx, blobs, d, q, cid) && Extends(blobs, more)
    ensures Reaches(ctx, more, d, q, cid)
    decreases |q|
  {
    hide ReadDir, HasContent, Found, Extends;
    var e := Found(d, q[0]).value;
    if |q| == 1 {
      if e.cid != cid {
        HasContentGrows(ctx, blobs, more, e.cid, cid);
      }
    } else {
      ReadDirGrows(ctx.k, blobs, more, e.cid);
      ReachesGrows(ctx, blobs, more, ReadDir(ctx.k, blobs, [], e.cid).value, q[1..], cid);
    }
  }

  lemma ReachedFromGrows(ctx: Context, blobs: Blobs, more: Blobs, d: DirectoryNode, cid: Cid)
    requires ReachedFrom(ctx, blobs, d, cid) && Extends(blobs, more)
    ensures ReachedFrom(ctx, more, d, cid)
  {
    hide Reaches, Extends;
    var q :| Reaches(ctx, blobs, d, q, cid);
    ReachesGrows(ctx, blobs, more, d, q, cid);
  }
}
