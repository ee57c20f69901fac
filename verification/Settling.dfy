/**
 An operation that has read part of the store so far: what it does next is what it
 would do with the whole store, unless it stops at a blob it has not read yet.
 */
module Settling {
  import opened Wrappers
  import opened Octets
  import opened Format
  import opened Hashing
  import opened Directories
  import opened Paths
  import opened Drives
  import opened Plans
  import opened Represents

  /** The result with the blobs read so far is the result with all, or asks for a blob that there is. */
  ghost predicate Settled<T>(read: Blobs, all: Blobs, partial: Result<T, FsError>, whole: Result<T, FsError>) {
    partial == whole || Asks(read, all, partial)
  }

  ghost predicate Asks<T>(read: Blobs, all: Blobs, partial: Result<T, FsError>) {
    partial.Err? && partial.error.MissingBlob? && partial.error.cid !in read && partial.error.cid in all
  }

  lemma ReadDirSettles(k: Crypto, read: Blobs, all: Blobs, path: Bytes, cid: Cid)
    requires Extends(read, all)
    ensures Settled(read, all, ReadDir(k, read, path, cid), ReadDir(k, all, path, cid))
  {
    hide DecodeDir, ComputeCid, MaxBlobLen, DirectoryCodec;
  }

  lemma LoadedRootSettles(ctx: Context, read: Blobs, all: Blobs, leaf: Option<Cid>)
    requires Extends(read, all)
    ensures Settled(read, all, LoadedRoot(ctx, read, leaf), LoadedRoot(ctx, all, leaf))
  {
    hide FromBlob, ComputeCid, MaxBlobLen, DirectoryCodec, Validate, NewEmpty;
  }

  lemma {:induction false} ExtendChainSettles(
    ctx: Context, read: Blobs, all: Blobs, chain: DirChain, names: seq<Name>, createMissing: bool)
    requires Extends(read, all)
    ensures Settled(read, all, ExtendChain(ctx, read, chain, names, createMissing),
                    ExtendChain(ctx, all, chain, names, createMissing))
    decreases |names| + 1 - |chain|
  {
    hide ReadDir, Found, NewEmpty, ValidName, Join, Extends;
    if |chain| <= |names| {
      var depth := |chain| - 1;
      var entry := Found(chain[depth], names[depth]);
      if entry.Some? {
        ReadDirSettles(ctx.k, read, all, Join(names[..depth] + [names[depth]]), entry.value.cid);
      }
      var next := NextDir(ctx, read, chain[depth], names[..depth], names[depth], createMissing);
      if next.Ok? {
        ExtendChainSettles(ctx, read, all, chain + [next.value], names, createMissing);
      }
    }
  }

  lemma PlanMoveSettles(
    ctx: Context, read: Blobs, all: Blobs, r: Rewritten, toNames: seq<Name>, to: Bytes, entry: DirectoryEntry,
    clock: Clock)
    requires toNames != [] && |r.chain| <= |toNames| && Extends(read, all)
    ensures Settled(read, all, PlanMove(ctx, read, r, toNames, to, entry, clock),
      PlanMove(ctx, all, r, toNames, to, entry, clock))
  {
    hide ExtendChain, MoveInto, ValidName, Extends;
    ExtendChainSettles(ctx, read, all, r.chain, Parents(toNames), true);
  }

  lemma TakeAndMoveSettles(
    ctx: Context, read: Blobs, all: Blobs, chain: DirChain, fromNames: seq<Name>, toNames: seq<Name>,
    from: Bytes, to: Bytes, clock: Clock)
    requires fromNames != [] && toNames != [] && |chain| == |fromNames| && Extends(read, all)
    ensures Settled(read, all, TakeAndMove(ctx, read, chain, fromNames, toNames, from, to, clock),
                    TakeAndMove(ctx, all, chain, fromNames, toNames, from, to, clock))
  {
    hide Found, Removed, RewriteBelow, PlanMove, ValidName, Extends;
    var (parents, name) := (Parents(fromNames), Last(fromNames));
    var entry := Found(chain[|parents|], name);
    if entry.Some? {
      var r := RewriteBelow(ctx.k, WithLast(chain, Removed(chain[|parents|], name)), parents,
                            CommonPrefix(parents, Parents(toNames)), clock.first, from);
      if r.Ok? {
        PlanMoveSettles(ctx, read, all, r.value, toNames, to, entry.value, clock);
      }
    }
  }

  lemma DeleteFromSettles(
    ctx: Context, read: Blobs, all: Blobs, chain: DirChain, names: seq<Name>, path: Bytes,
    emptyParents: EmptyParents, clock: Clock)
    requires names != [] && |chain| == |names| && Extends(read, all)
    ensures Settled(read, all, DeleteFrom(ctx, read, chain, names, path, emptyParents, clock),
                    DeleteFrom(ctx, all, chain, names, path, emptyParents, clock))
  {
    hide Found, Removed, ReadDir, PruneChain, PlanRewrite, NewEmpty, ValidName, Extends;
    var entry := Found(chain[|names| - 1], Last(names));
    if entry.Some? {
      ReadDirSettles(ctx.k, read, all, path, entry.value.cid);
    }
  }

  lemma PlanTaskSettles(ctx: Context, read: Blobs, all: Blobs, root: DirectoryNode, task: Task, clock: Clock)
    requires WellFormed(task) && Extends(read, all)
    ensures Settled(read, all, PlanTask(ctx, read, root, task, clock), PlanTask(ctx, all, root, task, clock))
  {
    hide ExtendChain, PutInto, DeleteFrom, TakeAndMove, PlanRewrite, Found, NewEmpty, ValidName, Extends;
    match task
    case PutTask(names, path, m, data) =>
      ExtendChainSettles(ctx, read, all, [root], Parents(names), true);
    case MkdirTask(names, path) =>
      ExtendChainSettles(ctx, read, all, [root], Parents(names), true);
    case DeleteTask(names, path, emptyParents) =>
      ExtendChainSettles(ctx, read, all, [root], Parents(names), false);
      var chain := ExtendChain(ctx, read, [root], Parents(names), false);
      if chain.Ok? {
        DeleteFromSettles(ctx, read, all, chain.value, names, path, emptyParents, clock);
      }
    case RenameTask(fromNames, toNames, from, to) =>
      ExtendChainSettles(ctx, read, all, [root], Parents(fromNames), false);
      var chain := ExtendChain(ctx, read, [root], Parents(fromNames), false);
      if chain.Ok? {
        TakeAndMoveSettles(ctx, read, all, chain.value, fromNames, toNames, from, to, clock);
      }
  }

  lemma PlanSettles(ctx: Context, read: Blobs, all: Blobs, leaf: Option<Cid>, op: Operation, clock: Clock)
    requires Extends(read, all)
    ensures Settled(read, all, PlanOf(ctx, read, leaf, op, clock), PlanOf(ctx, all, leaf, op, clock))
  {
    hide Prepare, LoadedRoot, PlanTask, WellFormed, Extends;
    var task := Prepare(ctx.k, ctx.bucketId, op);
    LoadedRootSettles(ctx, read, all, leaf);
    var root := LoadedRoot(ctx, read, leaf);
    if task.Ok? && root.Ok? {
      PlanTaskSettles(ctx, read, all, root.value, task.value, clock);
    }
  }
}
