/**
 The file tree on blobs: reading directories and manifests by CID, collecting and
 rewriting chains of directories, and the blobs that each operation uploads, as
 functions of the blobs it can read.
 */
module Plans {
  import opened Wrappers
  import opened Octets
  import opened Format
  import opened Hashing
  import opened Directories
  import opened Manifests
  import opened Paths
  import opened Drives

  type Blobs = map<Cid, Bytes>

  /** The hash functions and the bucket of a tree. */
  datatype Context = Context(k: Crypto, bucketId: u64)

  datatype BlobLength = Exact(length: nat) | AtMost(length: nat)

  // ---- Reading ----

  predicate LengthOk(bytes: Bytes, length: BlobLength) {
    match length
    case Exact(n) => |bytes| == n
    case AtMost(n) => |bytes| <= n
  }

  /** The blob `cid` of the entry at `path`, checked against its length and its CID. */
  function ReadBlob(k: Crypto, blobs: Blobs, path: Bytes, cid: Cid, length: BlobLength): Result<Bytes, FsError> {
    if cid !in blobs then Err(MissingBlob(cid))
    else if !LengthOk(blobs[cid], length) then Err(InvalidBlob(path))
    else if ComputeCid(k, blobs[cid]) != cid then Err(CidMismatch(cid, ComputeCid(k, blobs[cid])))
    else Ok(blobs[cid])
  }

  /** The error for a blob that does not decode: a newer version is reported as such. */
  function InvalidBlobError(path: Bytes, e: FormatError): FsError {
    match e
    case UnsupportedVersion(version) => UnsupportedFormatVersion(version)
    case _ => InvalidBlob(path)
  }

  function DecodeDir(path: Bytes, bytes: Bytes): Result<DirectoryNode, FsError> {
    match FromBlob(DirectoryCodec(), bytes)
    case Err(e) => Err(InvalidBlobError(path, e))
    case Ok(d) => if Validate(d).Some? then Err(InvalidBlob(path)) else Ok(d)
  }

  function ReadDir(k: Crypto, blobs: Blobs, path: Bytes, cid: Cid): Result<DirectoryNode, FsError> {
    match ReadBlob(k, blobs, path, cid, AtMost(MaxBlobLen(DirectoryCodec())))
    case Err(e) => Err(e)
    case Ok(bytes) => DecodeDir(path, bytes)
  }

  function DecodeManifest(path: Bytes, bytes: Bytes): Result<FileManifest, FsError> {
    match FromBlob(ManifestCodec(), bytes)
    case Err(e) => Err(InvalidBlobError(path, e))
    case Ok(m) => if ValidateManifest(m).Some? then Err(InvalidBlob(path)) else Ok(m)
  }

  function ReadManifest(k: Crypto, blobs: Blobs, path: Bytes, cid: Cid): Result<FileManifest, FsError> {
    match ReadBlob(k, blobs, path, cid, AtMost(MaxBlobLen(ManifestCodec())))
    case Err(e) => Err(e)
    case Ok(bytes) => DecodeManifest(path, bytes)
  }

  /** The root directory with CID `cid`, which must be a directory of this bucket. */
  function ReadRoot(ctx: Context, blobs: Blobs, cid: Cid): Result<DirectoryNode, FsError> {
    if cid !in blobs then Err(MissingBlob(cid))
    else if |blobs[cid]| > MaxBlobLen(DirectoryCodec()) then Err(NotAFileSystemBucket)
    else if ComputeCid(ctx.k, blobs[cid]) != cid then Err(CidMismatch(cid, ComputeCid(ctx.k, blobs[cid])))
    else match FromBlob(DirectoryCodec(), blobs[cid])
      case Err(UnsupportedVersion(version)) => Err(UnsupportedFormatVersion(version))
      case Err(_) => Err(NotAFileSystemBucket)
      case Ok(d) =>
        if Validate(d).Some? || d.bucketId != ctx.bucketId then Err(NotAFileSystemBucket) else Ok(d)
  }

  /** The root of a bucket with last leaf `leaf`: an empty drive if there is none. */
  function LoadedRoot(ctx: Context, blobs: Blobs, leaf: Option<Cid>): Result<DirectoryNode, FsError> {
    match leaf
    case None => Ok(NewEmpty(ctx.bucketId))
    case Some(cid) => ReadRoot(ctx, blobs, cid)
  }

  // ---- Chains of directories ----

  type DirChain = c: seq<DirectoryNode> | c != [] witness [DirectoryNode(0, [], [])]

  /** The directory after `chain`, at `names[..depth + 1]`. */
  function NextDir(ctx: Context, blobs: Blobs, dir: DirectoryNode, upto: seq<Name>, name: Name, createMissing: bool)
    : Result<DirectoryNode, FsError>
  {
    match Found(dir, name)
    case Some(entry) =>
      if entry.entryType == Directory then ReadDir(ctx.k, blobs, Join(upto + [name]), entry.cid)
      else Err(NotADirectory(Join(upto + [name])))
    case None =>
      if createMissing then Ok(NewEmpty(ctx.bucketId)) else Err(PathNotFound(Join(upto + [name])))
  }

  /** Extend the directories along the first `|chain| - 1` names to all of `names`. */
  function ExtendChain(ctx: Context, blobs: Blobs, chain: DirChain, names: seq<Name>, createMissing: bool)
    : (r: Result<DirChain, FsError>)
    ensures r.Ok? && |chain| <= |names| + 1 ==> |r.value| == |names| + 1
    decreases |names| + 1 - |chain|
  {
    if |chain| > |names| then Ok(chain)
    else
      var depth := |chain| - 1;
      match NextDir(ctx, blobs, chain[depth], names[..depth], names[depth], createMissing)
      case Err(e) => Err(e)
      case Ok(next) => ExtendChain(ctx, blobs, chain + [next], names, createMissing)
  }

  /** Extending a chain keeps the directories it has. */
  lemma {:induction false} ExtendKeepsPrefix(ctx: Context, blobs: Blobs, chain: DirChain, names: seq<Name>,
    createMissing: bool)
    ensures ExtendChain(ctx, blobs, chain, names, createMissing).Ok? ==>
      chain <= ExtendChain(ctx, blobs, chain, names, createMissing).value
    decreases |names| + 1 - |chain|
  {
    hide NextDir, ValidName;
    if |chain| <= |names| {
      var depth := |chain| - 1;
      var next := NextDir(ctx, blobs, chain[depth], names[..depth], names[depth], createMissing);
      if next.Ok? {
        ExtendKeepsPrefix(ctx, blobs, chain + [next.value], names, createMissing);
      }
    }
  }

  /** A chain after rewriting, and the blobs of the directories that were put back into their parents. */
  datatype Rewritten = Rewritten(encoded: seq<Bytes>, chain: DirChain) {
    /** The same with `blob` uploaded first. */
    function After(blob: Bytes): Rewritten { Rewritten([blob] + encoded, chain) }
  }

  function DirBlob(d: DirectoryNode): Bytes { ToBlob(DirectoryCodec(), d) }

  function ManifestBlob(m: FileManifest): Bytes { ToBlob(ManifestCodec(), m) }

  function EntryForDir(k: Crypto, name: Name, d: DirectoryNode, mtime: u64): DirectoryEntry {
    DirectoryEntry(name, Directory, ComputeCid(k, DirBlob(d)), 0, mtime)
  }

  /** The first `i` directories of `chain`, then `d`. */
  function UpTo(chain: DirChain, i: nat, d: DirectoryNode): (r: DirChain)
    requires i < |chain|
    ensures |r| == i + 1
  {
    chain[..i] + [d]
  }

  /** Put the CID of `child` into the entry `name` of its parent. */
  function PutBack(k: Crypto, parent: DirectoryNode, name: Name, child: DirectoryNode, mtime: u64, path: Bytes)
    : Result<DirectoryNode, FsError>
  {
    match Upserted(parent, EntryForDir(k, name, child, mtime))
    case Err(rule) => Err(BrokenRule(path, rule))
    case Ok(parent') => Ok(parent')
  }

  /** Encode the directories deeper than `depth` bottom-up, and put each new CID into the parent. */
  function RewriteBelow(k: Crypto, chain: DirChain, names: seq<Name>, depth: nat, mtime: u64, path: Bytes)
    : (r: Result<Rewritten, FsError>)
    requires |chain| == |names| + 1 && depth <= |names|
    ensures r.Ok? ==> |r.value.chain| == depth + 1
    decreases |names|
  {
    if |names| == depth then Ok(Rewritten([], chain))
    else
      var last := |names| - 1;
      match PutBack(k, chain[last], names[last], chain[last + 1], mtime, path)
      case Err(e) => Err(e)
      case Ok(parent) =>
        match RewriteBelow(k, UpTo(chain, last, parent), names[..last], depth, mtime, path)
        case Err(e) => Err(e)
        case Ok(above) => Ok(above.After(DirBlob(chain[last + 1])))
  }

  lemma RewriteEnd(k: Crypto, chain: DirChain, names: seq<Name>, mtime: u64, path: Bytes)
    requires |chain| == |names| + 1
    ensures RewriteBelow(k, chain, names, |names|, mtime, path) == Ok(Rewritten([], chain))
  {
  }

  /** A rewrite begins with its last directory. */
  lemma RewriteStep(k: Crypto, chain: DirChain, names: seq<Name>, depth: nat, mtime: u64, path: Bytes)
    requires |chain| == |names| + 1 && depth < |names|
    ensures var last := |names| - 1;
      var parent := PutBack(k, chain[last], names[last], chain[last + 1], mtime, path);
      && (parent.Err? ==> RewriteBelow(k, chain, names, depth, mtime, path) == Err(parent.error))
      && (parent.Ok? ==>
            var above := RewriteBelow(k, UpTo(chain, last, parent.value), names[..last], depth, mtime, path);
            && (above.Err? ==> RewriteBelow(k, chain, names, depth, mtime, path) == Err(above.error))
            && (above.Ok? ==>
                  RewriteBelow(k, chain, names, depth, mtime, path) == Ok(above.value.After(DirBlob(chain[last + 1])))))
  {
    hide PutBack, DirBlob, ValidName;
  }

  /** Drop the directories that are empty from the end, up to the root. */
  function PruneChain(chain: DirChain, names: seq<Name>): (r: (DirChain, seq<Name>))
    requires |chain| == |names| + 1
    ensures |r.0| == |r.1| + 1 && r.1 <= names
    decreases |names|
  {
    if names != [] && chain[|names|].children == [] then
      var last := |names| - 1;
      PruneChain(UpTo(chain, last, Removed(chain[last], names[last])), names[..last])
    else (chain, names)
  }

  // ---- The blobs of an operation ----

  /** The blobs to upload, in order, and the blob of the new root. */
  datatype Plan = Plan(blobs: seq<Bytes>, root: Bytes)

  /** Rewrite a whole chain; `first` are the blobs to upload before the directories. */
  function PlanRewrite(k: Crypto, first: seq<Bytes>, chain: DirChain, names: seq<Name>, mtime: u64, path: Bytes)
    : Result<Plan, FsError>
    requires |chain| == |names| + 1
  {
    match RewriteBelow(k, chain, names, 0, mtime, path)
    case Err(e) => Err(e)
    case Ok(r) => Ok(Plan(first + r.encoded, DirBlob(r.chain[0])))
  }

  function WithLast(chain: DirChain, last: DirectoryNode): (r: DirChain)
    ensures |r| == |chain|
  {
    UpTo(chain, |chain| - 1, last)
  }

  function FileEntry(k: Crypto, name: Name, m: FileManifest, size: nat, mtime: u64): DirectoryEntry {
    hide ManifestBlob;
    DirectoryEntry(name, File, ComputeCid(k, ManifestBlob(m)), size % 0x1_0000_0000_0000_0000, mtime)
  }

  /** Set the file in the last directory of `chain`, the directories along `parents`. */
  function PutInto(k: Crypto, chain: DirChain, parents: seq<Name>, name: Name, path: Bytes,
                   m: FileManifest, data: Bytes, clock: Clock): Result<Plan, FsError>
    requires |chain| == |parents| + 1
  {
    var parent := chain[|parents|];
    var current := Found(parent, name);
    if current.Some? && current.value.entryType == Directory then Err(NotAFile(path)) else
    match Upserted(parent, FileEntry(k, name, m, |data|, clock.first))
    case Err(rule) => Err(BrokenRule(path, rule))
    case Ok(parent') =>
      PlanRewrite(k, (if data == [] then [] else [data]) + [ManifestBlob(m)],
                  WithLast(chain, parent'), parents, clock.second, path)
  }

  function PlanPut(ctx: Context, blobs: Blobs, root: DirectoryNode, names: seq<Name>, path: Bytes,
                   m: FileManifest, data: Bytes, clock: Clock): Result<Plan, FsError>
    requires names != []
  {
    match ExtendChain(ctx, blobs, [root], Parents(names), true)
    case Err(e) => Err(e)
    case Ok(chain) => PutInto(ctx.k, chain, Parents(names), Last(names), path, m, data, clock)
  }

  function PlanMkdir(ctx: Context, blobs: Blobs, root: DirectoryNode, names: seq<Name>, path: Bytes, clock: Clock)
    : Result<Plan, FsError>
    requires names != []
  {
    var (parents, name) := (Parents(names), Last(names));
    match ExtendChain(ctx, blobs, [root], parents, true)
    case Err(e) => Err(e)
    case Ok(chain) =>
      if Found(chain[|parents|], name).Some? then Err(EntryExists(path))
      else PlanRewrite(ctx.k, [], chain + [NewEmpty(ctx.bucketId)], names, clock.first, path)
  }

  function PlanDelete(ctx: Context, blobs: Blobs, root: DirectoryNode, names: seq<Name>, path: Bytes,
                      emptyParents: EmptyParents, clock: Clock): Result<Plan, FsError>
    requires names != []
  {
    match ExtendChain(ctx, blobs, [root], Parents(names), false)
    case Err(e) => Err(e)
    case Ok(chain) => DeleteFrom(ctx, blobs, chain, names, path, emptyParents, clock)
  }

  /** Remove the entry from the last directory of `chain`, and prune if asked. */
  function DeleteFrom(ctx: Context, blobs: Blobs, chain: DirChain, names: seq<Name>, path: Bytes,
                      emptyParents: EmptyParents, clock: Clock): Result<Plan, FsError>
    requires names != [] && |chain| == |names|
  {
    var (parents, name) := (Parents(names), Last(names));
    match Found(chain[|parents|], name)
    case None => Err(PathNotFound(path))
    case Some(entry) =>
      if entry.entryType == Directory && emptyParents == Remove then Err(NotAFile(path)) else
      var child := if entry.entryType == Directory then ReadDir(ctx.k, blobs, path, entry.cid)
                   else Ok(NewEmpty(ctx.bucketId));
      match child
      case Err(e) => Err(e)
      case Ok(d) =>
        if d.children != [] then Err(DirectoryNotEmpty(path)) else
        var without := WithLast(chain, Removed(chain[|parents|], name));
        var (kept, keptNames) := if emptyParents == Remove then PruneChain(without, parents) else (without, parents);
        PlanRewrite(ctx.k, [], kept, keptNames, clock.first, path)
  }

  function PlanRename(ctx: Context, blobs: Blobs, root: DirectoryNode, fromNames: seq<Name>, toNames: seq<Name>,
                      from: Bytes, to: Bytes, clock: Clock): Result<Plan, FsError>
    requires fromNames != [] && toNames != []
  {
    match ExtendChain(ctx, blobs, [root], Parents(fromNames), false)
    case Err(e) => Err(e)
    case Ok(chain) => TakeAndMove(ctx, blobs, chain, fromNames, toNames, from, to, clock)
  }

  /** Take the entry out of the last directory, collapse its branch, and go on along `to`. */
  function TakeAndMove(ctx: Context, blobs: Blobs, chain: DirChain, fromNames: seq<Name>, toNames: seq<Name>,
                       from: Bytes, to: Bytes, clock: Clock): Result<Plan, FsError>
    requires fromNames != [] && toNames != [] && |chain| == |fromNames|
  {
    var (parents, name) := (Parents(fromNames), Last(fromNames));
    match Found(chain[|parents|], name)
    case None => Err(PathNotFound(from))
    case Some(entry) =>
      match RewriteBelow(ctx.k, WithLast(chain, Removed(chain[|parents|], name)), parents,
                         CommonPrefix(parents, Parents(toNames)), clock.first, from)
      case Err(e) => Err(e)
      case Ok(r) => PlanMove(ctx, blobs, r, toNames, to, entry, clock)
  }

  /** The second half of a rename: extend the collapsed chain along `to` and add the entry there. */
  function PlanMove(ctx: Context, blobs: Blobs, r: Rewritten, toNames: seq<Name>, to: Bytes,
                    entry: DirectoryEntry, clock: Clock): Result<Plan, FsError>
    requires toNames != [] && |r.chain| <= |toNames|
  {
    match ExtendChain(ctx, blobs, r.chain, Parents(toNames), true)
    case Err(e) => Err(e)
    case Ok(chain) => MoveInto(ctx.k, r.encoded, chain, Parents(toNames), Last(toNames), to, entry, clock)
  }

  function MoveInto(k: Crypto, first: seq<Bytes>, chain: DirChain, parents: seq<Name>, name: Name, to: Bytes,
                    entry: DirectoryEntry, clock: Clock): Result<Plan, FsError>
    requires |chain| == |parents| + 1
  {
    if Found(chain[|parents|], name).Some? then Err(EntryExists(to)) else
    match Upserted(chain[|parents|], entry.(name := name))
    case Err(rule) => Err(BrokenRule(to, rule))
    case Ok(parent) => PlanRewrite(k, first, WithLast(chain, parent), parents, clock.second, to)
  }

  /** What a task uploads, given the root directory and the blobs it can read. */
  function PlanTask(ctx: Context, blobs: Blobs, root: DirectoryNode, task: Task, clock: Clock): Result<Plan, FsError>
    requires WellFormed(task)
  {
    match task
    case PutTask(names, path, m, data) => PlanPut(ctx, blobs, root, names, path, m, data, clock)
    case MkdirTask(names, path) => PlanMkdir(ctx, blobs, root, names, path, clock)
    case DeleteTask(names, path, emptyParents) => PlanDelete(ctx, blobs, root, names, path, emptyParents, clock)
    case RenameTask(fromNames, toNames, from, to) => PlanRename(ctx, blobs, root, fromNames, toNames, from, to, clock)
  }

  /** What an operation uploads when `leaf` is the last leaf of the bucket. */
  function PlanOf(ctx: Context, blobs: Blobs, leaf: Option<Cid>, op: Operation, clock: Clock): Result<Plan, FsError> {
    match Prepare(ctx.k, ctx.bucketId, op)
    case Err(e) => Err(e)
    case Ok(task) =>
      match LoadedRoot(ctx, blobs, leaf)
      case Err(e) => Err(e)
      case Ok(root) => PlanTask(ctx, blobs, root, task, clock)
  }
}
