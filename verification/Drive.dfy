/**
 What a drive is, and what its operations mean: a finite tree of named files and
 directories, and recursive edits of it. Nothing here mentions blobs or CIDs.
 */
module Drives {
  import opened Wrappers
  import opened Octets
  import opened Format
  import opened Hashing
  import opened Directories
  import opened Manifests
  import opened Paths

  /** A file or a directory below the root. A drive is the map of its root directory. */
  datatype Node =
    | FileNode(mtime: u64, manifest: FileManifest, content: Bytes)
    | DirNode(mtime: u64, kids: map<Name, Node>)

  type Drive = map<Name, Node>

  datatype EmptyParents = Keep | Remove

  datatype Operation =
    | PutFile(path: Bytes, data: Bytes, contentType: Bytes, userMetadata: UserMetadata)
    | Mkdir(path: Bytes)
    | Delete(path: Bytes, emptyParents: EmptyParents)
    | Rename(from: Bytes, to: Bytes)

  /** What the clock answers to the first and the second time an operation reads it. */
  datatype Clock = Clock(first: u64, second: u64)

  /** How an edit treats the directories on its path. */
  datatype Mode = Existing | CreateMissing | PruneEmpty

  type Edit = Drive -> Result<Drive, FsError>

  /** Bind `name` in a directory, which holds at most 1024 children. */
  function Bind(kids: Drive, name: Name, n: Node, path: Bytes): Result<Drive, FsError> {
    if name !in kids && |kids| >= MAX_DIRECTORY_CHILDREN then Err(BrokenRule(path, DirectoryFull))
    else Ok(kids[name := n])
  }

  /** The directory `name` of `kids`, which is at the path `done`. */
  function SubDirectory(kids: Drive, done: seq<Name>, name: Name, mode: Mode): Result<Drive, FsError> {
    if name in kids then
      if kids[name].DirNode? then Ok(kids[name].kids) else Err(NotADirectory(Join(done + [name])))
    else if mode == CreateMissing then Ok(map[])
    else Err(PathNotFound(Join(done + [name])))
  }

  /**
   Apply `edit` to the directory at `done + dirs`, where `kids` is the directory at
   `done`. Every directory on the way gets the modification time `mtime`.
   */
  function EditAt(kids: Drive, done: seq<Name>, dirs: seq<Name>, mode: Mode, mtime: u64, path: Bytes, edit: Edit)
    : Result<Drive, FsError>
    decreases |dirs|
  {
    if dirs == [] then edit(kids)
    else match SubDirectory(kids, done, dirs[0], mode)
      case Err(e) => Err(e)
      case Ok(sub) =>
        match EditAt(sub, done + [dirs[0]], dirs[1..], mode, mtime, path, edit)
        case Err(e) => Err(e)
        case Ok(sub') =>
          if mode == PruneEmpty && sub' == map[] then Ok(kids - {dirs[0]})
          else Bind(kids, dirs[0], DirNode(mtime, sub'), path)
  }

  function SetFile(name: Name, file: Node, path: Bytes): Edit {
    (kids: Drive) =>
      if name in kids && kids[name].DirNode? then Err(NotAFile(path)) else Bind(kids, name, file, path)
  }

  function AddNew(name: Name, n: Node, path: Bytes): Edit {
    (kids: Drive) =>
      if name in kids then Err(EntryExists(path)) else Bind(kids, name, n, path)
  }

  function TakeOut(name: Name, path: Bytes): Edit {
    (kids: Drive) =>
      if name in kids then Ok(kids - {name}) else Err(PathNotFound(path))
  }

  /** Remove a file or an empty directory. */
  function RemoveEntry(name: Name, path: Bytes): Edit {
    (kids: Drive) =>
      if name !in kids then Err(PathNotFound(path))
      else if kids[name].DirNode? && kids[name].kids != map[] then Err(DirectoryNotEmpty(path))
      else Ok(kids - {name})
  }

  /** Remove a file. */
  function RemoveFile(name: Name, path: Bytes): Edit {
    (kids: Drive) =>
      if name !in kids then Err(PathNotFound(path))
      else if kids[name].DirNode? then Err(NotAFile(path))
      else Ok(kids - {name})
  }

  /** The node at `names`, which is below the directory `kids`. */
  function Lookup(kids: Drive, names: seq<Name>): Option<Node>
    decreases |names|
  {
    if names == [] || names[0] !in kids then None
    else if |names| == 1 then Some(kids[names[0]])
    else match kids[names[0]]
      case FileNode(_, _, _) => None
      case DirNode(_, sub) => Lookup(sub, names[1..])
  }

  function Last(names: seq<Name>): Name
    requires names != []
  {
    names[|names| - 1]
  }

  function Parents(names: seq<Name>): seq<Name>
    requires names != []
  {
    names[..|names| - 1]
  }

  /** Write a file: create the missing directories and replace a file. */
  function ApplyPut(drive: Drive, names: seq<Name>, path: Bytes, m: FileManifest, data: Bytes, clock: Clock)
    : Result<Drive, FsError>
    requires names != []
  {
    EditAt(drive, [], Parents(names), CreateMissing, clock.second, path,
           SetFile(Last(names), FileNode(clock.first, m, data), path))
  }

  function ApplyMkdir(drive: Drive, names: seq<Name>, path: Bytes, clock: Clock): Result<Drive, FsError>
    requires names != []
  {
    EditAt(drive, [], Parents(names), CreateMissing, clock.first, path,
           AddNew(Last(names), DirNode(clock.first, map[]), path))
  }

  function ApplyDelete(drive: Drive, names: seq<Name>, path: Bytes, emptyParents: EmptyParents, clock: Clock)
    : Result<Drive, FsError>
    requires names != []
  {
    match emptyParents
    case Keep => EditAt(drive, [], Parents(names), Existing, clock.first, path, RemoveEntry(Last(names), path))
    case Remove => EditAt(drive, [], Parents(names), PruneEmpty, clock.first, path, RemoveFile(Last(names), path))
  }

  /** Take the node out of its directory, then add it at its new place. */
  function ApplyRename(
    drive: Drive, fromNames: seq<Name>, toNames: seq<Name>, from: Bytes, to: Bytes, clock: Clock)
    : Result<Drive, FsError>
    requires fromNames != [] && toNames != []
  {
    match EditAt(drive, [], Parents(fromNames), Existing, clock.first, from, TakeOut(Last(fromNames), from))
    case Err(e) => Err(e)
    case Ok(without) =>
      match Lookup(drive, fromNames)
      case None => Err(PathNotFound(from))
      case Some(moved) =>
        EditAt(without, [], Parents(toNames), CreateMissing, clock.second, to, AddNew(Last(toNames), moved, to))
  }

  // ---- Operations ----

  /** An operation whose arguments were checked. */
  datatype Task =
    | PutTask(names: seq<Name>, path: Bytes, manifest: FileManifest, data: Bytes)
    | MkdirTask(names: seq<Name>, path: Bytes)
    | DeleteTask(names: seq<Name>, path: Bytes, emptyParents: EmptyParents)
    | RenameTask(fromNames: seq<Name>, toNames: seq<Name>, from: Bytes, to: Bytes)

  predicate WellFormed(task: Task) {
    match task
    case RenameTask(fromNames, toNames, _, _) => fromNames != [] && toNames != [] && !(fromNames <= toNames)
    case PutTask(names, _, _, _) => names != []
    case MkdirTask(names, _) => names != []
    case DeleteTask(names, _, _) => names != []
  }

  /** The names of a path that must not be the root. */
  function NamesBelowRoot(path: Bytes, atRoot: FsError): (r: Result<seq<Name>, FsError>)
    ensures r.Ok? ==> r.value != []
  {
    match ParsePath(path)
    case Err(e) => Err(e)
    case Ok(names) => if names == [] then Err(atRoot) else Ok(names)
  }

  /** The checks before anything is read: paths, and the manifest of a file to write. */
  function Prepare(k: Crypto, bucketId: u64, op: Operation): (r: Result<Task, FsError>)
    ensures r.Ok? ==> WellFormed(r.value)
  {
    match op
    case PutFile(path, data, contentType, userMetadata) =>
      (match NamesBelowRoot(path, NotAFile(path))
       case Err(e) => Err(e)
       case Ok(names) =>
         match ForContent(k, bucketId, data, contentType, userMetadata)
         case Err(rule) => Err(BrokenRule(path, rule))
         case Ok(m) => Ok(PutTask(names, path, m, data)))
    case Mkdir(path) =>
      (match NamesBelowRoot(path, EntryExists(path))
       case Err(e) => Err(e)
       case Ok(names) => Ok(MkdirTask(names, path)))
    case Delete(path, emptyParents) =>
      (match NamesBelowRoot(path, InvalidPath(path))
       case Err(e) => Err(e)
       case Ok(names) => Ok(DeleteTask(names, path, emptyParents)))
    case Rename(from, to) =>
      match ParsePath(from)
      case Err(e) => Err(e)
      case Ok(fromNames) =>
        match ParsePath(to)
        case Err(e) => Err(e)
        case Ok(toNames) =>
          if fromNames == [] || toNames == [] then Err(InvalidPath([SLASH]))
          else if fromNames <= toNames then Err(InvalidPath(to))
          else Ok(RenameTask(fromNames, toNames, from, to))
  }

  function ApplyTask(task: Task, clock: Clock, drive: Drive): Result<Drive, FsError>
    requires WellFormed(task)
  {
    match task
    case PutTask(names, path, m, data) => ApplyPut(drive, names, path, m, data, clock)
    case MkdirTask(names, path) => ApplyMkdir(drive, names, path, clock)
    case DeleteTask(names, path, emptyParents) => ApplyDelete(drive, names, path, emptyParents, clock)
    case RenameTask(fromNames, toNames, from, to) => ApplyRename(drive, fromNames, toNames, from, to, clock)
  }

  /** What an operation does to a drive. */
  function Apply(k: Crypto, bucketId: u64, op: Operation, clock: Clock, drive: Drive): Result<Drive, FsError> {
    match Prepare(k, bucketId, op)
    case Err(e) => Err(e)
    case Ok(task) => ApplyTask(task, clock, drive)
  }
}
