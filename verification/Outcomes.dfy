/**
 When the operations on drives succeed, and which error they give otherwise, from what
 looking up paths tells: no word here about how an edit walks or recurses.
 */
module Outcomes {
  import opened Wrappers
  import opened Octets
  import opened Format
  import opened Hashing
  import opened Directories
  import opened Manifests
  import opened Paths
  import opened Drives
  import opened DriveLaws
  import opened Plans
  import opened Represents
  import opened Refinement
  import opened OperationRefinement
  import opened Reads

  // ---- What is at a path ----

  predicate IsFile(drive: Drive, q: seq<Name>) { Lookup(drive, q).Some? && Lookup(drive, q).value.FileNode? }

  /** The root is a directory. */
  predicate IsDir(drive: Drive, q: seq<Name>) { q == [] || (Lookup(drive, q).Some? && Lookup(drive, q).value.DirNode?) }

  predicate IsMissing(drive: Drive, q: seq<Name>) { q != [] && Lookup(drive, q).None? }

  /** What the directory at `q` holds. */
  function KidsAt(drive: Drive, q: seq<Name>): Drive
    requires IsDir(drive, q)
  {
    if q == [] then drive else Lookup(drive, q).value.kids
  }

  /** The first `i` names lead to a file. */
  predicate FileOnWay(drive: Drive, names: seq<Name>, i: nat) { 1 <= i <= |names| && IsFile(drive, names[..i]) }

  /** The first `i` names lead to a directory, in which the next name is missing. */
  predicate WayEnds(drive: Drive, names: seq<Name>, i: nat) {
    i < |names| && IsDir(drive, names[..i]) && IsMissing(drive, names[..i + 1])
  }

  /** The last directory that exists on the way is full, and the next name is missing there. */
  ghost predicate IsFull(drive: Drive, names: seq<Name>) {
    exists i: nat :: WayEnds(drive, names, i) && |KidsAt(drive, names[..i])| >= 1024
  }

  ghost predicate NoFile(drive: Drive, names: seq<Name>) { forall i: nat :: !FileOnWay(drive, names, i) }

  ghost predicate NoEnd(drive: Drive, names: seq<Name>) { forall i: nat :: !WayEnds(drive, names, i) }

  // ---- One name further ----

  /** The way from the directory `names[0]` on. */
  lemma FromChild(drive: Drive, names: seq<Name>, i: nat)
    requires names != [] && names[0] in drive && drive[names[0]].DirNode?
    ensures var (sub, rest) := (drive[names[0]].kids, names[1..]);
      && !FileOnWay(drive, names, 0) && !WayEnds(drive, names, 0) && !FileOnWay(sub, rest, 0)
      && (i >= 1 ==> (FileOnWay(drive, names, i + 1) <==> FileOnWay(sub, rest, i)))
      && (WayEnds(drive, names, i + 1) <==> WayEnds(sub, rest, i))
      && !FileOnWay(drive, names, 1)
      && (i < |names| ==> (IsDir(drive, names[..i + 1]) <==> IsDir(sub, rest[..i])))
      && (i < |names| && IsDir(sub, rest[..i]) ==> KidsAt(drive, names[..i + 1]) == KidsAt(sub, rest[..i]))
  {
    hide ValidName;
    if i < |names| {
      ChildLookup(drive, names, i);
    }
    if i + 1 < |names| {
      ChildLookup(drive, names, i + 1);
    }
    assert names[..1] == [names[0]] && names[..0] == [];
    assert [names[0]][1..] == [];
  }

  lemma ChildLookup(drive: Drive, names: seq<Name>, i: nat)
    requires names != [] && names[0] in drive && drive[names[0]].DirNode? && i < |names|
    ensures names[1..][..i] == names[..i + 1][1..]
    ensures i > 0 ==> Lookup(drive, names[..i + 1]) == Lookup(drive[names[0]].kids, names[1..][..i])
    ensures i == 0 ==> Lookup(drive, names[..i + 1]) == Some(drive[names[0]])
  {
    hide ValidName;
    assert names[..i + 1][0] == names[0];
  }

  /** A file at the first name. */
  lemma AtFile(drive: Drive, names: seq<Name>, i: nat)
    requires names != [] && names[0] in drive && drive[names[0]].FileNode?
    ensures FileOnWay(drive, names, i) <==> i == 1
    ensures !WayEnds(drive, names, i)
  {
    hide ValidName;
    assert names[..1] == [names[0]];
    if 0 < i <= |names| { assert names[..i][0] == names[0]; }
    if i < |names| { assert names[..i + 1][0] == names[0]; }
  }

  /** The first name is missing. */
  lemma AtMissing(drive: Drive, names: seq<Name>, i: nat)
    requires names != [] && names[0] !in drive
    ensures !FileOnWay(drive, names, i)
    ensures WayEnds(drive, names, i) <==> i == 0
  {
    hide ValidName;
    if 0 < i <= |names| { assert names[..i][0] == names[0]; }
    if i < |names| { assert names[..i + 1][0] == names[0]; }
  }

  // ---- One edit ----

  /** An edit that creates what is missing: a file on the way, the edit itself, or a full directory can fail. */
  ghost predicate CreateEnds(
    kids: Drive, done: seq<Name>, dirs: seq<Name>, path: Bytes, e: Result<Drive, FsError>, r: Result<Drive, FsError>)
  {
    && (forall i: nat | FileOnWay(kids, dirs, i) :: r == Err(NotADirectory(Join(done + dirs[..i]))))
    && (NoFile(kids, dirs) ==>
      && (e.Err? ==> r == Err(e.error))
      && (e.Ok? && IsFull(kids, dirs) ==> r == Err(BrokenRule(path, DirectoryFull)))
      && (e.Ok? && !IsFull(kids, dirs) ==> r.Ok?))
  }

  lemma {:induction false} CreateOutcome(
    kids: Drive, done: seq<Name>, dirs: seq<Name>, mtime: u64, path: Bytes, edit: Edit)
    ensures CreateEnds(kids, done, dirs, path, edit(DirOrEmpty(kids, dirs)),
                       EditAt(kids, done, dirs, CreateMissing, mtime, path, edit))
    decreases |dirs|
  {
    hide ValidName, Join, IsFile, IsDir, IsMissing, KidsAt;
    if dirs == [] {
      NothingAhead(kids);
    } else {
      var (name, rest) := (dirs[0], dirs[1..]);
      if name !in kids {
        forall i: nat ensures !FileOnWay(kids, dirs, i) && (WayEnds(kids, dirs, i) <==> i == 0) {
          AtMissing(kids, dirs, i);
        }
        CreateOutcome(map[], done + [name], rest, mtime, path, edit);
        NothingInEmpty(rest);
        EmptyStaysEmpty(rest);
        RootKids(kids, dirs);
      } else if kids[name].FileNode? {
        forall i: nat ensures FileOnWay(kids, dirs, i) <==> i == 1 {
          AtFile(kids, dirs, i);
        }
        assert FileOnWay(kids, dirs, 1);
        assert done + dirs[..1] == done + [name];
      } else {
        CreateOutcome(kids[name].kids, done + [name], rest, mtime, path, edit);
        WayFromChild(kids, dirs);
        forall i: nat | FileOnWay(kids, dirs, i)
          ensures EditAt(kids, done, dirs, CreateMissing, mtime, path, edit) ==
            Err(NotADirectory(Join(done + dirs[..i])))
        {
          AfterChild(kids, done, dirs, i);
        }
      }
    }
  }

  lemma NothingAhead(kids: Drive)
    ensures NoFile(kids, []) && NoEnd(kids, []) && !IsFull(kids, [])
  {
  }

  lemma NothingInEmpty(names: seq<Name>)
    ensures NoFile(map[], names) && !IsFull(map[], names)
  {
    if names == [] {
      NothingAhead(map[]);
    } else {
      forall i: nat ensures !FileOnWay(map[], names, i) && (WayEnds(map[], names, i) <==> i == 0) {
        AtMissing(map[], names, i);
      }
      RootKids(map[], names);
    }
  }

  lemma RootKids(kids: Drive, names: seq<Name>)
    ensures IsDir(kids, names[..0]) && KidsAt(kids, names[..0]) == kids
  {
  }

  lemma WayFromChild(kids: Drive, dirs: seq<Name>)
    requires dirs != [] && dirs[0] in kids && kids[dirs[0]].DirNode?
    ensures var (sub, rest) := (kids[dirs[0]].kids, dirs[1..]);
      && (NoFile(kids, dirs) <==> NoFile(sub, rest))
      && (IsFull(kids, dirs) <==> IsFull(sub, rest))
      && (NoEnd(kids, dirs) <==> NoEnd(sub, rest))
  {
    hide ValidName, IsFile, IsDir, IsMissing, KidsAt;
    var (sub, rest) := (kids[dirs[0]].kids, dirs[1..]);
    forall i: nat | FileOnWay(kids, dirs, i) ensures i >= 1 && FileOnWay(sub, rest, i - 1) {
      AfterChild(kids, [], dirs, i);
    }
    forall i: nat | FileOnWay(sub, rest, i) ensures FileOnWay(kids, dirs, i + 1) {
      FromChild(kids, dirs, i);
    }
    forall i: nat | WayEnds(kids, dirs, i) ensures i >= 1 && WayEnds(sub, rest, i - 1) {
      AfterChild(kids, [], dirs, i);
    }
    forall i: nat | WayEnds(sub, rest, i)
      ensures WayEnds(kids, dirs, i + 1) && KidsAt(kids, dirs[..i + 1]) == KidsAt(sub, rest[..i])
    {
      FromChild(kids, dirs, i);
      EndIsDir(sub, rest, i);
    }
    if IsFull(sub, rest) {
      var i: nat :| WayEnds(sub, rest, i) && |KidsAt(sub, rest[..i])| >= 1024;
      assert WayEnds(kids, dirs, i + 1) && |KidsAt(kids, dirs[..i + 1])| >= 1024;
    }
    if IsFull(kids, dirs) {
      var i: nat :| WayEnds(kids, dirs, i) && |KidsAt(kids, dirs[..i])| >= 1024;
      AfterChild(kids, [], dirs, i);
      assert KidsAt(kids, dirs[..i - 1 + 1]) == KidsAt(sub, rest[..i - 1]);
    }
  }

  /** A file, or the end of the way, is below the first name. */
  lemma AfterChild(kids: Drive, done: seq<Name>, dirs: seq<Name>, i: nat)
    requires dirs != [] && dirs[0] in kids && kids[dirs[0]].DirNode?
    requires FileOnWay(kids, dirs, i) || WayEnds(kids, dirs, i)
    ensures 1 <= i <= |dirs| && done + [dirs[0]] + dirs[1..][..i - 1] == done + dirs[..i]
    ensures FileOnWay(kids, dirs, i) ==> FileOnWay(kids[dirs[0]].kids, dirs[1..], i - 1)
    ensures WayEnds(kids, dirs, i) ==> WayEnds(kids[dirs[0]].kids, dirs[1..], i - 1)
  {
    hide ValidName, IsFile, IsDir, IsMissing, KidsAt;
    FromChild(kids, dirs, 0);
    if i > 0 { FromChild(kids, dirs, i - 1); }
  }

  lemma EndIsDir(kids: Drive, dirs: seq<Name>, i: nat)
    requires WayEnds(kids, dirs, i)
    ensures i < |dirs| && IsDir(kids, dirs[..i])
  {
  }

  /** An edit of what is there: a file on the way, a missing directory or the edit itself can fail. */
  ghost predicate ExistingEnds<S, T>(
    kids: Drive, done: seq<Name>, dirs: seq<Name>, e: Result<S, FsError>, r: Result<T, FsError>)
  {
    && (forall i: nat | FileOnWay(kids, dirs, i) :: r == Err(NotADirectory(Join(done + dirs[..i]))))
    && (forall i: nat | WayEnds(kids, dirs, i) :: r == Err(PathNotFound(Join(done + dirs[..i + 1]))))
    && (NoFile(kids, dirs) && NoEnd(kids, dirs) ==> IsDir(kids, dirs) && (if e.Err? then r == Err(e.error) else r.Ok?))
  }

  lemma {:induction false} ExistingOutcome(
    kids: Drive, done: seq<Name>, dirs: seq<Name>, mode: Mode, mtime: u64, path: Bytes, edit: Edit)
    requires mode != CreateMissing
    ensures ExistingEnds(kids, done, dirs, edit(DirOrEmpty(kids, dirs)),
                         EditAt(kids, done, dirs, mode, mtime, path, edit))
    decreases |dirs|
  {
    hide ValidName, Join, IsFile, IsDir, IsMissing;
    if dirs == [] {
      NothingAhead(kids);
      RootKids(kids, dirs);
      assert dirs[..0] == dirs;
    } else {
      var (name, rest) := (dirs[0], dirs[1..]);
      if name !in kids {
        forall i: nat ensures !FileOnWay(kids, dirs, i) && (WayEnds(kids, dirs, i) <==> i == 0) {
          AtMissing(kids, dirs, i);
        }
        assert done + dirs[..1] == done + [name];
        assert WayEnds(kids, dirs, 0);
      } else if kids[name].FileNode? {
        forall i: nat ensures (FileOnWay(kids, dirs, i) <==> i == 1) && !WayEnds(kids, dirs, i) {
          AtFile(kids, dirs, i);
        }
        assert done + dirs[..1] == done + [name];
        assert FileOnWay(kids, dirs, 1);
      } else {
        ExistingOutcome(kids[name].kids, done + [name], rest, mode, mtime, path, edit);
        ExistingFromChild(kids, done, dirs, edit(DirOrEmpty(kids, dirs)),
                          EditAt(kids[name].kids, done + [name], rest, mode, mtime, path, edit),
                          EditAt(kids, done, dirs, mode, mtime, path, edit));
      }
    }
  }

  lemma ExistingFromChild<S, T>(
    kids: Drive, done: seq<Name>, dirs: seq<Name>, e: Result<S, FsError>, inner: Result<T, FsError>,
    r: Result<T, FsError>)
    requires dirs != [] && dirs[0] in kids && kids[dirs[0]].DirNode?
    requires ExistingEnds(kids[dirs[0]].kids, done + [dirs[0]], dirs[1..], e, inner)
    requires if inner.Err? then r == Err(inner.error) else r.Ok?
    ensures ExistingEnds(kids, done, dirs, e, r)
  {
    hide ValidName, Join, IsFile, IsDir, IsMissing;
    var rest := dirs[1..];
    WayFromChild(kids, dirs);
    forall i: nat | FileOnWay(kids, dirs, i) ensures r == Err(NotADirectory(Join(done + dirs[..i]))) {
      AfterChild(kids, done, dirs, i);
    }
    forall i: nat | WayEnds(kids, dirs, i) ensures r == Err(PathNotFound(Join(done + dirs[..i + 1]))) {
      AfterChild(kids, done, dirs, i);
      assert done + [dirs[0]] + rest[..i] == done + dirs[..i + 1];
    }
    FromChild(kids, dirs, |rest|);
    assert dirs[..|rest| + 1] == dirs && rest[..|rest|] == rest;
  }

  // ---- The last name ----

  lemma {:induction false} DirOrEmptyIs(kids: Drive, dirs: seq<Name>)
    ensures DirOrEmpty(kids, dirs) == if IsDir(kids, dirs) then KidsAt(kids, dirs) else map[]
    decreases |dirs|
  {
    hide ValidName;
    if dirs != [] && dirs[0] in kids && kids[dirs[0]].DirNode? {
      DirOrEmptyIs(kids[dirs[0]].kids, dirs[1..]);
    }
  }

  /** Where the way ends, there is no directory further on. */
  lemma NothingAfterEnd(kids: Drive, dirs: seq<Name>, i: nat)
    requires WayEnds(kids, dirs, i)
    ensures Lookup(kids, dirs) == None && !IsDir(kids, dirs)
  {
    hide ValidName;
    LookupBelowMissing(kids, dirs[..i + 1], dirs[i + 1..]);
    assert dirs == dirs[..i + 1] + dirs[i + 1..];
  }

  /** The way to the last directory, and the last name there. */
  lemma LastStep(drive: Drive, names: seq<Name>)
    requires names != []
    ensures var (dirs, name) := (Parents(names), Last(names));
      && (forall i: nat {:trigger FileOnWay(drive, dirs, i)} {:trigger FileOnWay(drive, names, i)} ::
            FileOnWay(drive, dirs, i) <==> i < |names| && FileOnWay(drive, names, i))
      && (forall i: nat {:trigger WayEnds(drive, dirs, i)} {:trigger WayEnds(drive, names, i)} ::
            WayEnds(drive, dirs, i) <==> i < |dirs| && WayEnds(drive, names, i))
      && (forall i: nat {:trigger names[..i]} :: i < |names| ==> dirs[..i] == names[..i])
      && Lookup(drive, names) == (
           if name in DirOrEmpty(drive, dirs) then Some(DirOrEmpty(drive, dirs)[name]) else None)
      && (WayEnds(drive, names, |dirs|) <==> IsDir(drive, dirs) && Lookup(drive, names) == None)
  {
    hide ValidName, IsFile;
    var (dirs, name) := (Parents(names), Last(names));
    assert forall i: nat | i < |names| :: dirs[..i] == names[..i];
    assert dirs == dirs[..|dirs|] && names[..|dirs| + 1] == names && names == dirs + [name];
    LookupInDir(drive, dirs, [name]);
  }

  /** The way ends in a full directory above the last, or the last directory is full. */
  lemma FullAtLast(drive: Drive, names: seq<Name>)
    requires names != []
    ensures var (dirs, name) := (Parents(names), Last(names));
      && (IsFull(drive, names) <==>
            || IsFull(drive, dirs)
            || (IsDir(drive, dirs) && Lookup(drive, names) == None && |KidsAt(drive, dirs)| >= 1024))
      && (IsFull(drive, dirs) ==> !IsDir(drive, dirs))
  {
    hide ValidName, IsFile, IsDir, IsMissing, KidsAt, Lookup, DirOrEmpty;
    var dirs := Parents(names);
    LastStep(drive, names);
    assert names[..|dirs|] == dirs;
    if IsFull(drive, dirs) {
      var i: nat :| WayEnds(drive, dirs, i) && |KidsAt(drive, dirs[..i])| >= 1024;
      NothingAfterEnd(drive, dirs, i);
      assert WayEnds(drive, names, i) && |KidsAt(drive, names[..i])| >= 1024;
    }
    if IsFull(drive, names) {
      var i: nat :| WayEnds(drive, names, i) && |KidsAt(drive, names[..i])| >= 1024;
      if i < |dirs| {
        assert WayEnds(drive, dirs, i) && |KidsAt(drive, dirs[..i])| >= 1024;
      }
    }
    if IsDir(drive, dirs) && Lookup(drive, names) == None && |KidsAt(drive, dirs)| >= 1024 {
      assert WayEnds(drive, names, |dirs|) && |KidsAt(drive, names[..|dirs|])| >= 1024;
    }
  }

  // ---- The operations ----

  ghost predicate NoFileAbove(drive: Drive, names: seq<Name>) {
    forall i: nat | i < |names| :: !FileOnWay(drive, names, i)
  }

  /** A parent that is a file is reported by its path. */
  ghost predicate ReportsFileAbove<T>(drive: Drive, names: seq<Name>, r: Result<T, FsError>) {
    forall i: nat | i < |names| && FileOnWay(drive, names, i) :: r == Err(NotADirectory(Join(names[..i])))
  }

  /** The first parent that is missing is reported by its path. */
  ghost predicate ReportsMissingAbove<T>(drive: Drive, names: seq<Name>, r: Result<T, FsError>) {
    forall i: nat | i + 1 < |names| && WayEnds(drive, names, i) :: r == Err(PathNotFound(Join(names[..i + 1])))
  }

  /**
   Writing a file: no parent is a file, there is no directory at the path, and the last
   existing directory has room or has the next name. A file at the path is replaced.
   */
  ghost predicate PutEnds<T>(drive: Drive, names: seq<Name>, path: Bytes, r: Result<T, FsError>) {
    && ReportsFileAbove(drive, names, r)
    && (NoFileAbove(drive, names) ==>
          if IsDir(drive, names) then r == Err(NotAFile(path))
          else if IsFull(drive, names) then r == Err(BrokenRule(path, DirectoryFull))
          else r.Ok?)
  }

  /** A new directory: no parent is a file, nothing is at the path, and there is room. */
  ghost predicate MkdirEnds<T>(drive: Drive, names: seq<Name>, path: Bytes, r: Result<T, FsError>) {
    && ReportsFileAbove(drive, names, r)
    && (NoFileAbove(drive, names) ==>
          if Lookup(drive, names).Some? then r == Err(EntryExists(path))
          else if IsFull(drive, names) then r == Err(BrokenRule(path, DirectoryFull))
          else r.Ok?)
  }

  /** Deleting: all parents are directories, and at the path is a file or, unless pruning, an empty directory. */
  ghost predicate DeleteEnds<T>(
    drive: Drive, names: seq<Name>, path: Bytes, emptyParents: EmptyParents, r: Result<T, FsError>)
  {
    && ReportsFileAbove(drive, names, r)
    && ReportsMissingAbove(drive, names, r)
    && (names != [] && IsDir(drive, Parents(names)) ==>
          match Lookup(drive, names)
          case None => r == Err(PathNotFound(path))
          case Some(FileNode(_, _, _)) => r.Ok?
          case Some(DirNode(_, kids)) =>
            if emptyParents == Remove then r == Err(NotAFile(path))
            else if kids != map[] then r == Err(DirectoryNotEmpty(path))
            else r.Ok?)
  }

  lemma PutOutcome(drive: Drive, names: seq<Name>, path: Bytes, m: FileManifest, data: Bytes, clock: Clock)
    requires names != []
    ensures PutEnds(drive, names, path, ApplyPut(drive, names, path, m, data, clock))
  {
    hide ValidName, EditAt, FileOnWay, WayEnds, IsFull, Lookup;
    LastStep(drive, names);
    FullAtLast(drive, names);
    var (dirs, edit) := (Parents(names), SetFile(Last(names), FileNode(clock.first, m, data), path));
    DirOrEmptyIs(drive, dirs);
    CreateOutcome(drive, [], dirs, clock.second, path, edit);
    assert forall i: nat | i < |names| :: [] + dirs[..i] == names[..i];
  }

  lemma MkdirOutcome(drive: Drive, names: seq<Name>, path: Bytes, clock: Clock)
    requires names != []
    ensures MkdirEnds(drive, names, path, ApplyMkdir(drive, names, path, clock))
  {
    hide ValidName, EditAt, MkdirEnds, AddNew;
    AddOutcome(drive, names, path, clock.first, DirNode(clock.first, map[]));
  }

  lemma DirHasNoEnd(drive: Drive, dirs: seq<Name>)
    requires IsDir(drive, dirs)
    ensures NoFile(drive, dirs) && NoEnd(drive, dirs)
  {
    hide ValidName;
    forall i: nat ensures !FileOnWay(drive, dirs, i) && !WayEnds(drive, dirs, i) {
      if WayEnds(drive, dirs, i) {
        NothingAfterEnd(drive, dirs, i);
      }
      if FileOnWay(drive, dirs, i) {
        assert dirs == dirs[..i] + dirs[i..];
        LookupThrough(drive, dirs[..i], dirs[i..]);
      }
    }
  }

  lemma DeleteOutcome(drive: Drive, names: seq<Name>, path: Bytes, emptyParents: EmptyParents, clock: Clock)
    requires names != []
    ensures DeleteEnds(drive, names, path, emptyParents, ApplyDelete(drive, names, path, emptyParents, clock))
  {
    hide ValidName, EditAt, RemoveEntry, RemoveFile, DirOrEmpty, ExistingEnds;
    var (dirs, name) := (Parents(names), Last(names));
    var (mode, edit) :=
      if emptyParents == Keep then (Existing, RemoveEntry(name, path)) else (PruneEmpty, RemoveFile(name, path));
    ExistingOutcome(drive, [], dirs, mode, clock.first, path, edit);
    RemovalEnds(drive, names, path, emptyParents, edit(DirOrEmpty(drive, dirs)),
                ApplyDelete(drive, names, path, emptyParents, clock));
  }

  lemma RemovalEnds<T>(
    drive: Drive, names: seq<Name>, path: Bytes, emptyParents: EmptyParents, e: Result<Drive, FsError>,
    r: Result<T, FsError>)
    requires names != [] && ExistingEnds(drive, [], Parents(names), e, r)
    requires emptyParents == Keep ==> e == RemoveEntry(Last(names), path)(DirOrEmpty(drive, Parents(names)))
    requires emptyParents == Remove ==> e == RemoveFile(Last(names), path)(DirOrEmpty(drive, Parents(names)))
    ensures DeleteEnds(drive, names, path, emptyParents, r)
  {
    hide ValidName, Join, FileOnWay, WayEnds, Lookup;
    LastStep(drive, names);
    var dirs := Parents(names);
    if IsDir(drive, dirs) {
      DirHasNoEnd(drive, dirs);
    }
    assert forall i: nat | i < |names| :: [] + dirs[..i] == names[..i];
  }

  // ---- Renaming ----

  /** The drive without the node at `names`. */
  ghost predicate IsWithout(drive: Drive, names: seq<Name>, mtime: u64, path: Bytes, without: Drive) {
    names != [] && EditAt(drive, [], Parents(names), Existing, mtime, path, TakeOut(Last(names), path)) == Ok(without)
  }

  lemma TakenOut(drive: Drive, names: seq<Name>, mtime: u64, path: Bytes, without: Drive, q: seq<Name>)
    requires IsWithout(drive, names, mtime, path, without) && q != []
    ensures names <= q ==> Lookup(without, q) == None
    ensures q < names ==> IsDirWith(Lookup(without, q), mtime)
    ensures !(names <= q) && !(q < names) ==> Lookup(without, q) == Lookup(drive, q)
  {
    hide ValidName, EditAt;
    RemovalLaw(drive, names, mtime, path, TakeOut(Last(names), path), q);
  }

  lemma ParentsAreDirs(drive: Drive, names: seq<Name>, q: seq<Name>)
    requires names != [] && IsDir(drive, Parents(names)) && q < names
    ensures IsDir(drive, q)
  {
    hide ValidName;
    var dirs := Parents(names);
    assert q <= dirs && dirs == q + dirs[|q|..];
    if q != [] && q != dirs {
      if Lookup(drive, q).None? {
        LookupBelowMissing(drive, q, dirs[|q|..]);
      } else {
        LookupThrough(drive, q, dirs[|q|..]);
      }
    }
  }

  /** What is at a path that is not below the removed one stays of its kind. */
  lemma KindStays(drive: Drive, names: seq<Name>, mtime: u64, path: Bytes, without: Drive, q: seq<Name>)
    requires IsWithout(drive, names, mtime, path, without) && IsDir(drive, Parents(names)) && !(names <= q)
    ensures IsDir(without, q) <==> IsDir(drive, q)
    ensures IsFile(without, q) <==> IsFile(drive, q)
    ensures q != [] ==> (Lookup(without, q).Some? <==> Lookup(drive, q).Some?)
  {
    hide ValidName, EditAt, IsWithout;
    if q != [] {
      TakenOut(drive, names, mtime, path, without, q);
      if q < names {
        ParentsAreDirs(drive, names, q);
      }
    }
  }

  lemma KidsByLookup(drive: Drive, q: seq<Name>, x: Name)
    requires IsDir(drive, q)
    ensures x in KidsAt(drive, q) <==> Lookup(drive, q + [x]).Some?
  {
    hide ValidName, KidsAt;
    DirOrEmptyIs(drive, q);
    LookupInDir(drive, q, [x]);
  }

  lemma KidStays(drive: Drive, names: seq<Name>, mtime: u64, path: Bytes, without: Drive, q: seq<Name>, x: Name)
    requires IsWithout(drive, names, mtime, path, without) && IsDir(drive, Parents(names))
    requires !(names <= q) && IsDir(drive, q) && IsDir(without, q)
    ensures x in KidsAt(without, q) <==> x in KidsAt(drive, q) && !(q == Parents(names) && x == Last(names))
  {
    hide ValidName, EditAt, IsWithout, Lookup, KidsAt, IsDir;
    KidsByLookup(drive, q, x);
    KidsByLookup(without, q, x);
    OneBelow(names, q, x);
    if q + [x] == names {
      TakenOut(drive, names, mtime, path, without, q + [x]);
    } else {
      KindStays(drive, names, mtime, path, without, q + [x]);
    }
  }

  lemma OneFewer(before: Drive, after: Drive, x: Name)
    requires x in before && forall y: Name :: y in after <==> y in before && y != x
    ensures |after| == |before| - 1
  {
    hide ValidName;
    assert after.Keys == before.Keys - {x};
    assert |after| == |after.Keys| && |before| == |before.Keys|;
  }

  lemma SameCount(before: Drive, after: Drive)
    requires forall y: Name :: y in after <==> y in before
    ensures |after| == |before|
  {
    hide ValidName;
    assert after.Keys == before.Keys;
    assert |after| == |after.Keys| && |before| == |before.Keys|;
  }

  /** A directory that is not below the removed node loses a child only if it held that node. */
  lemma KidsAfterRemoval(drive: Drive, names: seq<Name>, mtime: u64, path: Bytes, without: Drive, q: seq<Name>)
    requires IsWithout(drive, names, mtime, path, without) && IsDir(drive, Parents(names)) && Lookup(drive, names).Some?
    requires !(names <= q) && IsDir(drive, q)
    ensures IsDir(without, q)
    ensures |KidsAt(without, q)| == |KidsAt(drive, q)| - if q == Parents(names) then 1 else 0
  {
    hide ValidName, EditAt, IsWithout, Lookup, KidsAt, IsDir;
    KindStays(drive, names, mtime, path, without, q);
    var (before, after) := (KidsAt(drive, q), KidsAt(without, q));
    forall x: Name ensures x in after <==> x in before && !(q == Parents(names) && x == Last(names)) {
      KidStays(drive, names, mtime, path, without, q, x);
    }
    if q == Parents(names) {
      assert names == q + [Last(names)];
      KidsByLookup(drive, q, Last(names));
      OneFewer(before, after, Last(names));
    } else {
      SameCount(before, after);
    }
  }

  lemma OneBelow(names: seq<Name>, q: seq<Name>, x: Name)
    requires names != [] && !(names <= q)
    ensures names <= q + [x] <==> names == q + [x]
    ensures names == q + [x] <==> q == Parents(names) && x == Last(names)
  {
    hide ValidName;
    if |names| <= |q| {
      assert (q + [x])[..|names|] == q[..|names|];
    }
    assert names == Parents(names) + [Last(names)];
    if names == q + [x] {
      assert Parents(names) == q;
    }
  }

  /** The last directory on the way to the new place has no room, even if it held the moved node. */
  ghost predicate IsFullWithout(drive: Drive, fromNames: seq<Name>, toNames: seq<Name>)
    requires fromNames != []
  {
    exists i: nat :: WayEnds(drive, toNames, i)
      && |KidsAt(drive, toNames[..i])| - (if toNames[..i] == Parents(fromNames) then 1 else 0) >= 1024
  }

  /**
   Renaming: the parents of the old place are directories and something is there; no
   parent of the new place is a file, nothing is there, and there is room.
   */
  ghost predicate RenameEnds<T>(
    drive: Drive, fromNames: seq<Name>, toNames: seq<Name>, from: Bytes, to: Bytes, r: Result<T, FsError>)
    requires fromNames != []
  {
    && ReportsFileAbove(drive, fromNames, r)
    && ReportsMissingAbove(drive, fromNames, r)
    && (IsDir(drive, Parents(fromNames)) ==>
          if Lookup(drive, fromNames).None? then r == Err(PathNotFound(from))
          else
            && ReportsFileAbove(drive, toNames, r)
            && (NoFileAbove(drive, toNames) ==>
                  if Lookup(drive, toNames).Some? then r == Err(EntryExists(to))
                  else if IsFullWithout(drive, fromNames, toNames) then r == Err(BrokenRule(to, DirectoryFull))
                  else r.Ok?))
  }

  /** The way to a path that is not below the removed one stays as it is, but for one child less. */
  lemma WayStays(
    drive: Drive, fromNames: seq<Name>, toNames: seq<Name>, mtime: u64, path: Bytes, without: Drive, i: nat)
    requires IsWithout(drive, fromNames, mtime, path, without) && IsDir(drive, Parents(fromNames))
    requires Lookup(drive, fromNames).Some? && !(fromNames <= toNames)
    ensures FileOnWay(without, toNames, i) <==> FileOnWay(drive, toNames, i)
    ensures WayEnds(without, toNames, i) <==> WayEnds(drive, toNames, i)
    ensures WayEnds(drive, toNames, i) ==>
      |KidsAt(without, toNames[..i])| ==
        |KidsAt(drive, toNames[..i])| - if toNames[..i] == Parents(fromNames) then 1 else 0
  {
    hide ValidName, EditAt, IsWithout, Lookup, IsDir, IsFile, KidsAt;
    if i <= |toNames| {
      assert !(fromNames <= toNames[..i]);
      KindStays(drive, fromNames, mtime, path, without, toNames[..i]);
      if i < |toNames| {
        assert !(fromNames <= toNames[..i + 1]);
        KindStays(drive, fromNames, mtime, path, without, toNames[..i + 1]);
      }
      if WayEnds(drive, toNames, i) {
        KidsAfterRemoval(drive, fromNames, mtime, path, without, toNames[..i]);
      }
    }
  }

  lemma RenameOutcome(drive: Drive, fromNames: seq<Name>, toNames: seq<Name>, from: Bytes, to: Bytes, clock: Clock)
    requires fromNames != [] && toNames != [] && !(fromNames <= toNames)
    ensures RenameEnds(drive, fromNames, toNames, from, to, ApplyRename(drive, fromNames, toNames, from, to, clock))
  {
    hide ValidName, Join, EditAt, TakeOut, DirOrEmpty, Lookup, FileOnWay, WayEnds, IsDir;
    var (dirs, take) := (Parents(fromNames), TakeOut(Last(fromNames), from));
    ExistingOutcome(drive, [], dirs, Existing, clock.first, from, take);
    TakeOutEnds(drive, fromNames, from, EditAt(drive, [], dirs, Existing, clock.first, from, take));
    assert forall i: nat | i < |fromNames| :: [] + dirs[..i] == fromNames[..i];
    LastStep(drive, fromNames);
    if IsDir(drive, dirs) && Lookup(drive, fromNames).Some? {
      var without := EditAt(drive, [], dirs, Existing, clock.first, from, take).value;
      MoveOutcome(drive, fromNames, toNames, from, to, clock, without);
    }
  }

  /** Taking a node out fails on the way or because it is not there. */
  lemma TakeOutEnds(drive: Drive, names: seq<Name>, path: Bytes, r: Result<Drive, FsError>)
    requires names != []
    requires ExistingEnds(drive, [], Parents(names), TakeOut(Last(names), path)(DirOrEmpty(drive, Parents(names))), r)
    ensures ReportsFileAbove(drive, names, r) && ReportsMissingAbove(drive, names, r)
    ensures IsDir(drive, Parents(names)) ==>
      if Lookup(drive, names).None? then r == Err(PathNotFound(path)) else r.Ok?
  {
    hide ValidName, Join, FileOnWay, WayEnds, Lookup;
    LastStep(drive, names);
    var dirs := Parents(names);
    if IsDir(drive, dirs) {
      DirHasNoEnd(drive, dirs);
    }
    assert forall i: nat | i < |names| :: [] + dirs[..i] == names[..i];
  }

  lemma MoveOutcome(
    drive: Drive, fromNames: seq<Name>, toNames: seq<Name>, from: Bytes, to: Bytes, clock: Clock, without: Drive)
    requires fromNames != [] && toNames != [] && !(fromNames <= toNames)
    requires IsWithout(drive, fromNames, clock.first, from, without)
    requires IsDir(drive, Parents(fromNames)) && Lookup(drive, fromNames).Some?
    ensures RenameEnds(drive, fromNames, toNames, from, to, ApplyRename(drive, fromNames, toNames, from, to, clock))
  {
    hide ValidName, Join, Lookup, FileOnWay, WayEnds, IsDir, DirOrEmpty, KidsAt;
    var r := ApplyRename(drive, fromNames, toNames, from, to, clock);
    AddOutcome(without, toNames, to, clock.second, Lookup(drive, fromNames).value);
    assert r == EditAt(without, [], Parents(toNames), CreateMissing, clock.second, to,
                       AddNew(Last(toNames), Lookup(drive, fromNames).value, to));
    forall i: nat
      ensures FileOnWay(without, toNames, i) <==> FileOnWay(drive, toNames, i)
      ensures WayEnds(without, toNames, i) <==> WayEnds(drive, toNames, i)
    {
      WayStays(drive, fromNames, toNames, clock.first, from, without, i);
    }
    KindStays(drive, fromNames, clock.first, from, without, toNames);
    FullWithout(drive, fromNames, toNames, clock.first, from, without);
    FromIsThere(drive, fromNames, r);
  }

  lemma FromIsThere<T>(drive: Drive, names: seq<Name>, r: Result<T, FsError>)
    requires names != [] && IsDir(drive, Parents(names))
    ensures ReportsFileAbove(drive, names, r) && ReportsMissingAbove(drive, names, r)
  {
    hide ValidName, Lookup, FileOnWay, WayEnds;
    DirHasNoEnd(drive, Parents(names));
    LastStep(drive, names);
  }

  lemma FullWithout(
    drive: Drive, fromNames: seq<Name>, toNames: seq<Name>, mtime: u64, path: Bytes, without: Drive)
    requires IsWithout(drive, fromNames, mtime, path, without) && IsDir(drive, Parents(fromNames))
    requires Lookup(drive, fromNames).Some? && !(fromNames <= toNames)
    ensures IsFull(without, toNames) <==> IsFullWithout(drive, fromNames, toNames)
  {
    hide ValidName, EditAt, IsWithout, Lookup, IsDir, IsMissing, KidsAt;
    if IsFull(without, toNames) {
      var i: nat :| WayEnds(without, toNames, i) && |KidsAt(without, toNames[..i])| >= 1024;
      WayStays(drive, fromNames, toNames, mtime, path, without, i);
    }
    if IsFullWithout(drive, fromNames, toNames) {
      var i: nat :| WayEnds(drive, toNames, i)
        && |KidsAt(drive, toNames[..i])| - (if toNames[..i] == Parents(fromNames) then 1 else 0) >= 1024;
      WayStays(drive, fromNames, toNames, mtime, path, without, i);
    }
  }

  /** Adding a node: as for a new directory. */
  lemma AddOutcome(drive: Drive, names: seq<Name>, path: Bytes, mtime: u64, n: Node)
    requires names != []
    ensures MkdirEnds(drive, names, path,
      EditAt(drive, [], Parents(names), CreateMissing, mtime, path, AddNew(Last(names), n, path)))
  {
    hide ValidName, EditAt, FileOnWay, WayEnds, IsFull, Lookup;
    LastStep(drive, names);
    FullAtLast(drive, names);
    var (dirs, edit) := (Parents(names), AddNew(Last(names), n, path));
    DirOrEmptyIs(drive, dirs);
    CreateOutcome(drive, [], dirs, mtime, path, edit);
    assert forall i: nat | i < |names| :: [] + dirs[..i] == names[..i];
  }

  // ---- Whole operations ----

  /** The path of some names. */
  ghost predicate IsPath(path: Bytes) { exists names: seq<Name> :: path == Join(names) }

  /** What an operation answers on a drive. A path that is not one, or that of the root, is reported first. */
  ghost predicate OperationEnds<T>(k: Crypto, bucketId: u64, op: Operation, drive: Drive, r: Result<T, FsError>) {
    match op
    case PutFile(path, data, contentType, userMetadata) =>
      && (!IsPath(path) ==> r == Err(InvalidPath(path)))
      && (forall names: seq<Name> | path == Join(names) ::
            if names == [] then r == Err(NotAFile(path))
            else
              var m := ForContent(k, bucketId, data, contentType, userMetadata);
              if m.Err? then r == Err(BrokenRule(path, m.error)) else PutEnds(drive, names, path, r))
    case Mkdir(path) =>
      && (!IsPath(path) ==> r == Err(InvalidPath(path)))
      && (forall names: seq<Name> | path == Join(names) ::
            if names == [] then r == Err(EntryExists(path)) else MkdirEnds(drive, names, path, r))
    case Delete(path, emptyParents) =>
      && (!IsPath(path) ==> r == Err(InvalidPath(path)))
      && (forall names: seq<Name> | path == Join(names) ::
            if names == [] then r == Err(InvalidPath(path)) else DeleteEnds(drive, names, path, emptyParents, r))
    case Rename(from, to) =>
      && (!IsPath(from) ==> r == Err(InvalidPath(from)))
      && (IsPath(from) && !IsPath(to) ==> r == Err(InvalidPath(to)))
      && (forall fromNames: seq<Name>, toNames: seq<Name> | from == Join(fromNames) && to == Join(toNames) ::
            if fromNames == [] || toNames == [] then r == Err(InvalidPath([0x2F]))
            else if fromNames <= toNames then r == Err(InvalidPath(to))
            else RenameEnds(drive, fromNames, toNames, from, to, r))
  }

  /** The outcome of every operation on every drive. */
  lemma OperationOutcome(k: Crypto, bucketId: u64, op: Operation, clock: Clock, drive: Drive)
    ensures OperationEnds(k, bucketId, op, drive, Apply(k, bucketId, op, clock, drive))
  {
    hide ValidName, Join, ParsePath, ForContent, PutEnds, MkdirEnds, DeleteEnds, RenameEnds;
    hide ApplyPut, ApplyMkdir, ApplyDelete, ApplyRename;
    match op
    case PutFile(path, data, contentType, userMetadata) =>
      PathParses(path);
      forall names: seq<Name> | path == Join(names) && names != []
        ensures ForContent(k, bucketId, data, contentType, userMetadata).Ok? ==>
          PutEnds(drive, names, path, Apply(k, bucketId, op, clock, drive))
      {
        var m := ForContent(k, bucketId, data, contentType, userMetadata);
        if m.Ok? { PutOutcome(drive, names, path, m.value, data, clock); }
      }
    case Mkdir(path) =>
      PathParses(path);
      forall names: seq<Name> | path == Join(names) && names != []
        ensures MkdirEnds(drive, names, path, Apply(k, bucketId, op, clock, drive))
      {
        MkdirOutcome(drive, names, path, clock);
      }
    case Delete(path, emptyParents) =>
      PathParses(path);
      forall names: seq<Name> | path == Join(names) && names != []
        ensures DeleteEnds(drive, names, path, emptyParents, Apply(k, bucketId, op, clock, drive))
      {
        DeleteOutcome(drive, names, path, emptyParents, clock);
      }
    case Rename(from, to) =>
      PathParses(from);
      PathParses(to);
      forall fromNames: seq<Name>, toNames: seq<Name>
        | from == Join(fromNames) && to == Join(toNames) && fromNames != [] && toNames != [] && !(fromNames <= toNames)
        ensures RenameEnds(drive, fromNames, toNames, from, to, Apply(k, bucketId, op, clock, drive))
      {
        RenameOutcome(drive, fromNames, toNames, from, to, clock);
      }
  }

  lemma PathParses(path: Bytes)
    ensures !IsPath(path) ==> ParsePath(path) == Err(InvalidPath(path))
    ensures forall names: seq<Name> {:trigger Join(names)} :: path == Join(names) ==> ParsePath(path) == Ok(names)
  {
    hide ValidName, Join, ParsePath;
    ParseOutcome(path);
    forall names: seq<Name> {:trigger Join(names)} | path == Join(names) ensures ParsePath(path) == Ok(names) {
      ParseIsInverseOfJoin(path, names);
    }
  }

  /** So an operation of a tree whose last leaf is a drive plans a commit, or fails, exactly as this says. */
  lemma PlanOutcome(ctx: Context, blobs: Blobs, leaf: Option<Cid>, drive: Drive, op: Operation, clock: Clock)
    requires RepDrive(ctx, blobs, leaf, drive)
    ensures OperationEnds(ctx.k, ctx.bucketId, op, drive, PlanOf(ctx, blobs, leaf, op, clock))
  {
    hide RepDrive, PlanOf, Apply, OperationEnds, PlanStored, RootRep;
    PlanRefinesApply(ctx, blobs, blobs, leaf, drive, op, clock);
    OperationOutcome(ctx.k, ctx.bucketId, op, clock, drive);
    SameEnd(ctx.k, ctx.bucketId, op, drive, Apply(ctx.k, ctx.bucketId, op, clock, drive),
            PlanOf(ctx, blobs, leaf, op, clock));
  }

  lemma SameEnd(
    k: Crypto, bucketId: u64, op: Operation, drive: Drive, r: Result<Drive, FsError>, plan: Result<Plan, FsError>)
    requires OperationEnds(k, bucketId, op, drive, r) && SameOutcome(plan, r)
    ensures OperationEnds(k, bucketId, op, drive, plan)
  {
    hide ValidName, Join, ForContent, Lookup, FileOnWay, WayEnds, IsDir, IsFull, IsFullWithout, NoFileAbove;
  }

  // ---- Reads ----

  /** Reading a directory: all names on the way are directories. */
  ghost predicate ListEnds(drive: Drive, names: seq<Name>, r: Result<Drive, FsError>) {
    && (forall i: nat | FileOnWay(drive, names, i) :: r == Err(NotADirectory(Join(names[..i]))))
    && (forall i: nat | WayEnds(drive, names, i) :: r == Err(PathNotFound(Join(names[..i + 1]))))
    && (IsDir(drive, names) ==> r == Ok(KidsAt(drive, names)))
  }

  /** Reading a file: all parents are directories, and there is a file. */
  ghost predicate StatEnds(drive: Drive, names: seq<Name>, path: Bytes, r: Result<Node, FsError>) {
    && ReportsFileAbove(drive, names, r)
    && ReportsMissingAbove(drive, names, r)
    && (names != [] && IsDir(drive, Parents(names)) ==>
          match Lookup(drive, names)
          case None => r == Err(PathNotFound(path))
          case Some(DirNode(_, _)) => r == Err(NotAFile(path))
          case Some(file) => r == Ok(file))
  }

  lemma {:induction false} WalkOutcome(kids: Drive, done: seq<Name>, dirs: seq<Name>)
    ensures ExistingEnds(kids, done, dirs, Ok(()), DirAt(kids, done, dirs))
    ensures IsDir(kids, dirs) ==> DirAt(kids, done, dirs) == Ok(KidsAt(kids, dirs))
    decreases |dirs|
  {
    hide ValidName, Join, FileOnWay, WayEnds, IsFile, IsMissing;
    if dirs == [] {
      NothingAhead(kids);
      assert dirs[..0] == dirs;
    } else {
      var (name, rest) := (dirs[0], dirs[1..]);
      if name !in kids || kids[name].FileNode? {
        WalkStops(kids, done, dirs);
      } else {
        WalkOutcome(kids[name].kids, done + [name], rest);
        ExistingFromChild(kids, done, dirs, Ok(()), DirAt(kids[name].kids, done + [name], rest),
          DirAt(kids, done, dirs));
      }
    }
  }

  lemma WalkStops(kids: Drive, done: seq<Name>, dirs: seq<Name>)
    requires dirs != [] && (dirs[0] !in kids || kids[dirs[0]].FileNode?)
    ensures ExistingEnds(kids, done, dirs, Ok(()), DirAt(kids, done, dirs))
    ensures !IsDir(kids, dirs)
  {
    hide ValidName, Join, FileOnWay, WayEnds, IsFile, IsMissing;
    assert done + dirs[..1] == done + [dirs[0]];
    forall i: nat
      ensures FileOnWay(kids, dirs, i) <==> i == 1 && dirs[0] in kids
      ensures WayEnds(kids, dirs, i) <==> i == 0 && dirs[0] !in kids
    {
      if dirs[0] in kids { AtFile(kids, dirs, i); } else { AtMissing(kids, dirs, i); }
    }
    assert FileOnWay(kids, dirs, 1) || WayEnds(kids, dirs, 0);
  }

  /** The outcome of reading a directory of a drive. */
  lemma ListOutcome(drive: Drive, names: seq<Name>)
    ensures ListEnds(drive, names, DirAt(drive, [], names))
  {
    hide ValidName, Join, FileOnWay, WayEnds, IsDir, KidsAt, DirAt;
    WalkOutcome(drive, [], names);
    assert forall i: nat | i <= |names| :: [] + names[..i] == names[..i];
    WayBounds(drive, names);
  }

  lemma WayBounds(drive: Drive, names: seq<Name>)
    ensures forall i: nat | FileOnWay(drive, names, i) :: i <= |names|
    ensures forall i: nat | WayEnds(drive, names, i) :: i + 1 <= |names|
  {
  }

  /** The outcome of reading a file of a drive. */
  lemma StatOutcome(drive: Drive, names: seq<Name>, path: Bytes)
    requires names != []
    ensures StatEnds(drive, names, path, Reads.FileAt(drive, names, path))
  {
    hide ValidName, Join, FileOnWay, WayEnds, Lookup, DirAt;
    var dirs := Parents(names);
    LastStep(drive, names);
    WalkOutcome(drive, [], dirs);
    DirOrEmptyIs(drive, dirs);
    assert forall i: nat | i < |names| :: [] + dirs[..i] == names[..i];
    if IsDir(drive, dirs) {
      DirHasNoEnd(drive, dirs);
    }
  }
}
