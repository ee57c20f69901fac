/**
 What the operations on drives do, path by path, and what runs of them keep. These
 laws speak about looking up paths only; they say nothing of how an edit recurses.
 */
module DriveLaws {
  import opened Wrappers
  import opened Octets
  import opened Format
  import opened Hashing
  import opened Directories
  import opened Manifests
  import opened Paths
  import opened Drives

  /** The directory at `dirs`, or an empty one. */
  function DirOrEmpty(kids: Drive, dirs: seq<Name>): Drive
    decreases |dirs|
  {
    if dirs == [] then kids
    else if dirs[0] in kids && kids[dirs[0]].DirNode? then DirOrEmpty(kids[dirs[0]].kids, dirs[1..])
    else map[]
  }

  /** `q` is on the way to `dirs`, or there. */
  predicate OnPath(q: seq<Name>, dirs: seq<Name>) { q != [] && q <= dirs }

  /** What was looked up is a directory with this modification time. */
  predicate IsDirWith(found: Option<Node>, mtime: u64) {
    found.Some? && found.value.DirNode? && found.value.mtime == mtime
  }

  /** Looking up a longer path is looking up its rest below. */
  lemma {:induction false} LookupThrough(kids: Drive, p: seq<Name>, s: seq<Name>)
    requires p != [] && Lookup(kids, p).Some?
    ensures Lookup(kids, p + s) ==
      if s == [] then Lookup(kids, p)
      else if Lookup(kids, p).value.DirNode? then Lookup(Lookup(kids, p).value.kids, s) else None
    decreases |p|
  {
    hide ValidName;
    if s == [] {
      assert p + s == p;
    } else {
      assert (p + s)[1..] == p[1..] + s;
      if |p| > 1 {
        LookupThrough(kids[p[0]].kids, p[1..], s);
      } else {
        assert p[1..] + s == s;
      }
    }
  }

  lemma {:induction false} LookupBelowMissing(kids: Drive, p: seq<Name>, s: seq<Name>)
    requires p != [] && Lookup(kids, p).None?
    ensures Lookup(kids, p + s).None?
    decreases |p|
  {
    hide ValidName;
    assert (p + s)[1..] == p[1..] + s;
    if p[0] in kids && |p| > 1 && kids[p[0]].DirNode? {
      LookupBelowMissing(kids[p[0]].kids, p[1..], s);
    }
  }

  lemma {:induction false} LookupInDir(kids: Drive, dirs: seq<Name>, s: seq<Name>)
    requires s != []
    ensures Lookup(kids, dirs + s) == Lookup(DirOrEmpty(kids, dirs), s)
    decreases |dirs|
  {
    hide ValidName;
    if dirs == [] {
      assert dirs + s == s;
    } else {
      assert (dirs + s)[1..] == dirs[1..] + s;
      if dirs[0] in kids && kids[dirs[0]].DirNode? {
        LookupInDir(kids[dirs[0]].kids, dirs[1..], s);
      }
    }
  }

  // ---- One edit ----

  /** An edit that prunes nothing, at the path `q`. */
  lemma {:induction false} EditAtLookup(
    kids: Drive, done: seq<Name>, dirs: seq<Name>, mode: Mode, mtime: u64, path: Bytes, edit: Edit, q: seq<Name>)
    requires mode != PruneEmpty && q != []
    requires EditAt(kids, done, dirs, mode, mtime, path, edit).Ok?
    ensures edit(DirOrEmpty(kids, dirs)).Ok?
    ensures var after := EditAt(kids, done, dirs, mode, mtime, path, edit).value;
      && (dirs < q ==> Lookup(after, q) == Lookup(edit(DirOrEmpty(kids, dirs)).value, q[|dirs|..]))
      && (OnPath(q, dirs) ==> IsDirWith(Lookup(after, q), mtime))
      && (!(dirs < q) && !OnPath(q, dirs) ==> Lookup(after, q) == Lookup(kids, q))
    decreases |dirs|
  {
    hide ValidName, Join;
    if dirs != [] {
      var sub := SubDirectory(kids, done, dirs[0], mode).value;
      assert edit(DirOrEmpty(kids, dirs)) == edit(DirOrEmpty(sub, dirs[1..])) by {
        EmptyStaysEmpty(dirs[1..]);
      }
      if |q| > 1 {
        EditAtLookup(sub, done + [dirs[0]], dirs[1..], mode, mtime, path, edit, q[1..]);
        assert q == [q[0]] + q[1..] && dirs == [dirs[0]] + dirs[1..];
        if q[0] == dirs[0] {
          assert dirs < q ==> dirs[1..] < q[1..];
          assert dirs < q ==> q[|dirs|..] == q[1..][|dirs[1..]|..];
          assert OnPath(q, dirs) ==> OnPath(q[1..], dirs[1..]);
          assert dirs[1..] < q[1..] ==> dirs < q;
          assert OnPath(q[1..], dirs[1..]) ==> OnPath(q, dirs);
        }
      } else {
        EditAtLookup(sub, done + [dirs[0]], dirs[1..], mode, mtime, path, edit, q);
        assert q == [q[0]];
        assert dirs == [dirs[0]] + dirs[1..];
      }
    }
  }

  lemma EmptyStaysEmpty(dirs: seq<Name>)
    ensures DirOrEmpty(map[], dirs) == map[]
  {
  }

  // ---- The operations ----

  lemma ParentsOf(names: seq<Name>, q: seq<Name>)
    requires names != [] && q != []
    ensures names == Parents(names) + [Last(names)]
    ensures OnPath(q, Parents(names)) <==> q < names
    ensures Parents(names) < q && q[|Parents(names)|] == Last(names) <==> names <= q
    ensures Parents(names) < q ==> q[|Parents(names)|..] != []
    ensures names <= q ==> q[|Parents(names)|..] == [Last(names)] + q[|names|..]
  {
    hide ValidName;
    if names <= q {
      assert q[..|names|] == names;
    }
    if Parents(names) < q && q[|Parents(names)|] == Last(names) {
      assert q[..|names|] == Parents(names) + [Last(names)];
    }
  }

  /** What an edit of the last directory does when it binds `name` to `n`: the new node, its ancestors, the rest. */
  lemma BindingLaw(
    drive: Drive, names: seq<Name>, mtime: u64, path: Bytes, edit: Edit, n: Node, q: seq<Name>)
    requires names != [] && q != []
    requires EditAt(drive, [], Parents(names), CreateMissing, mtime, path, edit).Ok?
    requires forall kids: Drive {:trigger edit(kids)} :: edit(kids).Ok? ==> edit(kids).value == kids[Last(names) := n]
    ensures var after := EditAt(drive, [], Parents(names), CreateMissing, mtime, path, edit).value;
      && (names <= q ==> Lookup(after, q) == if q == names then Some(n)
                                             else if n.DirNode? then Lookup(n.kids, q[|names|..]) else None)
      && (q < names ==> IsDirWith(Lookup(after, q), mtime))
      && (!(names <= q) && !(q < names) ==> Lookup(after, q) == Lookup(drive, q))
  {
    hide ValidName, EditAt;
    var dirs := Parents(names);
    ParentsOf(names, q);
    EditAtLookup(drive, [], dirs, CreateMissing, mtime, path, edit, q);
    if dirs < q {
      var s := q[|dirs|..];
      assert q == dirs + s;
      LookupInDir(drive, dirs, s);
      if names <= q {
        assert s == [Last(names)] + q[|names|..];
        assert s[1..] == q[|names|..];
        assert q == names <==> |s| == 1;
      }
    }
  }

  /** After writing a file it is there, its ancestors are directories, and no other path changed. */
  lemma PutLaw(
    drive: Drive, names: seq<Name>, path: Bytes, m: FileManifest, data: Bytes, clock: Clock, q: seq<Name>)
    requires names != [] && q != [] && ApplyPut(drive, names, path, m, data, clock).Ok?
    ensures var after := ApplyPut(drive, names, path, m, data, clock).value;
      && Lookup(after, names) == Some(FileNode(clock.first, m, data))
      && (q < names ==> IsDirWith(Lookup(after, q), clock.second))
      && (names < q ==> Lookup(after, q) == None)
      && (!(names <= q) && !(q < names) ==> Lookup(after, q) == Lookup(drive, q))
  {
    hide ValidName, EditAt;
    var n := FileNode(clock.first, m, data);
    BindingLaw(drive, names, clock.second, path, SetFile(Last(names), n, path), n, q);
    BindingLaw(drive, names, clock.second, path, SetFile(Last(names), n, path), n, names);
  }

  /** A new directory was not there, is there and empty, and no other path changed. */
  lemma MkdirLaw(drive: Drive, names: seq<Name>, path: Bytes, clock: Clock, q: seq<Name>)
    requires names != [] && q != [] && ApplyMkdir(drive, names, path, clock).Ok?
    ensures Lookup(drive, names) == None
    ensures var after := ApplyMkdir(drive, names, path, clock).value;
      && Lookup(after, names) == Some(DirNode(clock.first, map[]))
      && (q < names ==> IsDirWith(Lookup(after, q), clock.first))
      && (!(q < names) && q != names ==> Lookup(after, q) == Lookup(drive, q))
  {
    hide ValidName, EditAt;
    var n := DirNode(clock.first, map[]);
    var edit := AddNew(Last(names), n, path);
    BindingLaw(drive, names, clock.first, path, edit, n, q);
    BindingLaw(drive, names, clock.first, path, edit, n, names);
    WasMissing(drive, names, clock.first, path, n);
    if names < q {
      LookupBelowMissing(drive, names, q[|names|..]);
      assert names + q[|names|..] == q;
      assert Lookup(map[], q[|names|..]) == None;
    }
  }

  lemma WasMissing(drive: Drive, names: seq<Name>, mtime: u64, path: Bytes, n: Node)
    requires names != []
    requires EditAt(drive, [], Parents(names), CreateMissing, mtime, path, AddNew(Last(names), n, path)).Ok?
    ensures Lookup(drive, names) == None
  {
    hide ValidName, EditAt;
    EditAtLookup(drive, [], Parents(names), CreateMissing, mtime, path, AddNew(Last(names), n, path), names);
    ParentsOf(names, names);
    LookupInDir(drive, Parents(names), [Last(names)]);
  }

  /** What an edit of the last directory does when it removes `name`. */
  lemma RemovalLaw(drive: Drive, names: seq<Name>, mtime: u64, path: Bytes, edit: Edit, q: seq<Name>)
    requires names != [] && q != []
    requires EditAt(drive, [], Parents(names), Existing, mtime, path, edit).Ok?
    requires forall kids: Drive {:trigger edit(kids)} :: edit(kids).Ok? ==> edit(kids).value == kids - {Last(names)}
    ensures var after := EditAt(drive, [], Parents(names), Existing, mtime, path, edit).value;
      && (names <= q ==> Lookup(after, q) == None)
      && (q < names ==> IsDirWith(Lookup(after, q), mtime))
      && (!(names <= q) && !(q < names) ==> Lookup(after, q) == Lookup(drive, q))
  {
    hide ValidName, EditAt;
    var dirs := Parents(names);
    ParentsOf(names, q);
    EditAtLookup(drive, [], dirs, Existing, mtime, path, edit, q);
    if dirs < q {
      var s := q[|dirs|..];
      assert q == dirs + s;
      LookupInDir(drive, dirs, s);
      if names <= q {
        assert s == [Last(names)] + q[|names|..];
      }
    }
  }

  /** What is deleted was a file or an empty directory, is gone, and no path off the way to it changed. */
  lemma DeleteLaw(drive: Drive, names: seq<Name>, path: Bytes, clock: Clock, q: seq<Name>)
    requires names != [] && q != [] && ApplyDelete(drive, names, path, Keep, clock).Ok?
    ensures Lookup(drive, names).Some?
    ensures Lookup(drive, names).value.DirNode? ==> Lookup(drive, names).value.kids == map[]
    ensures var after := ApplyDelete(drive, names, path, Keep, clock).value;
      && (names <= q ==> Lookup(after, q) == None)
      && (q < names ==> IsDirWith(Lookup(after, q), clock.first))
      && (!(names <= q) && !(q < names) ==> Lookup(after, q) == Lookup(drive, q))
  {
    hide ValidName, EditAt;
    var edit := RemoveEntry(Last(names), path);
    RemovalLaw(drive, names, clock.first, path, edit, q);
    EditAtLookup(drive, [], Parents(names), Existing, clock.first, path, edit, names);
    ParentsOf(names, names);
    LookupInDir(drive, Parents(names), [Last(names)]);
  }

  /**
   Renaming moves the whole subtree unchanged, with its modification times. The
   ancestors of both places are directories with the time of the write that passed
   them last, and no other path changes.
   */
  lemma RenameLaw(
    drive: Drive, fromNames: seq<Name>, toNames: seq<Name>, from: Bytes, to: Bytes, clock: Clock,
    s: seq<Name>, q: seq<Name>)
    requires fromNames != [] && toNames != [] && !(fromNames <= toNames) && q != []
    requires ApplyRename(drive, fromNames, toNames, from, to, clock).Ok?
    ensures !(toNames <= fromNames)
    ensures var after := ApplyRename(drive, fromNames, toNames, from, to, clock).value;
      && Lookup(after, toNames + s) == Lookup(drive, fromNames + s)
      && Lookup(after, fromNames + s) == None
      && (q < toNames ==> IsDirWith(Lookup(after, q), clock.second))
      && (q < fromNames && !(q < toNames) ==> IsDirWith(Lookup(after, q), clock.first))
      && (!(fromNames <= q) && !(toNames <= q) && !(q < fromNames) && !(q < toNames) ==>
        Lookup(after, q) == Lookup(drive, q))
  {
    hide ValidName, EditAt;
    var take := TakeOut(Last(fromNames), from);
    var without := EditAt(drive, [], Parents(fromNames), Existing, clock.first, from, take).value;
    var moved := Lookup(drive, fromNames).value;
    var put := AddNew(Last(toNames), moved, to);
    RemovalLaw(drive, fromNames, clock.first, from, take, q);
    RemovalLaw(drive, fromNames, clock.first, from, take, fromNames + s);
    BindingLaw(without, toNames, clock.second, to, put, moved, toNames + s);
    BindingLaw(without, toNames, clock.second, to, put, moved, q);
    WasMissing(without, toNames, clock.second, to, moved);
    NotAnAncestor(drive, fromNames, toNames, from, clock);
    LookupThrough(drive, fromNames, s);
    assert (toNames + s)[|toNames|..] == s;
    BindingLaw(without, toNames, clock.second, to, put, moved, fromNames + s);
    PrefixOrder(fromNames, toNames, s);
  }

  lemma PrefixOrder(a: seq<Name>, b: seq<Name>, s: seq<Name>)
    ensures b <= a + s ==> a <= b || b <= a
    ensures a + s <= b ==> a <= b
  {
  }

  /** The place `to` was free after the removal, so it is no directory on the way to `from`. */
  lemma NotAnAncestor(drive: Drive, fromNames: seq<Name>, toNames: seq<Name>, from: Bytes, clock: Clock)
    requires fromNames != [] && toNames != [] && !(fromNames <= toNames)
    requires EditAt(drive, [], Parents(fromNames), Existing, clock.first, from, TakeOut(Last(fromNames), from)).Ok?
    ensures toNames <= fromNames ==>
      Lookup(EditAt(drive, [], Parents(fromNames), Existing, clock.first, from, TakeOut(Last(fromNames), from)).value,
             toNames).Some?
  {
    hide ValidName, EditAt;
    RemovalLaw(drive, fromNames, clock.first, from, TakeOut(Last(fromNames), from), toNames);
    PrefixOrder(fromNames, toNames, []);
  }

  // ---- Pruning ----

  /** No directory in `n` is empty. */
  ghost predicate NoEmptyBelow(n: Node)
    decreases n
  {
    n.DirNode? ==> n.kids != map[] && forall name | name in n.kids :: NoEmptyBelow(n.kids[name])
  }

  /** No directory below the root is empty. */
  ghost predicate NoEmptyDirectory(kids: Drive) {
    forall name | name in kids :: NoEmptyBelow(kids[name])
  }

  lemma {:induction false} EditKeepsNoEmpty(
    kids: Drive, done: seq<Name>, dirs: seq<Name>, mode: Mode, mtime: u64, path: Bytes, edit: Edit)
    requires NoEmptyDirectory(kids) && EditAt(kids, done, dirs, mode, mtime, path, edit).Ok?
    requires forall k: Drive {:trigger edit(k)} :: NoEmptyDirectory(k) && edit(k).Ok? ==>
      NoEmptyDirectory(edit(k).value) && (mode == PruneEmpty || edit(k).value != map[])
    ensures NoEmptyDirectory(EditAt(kids, done, dirs, mode, mtime, path, edit).value)
    ensures mode == PruneEmpty || EditAt(kids, done, dirs, mode, mtime, path, edit).value != map[]
    decreases |dirs|
  {
    hide ValidName, Join;
    if dirs != [] {
      var sub := SubDirectory(kids, done, dirs[0], mode).value;
      assert NoEmptyDirectory(sub) by {
        if dirs[0] in kids { assert NoEmptyBelow(kids[dirs[0]]); }
      }
      EditKeepsNoEmpty(sub, done + [dirs[0]], dirs[1..], mode, mtime, path, edit);
      var after := EditAt(kids, done, dirs, mode, mtime, path, edit).value;
      var sub' := EditAt(sub, done + [dirs[0]], dirs[1..], mode, mtime, path, edit).value;
      assert mode != PruneEmpty ==> dirs[0] in after;
      assert sub' != map[] ==> NoEmptyBelow(DirNode(mtime, sub'));
      forall n | n in after ensures NoEmptyBelow(after[n]) {
        assert n != dirs[0] ==> n in kids && after[n] == kids[n];
      }
    }
  }

  predicate PutOrPrune(op: Operation) {
    op.PutFile? || (op.Delete? && op.emptyParents == Remove)
  }

  lemma StepKeepsNoEmpty(k: Crypto, bucketId: u64, op: Operation, clock: Clock, drive: Drive)
    requires NoEmptyDirectory(drive) && PutOrPrune(op) && Apply(k, bucketId, op, clock, drive).Ok?
    ensures NoEmptyDirectory(Apply(k, bucketId, op, clock, drive).value)
  {
    hide ValidName, EditAt, NamesBelowRoot, ForContent;
    match Prepare(k, bucketId, op).value
    case PutTask(names, path, m, data) =>
      var n := FileNode(clock.first, m, data);
      assert forall kids: Drive {:trigger kids[Last(names) := n]} :: Last(names) in kids[Last(names) := n];
      EditKeepsNoEmpty(drive, [], Parents(names), CreateMissing, clock.second, path, SetFile(Last(names), n, path));
    case DeleteTask(names, path, _) =>
      EditKeepsNoEmpty(drive, [], Parents(names), PruneEmpty, clock.first, path, RemoveFile(Last(names), path));
  }

  /** A run: each operation is applied to what the one before left; one that fails changes nothing. */
  function Run(k: Crypto, bucketId: u64, steps: seq<(Operation, Clock)>, drive: Drive): Drive {
    if steps == [] then drive
    else
      var (op, clock) := steps[0];
      var next := match Apply(k, bucketId, op, clock, drive) case Ok(d) => d case Err(_) => drive;
      Run(k, bucketId, steps[1..], next)
  }

  /** In every run of writes and pruning deletes from an empty bucket, no directory below the root is ever empty. */
  lemma {:induction false} RunKeepsNoEmpty(k: Crypto, bucketId: u64, steps: seq<(Operation, Clock)>, drive: Drive)
    requires NoEmptyDirectory(drive) && forall i | 0 <= i < |steps| :: PutOrPrune(steps[i].0)
    ensures NoEmptyDirectory(Run(k, bucketId, steps, drive))
    decreases |steps|
  {
    hide Apply, NoEmptyDirectory;
    if steps != [] {
      var (op, clock) := steps[0];
      assert PutOrPrune(steps[0].0);
      match Apply(k, bucketId, op, clock, drive) {
        case Ok(d) =>
          StepKeepsNoEmpty(k, bucketId, op, clock, drive);
          RunKeepsNoEmpty(k, bucketId, steps[1..], d);
        case Err(_) =>
          RunKeepsNoEmpty(k, bucketId, steps[1..], drive);
      }
    }
  }

  /** `kids` holds nothing but the chain of directories to the entry at `names`. */
  predicate OnlyChain(kids: Drive, names: seq<Name>)
    requires names != []
    decreases |names|
  {
    && kids.Keys == {names[0]}
    && (|names| > 1 ==> kids[names[0]].DirNode? && OnlyChain(kids[names[0]].kids, names[1..]))
  }

  /** One step of a pruning delete, on a directory above the one that holds the file. */
  lemma PruneStep(kids: Drive, done: seq<Name>, dirs: seq<Name>, name: Name, mtime: u64, path: Bytes)
    requires dirs != [] && EditAt(kids, done, dirs, PruneEmpty, mtime, path, RemoveFile(name, path)).Ok?
    ensures dirs[0] in kids && kids[dirs[0]].DirNode?
    ensures var (sub, edit) := (kids[dirs[0]].kids, RemoveFile(name, path));
      var inner := EditAt(sub, done + [dirs[0]], dirs[1..], PruneEmpty, mtime, path, edit);
      && inner.Ok?
      && EditAt(kids, done, dirs, PruneEmpty, mtime, path, RemoveFile(name, path)).value ==
           if inner.value == map[] then kids - {dirs[0]} else kids[dirs[0] := DirNode(mtime, inner.value)]
  {
    hide ValidName, Join;
  }

  lemma OneKeyLess(kids: Drive, name: Name)
    requires name in kids
    ensures kids - {name} == map[] <==> kids.Keys == {name}
  {
    hide ValidName;
    assert forall n | n in kids && n != name :: n in kids - {name};
    assert kids.Keys == (kids - {name}).Keys + {name};
  }

  /** A pruning delete leaves nothing of a directory that held nothing but the chain to the file. */
  lemma {:induction false} PruneEmpties(
    kids: Drive, done: seq<Name>, dirs: seq<Name>, name: Name, mtime: u64, path: Bytes)
    requires EditAt(kids, done, dirs, PruneEmpty, mtime, path, RemoveFile(name, path)).Ok?
    ensures EditAt(kids, done, dirs, PruneEmpty, mtime, path, RemoveFile(name, path)).value == map[]
      <==> OnlyChain(kids, dirs + [name])
    decreases |dirs|
  {
    hide ValidName, Join;
    var names := dirs + [name];
    if dirs == [] {
      OneKeyLess(kids, name);
    } else {
      hide EditAt;
      PruneStep(kids, done, dirs, name, mtime, path);
      PruneEmpties(kids[dirs[0]].kids, done + [dirs[0]], dirs[1..], name, mtime, path);
      assert names[1..] == dirs[1..] + [name];
      OneKeyLess(kids, dirs[0]);
      assert forall n: Node {:trigger kids[dirs[0] := n]} :: dirs[0] in kids[dirs[0] := n];
    }
  }

  /**
   A pruning delete removes the file, and each directory above it exactly when that
   directory held nothing but the chain to the file. The others stay directories with
   the new modification time, and no other path changes.
   */
  lemma {:induction false} PruneLaw(
    kids: Drive, done: seq<Name>, dirs: seq<Name>, name: Name, mtime: u64, path: Bytes, q: seq<Name>)
    requires q != [] && EditAt(kids, done, dirs, PruneEmpty, mtime, path, RemoveFile(name, path)).Ok?
    ensures var after := EditAt(kids, done, dirs, PruneEmpty, mtime, path, RemoveFile(name, path)).value;
      && (dirs + [name] <= q ==> Lookup(after, q) == None)
      && (OnPath(q, dirs) ==> (Lookup(after, q) == None <==> OnlyChain(DirOrEmpty(kids, q), (dirs + [name])[|q|..])))
      && (OnPath(q, dirs) && Lookup(after, q).Some? ==> IsDirWith(Lookup(after, q), mtime))
      && (!(dirs + [name] <= q) && !OnPath(q, dirs) ==> Lookup(after, q) == Lookup(kids, q))
    decreases |dirs|
  {
    hide ValidName, Join;
    var names := dirs + [name];
    if dirs == [] {
      assert names == [name];
      assert names <= q <==> q[0] == name;
    } else {
      hide EditAt, OnlyChain;
      PruneStep(kids, done, dirs, name, mtime, path);
      assert names[1..] == dirs[1..] + [name];
      assert names == [dirs[0]] + names[1..] && dirs == [dirs[0]] + dirs[1..] && q == [q[0]] + q[1..];
      var sub := kids[dirs[0]].kids;
      if q[0] == dirs[0] {
        if |q| == 1 {
          PruneEmpties(sub, done + [dirs[0]], dirs[1..], name, mtime, path);
          assert DirOrEmpty(kids, q) == sub;
        } else {
          PruneLaw(sub, done + [dirs[0]], dirs[1..], name, mtime, path, q[1..]);
          assert names <= q <==> names[1..] <= q[1..];
          assert OnPath(q, dirs) <==> OnPath(q[1..], dirs[1..]);
          if OnPath(q, dirs) {
            assert names[|q|..] == names[1..][|q[1..]|..];
          }
        }
      }
    }
  }

  lemma {:induction false} PrunedWasFile(
    kids: Drive, done: seq<Name>, dirs: seq<Name>, name: Name, mtime: u64, path: Bytes)
    requires EditAt(kids, done, dirs, PruneEmpty, mtime, path, RemoveFile(name, path)).Ok?
    ensures Lookup(kids, dirs + [name]).Some? && Lookup(kids, dirs + [name]).value.FileNode?
    decreases |dirs|
  {
    hide ValidName, Join;
    if dirs == [] {
      assert dirs + [name] == [name];
    } else {
      PruneStep(kids, done, dirs, name, mtime, path);
      PrunedWasFile(kids[dirs[0]].kids, done + [dirs[0]], dirs[1..], name, mtime, path);
      assert (dirs + [name])[1..] == dirs[1..] + [name];
    }
  }

  /**
   Deleting with `Remove` takes away a file and the longest chain of ancestors that
   held nothing else. The ancestors that stay are directories with the new modification
   time, and every other path keeps its node.
   */
  lemma PruningDeleteLaw(drive: Drive, names: seq<Name>, path: Bytes, clock: Clock, q: seq<Name>)
    requires names != [] && q != [] && ApplyDelete(drive, names, path, Remove, clock).Ok?
    ensures Lookup(drive, names).Some? && Lookup(drive, names).value.FileNode?
    ensures var after := ApplyDelete(drive, names, path, Remove, clock).value;
      && (names <= q ==> Lookup(after, q) == None)
      && (q < names ==> (Lookup(after, q) == None <==> OnlyChain(DirOrEmpty(drive, q), names[|q|..])))
      && (q < names && Lookup(after, q).Some? ==> IsDirWith(Lookup(after, q), clock.first))
      && (!(names <= q) && !(q < names) ==> Lookup(after, q) == Lookup(drive, q))
      && (after == map[] <==> OnlyChain(drive, names))
  {
    hide ValidName, EditAt, OnlyChain;
    ParentsOf(names, q);
    PruneLaw(drive, [], Parents(names), Last(names), clock.first, path, q);
    PruneEmpties(drive, [], Parents(names), Last(names), clock.first, path);
    PrunedWasFile(drive, [], Parents(names), Last(names), clock.first, path);
  }

  // ---- How operations fail ----

  /** The errors that say something about the path, the tree or a limit, not about the store. */
  predicate AboutTheTree(e: FsError) {
    e.InvalidPath? || e.PathNotFound? || e.EntryExists? || e.NotADirectory? || e.NotAFile? || e.DirectoryNotEmpty?
      || e.BrokenRule?
  }

  lemma {:induction false} EditAtErrors(
    kids: Drive, done: seq<Name>, dirs: seq<Name>, mode: Mode, mtime: u64, path: Bytes, edit: Edit)
    requires forall k: Drive {:trigger edit(k)} :: edit(k).Err? ==> AboutTheTree(edit(k).error)
    requires EditAt(kids, done, dirs, mode, mtime, path, edit).Err?
    ensures AboutTheTree(EditAt(kids, done, dirs, mode, mtime, path, edit).error)
    decreases |dirs|
  {
    hide ValidName, Join;
    if dirs != [] && SubDirectory(kids, done, dirs[0], mode).Ok? {
      var sub := SubDirectory(kids, done, dirs[0], mode).value;
      if EditAt(sub, done + [dirs[0]], dirs[1..], mode, mtime, path, edit).Err? {
        EditAtErrors(sub, done + [dirs[0]], dirs[1..], mode, mtime, path, edit);
      }
    }
  }

  /** An operation on a drive never fails because of blobs or proofs. */
  lemma ApplyErrors(k: Crypto, bucketId: u64, op: Operation, clock: Clock, drive: Drive)
    requires Apply(k, bucketId, op, clock, drive).Err?
    ensures AboutTheTree(Apply(k, bucketId, op, clock, drive).error)
  {
    hide ValidName, EditAt, ForContent, ParsePath;
    var prepared := Prepare(k, bucketId, op);
    if prepared.Err? {
      PrepareErrors(k, bucketId, op);
    } else {
      match prepared.value
      case PutTask(names, path, m, data) =>
        EditAtErrors(drive, [], Parents(names), CreateMissing, clock.second, path,
                     SetFile(Last(names), FileNode(clock.first, m, data), path));
      case MkdirTask(names, path) =>
        EditAtErrors(drive, [], Parents(names), CreateMissing, clock.first, path,
                     AddNew(Last(names), DirNode(clock.first, map[]), path));
      case DeleteTask(names, path, emptyParents) =>
        if emptyParents == Keep {
          EditAtErrors(drive, [], Parents(names), Existing, clock.first, path, RemoveEntry(Last(names), path));
        } else {
          EditAtErrors(drive, [], Parents(names), PruneEmpty, clock.first, path, RemoveFile(Last(names), path));
        }
      case RenameTask(fromNames, toNames, from, to) =>
        RenameErrors(drive, fromNames, toNames, from, to, clock);
    }
  }

  lemma PrepareErrors(k: Crypto, bucketId: u64, op: Operation)
    requires Prepare(k, bucketId, op).Err?
    ensures AboutTheTree(Prepare(k, bucketId, op).error)
  {
    hide ValidName, ForContent, ParsePath;
    PathErrors(if op.Rename? then op.from else op.path);
    if op.Rename? { PathErrors(op.to); }
  }

  lemma PathErrors(path: Bytes)
    ensures ParsePath(path).Err? ==> ParsePath(path).error.InvalidPath?
  {
  }

  lemma RenameErrors(
    drive: Drive, fromNames: seq<Name>, toNames: seq<Name>, from: Bytes, to: Bytes, clock: Clock)
    requires fromNames != [] && toNames != [] && ApplyRename(drive, fromNames, toNames, from, to, clock).Err?
    ensures AboutTheTree(ApplyRename(drive, fromNames, toNames, from, to, clock).error)
  {
    hide ValidName, EditAt;
    var without := EditAt(drive, [], Parents(fromNames), Existing, clock.first, from, TakeOut(Last(fromNames), from));
    if without.Err? {
      EditAtErrors(drive, [], Parents(fromNames), Existing, clock.first, from, TakeOut(Last(fromNames), from));
    } else if Lookup(drive, fromNames).Some? {
      EditAtErrors(without.value, [], Parents(toNames), CreateMissing, clock.second, to,
                   AddNew(Last(toNames), Lookup(drive, fromNames).value, to));
    }
  }
}
