/**
 The operations of a drive, done the way the code does them, but on abstract
 directories: collect the chain of directories on a path, change the last one,
 and put each directory back into its parent from the bottom up. The lemmas show
 that this is the recursive edit of module Drives.
 */
module Zippers {
  import opened Wrappers
  import opened Octets
  import opened Directories
  import opened Paths
  import opened Drives

  /** Directories on a path: item `i` is the directory after `i` names. */
  type Chain = c: seq<Drive> | c != [] witness [map[]]

  /** Extend `chain` to all of `names`; `done` is the path of its first directory. */
  function Extend(done: seq<Name>, chain: Chain, names: seq<Name>, mode: Mode): Result<Chain, FsError>
    decreases |names| + 1 - |chain|
  {
    if |chain| > |names| then Ok(chain)
    else
      var depth := |chain| - 1;
      match SubDirectory(chain[depth], done + names[..depth], names[depth], mode)
      case Err(e) => Err(e)
      case Ok(next) => Extend(done, chain + [next], names, mode)
  }

  lemma {:induction false} ExtendLength(done: seq<Name>, chain: Chain, names: seq<Name>, mode: Mode)
    requires |chain| <= |names| + 1
    ensures Extend(done, chain, names, mode).Ok? ==>
      |Extend(done, chain, names, mode).value| == |names| + 1 && chain <= Extend(done, chain, names, mode).value
    decreases |names| + 1 - |chain|
  {
    if |chain| <= |names| {
      var depth := |chain| - 1;
      match SubDirectory(chain[depth], done + names[..depth], names[depth], mode)
      case Err(_) =>
      case Ok(next) => ExtendLength(done, chain + [next], names, mode);
    }
  }

  /** Put the directories deeper than `depth` back into their parents, bottom-up, and drop them. */
  function Fold(chain: Chain, names: seq<Name>, depth: nat, mtime: u64, path: Bytes): Result<Chain, FsError>
    requires |chain| == |names| + 1 && depth <= |names|
    decreases |names|
  {
    if |names| == depth then Ok(chain)
    else
      var last := |names| - 1;
      match Bind(chain[last], names[last], DirNode(mtime, chain[last + 1]), path)
      case Err(e) => Err(e)
      case Ok(parent) => Fold(chain[..last] + [parent], names[..last], depth, mtime, path)
  }

  lemma FoldStep(chain: Chain, names: seq<Name>, depth: nat, mtime: u64, path: Bytes)
    requires |chain| == |names| + 1 && depth < |names|
    ensures var last := |names| - 1;
      var parent := Bind(chain[last], names[last], DirNode(mtime, chain[last + 1]), path);
      && (parent.Err? ==> Fold(chain, names, depth, mtime, path) == Err(parent.error))
      && (parent.Ok? ==>
            Fold(chain, names, depth, mtime, path) ==
              Fold(chain[..last] + [parent.value], names[..last], depth, mtime, path))
  {
    hide Bind, ValidName;
  }

  lemma FoldEnd(chain: Chain, names: seq<Name>, mtime: u64, path: Bytes)
    requires |chain| == |names| + 1
    ensures Fold(chain, names, |names|, mtime, path) == Ok(chain)
  {
  }

  /** While the last directory is empty, drop it and its name in its parent. */
  function Prune(chain: Chain, names: seq<Name>): (r: (Chain, seq<Name>))
    requires |chain| == |names| + 1
    ensures |r.0| == |r.1| + 1 && r.1 <= names
    decreases |names|
  {
    if names != [] && chain[|names|] == map[] then
      var last := |names| - 1;
      Prune(chain[..last] + [chain[last] - {names[last]}], names[..last])
    else (chain, names)
  }

  function Amend(chain: Chain, last: Drive): (r: Chain)
    ensures |r| == |chain|
  {
    chain[..|chain| - 1] + [last]
  }

  /** Change the last directory of a chain, prune if asked, and fold. */
  function FinishEdit(full: Chain, names: seq<Name>, mode: Mode, mtime: u64, path: Bytes, edit: Edit)
    : Result<Chain, FsError>
    requires |full| == |names| + 1
  {
    match edit(full[|names|])
    case Err(e) => Err(e)
    case Ok(last) =>
      if mode == PruneEmpty then
        var (kept, keptNames) := Prune(Amend(full, last), names);
        Fold(kept, keptNames, 0, mtime, path)
      else Fold(Amend(full, last), names, 0, mtime, path)
  }

  /** The whole of an edit: extend, change the last directory, prune if asked, fold. */
  function ZipEdit(done: seq<Name>, chain: Chain, names: seq<Name>, mode: Mode, mtime: u64, path: Bytes, edit: Edit)
    : Result<Chain, FsError>
    requires |chain| <= |names| + 1
  {
    ExtendLength(done, chain, names, mode);
    match Extend(done, chain, names, mode)
    case Err(e) => Err(e)
    case Ok(full) => FinishEdit(full, names, mode, mtime, path, edit)
  }

  // ---- One level at a time ----

  function OnTop(top: Drive, r: Result<Chain, FsError>): Result<Chain, FsError> {
    match r
    case Err(e) => Err(e)
    case Ok(rest) => Ok([top] + rest)
  }

  function BindTop(top: Drive, name: Name, r: Result<Chain, FsError>, mtime: u64, path: Bytes)
    : Result<Chain, FsError>
  {
    match r
    case Err(e) => Err(e)
    case Ok(rest) =>
      match Bind(top, name, DirNode(mtime, rest[0]), path)
      case Err(e) => Err(e)
      case Ok(parent) => Ok([parent])
  }

  function PruneOrBindTop(top: Drive, name: Name, r: Result<Chain, FsError>, mode: Mode, mtime: u64, path: Bytes)
    : Result<Chain, FsError>
  {
    if mode == PruneEmpty && r.Ok? && r.value[0] == map[] then Ok([top - {name}])
    else BindTop(top, name, r, mtime, path)
  }

  function Whole(r: Result<Drive, FsError>): Result<Chain, FsError> {
    match r
    case Err(e) => Err(e)
    case Ok(kids) => Ok([kids])
  }

  lemma {:induction false} ExtendTail(done: seq<Name>, top: Drive, rest: Chain, names: seq<Name>, mode: Mode)
    requires names != [] && |rest| <= |names|
    ensures Extend(done, [top] + rest, names, mode) ==
      OnTop(top, Extend(done + [names[0]], rest, names[1..], mode))
    decreases |names| - |rest|
  {
    hide ValidName, SubDirectory, Join;
    var chain: Chain := [top] + rest;
    if |rest| < |names| {
      var depth := |rest| - 1;
      assert done + names[..depth + 1] == (done + [names[0]]) + names[1..][..depth];
      match SubDirectory(rest[depth], done + names[..depth + 1], names[depth + 1], mode)
      case Err(_) =>
      case Ok(next) =>
        ExtendTail(done, top, rest + [next], names, mode);
        assert chain + [next] == [top] + (rest + [next]);
    }
  }

  lemma ExtendOnce(done: seq<Name>, kids: Drive, sub: Drive, names: seq<Name>, mode: Mode)
    requires names != [] && SubDirectory(kids, done, names[0], mode) == Ok(sub)
    ensures Extend(done, [kids], names, mode) == OnTop(kids, Extend(done + [names[0]], [sub], names[1..], mode))
  {
    assert done + names[..0] == done;
    assert [kids] + [sub] == [kids, sub];
    ExtendTail(done, kids, [sub], names, mode);
  }

  lemma {:induction false} FoldTail(top: Drive, rest: Chain, names: seq<Name>, depth: nat, mtime: u64, path: Bytes)
    requires names != [] && |rest| == |names| && depth < |names|
    ensures Fold([top] + rest, names, depth + 1, mtime, path) ==
      OnTop(top, Fold(rest, names[1..], depth, mtime, path))
    decreases |names|
  {
    hide Bind;
    if |names| != depth + 1 {
      var last := |names| - 1;
      var chain := [top] + rest;
      match Bind(chain[last], names[last], DirNode(mtime, chain[last + 1]), path)
      case Err(_) =>
      case Ok(parent) =>
        var rest' := rest[..last - 1] + [parent];
        assert chain[..last] + [parent] == [top] + rest';
        FoldTail(top, rest', names[..last], depth, mtime, path);
        assert names[..last][1..] == names[1..][..last - 1];
    }
  }

  /** Folding goes on from where it stopped. */
  lemma {:induction false} FoldInSteps(
    chain: Chain, names: seq<Name>, depth: nat, lower: nat, mtime: u64, path: Bytes)
    requires |chain| == |names| + 1 && lower <= depth <= |names|
    ensures var upto := Fold(chain, names, depth, mtime, path);
      && (upto.Ok? ==> |upto.value| == depth + 1)
      && Fold(chain, names, lower, mtime, path) ==
           if upto.Ok? then Fold(upto.value, names[..depth], lower, mtime, path) else upto
    decreases |names|
  {
    hide Bind;
    if |names| == depth {
      assert names[..depth] == names;
    } else {
      var last := |names| - 1;
      match Bind(chain[last], names[last], DirNode(mtime, chain[last + 1]), path)
      case Err(_) =>
      case Ok(parent) =>
        FoldInSteps(chain[..last] + [parent], names[..last], depth, lower, mtime, path);
        assert names[..last][..depth] == names[..depth];
    }
  }

  /** Folding to the top is folding the tail to its top, and binding that. */
  lemma FoldTop(top: Drive, rest: Chain, names: seq<Name>, mtime: u64, path: Bytes)
    requires names != [] && |rest| == |names|
    ensures Fold([top] + rest, names, 0, mtime, path) ==
      BindTop(top, names[0], Fold(rest, names[1..], 0, mtime, path), mtime, path)
  {
    hide Bind;
    FoldTail(top, rest, names, 0, mtime, path);
    FoldInSteps([top] + rest, names, 1, 0, mtime, path);
    FoldInSteps(rest, names[1..], 0, 0, mtime, path);
    match Fold(rest, names[1..], 0, mtime, path)
    case Err(_) =>
    case Ok(folded) =>
      assert folded == [folded[0]];
      var chain: Chain := [top] + folded;
      assert names[..1] == [names[0]];
      assert names[..1][..0] == [];
      match Bind(chain[0], names[0], DirNode(mtime, chain[1]), path)
      case Err(_) =>
      case Ok(parent) => assert chain[..0] + [parent] == [parent];
  }

  lemma {:induction false} PruneTail(top: Drive, rest: Chain, names: seq<Name>)
    requires names != [] && |rest| == |names|
    ensures Prune([top] + rest, names) ==
      var (kept, keptNames) := Prune(rest, names[1..]);
      if keptNames == [] && kept[0] == map[] then ([top - {names[0]}], [])
      else ([top] + kept, [names[0]] + keptNames)
    decreases |names|
  {
    hide ValidName;
    var chain: Chain := [top] + rest;
    if chain[|names|] == map[] {
      var last := |names| - 1;
      if last == 0 {
        assert chain[..0] + [chain[0] - {names[0]}] == [top - {names[0]}];
      } else {
        var rest' := rest[..last - 1] + [rest[last - 1] - {names[last]}];
        assert chain[..last] + [chain[last] - {names[last]}] == [top] + rest';
        assert names[..last][1..] == names[1..][..last - 1];
        PruneTail(top, rest', names[..last]);
      }
    } else {
      assert names == [names[0]] + names[1..];
    }
  }

  // ---- The zipper is the recursive edit ----

  /** Editing through a chain of directories is editing recursively. */
  lemma {:induction false} ZipEditIsEditAt(
    kids: Drive, done: seq<Name>, names: seq<Name>, mode: Mode, mtime: u64, path: Bytes, edit: Edit)
    ensures ZipEdit(done, [kids], names, mode, mtime, path, edit) ==
      Whole(EditAt(kids, done, names, mode, mtime, path, edit))
    decreases |names|
  {
    ExtendLength(done, [kids], names, mode);
    if names == [] {
      match edit(kids)
      case Err(_) =>
      case Ok(last) => assert Amend([kids], last) == [last];
    } else {
      assert done + names[..0] == done;
      match SubDirectory(kids, done, names[0], mode)
      case Err(_) =>
      case Ok(sub) =>
        assert [kids] + [sub] == [kids, sub];
        ExtendTail(done, kids, [sub], names, mode);
        ZipEditIsEditAt(sub, done + [names[0]], names[1..], mode, mtime, path, edit);
        ZipStep(kids, sub, done, names, mode, mtime, path, edit);
    }
  }

  lemma ZipStep(
    kids: Drive, sub: Drive, done: seq<Name>, names: seq<Name>, mode: Mode, mtime: u64, path: Bytes, edit: Edit)
    requires names != []
    ensures ZipEdit(done, [kids, sub], names, mode, mtime, path, edit) ==
      PruneOrBindTop(kids, names[0], ZipEdit(done + [names[0]], [sub], names[1..], mode, mtime, path, edit),
                     mode, mtime, path)
  {
    assert [kids, sub] == [kids] + [sub];
    ExtendTail(done, kids, [sub], names, mode);
    ExtendLength(done + [names[0]], [sub], names[1..], mode);
    match Extend(done + [names[0]], [sub], names[1..], mode)
    case Err(_) =>
    case Ok(full) =>
      match edit(full[|names| - 1])
      case Err(_) =>
      case Ok(last) =>
        assert Amend([kids] + full, last) == [kids] + Amend(full, last);
        if mode == PruneEmpty {
          PruneTail(kids, Amend(full, last), names);
          var (kept, keptNames) := Prune(Amend(full, last), names[1..]);
          PrunedFold(kids, Amend(full, last), names, mtime, path);
        } else {
          FoldTop(kids, Amend(full, last), names, mtime, path);
        }
  }

  /** A pruned chain folds to an empty directory only if everything was pruned. */
  lemma PrunedFold(kids: Drive, rest: Chain, names: seq<Name>, mtime: u64, path: Bytes)
    requires names != [] && |rest| == |names|
    ensures
      var (kept, keptNames) := Prune(rest, names[1..]);
      var (all, allNames) := Prune([kids] + rest, names);
      Fold(all, allNames, 0, mtime, path) ==
        PruneOrBindTop(kids, names[0], Fold(kept, keptNames, 0, mtime, path), PruneEmpty, mtime, path)
  {
    PruneTail(kids, rest, names);
    var (kept, keptNames) := Prune(rest, names[1..]);
    if keptNames == [] {
      if kept[0] != map[] {
        FoldTop(kids, kept, [names[0]] + keptNames, mtime, path);
        assert ([names[0]] + keptNames)[1..] == keptNames;
      }
    } else {
      FoldTop(kids, kept, [names[0]] + keptNames, mtime, path);
      assert ([names[0]] + keptNames)[1..] == keptNames;
      FoldedIsNotEmpty(kept, keptNames, mtime, path);
    }
  }

  lemma {:induction false} FoldedIsNotEmpty(chain: Chain, names: seq<Name>, mtime: u64, path: Bytes)
    requires |chain| == |names| + 1 && names != []
    ensures Fold(chain, names, 0, mtime, path).Ok? ==> Fold(chain, names, 0, mtime, path).value[0] != map[]
    decreases |names|
  {
    var last := |names| - 1;
    match Bind(chain[last], names[last], DirNode(mtime, chain[last + 1]), path)
    case Err(_) =>
    case Ok(parent) =>
      if last == 0 {
        assert names[0] in parent;
        assert chain[..0] + [parent] == [parent];
      } else {
        FoldedIsNotEmpty(chain[..last] + [parent], names[..last], mtime, path);
      }
  }

  // ---- Rename: collapse one branch, then extend along the other ----

  /**
   The chain to `from` loses the entry, its branch below the common directories is
   folded away, and what is left is extended and edited along `to`.
   */
  function FinishRename(
    done: seq<Name>, full: Chain, from: seq<Name>, to: seq<Name>, takeOut: Edit, putIn: Edit,
    fromTime: u64, toTime: u64, fromPath: Bytes, toPath: Bytes): Result<Chain, FsError>
    requires |full| == |from| + 1
  {
    match takeOut(full[|from|])
    case Err(e) => Err(e)
    case Ok(last) =>
      var common := CommonPrefix(from, to);
      FoldInSteps(Amend(full, last), from, common, common, fromTime, fromPath);
      match Fold(Amend(full, last), from, common, fromTime, fromPath)
      case Err(e) => Err(e)
      case Ok(collapsed) => ZipEdit(done, collapsed, to, CreateMissing, toTime, toPath, putIn)
  }

  function ZipRename(
    kids: Drive, done: seq<Name>, from: seq<Name>, to: seq<Name>, takeOut: Edit, putIn: Edit,
    fromTime: u64, toTime: u64, fromPath: Bytes, toPath: Bytes): Result<Chain, FsError>
  {
    ExtendLength(done, [kids], from, Existing);
    match Extend(done, [kids], from, Existing)
    case Err(e) => Err(e)
    case Ok(full) => FinishRename(done, full, from, to, takeOut, putIn, fromTime, toTime, fromPath, toPath)
  }

  /** Take the entry out, then put it in. */
  function Sequential(
    kids: Drive, done: seq<Name>, from: seq<Name>, to: seq<Name>, takeOut: Edit, putIn: Edit,
    fromTime: u64, toTime: u64, fromPath: Bytes, toPath: Bytes): Result<Drive, FsError>
  {
    match EditAt(kids, done, from, Existing, fromTime, fromPath, takeOut)
    case Err(e) => Err(e)
    case Ok(without) => EditAt(without, done, to, CreateMissing, toTime, toPath, putIn)
  }

  /** Collapsing one branch and extending along the other is taking out and then putting in. */
  lemma {:induction false} ZipRenameIsSequential(
    kids: Drive, done: seq<Name>, from: seq<Name>, to: seq<Name>, takeOut: Edit, putIn: Edit,
    fromTime: u64, toTime: u64, fromPath: Bytes, toPath: Bytes)
    ensures ZipRename(kids, done, from, to, takeOut, putIn, fromTime, toTime, fromPath, toPath) ==
      Whole(Sequential(kids, done, from, to, takeOut, putIn, fromTime, toTime, fromPath, toPath))
    decreases |from|
  {
    hide Extend, Fold, ZipEdit, Bind;
    if CommonPrefix(from, to) == 0 {
      DisjointRename(kids, done, from, to, takeOut, putIn, fromTime, toTime, fromPath, toPath);
    } else {
      match SubDirectory(kids, done, from[0], Existing)
      case Err(_) => MissingBranch(kids, done, from, to, takeOut, putIn, fromTime, toTime, fromPath, toPath);
      case Ok(sub) =>
        ZipRenameIsSequential(sub, done + [from[0]], from[1..], to[1..], takeOut, putIn,
                              fromTime, toTime, fromPath, toPath);
        RenameStep(kids, sub, done, from, to, takeOut, putIn, fromTime, toTime, fromPath, toPath);
        SequentialStep(kids, sub, done, from, to, takeOut, putIn, fromTime, toTime, fromPath, toPath);
    }
  }

  lemma DisjointRename(
    kids: Drive, done: seq<Name>, from: seq<Name>, to: seq<Name>, takeOut: Edit, putIn: Edit,
    fromTime: u64, toTime: u64, fromPath: Bytes, toPath: Bytes)
    requires CommonPrefix(from, to) == 0
    ensures ZipRename(kids, done, from, to, takeOut, putIn, fromTime, toTime, fromPath, toPath) ==
      Whole(Sequential(kids, done, from, to, takeOut, putIn, fromTime, toTime, fromPath, toPath))
  {
    hide Extend, Fold, EditAt;
    ExtendLength(done, [kids], from, Existing);
    ZipEditIsEditAt(kids, done, from, Existing, fromTime, fromPath, takeOut);
    match EditAt(kids, done, from, Existing, fromTime, fromPath, takeOut)
    case Err(_) =>
    case Ok(without) => ZipEditIsEditAt(without, done, to, CreateMissing, toTime, toPath, putIn);
  }

  lemma MissingBranch(
    kids: Drive, done: seq<Name>, from: seq<Name>, to: seq<Name>, takeOut: Edit, putIn: Edit,
    fromTime: u64, toTime: u64, fromPath: Bytes, toPath: Bytes)
    requires from != [] && SubDirectory(kids, done, from[0], Existing).Err?
    ensures ZipRename(kids, done, from, to, takeOut, putIn, fromTime, toTime, fromPath, toPath) ==
      Whole(Sequential(kids, done, from, to, takeOut, putIn, fromTime, toTime, fromPath, toPath))
  {
    assert done + from[..0] == done;
  }

  lemma SequentialStep(
    kids: Drive, sub: Drive, done: seq<Name>, from: seq<Name>, to: seq<Name>, takeOut: Edit, putIn: Edit,
    fromTime: u64, toTime: u64, fromPath: Bytes, toPath: Bytes)
    requires from != [] && to != [] && from[0] == to[0]
    requires SubDirectory(kids, done, from[0], Existing) == Ok(sub)
    ensures Whole(Sequential(kids, done, from, to, takeOut, putIn, fromTime, toTime, fromPath, toPath)) ==
      BindTop(kids, from[0],
              Whole(Sequential(sub, done + [from[0]], from[1..], to[1..], takeOut, putIn,
                               fromTime, toTime, fromPath, toPath)),
              toTime, toPath)
  {
    var name := from[0];
    match EditAt(sub, done + [name], from[1..], Existing, fromTime, fromPath, takeOut)
    case Err(_) =>
    case Ok(sub1) =>
      var without: Drive := kids[name := DirNode(fromTime, sub1)];
      assert EditAt(kids, done, from, Existing, fromTime, fromPath, takeOut) == Ok(without);
      match EditAt(sub1, done + [name], to[1..], CreateMissing, toTime, toPath, putIn)
      case Err(_) =>
      case Ok(sub2) =>
        assert without[name := DirNode(toTime, sub2)] == kids[name := DirNode(toTime, sub2)];
        assert EditAt(without, done, to, CreateMissing, toTime, toPath, putIn) ==
          Ok(kids[name := DirNode(toTime, sub2)]);
  }

  lemma RenameStep(
    kids: Drive, sub: Drive, done: seq<Name>, from: seq<Name>, to: seq<Name>, takeOut: Edit, putIn: Edit,
    fromTime: u64, toTime: u64, fromPath: Bytes, toPath: Bytes)
    requires from != [] && to != [] && from[0] == to[0]
    requires SubDirectory(kids, done, from[0], Existing) == Ok(sub)
    ensures ZipRename(kids, done, from, to, takeOut, putIn, fromTime, toTime, fromPath, toPath) ==
      BindTop(kids, from[0],
              ZipRename(sub, done + [from[0]], from[1..], to[1..], takeOut, putIn, fromTime, toTime, fromPath, toPath),
              toTime, toPath)
  {
    hide Fold, Bind, EditAt, ZipEdit, Extend, ValidName, Join;
    var name := from[0];
    ExtendOnce(done, kids, sub, from, Existing);
    ExtendLength(done + [name], [sub], from[1..], Existing);
    match Extend(done + [name], [sub], from[1..], Existing)
    case Err(_) =>
    case Ok(full) =>
      match takeOut(full[|from| - 1])
      case Err(_) =>
      case Ok(last) =>
        assert Amend([kids] + full, last) == [kids] + Amend(full, last);
        var common := CommonPrefix(from[1..], to[1..]);
        FoldTail(kids, Amend(full, last), from, common, fromTime, fromPath);
        FoldInSteps(Amend(full, last), from[1..], common, common, fromTime, fromPath);
        match Fold(Amend(full, last), from[1..], common, fromTime, fromPath)
        case Err(_) =>
        case Ok(collapsed) => RenameEditStep(kids, done, collapsed, to, toTime, toPath, putIn);
  }

  lemma RenameEditStep(
    kids: Drive, done: seq<Name>, collapsed: Chain, to: seq<Name>, mtime: u64, path: Bytes, edit: Edit)
    requires to != [] && |collapsed| <= |to| && to[0] in kids
    ensures ZipEdit(done, [kids] + collapsed, to, CreateMissing, mtime, path, edit) ==
      BindTop(kids, to[0], ZipEdit(done + [to[0]], collapsed, to[1..], CreateMissing, mtime, path, edit), mtime, path)
  {
    ExtendTail(done, kids, collapsed, to, CreateMissing);
    ExtendLength(done + [to[0]], collapsed, to[1..], CreateMissing);
    match Extend(done + [to[0]], collapsed, to[1..], CreateMissing)
    case Err(_) =>
    case Ok(full) =>
      match edit(full[|to| - 1])
      case Err(_) =>
      case Ok(last) =>
        assert Amend([kids] + full, last) == [kids] + Amend(full, last);
        FoldTop(kids, Amend(full, last), to, mtime, path);
  }
}
