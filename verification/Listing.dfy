/**
 Everything below a directory. The listing is a multiset, defined by recursion on
 the abstract tree; each proper descendant is in it once, at its own path.
 */
module Listings {
  import opened Wrappers
  import opened Octets
  import opened Format
  import opened Ordered
  import opened Manifests
  import opened Reads
  import opened Directories
  import opened Paths
  import opened Drives
  import opened Plans
  import opened Represents
  import opened OperationRefinement

  type Listed = (Bytes, DirectoryEntry)

  /** The relative path of `names`: the names with slashes between them. */
  function Relative(names: seq<Name>): Bytes
    requires names != []
  {
    if |names| == 1 then names[0] else names[0] + [SLASH] + Relative(names[1..])
  }

  /** The node of child `i` of the directory `d`, which represents `n`. */
  lemma ChildNode(ctx: Context, blobs: Blobs, d: DirectoryNode, n: Node, i: nat)
    requires n.DirNode? && RepKids(ctx, blobs, d, n.kids) && i < |d.children|
    ensures var e := d.children[i];
      && ValidEntry(e) && e.name in n.kids && RepNode(ctx, blobs, e, n.kids[e.name])
      && (e.entryType == Directory <==> n.kids[e.name].DirNode?)
  {
    hide ReadDir, ReadManifest, Plans.ReadDir;
    var e := d.children[i];
    ByKeyAt(NameOf, d.children, i);
    assert e in d.children;
    assert e.name in EntryMap(d).Keys;
  }

  /** The entries at and below the children of `d` from `i` on, with paths that start with `prefix`. */
  ghost function ListFrom(ctx: Context, blobs: Blobs, prefix: Bytes, d: DirectoryNode, n: Node, i: nat)
    : multiset<Listed>
    requires n.DirNode? && RepKids(ctx, blobs, d, n.kids) && i <= |d.children|
    decreases n, 0, |d.children| - i
  {
    hide RepKids, RepNode, EntryMap, ValidDirectory, ValidEntry;
    if i == |d.children| then multiset{}
    else
      var e := d.children[i];
      ChildNode(ctx, blobs, d, n, i);
      var child := n.kids[e.name];
      multiset{(prefix + e.name, e)} + BelowChild(ctx, blobs, prefix, e, child)
      + ListFrom(ctx, blobs, prefix, d, n, i + 1)
  }

  /** The entries below the entry `e`. */
  ghost function BelowChild(ctx: Context, blobs: Blobs, prefix: Bytes, e: DirectoryEntry, n: Node): multiset<Listed>
    requires RepNode(ctx, blobs, e, n)
    decreases n, 1, 0
  {
    hide RepKids, RepNode, EntryMap, ValidDirectory;
    if n.FileNode? then multiset{}
    else
      ChildDirRefines(ctx, blobs, [], e, n);
      ListFrom(ctx, blobs, prefix + e.name + [SLASH], ReadDir(ctx.k, blobs, [], e.cid).value, n, 0)
  }

  /** The directory that the directory entry `e` references. */
  ghost function ChildDir(ctx: Context, blobs: Blobs, e: DirectoryEntry): DirectoryNode
    requires Plans.ReadDir(ctx.k, blobs, [], e.cid).Ok?
  {
    Plans.ReadDir(ctx.k, blobs, [], e.cid).value
  }

  // ---- Paths in a listing stay below the child they came from ----

  /** `rel` is the path of the child `name`, or of something below it. */
  predicate At(prefix: Bytes, name: Bytes, rel: Bytes) {
    rel == prefix + name || prefix + name + [SLASH] <= rel
  }

  lemma AtOneChild(prefix: Bytes, a: Bytes, b: Bytes, rel: Bytes)
    requires SLASH !in a && SLASH !in b && At(prefix, a, rel) && At(prefix, b, rel)
    ensures a == b
  {
    var rest := rel[|prefix|..];
    HeadUpToSlash(prefix, a, rel);
    HeadUpToSlash(prefix, b, rel);
    if |a| < |b| {
      assert rest[|a|] == b[|a|];
    } else if |b| < |a| {
      assert rest[|b|] == a[|b|];
    } else {
      assert a == rest[..|a|] == b;
    }
  }

  lemma HeadUpToSlash(prefix: Bytes, name: Bytes, rel: Bytes)
    requires At(prefix, name, rel)
    ensures |prefix| + |name| <= |rel|
    ensures var rest := rel[|prefix|..];
      rest[..|name|] == name && (|name| == |rest| || rest[|name|] == SLASH)
  {
    if prefix + name + [SLASH] <= rel {
      assert rel[..|prefix| + |name| + 1] == prefix + name + [SLASH];
      assert rel[|prefix|..][..|name|] == rel[..|prefix| + |name| + 1][|prefix|..|prefix| + |name|];
      assert rel[|prefix| + |name|] == SLASH;
    }
  }

  lemma {:induction false} ListedAtChild(
    ctx: Context, blobs: Blobs, prefix: Bytes, d: DirectoryNode, n: Node, i: nat, x: Listed) returns (j: nat)
    requires n.DirNode? && RepKids(ctx, blobs, d, n.kids) && i <= |d.children|
    requires x in ListFrom(ctx, blobs, prefix, d, n, i)
    ensures i <= j < |d.children| && At(prefix, d.children[j].name, x.0)
    decreases n, 0, |d.children| - i
  {
    hide RepKids, RepNode, EntryMap, ValidDirectory, Plans.ReadDir, ValidEntry;
    var e := d.children[i];
    ChildNode(ctx, blobs, d, n, i);
    if x == (prefix + e.name, e) {
      j := i;
    } else if x in BelowChild(ctx, blobs, prefix, e, n.kids[e.name]) {
      BelowAtChild(ctx, blobs, prefix, e, n.kids[e.name], x);
      j := i;
    } else {
      j := ListedAtChild(ctx, blobs, prefix, d, n, i + 1, x);
    }
  }

  lemma {:induction false} BelowAtChild(
    ctx: Context, blobs: Blobs, prefix: Bytes, e: DirectoryEntry, n: Node, x: Listed)
    requires RepNode(ctx, blobs, e, n) && x in BelowChild(ctx, blobs, prefix, e, n)
    ensures prefix + e.name + [SLASH] <= x.0
    decreases n, 1, 0
  {
    hide RepKids, RepNode, EntryMap, ValidDirectory, Plans.ReadDir, ListFrom;
    ChildDirRefines(ctx, blobs, [], e, n);
    var below := prefix + e.name + [SLASH];
    var d := ChildDir(ctx, blobs, e);
    var j := ListedAtChild(ctx, blobs, below, d, n, 0, x);
    assert below + d.children[j].name + [SLASH] == below + (d.children[j].name + [SLASH]);
  }

  // ---- Each entry once, at a path of its own ----

  /** Nothing is listed twice, and no two entries are listed at one path. */
  ghost predicate OnePerPath(m: multiset<Listed>) {
    && (forall x <- m :: m[x] == 1)
    && (forall x, y | x in m && y in m && x.0 == y.0 :: x == y)
  }

  lemma UnionOnePerPath(a: multiset<Listed>, b: multiset<Listed>)
    requires OnePerPath(a) && OnePerPath(b)
    requires forall x, y | x in a && y in b :: x.0 != y.0
    ensures OnePerPath(a + b)
  {
  }

  lemma {:induction false} ListedOnce(ctx: Context, blobs: Blobs, prefix: Bytes, d: DirectoryNode, n: Node, i: nat)
    requires n.DirNode? && RepKids(ctx, blobs, d, n.kids) && i <= |d.children|
    ensures OnePerPath(ListFrom(ctx, blobs, prefix, d, n, i))
    decreases n, 0, |d.children| - i
  {
    hide RepKids, RepNode, EntryMap, ValidDirectory, Plans.ReadDir, BelowChild;
    if i < |d.children| {
      var e := d.children[i];
      ChildNode(ctx, blobs, d, n, i);
      var self := multiset{(prefix + e.name, e)};
      var below := BelowChild(ctx, blobs, prefix, e, n.kids[e.name]);
      var others := ListFrom(ctx, blobs, prefix, d, n, i + 1);
      BelowOnce(ctx, blobs, prefix, e, n.kids[e.name]);
      ListedOnce(ctx, blobs, prefix, d, n, i + 1);
      forall x, y | x in self && y in below ensures x.0 != y.0 {
        BelowAtChild(ctx, blobs, prefix, e, n.kids[e.name], y);
      }
      UnionOnePerPath(self, below);
      forall x, y | x in self + below && y in others ensures x.0 != y.0 {
        OthersElsewhere(ctx, blobs, prefix, d, n, i, x, y);
      }
      UnionOnePerPath(self + below, others);
    }
  }

  lemma OthersElsewhere(
    ctx: Context, blobs: Blobs, prefix: Bytes, d: DirectoryNode, n: Node, i: nat, x: Listed, y: Listed)
    requires n.DirNode? && RepKids(ctx, blobs, d, n.kids) && i < |d.children|
    requires d.children[i].name in n.kids && RepNode(ctx, blobs, d.children[i], n.kids[d.children[i].name])
    requires x == (prefix + d.children[i].name, d.children[i])
      || x in BelowChild(ctx, blobs, prefix, d.children[i], n.kids[d.children[i].name])
    requires y in ListFrom(ctx, blobs, prefix, d, n, i + 1)
    ensures x.0 != y.0
  {
    hide RepNode, EntryMap, Plans.ReadDir, BelowChild, ListFrom;
    var e := d.children[i];
    if x != (prefix + e.name, e) {
      BelowAtChild(ctx, blobs, prefix, e, n.kids[e.name], x);
    }
    var j := ListedAtChild(ctx, blobs, prefix, d, n, i + 1, y);
    assert e in d.children && d.children[j] in d.children;
    if x.0 == y.0 {
      AtOneChild(prefix, e.name, d.children[j].name, x.0);
      SortedDistinct(NameOf, d.children, i, j);
    }
  }

  lemma {:induction false} BelowOnce(ctx: Context, blobs: Blobs, prefix: Bytes, e: DirectoryEntry, n: Node)
    requires RepNode(ctx, blobs, e, n)
    ensures OnePerPath(BelowChild(ctx, blobs, prefix, e, n))
    decreases n, 1, 0
  {
    hide RepKids, RepNode, EntryMap, ValidDirectory, Plans.ReadDir, ListFrom;
    if n.DirNode? {
      ChildDirRefines(ctx, blobs, [], e, n);
      ListedOnce(ctx, blobs, prefix + e.name + [SLASH], ChildDir(ctx, blobs, e), n, 0);
    }
  }

  // ---- What is listed is what the drive has ----

  /** The entry `x` is the descendant of `kids` at `names`, listed with its path. */
  ghost predicate IsDescendant(ctx: Context, blobs: Blobs, prefix: Bytes, kids: Drive, names: seq<Name>, x: Listed) {
    && names != []
    && Lookup(kids, names).Some?
    && x.0 == prefix + Relative(names)
    && x.1.name == Last(names)
    && RepNode(ctx, blobs, x.1, Lookup(kids, names).value)
  }

  lemma {:induction false} ListedIsDescendant(
    ctx: Context, blobs: Blobs, prefix: Bytes, d: DirectoryNode, n: Node, i: nat, x: Listed) returns (names: seq<Name>)
    requires n.DirNode? && RepKids(ctx, blobs, d, n.kids) && i <= |d.children|
    requires x in ListFrom(ctx, blobs, prefix, d, n, i)
    ensures IsDescendant(ctx, blobs, prefix, n.kids, names, x)
    decreases n, 0, |d.children| - i
  {
    hide RepKids, RepNode, EntryMap, ValidDirectory, Plans.ReadDir, ValidName, BelowChild, ValidEntry;
    var e := d.children[i];
    ChildNode(ctx, blobs, d, n, i);
    NameOfEntry(e);
    var name: Name := e.name;
    if x == (prefix + name, e) {
      names := [name];
    } else if x in BelowChild(ctx, blobs, prefix, e, n.kids[name]) {
      var rest := BelowIsDescendant(ctx, blobs, prefix, e, n.kids[name], x);
      names := [name] + rest;
      Deeper(ctx, blobs, prefix, n.kids, name, rest, x);
    } else {
      names := ListedIsDescendant(ctx, blobs, prefix, d, n, i + 1, x);
    }
  }

  lemma {:induction false} BelowIsDescendant(
    ctx: Context, blobs: Blobs, prefix: Bytes, e: DirectoryEntry, n: Node, x: Listed) returns (rest: seq<Name>)
    requires RepNode(ctx, blobs, e, n) && x in BelowChild(ctx, blobs, prefix, e, n)
    ensures n.DirNode? && IsDescendant(ctx, blobs, prefix + e.name + [SLASH], n.kids, rest, x)
    decreases n, 1, 0
  {
    hide RepKids, RepNode, EntryMap, ValidDirectory, Plans.ReadDir, ValidName, ListFrom, IsDescendant;
    ChildDirRefines(ctx, blobs, [], e, n);
    rest := ListedIsDescendant(ctx, blobs, prefix + e.name + [SLASH], ChildDir(ctx, blobs, e), n, 0, x);
  }

  /** A descendant of a child is a descendant. */
  lemma Deeper(ctx: Context, blobs: Blobs, prefix: Bytes, kids: Drive, name: Name, rest: seq<Name>, x: Listed)
    requires name in kids && kids[name].DirNode?
    requires IsDescendant(ctx, blobs, prefix + name + [SLASH], kids[name].kids, rest, x)
    ensures IsDescendant(ctx, blobs, prefix, kids, [name] + rest, x)
  {
    hide RepNode, ValidName;
    var names := [name] + rest;
    assert names[1..] == rest;
    assert prefix + name + [SLASH] + Relative(rest) == prefix + (name + [SLASH] + Relative(rest));
  }

  lemma NameOfEntry(e: DirectoryEntry)
    requires ValidEntry(e)
    ensures ValidName(e.name)
  {
  }

  lemma {:induction false} DescendantIsListed(
    ctx: Context, blobs: Blobs, prefix: Bytes, d: DirectoryNode, n: Node, names: seq<Name>) returns (x: Listed)
    requires n.DirNode? && RepKids(ctx, blobs, d, n.kids) && names != [] && Lookup(n.kids, names).Some?
    ensures x in ListFrom(ctx, blobs, prefix, d, n, 0)
    ensures IsDescendant(ctx, blobs, prefix, n.kids, names, x)
    decreases |names|
  {
    hide RepKids, RepNode, EntryMap, ValidDirectory, Plans.ReadDir, ValidName, ListFrom;
    var i := ChildIndex(ctx, blobs, d, n, names[0]);
    var e := d.children[i];
    ChildNode(ctx, blobs, d, n, i);
    ChildIsListed(ctx, blobs, prefix, d, n, 0, i);
    if |names| == 1 {
      x := (prefix + e.name, e);
    } else {
      var child := n.kids[e.name];
      ChildDirRefines(ctx, blobs, [], e, child);
      x := DescendantIsListed(ctx, blobs, prefix + e.name + [SLASH], ChildDir(ctx, blobs, e), child, names[1..]);
      Deeper(ctx, blobs, prefix, n.kids, names[0], names[1..], x);
      assert [names[0]] + names[1..] == names;
    }
  }

  lemma ChildIndex(ctx: Context, blobs: Blobs, d: DirectoryNode, n: Node, name: Name) returns (i: nat)
    requires n.DirNode? && RepKids(ctx, blobs, d, n.kids) && name in n.kids
    ensures i < |d.children| && d.children[i].name == name
  {
    hide RepNode, ValidDirectory;
    assert name in EntryMap(d).Keys;
    i := ByKeyIndex(NameOf, d.children, name);
  }

  lemma {:induction false} ChildIsListed(
    ctx: Context, blobs: Blobs, prefix: Bytes, d: DirectoryNode, n: Node, i: nat, j: nat)
    requires n.DirNode? && RepKids(ctx, blobs, d, n.kids) && i <= j < |d.children|
    ensures var e := d.children[j];
      && e.name in n.kids && RepNode(ctx, blobs, e, n.kids[e.name])
      && (prefix + e.name, e) in ListFrom(ctx, blobs, prefix, d, n, i)
      && BelowChild(ctx, blobs, prefix, e, n.kids[e.name]) <= ListFrom(ctx, blobs, prefix, d, n, i)
    decreases j - i
  {
    hide RepKids, RepNode, EntryMap, ValidDirectory, Plans.ReadDir, BelowChild, ValidEntry;
    ChildNode(ctx, blobs, d, n, i);
    ChildNode(ctx, blobs, d, n, j);
    if i < j {
      ChildIsListed(ctx, blobs, prefix, d, n, i + 1, j);
    }
  }

  ghost predicate IsListed(ctx: Context, blobs: Blobs, entries: seq<Listed>, kids: Drive, names: seq<Name>) {
    exists i :: 0 <= i < |entries| && IsDescendant(ctx, blobs, [], kids, names, entries[i])
  }

  ghost predicate IsSomeDescendant(ctx: Context, blobs: Blobs, kids: Drive, x: Listed) {
    exists names :: IsDescendant(ctx, blobs, [], kids, names, x)
  }

  /** The listing has each descendant of the directory exactly once, at its own path. */
  ghost predicate ListsExactly(ctx: Context, blobs: Blobs, entries: seq<Listed>, kids: Drive) {
    && (forall i, j | 0 <= i < j < |entries| :: entries[i].0 != entries[j].0)
    && (forall x <- entries :: IsSomeDescendant(ctx, blobs, kids, x))
    && (forall names: seq<Name> | names != [] && Lookup(kids, names).Some? ::
      IsListed(ctx, blobs, entries, kids, names))
  }

  /** What listing a path answers: the error of the path, of the root, or of the walk; or exactly the descendants. */
  ghost predicate IsListing(
    ctx: Context, blobs: Blobs, leaf: Option<Cid>, path: Bytes, drive: Drive, r: Result<seq<Listed>, FsError>)
  {
    match ParsePath(path)
    case Err(e) => r == Err(e)
    case Ok(names) =>
      if LoadedRoot(ctx, blobs, leaf).Err? then r == Err(LoadedRoot(ctx, blobs, leaf).error)
      else match DirAt(drive, [], names)
        case Err(e) => r == Err(e)
        case Ok(kids) => r.Ok? && ListsExactly(ctx, blobs, r.value, kids)
  }

  lemma ListedExactly(ctx: Context, blobs: Blobs, d: DirectoryNode, n: Node, entries: seq<Listed>)
    requires n.DirNode? && RepKids(ctx, blobs, d, n.kids)
    requires multiset(entries) == ListFrom(ctx, blobs, [], d, n, 0)
    ensures ListsExactly(ctx, blobs, entries, n.kids)
  {
    hide RepKids, ListFrom, IsDescendant, Lookup, ValidName;
    ListedOnce(ctx, blobs, [], d, n, 0);
    DistinctPaths(entries);
    forall x | x in entries ensures IsSomeDescendant(ctx, blobs, n.kids, x) {
      assert x in multiset(entries);
      var names := ListedIsDescendant(ctx, blobs, [], d, n, 0, x);
    }
    forall names: seq<Name> | names != [] && Lookup(n.kids, names).Some?
      ensures IsListed(ctx, blobs, entries, n.kids, names)
    {
      var x := DescendantIsListed(ctx, blobs, [], d, n, names);
      var i := Place(entries, x);
    }
  }

  lemma DistinctPaths(entries: seq<Listed>)
    requires OnePerPath(multiset(entries))
    ensures forall i, j | 0 <= i < j < |entries| :: entries[i].0 != entries[j].0
  {
    forall i, j | 0 <= i < j < |entries| ensures entries[i].0 != entries[j].0 {
      assert entries[i] in multiset(entries) && entries[j] in multiset(entries);
      if entries[i] == entries[j] {
        CountsTwice(entries, i, j);
      }
    }
  }

  // ---- The stack of a listing ----

  ghost predicate PendingOk(ctx: Context, blobs: Blobs, pending: seq<(Bytes, DirectoryNode)>, nodes: seq<Node>) {
    && |pending| == |nodes|
    && forall i | 0 <= i < |nodes| :: nodes[i].DirNode? && RepKids(ctx, blobs, pending[i].1, nodes[i].kids)
  }

  /** What the directory on top of the stack has to list. */
  ghost function TopOf(ctx: Context, blobs: Blobs, pending: seq<(Bytes, DirectoryNode)>, nodes: seq<Node>)
    : multiset<Listed>
    requires PendingOk(ctx, blobs, pending, nodes) && pending != []
  {
    hide RepKids, ListFrom;
    var last := |pending| - 1;
    ListFrom(ctx, blobs, pending[last].0, pending[last].1, nodes[last], 0)
  }

  /** What the directories on the stack still have to list. */
  ghost function Pending(ctx: Context, blobs: Blobs, pending: seq<(Bytes, DirectoryNode)>, nodes: seq<Node>)
    : multiset<Listed>
    requires PendingOk(ctx, blobs, pending, nodes)
    decreases |pending|
  {
    hide RepKids, ListFrom, TopOf;
    if pending == [] then multiset{}
    else
      var last := |pending| - 1;
      Pending(ctx, blobs, pending[..last], nodes[..last]) + TopOf(ctx, blobs, pending, nodes)
  }

  lemma PendingOne(ctx: Context, blobs: Blobs, prefix: Bytes, d: DirectoryNode, n: Node)
    requires n.DirNode? && RepKids(ctx, blobs, d, n.kids)
    ensures PendingOk(ctx, blobs, [(prefix, d)], [n])
    ensures Pending(ctx, blobs, [(prefix, d)], [n]) == ListFrom(ctx, blobs, prefix, d, n, 0)
  {
    hide RepKids, ListFrom;
    var pending := [(prefix, d)];
    assert TopOf(ctx, blobs, pending, [n]) == ListFrom(ctx, blobs, prefix, d, n, 0);
    assert Pending(ctx, blobs, pending[..0], [n][..0]) == multiset{};
  }

  lemma PendingNone(ctx: Context, blobs: Blobs)
    ensures Pending(ctx, blobs, [], []) == multiset{}
  {
  }

  lemma PendingPop(ctx: Context, blobs: Blobs, pending: seq<(Bytes, DirectoryNode)>, nodes: seq<Node>)
    requires PendingOk(ctx, blobs, pending, nodes) && pending != []
    requires PendingOk(ctx, blobs, pending[..|pending| - 1], nodes[..|pending| - 1])
    ensures Pending(ctx, blobs, pending, nodes) ==
      Pending(ctx, blobs, pending[..|pending| - 1], nodes[..|pending| - 1]) + TopOf(ctx, blobs, pending, nodes)
  {
    hide RepKids, TopOf;
  }

  lemma PendingShorter(ctx: Context, blobs: Blobs, pending: seq<(Bytes, DirectoryNode)>, nodes: seq<Node>)
    requires PendingOk(ctx, blobs, pending, nodes) && pending != []
    ensures PendingOk(ctx, blobs, pending[..|pending| - 1], nodes[..|pending| - 1])
  {
    hide RepKids;
  }

  lemma ReadableChild(ctx: Context, blobs: Blobs, path: Bytes, e: DirectoryEntry, n: Node)
    requires RepNode(ctx, blobs, e, n) && n.DirNode?
    ensures Plans.ReadDir(ctx.k, blobs, path, e.cid).Ok?
    ensures Plans.ReadDir(ctx.k, blobs, path, e.cid) == Plans.ReadDir(ctx.k, blobs, [], e.cid)
    ensures RepKids(ctx, blobs, Plans.ReadDir(ctx.k, blobs, path, e.cid).value, n.kids)
  {
    hide RepKids, RepNode, Plans.ReadDir;
    ChildDirRefines(ctx, blobs, [], e, n);
    ReadDirAnyPath(ctx.k, blobs, path, e.cid);
  }

  lemma PendingPush(
    ctx: Context, blobs: Blobs, pending: seq<(Bytes, DirectoryNode)>, nodes: seq<Node>, prefix: Bytes,
    e: DirectoryEntry, n: Node, d: DirectoryNode)
    requires PendingOk(ctx, blobs, pending, nodes) && RepNode(ctx, blobs, e, n) && n.DirNode?
    requires Plans.ReadDir(ctx.k, blobs, [], e.cid) == Ok(d) && RepKids(ctx, blobs, d, n.kids)
    ensures PendingOk(ctx, blobs, pending + [(prefix + e.name + [SLASH], d)], nodes + [n])
    ensures Pending(ctx, blobs, pending + [(prefix + e.name + [SLASH], d)], nodes + [n]) ==
      Pending(ctx, blobs, pending, nodes) + BelowChild(ctx, blobs, prefix, e, n)
  {
    hide RepKids, RepNode, ListFrom, Plans.ReadDir;
    var longer, more := pending + [(prefix + e.name + [SLASH], d)], nodes + [n];
    assert longer[..|pending|] == pending && more[..|nodes|] == nodes;
  }

  lemma SameTop(
    ctx: Context, blobs: Blobs, a: seq<(Bytes, DirectoryNode)>, xs: seq<Node>,
    b: seq<(Bytes, DirectoryNode)>, ys: seq<Node>)
    requires PendingOk(ctx, blobs, a, xs) && PendingOk(ctx, blobs, b, ys) && b != []
    requires PendingOk(ctx, blobs, a + b, xs + ys)
    ensures TopOf(ctx, blobs, a + b, xs + ys) == TopOf(ctx, blobs, b, ys)
  {
    hide RepKids, ListFrom;
  }

  lemma {:induction false} PendingAppend(
    ctx: Context, blobs: Blobs, a: seq<(Bytes, DirectoryNode)>, xs: seq<Node>,
    b: seq<(Bytes, DirectoryNode)>, ys: seq<Node>)
    requires PendingOk(ctx, blobs, a, xs) && PendingOk(ctx, blobs, b, ys)
    ensures PendingOk(ctx, blobs, a + b, xs + ys)
    ensures Pending(ctx, blobs, a + b, xs + ys) == Pending(ctx, blobs, a, xs) + Pending(ctx, blobs, b, ys)
    decreases |b|
  {
    hide RepKids, ListFrom, Pending, TopOf;
    if b == [] {
      assert a + b == a && xs + ys == xs;
      PendingNone(ctx, blobs);
    } else {
      var last := |b| - 1;
      PendingShorter(ctx, blobs, b, ys);
      PendingAppend(ctx, blobs, a, xs, b[..last], ys[..last]);
      assert (a + b)[..|a + b| - 1] == a + b[..last];
      assert (xs + ys)[..|xs + ys| - 1] == xs + ys[..last];
      PendingPop(ctx, blobs, b, ys);
      PendingPop(ctx, blobs, a + b, xs + ys);
      SameTop(ctx, blobs, a, xs, b, ys);
    }
  }

  lemma ListFromStep(ctx: Context, blobs: Blobs, prefix: Bytes, d: DirectoryNode, n: Node, i: nat)
    requires n.DirNode? && RepKids(ctx, blobs, d, n.kids) && i < |d.children|
    requires d.children[i].name in n.kids && RepNode(ctx, blobs, d.children[i], n.kids[d.children[i].name])
    ensures var e := d.children[i];
      && (n.kids[e.name].FileNode? ==> BelowChild(ctx, blobs, prefix, e, n.kids[e.name]) == multiset{})
      && ListFrom(ctx, blobs, prefix, d, n, i) ==
           multiset{(prefix + e.name, e)} + BelowChild(ctx, blobs, prefix, e, n.kids[e.name])
           + ListFrom(ctx, blobs, prefix, d, n, i + 1)
  {
    hide RepKids, RepNode, EntryMap, ValidDirectory, Plans.ReadDir, ValidEntry;
    ChildNode(ctx, blobs, d, n, i);
  }

  lemma ListFromEnd(ctx: Context, blobs: Blobs, prefix: Bytes, d: DirectoryNode, n: Node)
    requires n.DirNode? && RepKids(ctx, blobs, d, n.kids)
    ensures ListFrom(ctx, blobs, prefix, d, n, |d.children|) == multiset{}
  {
    hide RepKids;
  }
}
