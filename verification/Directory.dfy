/**
 Directory nodes as maps from names to entries, and the class that edits one in
 place by binary search.
 */
module Directories {
  import opened Wrappers
  import opened Octets
  import opened Format
  import opened Ordered

  type Name = n: Bytes | ValidName(n) witness [0x61]

  const SLASH: byte := 0x2F
  const DOT: byte := 0x2E

  /** 1 to 256 bytes of UTF-8, without `/`, and neither `.` nor `..`. */
  predicate ValidName(name: Bytes) {
    && name != []
    && |name| <= MAX_ENTRY_NAME_LENGTH
    && Utf8(name)
    && SLASH !in name
    && name != [DOT]
    && name != [DOT, DOT]
  }

  function NameOf(e: DirectoryEntry): Bytes { e.name }

  predicate ValidEntry(e: DirectoryEntry) {
    ValidName(e.name) && (e.entryType == Directory ==> e.size == 0)
  }

  /** What every directory node of a drive satisfies. */
  ghost predicate ValidDirectory(d: DirectoryNode) {
    && |d.children| <= MAX_DIRECTORY_CHILDREN
    && d.metadata == []
    && (forall e <- d.children :: ValidEntry(e))
    && Sorted(NameOf, d.children)
  }

  ghost predicate AllValid(chain: seq<DirectoryNode>) {
    forall d <- chain :: ValidDirectory(d)
  }

  function NewEmpty(bucketId: u64): DirectoryNode { DirectoryNode(bucketId, [], []) }

  function EntryMap(d: DirectoryNode): map<Bytes, DirectoryEntry> { ByKey(NameOf, d.children) }

  // ---- The check of a decoded node ----

  function CheckEntries(children: seq<DirectoryEntry>): Option<FormatError> {
    if children == [] then None
    else if !ValidName(children[0].name) then Some(InvalidEntryName)
    else if children[0].entryType == Directory && children[0].size != 0 then Some(InvalidDirectory)
    else CheckEntries(children[1..])
  }

  function Validate(d: DirectoryNode): Option<FormatError> {
    if d.metadata != [] then Some(InvalidDirectory)
    else if CheckEntries(d.children).Some? then CheckEntries(d.children)
    else if !AdjacentSorted(NameOf, d.children) then Some(InvalidDirectory)
    else None
  }

  lemma {:induction false} CheckEntriesMeaning(children: seq<DirectoryEntry>)
    ensures CheckEntries(children) == None <==> forall e <- children :: ValidEntry(e)
    decreases |children|
  {
    if children != [] {
      CheckEntriesMeaning(children[1..]);
      assert children[0] in children;
      assert forall e <- children :: e == children[0] || e in children[1..];
    }
  }

  /** A node within its bounds passes the check exactly when it is a valid directory. */
  lemma ValidateMeaning(d: DirectoryNode)
    requires |d.children| <= MAX_DIRECTORY_CHILDREN
    ensures Validate(d) == None <==> ValidDirectory(d)
  {
    CheckEntriesMeaning(d.children);
    AdjacentIsSorted(NameOf, d.children);
  }

  lemma ValidIsInBounds(d: DirectoryNode)
    requires ValidDirectory(d)
    ensures DirectoryInBounds(d)
  {
    forall i | 0 <= i < |d.children| ensures EntryInBounds(d.children[i]) {
      assert d.children[i] in d.children;
    }
  }

  // ---- Editing, as functions on nodes ----

  function Upserted(d: DirectoryNode, e: DirectoryEntry): Result<DirectoryNode, FormatError> {
    var p := LowerBound(NameOf, d.children, e.name);
    if !(p < |d.children| && d.children[p].name == e.name) && |d.children| >= MAX_DIRECTORY_CHILDREN
    then Err(DirectoryFull)
    else Ok(d.(children := Upsert(NameOf, d.children, e)))
  }

  function Removed(d: DirectoryNode, name: Bytes): DirectoryNode {
    d.(children := Without(NameOf, d.children, name))
  }

  function Found(d: DirectoryNode, name: Bytes): Option<DirectoryEntry> {
    var p := LowerBound(NameOf, d.children, name);
    if p < |d.children| && d.children[p].name == name then Some(d.children[p]) else None
  }

  /** Finding is map lookup. */
  lemma FoundIsLookup(d: DirectoryNode, name: Bytes)
    requires ValidDirectory(d)
    ensures Found(d, name) == if name in EntryMap(d) then Some(EntryMap(d)[name]) else None
    ensures Found(d, name).Some? ==> ValidEntry(Found(d, name).value) && Found(d, name).value.name == name
  {
    ByKeySearch(NameOf, d.children, name);
  }

  lemma EntryNamed(d: DirectoryNode, name: Bytes)
    requires ValidDirectory(d) && name in EntryMap(d)
    ensures ValidEntry(EntryMap(d)[name]) && EntryMap(d)[name].name == name
  {
    FoundIsLookup(d, name);
  }

  /** Upserting is map update; it fails exactly when the name is new and the node has 1024 children. */
  lemma UpsertedIsUpdate(d: DirectoryNode, e: DirectoryEntry)
    requires ValidDirectory(d) && ValidEntry(e)
    ensures Upserted(d, e) == Err(DirectoryFull) <==> e.name !in EntryMap(d) && |EntryMap(d)| == MAX_DIRECTORY_CHILDREN
    ensures Upserted(d, e).Err? ==> Upserted(d, e) == Err(DirectoryFull)
    ensures Upserted(d, e).Ok? ==>
      && ValidDirectory(Upserted(d, e).value)
      && EntryMap(Upserted(d, e).value) == EntryMap(d)[e.name := e]
      && Upserted(d, e).value.bucketId == d.bucketId
  {
    ByKeySearch(NameOf, d.children, e.name);
    ByKeySize(NameOf, d.children);
    UpsertSorted(NameOf, d.children, e);
    UpsertIsUpdate(NameOf, d.children, e);
    if Upserted(d, e).Ok? {
      var ys := Upsert(NameOf, d.children, e);
      forall y | y in ys ensures ValidEntry(y) {
        assert y == e || y in d.children;
      }
    }
  }

  /** Removing is map removal. */
  lemma RemovedIsRemoval(d: DirectoryNode, name: Bytes)
    requires ValidDirectory(d)
    ensures ValidDirectory(Removed(d, name))
    ensures EntryMap(Removed(d, name)) == EntryMap(d) - {name}
    ensures Removed(d, name).bucketId == d.bucketId
  {
    WithoutSorted(NameOf, d.children, name);
    WithoutIsRemoval(NameOf, d.children, name);
    var ys := Without(NameOf, d.children, name);
    forall y | y in ys ensures ValidEntry(y) {
      var i :| 0 <= i < |ys| && ys[i] == y;
      assert y in d.children;
    }
  }

  /** A directory is determined by its bucket and its map. */
  lemma DirectoryIsDetermined(a: DirectoryNode, b: DirectoryNode)
    requires ValidDirectory(a) && ValidDirectory(b)
    requires a.bucketId == b.bucketId && EntryMap(a) == EntryMap(b)
    ensures a == b
  {
    ByKeyIsDetermined(NameOf, a.children, b.children);
  }

  lemma EntryCount(d: DirectoryNode)
    requires ValidDirectory(d)
    ensures |EntryMap(d)| == |d.children| <= MAX_DIRECTORY_CHILDREN
  {
    ByKeySize(NameOf, d.children);
  }

  lemma EmptyIsValid(bucketId: u64)
    ensures ValidDirectory(NewEmpty(bucketId)) && EntryMap(NewEmpty(bucketId)) == map[]
  {
  }

  // ---- Editing in place ----

  /** A directory node that is edited in place. */
  class DirectoryBuffer {
    var node: DirectoryNode

    ghost predicate Valid()
      reads this
    {
      ValidDirectory(node)
    }

    constructor (d: DirectoryNode)
      ensures node == d
    {
      node := d;
    }

    /** Binary search: the index of `name`, or the index at which it belongs. */
    method Position(name: Bytes) returns (found: bool, pos: nat)
      requires Valid()
      ensures pos == LowerBound(NameOf, node.children, name)
      ensures found <==> pos < |node.children| && node.children[pos].name == name
    {
      var children := node.children;
      var lo, hi := 0, |children|;
      while lo < hi
        invariant 0 <= lo <= hi <= |children|
        invariant forall i | 0 <= i < lo :: Less(children[i].name, name)
        invariant forall i | hi <= i < |children| :: Less(name, children[i].name)
      {
        var mid := (lo + hi) / 2;
        if children[mid].name == name {
          forall i | 0 <= i < mid ensures Less(children[i].name, name) {
            assert Less(NameOf(children[i]), NameOf(children[mid]));
          }
          LessIrreflexive(name);
          LowerBoundIsUnique(NameOf, children, name, mid);
          return true, mid;
        } else if Less(children[mid].name, name) {
          forall i | 0 <= i <= mid ensures Less(children[i].name, name) {
            if i < mid {
              assert Less(NameOf(children[i]), NameOf(children[mid]));
              LessTransitive(children[i].name, children[mid].name, name);
            }
          }
          lo := mid + 1;
        } else {
          LessTotal(children[mid].name, name);
          forall i | mid <= i < |children| ensures Less(name, children[i].name) {
            if mid < i {
              assert Less(NameOf(children[mid]), NameOf(children[i]));
              LessTransitive(name, children[mid].name, children[i].name);
            }
          }
          hi := mid;
        }
      }
      if lo < |children| {
        LessAsymmetric(name, children[lo].name);
      }
      LowerBoundIsUnique(NameOf, children, name, lo);
      return false, lo;
    }

    method FindChild(name: Bytes) returns (r: Option<DirectoryEntry>)
      requires Valid()
      ensures r == Found(node, name)
      ensures r == if name in EntryMap(node) then Some(EntryMap(node)[name]) else None
    {
      FoundIsLookup(node, name);
      var found, pos := Position(name);
      r := if found then Some(node.children[pos]) else None;
    }

    /** Insert `entry`, or replace the child of the same name. */
    method UpsertChild(entry: DirectoryEntry) returns (r: Option<FormatError>)
      requires Valid() && ValidEntry(entry)
      modifies this
      ensures Valid() && node.bucketId == old(node).bucketId
      ensures r == None || r == Some(DirectoryFull)
      ensures r.Some? <==> entry.name !in old(EntryMap(node)) && |old(EntryMap(node))| == MAX_DIRECTORY_CHILDREN
      ensures EntryMap(node) == if r.Some? then old(EntryMap(node)) else old(EntryMap(node))[entry.name := entry]
      ensures Upserted(old(node), entry) == if r == None then Ok(node) else Err(DirectoryFull)
      ensures r.Some? ==> node == old(node)
    {
      UpsertedIsUpdate(node, entry);
      var found, pos := Position(entry.name);
      var children := node.children;
      if found {
        node := node.(children := children[pos := entry]);
        return None;
      } else if |children| >= MAX_DIRECTORY_CHILDREN {
        return Some(DirectoryFull);
      } else {
        node := node.(children := children[..pos] + [entry] + children[pos..]);
        return None;
      }
    }

    /** Remove the child `name` and return its entry. */
    method RemoveChild(name: Bytes) returns (r: Option<DirectoryEntry>)
      requires Valid()
      modifies this
      ensures Valid() && node.bucketId == old(node).bucketId
      ensures r == if name in old(EntryMap(node)) then Some(old(EntryMap(node))[name]) else None
      ensures EntryMap(node) == old(EntryMap(node)) - {name}
      ensures r == Found(old(node), name) && node == Removed(old(node), name)
    {
      FoundIsLookup(node, name);
      RemovedIsRemoval(node, name);
      var found, pos := Position(name);
      if found {
        r := Some(node.children[pos]);
        node := node.(children := Drop(node.children, pos));
      } else {
        r := None;
      }
    }
  }
}
