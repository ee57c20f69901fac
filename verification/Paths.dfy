/** The errors of the file tree, and absolute paths. */
module Paths {
  import opened Wrappers
  import opened Octets
  import opened Format
  import opened Directories

  datatype FsError =
    | InvalidPath(path: Bytes)
    | PathNotFound(path: Bytes)
    | EntryExists(path: Bytes)
    | NotADirectory(path: Bytes)
    | NotAFile(path: Bytes)
    | DirectoryNotEmpty(path: Bytes)
    | BrokenRule(path: Bytes, rule: FormatError)
    | NotAFileSystemBucket
    | UnsupportedFormatVersion(version: byte)
    | InvalidMmrProof
    | InvalidBlob(path: Bytes)
    | CidMismatch(expected: Cid, got: Cid)
    | MissingBlob(cid: Cid)

  /** The pieces of `s` between slashes; always at least one. */
  function Split(s: Bytes): (parts: seq<Bytes>)
    ensures |parts| >= 1
  {
    if s == [] then [[]]
    else
      var rest := Split(s[1..]);
      if s[0] == SLASH then [[]] + rest else [[s[0]] + rest[0]] + rest[1..]
  }

  /** `names`, each after a slash. */
  function Slashed(names: seq<Bytes>): Bytes {
    if names == [] then [] else [SLASH] + names[0] + Slashed(names[1..])
  }

  /** The absolute path of `names`. */
  function Join(names: seq<Bytes>): Bytes {
    if names == [] then [SLASH] else Slashed(names)
  }

  function ParsePath(path: Bytes): Result<seq<Name>, FsError> {
    if path == [] || path[0] != SLASH then Err(InvalidPath(path))
    else if |path| == 1 then Ok([])
    else
      var parts := Split(path[1..]);
      if forall n <- parts :: ValidName(n) then
        var names: seq<Name> := parts;
        Ok(names)
      else Err(InvalidPath(path))
  }

  /** Number of names that two paths have in common at the start. */
  function CommonPrefix(a: seq<Name>, b: seq<Name>): (n: nat)
    ensures n <= |a| && n <= |b| && a[..n] == b[..n]
    ensures n < |a| && n < |b| ==> a[n] != b[n]
    decreases |a|
  {
    if a == [] || b == [] || a[0] != b[0] then 0
    else
      var n := CommonPrefix(a[1..], b[1..]);
      assert a[..n + 1] == [a[0]] + a[1..][..n] && b[..n + 1] == [b[0]] + b[1..][..n];
      n + 1
  }

  lemma {:induction false} SlashedSplit(s: Bytes)
    ensures Slashed(Split(s)) == [SLASH] + s
    decreases |s|
  {
    if s != [] {
      var rest := Split(s[1..]);
      SlashedSplit(s[1..]);
      assert s == [s[0]] + s[1..];
      if s[0] == SLASH {
        assert Split(s)[1..] == rest;
      } else {
        assert Slashed(Split(s)) == [SLASH] + ([s[0]] + rest[0]) + Slashed(rest[1..]);
        assert Slashed(rest) == [SLASH] + rest[0] + Slashed(rest[1..]);
        assert Slashed(rest)[1..] == s[1..];
      }
    }
  }

  lemma {:induction false} SplitName(n: Bytes, s: Bytes)
    requires SLASH !in n
    ensures s == [] ==> Split(n + s) == [n]
    ensures s != [] && s[0] == SLASH ==> Split(n + s) == [n] + Split(s[1..])
    decreases |n|
  {
    if n == [] {
      assert n + s == s;
    } else {
      SplitName(n[1..], s);
      assert n == [n[0]] + n[1..];
      assert (n + s)[1..] == n[1..] + s;
      assert (n + s)[0] == n[0];
    }
  }

  lemma {:induction false} SplitSlashed(names: seq<Name>)
    requires names != []
    ensures Split(Slashed(names)[1..]) == names
    decreases |names|
  {
    var rest := Slashed(names[1..]);
    assert Slashed(names)[1..] == names[0] + rest;
    SplitName(names[0], rest);
    assert names == [names[0]] + names[1..];
    if |names| > 1 {
      SplitSlashed(names[1..]);
    }
  }

  /** Parsing and joining are inverse: a path parses to `names` exactly when it is the path of `names`. */
  lemma ParseIsInverseOfJoin(path: Bytes, names: seq<Name>)
    ensures ParsePath(path) == Ok(names) <==> path == Join(names)
  {
    if ParsePath(path) == Ok(names) && names != [] {
      SlashedSplit(path[1..]);
      assert path == [SLASH] + path[1..];
    }
    if path == Join(names) && names != [] {
      SplitSlashed(names);
      assert names[0] != [];
    }
  }

  // ---- Which paths there are ----

  /** The UTF-8 of some text in 1 to 256 bytes, without `/`, and neither `.` nor `..`. */
  ghost predicate IsName(n: Bytes) {
    && 1 <= |n| <= 256
    && 0x2F !in n
    && n != [0x2E] && n != [0x2E, 0x2E]
    && IsText(n)
  }

  lemma NameMeaning(n: Bytes)
    ensures ValidName(n) <==> IsName(n)
  {
    hide Utf8, IsText;
    Utf8Meaning(n);
  }

  lemma {:induction false} SlashedMore(names: seq<Name>, n: Name)
    ensures Slashed(names + [n]) == Slashed(names) + ([SLASH] + n)
    decreases |names|
  {
    hide ValidName;
    if names == [] {
      assert names + [n] == [n];
      assert Slashed([n]) == [SLASH] + n + Slashed([]);
    } else {
      SlashedMore(names[1..], n);
      assert (names + [n])[1..] == names[1..] + [n];
    }
  }

  /** The path of no names is `/`; one more name is appended after a `/`. */
  lemma JoinMeaning(names: seq<Name>, n: Name)
    ensures Join([]) == [0x2F]
    ensures Join(names + [n]) == (if names == [] then [] else Join(names)) + ([0x2F] + n)
  {
    hide ValidName, Slashed;
    SlashedMore(names, n);
    if names == [] {
      NothingSlashed();
    }
  }

  lemma NothingSlashed()
    ensures Slashed([]) == []
  {
  }

  /** A path that is not the path of some names is reported as it is. */
  lemma ParseOutcome(path: Bytes)
    ensures ParsePath(path).Ok? <==> exists names: seq<Name> :: path == Join(names)
    ensures ParsePath(path).Err? ==> ParsePath(path) == Err(InvalidPath(path))
  {
    hide ValidName, Join;
    if ParsePath(path).Ok? {
      ParseIsInverseOfJoin(path, ParsePath(path).value);
    }
    if names: seq<Name> :| path == Join(names) {
      ParseIsInverseOfJoin(path, names);
    }
  }
}
