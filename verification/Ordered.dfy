/**
 Sequences in strictly ascending order of a byte-string key: they are determined
 by their elements, they are searched by halving, and they denote a map.
 */
module Ordered {
  import opened Octets

  ghost predicate Distinct<T>(xs: seq<T>) {
    forall i, j | 0 <= i < j < |xs| :: xs[i] != xs[j]
  }

  ghost predicate Sorted<T>(key: T -> Bytes, xs: seq<T>) {
    forall i, j | 0 <= i < j < |xs| :: Less(key(xs[i]), key(xs[j]))
  }

  /** What a check of neighbours sees. */
  predicate AdjacentSorted<T>(key: T -> Bytes, xs: seq<T>) {
    forall i | 0 <= i < |xs| - 1 :: Less(key(xs[i]), key(xs[i + 1]))
  }

  lemma {:induction false} AdjacentIsSorted<T>(key: T -> Bytes, xs: seq<T>)
    ensures AdjacentSorted(key, xs) <==> Sorted(key, xs)
    decreases |xs|
  {
    if AdjacentSorted(key, xs) && |xs| > 1 {
      var init := xs[..|xs| - 1];
      AdjacentIsSorted(key, init);
      var last := |xs| - 1;
      forall i | 0 <= i < last
        ensures Less(key(xs[i]), key(xs[last]))
      {
        if i < last - 1 {
          assert Less(key(init[i]), key(init[last - 1]));
          LessTransitive(key(xs[i]), key(xs[last - 1]), key(xs[last]));
        }
      }
      assert forall i, j | 0 <= i < j < last :: Less(key(init[i]), key(init[j]));
    }
  }

  lemma SortedDistinct<T>(key: T -> Bytes, xs: seq<T>, i: nat, j: nat)
    requires Sorted(key, xs) && i < |xs| && j < |xs| && key(xs[i]) == key(xs[j])
    ensures i == j
  {
    LessIrreflexive(key(xs[i]));
  }

  lemma {:induction false} SortedIsDetermined<T>(key: T -> Bytes, a: seq<T>, b: seq<T>)
    requires Sorted(key, a) && Sorted(key, b)
    requires forall x {:trigger x in a} {:trigger x in b} :: x in a <==> x in b
    ensures a == b
    decreases |a|
  {
    if a == [] {
      if b != [] { HeadIsMember(b); assert false; }
    } else {
      assert a[0] in a && a[0] in b;
      var i :| 0 <= i < |b| && b[i] == a[0];
      assert b[0] in b && b[0] in a;
      var j :| 0 <= j < |a| && a[j] == b[0];
      if i != 0 {
        assert Less(key(b[0]), key(b[i]));
        assert j != 0 ==> Less(key(a[0]), key(a[j]));
        if j != 0 { LessAsymmetric(key(a[0]), key(b[0])); } else { LessIrreflexive(key(a[0])); }
        assert false;
      }
      SameTail(key, a, b);
      SortedIsDetermined(key, a[1..], b[1..]);
      assert a == [a[0]] + a[1..] && b == [b[0]] + b[1..];
    }
  }

  lemma HeadIsMember<T>(xs: seq<T>)
    requires xs != []
    ensures xs[0] in xs
  {
  }

  lemma SameTail<T>(key: T -> Bytes, a: seq<T>, b: seq<T>)
    requires Sorted(key, a) && Sorted(key, b) && a != [] && b != [] && a[0] == b[0]
    requires forall x {:trigger x in a} :: x in a <==> x in b
    ensures forall x {:trigger x in a[1..]} {:trigger x in b[1..]} :: x in a[1..] <==> x in b[1..]
  {
    forall x | x in a[1..] ensures x in b[1..] { TailMember(key, a, b, x); }
    assert forall x :: x in b <==> x in a;
    forall x | x in b[1..] ensures x in a[1..] { TailMember(key, b, a, x); }
  }

  lemma TailMember<T>(key: T -> Bytes, a: seq<T>, b: seq<T>, x: T)
    requires Sorted(key, a) && a != [] && b != [] && a[0] == b[0] && x in a[1..]
    requires forall x {:trigger x in a} :: x in a ==> x in b
    ensures x in b[1..]
  {
    var i :| 0 < i < |a| && a[i] == x;
    LessIrreflexive(key(x));
    assert x != a[0];
    assert x in a;
    var j :| 0 <= j < |b| && b[j] == x;
    assert b[1..][j - 1] == x;
  }

  /** The number of items with a smaller key: where `k` is, or belongs. */
  function LowerBound<T>(key: T -> Bytes, xs: seq<T>, k: Bytes): (p: nat)
    ensures p <= |xs|
    ensures forall i | 0 <= i < p :: Less(key(xs[i]), k)
    ensures p < |xs| ==> !Less(key(xs[p]), k)
  {
    if xs == [] || !Less(key(xs[0]), k) then 0
    else
      var p := LowerBound(key, xs[1..], k);
      assert forall i | 0 < i < p + 1 :: xs[i] == xs[1..][i - 1];
      p + 1
  }

  lemma LowerBoundIsUnique<T>(key: T -> Bytes, xs: seq<T>, k: Bytes, p: nat)
    requires p <= |xs|
    requires forall i | 0 <= i < p :: Less(key(xs[i]), k)
    requires p < |xs| ==> !Less(key(xs[p]), k)
    ensures LowerBound(key, xs, k) == p
  {
  }

  /** Items from the lower bound on have keys that are not smaller. */
  lemma AboveLowerBound<T>(key: T -> Bytes, xs: seq<T>, k: Bytes, i: nat)
    requires Sorted(key, xs) && LowerBound(key, xs, k) <= i < |xs|
    ensures key(xs[i]) == k ==> i == LowerBound(key, xs, k)
    ensures key(xs[i]) != k ==> Less(k, key(xs[i]))
  {
    var p := LowerBound(key, xs, k);
    LessTotal(key(xs[p]), k);
    LessTotal(key(xs[i]), k);
    if p < i {
      assert Less(key(xs[p]), key(xs[i]));
      if Less(k, key(xs[p])) { LessTransitive(k, key(xs[p]), key(xs[i])); }
      LessAsymmetric(k, key(xs[i]));
    }
  }

  // ---- The map that a sorted sequence denotes ----

  function ByKey<T>(key: T -> Bytes, xs: seq<T>): map<Bytes, T> {
    if xs == [] then map[] else ByKey(key, xs[1..])[key(xs[0]) := xs[0]]
  }

  lemma {:induction false} ByKeyIndex<T>(key: T -> Bytes, xs: seq<T>, k: Bytes) returns (i: nat)
    requires k in ByKey(key, xs)
    ensures i < |xs| && xs[i] == ByKey(key, xs)[k] && key(xs[i]) == k
    decreases |xs|
  {
    if key(xs[0]) == k {
      i := 0;
    } else {
      var j := ByKeyIndex(key, xs[1..], k);
      i := j + 1;
    }
  }

  lemma {:induction false} ByKeyAt<T>(key: T -> Bytes, xs: seq<T>, i: nat)
    requires Sorted(key, xs) && i < |xs|
    ensures key(xs[i]) in ByKey(key, xs) && ByKey(key, xs)[key(xs[i])] == xs[i]
    decreases |xs|
  {
    if i > 0 {
      ByKeyAt(key, xs[1..], i - 1);
      if key(xs[i]) == key(xs[0]) { SortedDistinct(key, xs, 0, i); }
    }
  }

  lemma ByKeySearch<T>(key: T -> Bytes, xs: seq<T>, k: Bytes)
    requires Sorted(key, xs)
    ensures var p := LowerBound(key, xs, k);
      (k in ByKey(key, xs) <==> p < |xs| && key(xs[p]) == k) &&
      (k in ByKey(key, xs) ==> ByKey(key, xs)[k] == xs[p])
  {
    var p := LowerBound(key, xs, k);
    if p < |xs| && key(xs[p]) == k { ByKeyAt(key, xs, p); }
    if k in ByKey(key, xs) {
      var i := ByKeyIndex(key, xs, k);
      if i < p { LessIrreflexive(k); }
      AboveLowerBound(key, xs, k, i);
    }
  }

  lemma {:induction false} ByKeySize<T>(key: T -> Bytes, xs: seq<T>)
    requires Sorted(key, xs)
    ensures |ByKey(key, xs)| == |xs|
    decreases |xs|
  {
    if xs != [] {
      ByKeySize(key, xs[1..]);
      if key(xs[0]) in ByKey(key, xs[1..]) {
        var i := ByKeyIndex(key, xs[1..], key(xs[0]));
        SortedDistinct(key, xs, 0, i + 1);
      }
    }
  }

  /** A sorted sequence is the only one that denotes its map. */
  lemma ByKeyIsDetermined<T>(key: T -> Bytes, a: seq<T>, b: seq<T>)
    requires Sorted(key, a) && Sorted(key, b) && ByKey(key, a) == ByKey(key, b)
    ensures a == b
  {
    forall x | x in a ensures x in b { ByKeyMember(key, a, b, x); }
    forall x | x in b ensures x in a { ByKeyMember(key, b, a, x); }
    SortedIsDetermined(key, a, b);
  }

  lemma ByKeyMember<T>(key: T -> Bytes, a: seq<T>, b: seq<T>, x: T)
    requires Sorted(key, a) && x in a && ByKey(key, a) == ByKey(key, b)
    ensures x in b
  {
    var i :| 0 <= i < |a| && a[i] == x;
    ByKeyAt(key, a, i);
    var j := ByKeyIndex(key, b, key(x));
  }

  /** What it takes for `m` to be the map of `xs`: each item is bound, and nothing else is. */
  lemma IsByKey<T>(key: T -> Bytes, xs: seq<T>, m: map<Bytes, T>)
    requires Sorted(key, xs)
    requires forall i | 0 <= i < |xs| :: key(xs[i]) in m && m[key(xs[i])] == xs[i]
    requires forall k <- m :: exists i :: 0 <= i < |xs| && key(xs[i]) == k
    ensures ByKey(key, xs) == m
  {
    hide ByKey, Less;
    forall k | k in m ensures k in ByKey(key, xs) && ByKey(key, xs)[k] == m[k] {
      var i :| 0 <= i < |xs| && key(xs[i]) == k;
      ByKeyAt(key, xs, i);
    }
    forall k | k in ByKey(key, xs) ensures k in m {
      var i := ByKeyIndex(key, xs, k);
    }
  }

  // ---- Update and removal ----

  /** Replace the item with `x`'s key, or insert `x` where it belongs. */
  function Upsert<T>(key: T -> Bytes, xs: seq<T>, x: T): seq<T> {
    var p := LowerBound(key, xs, key(x));
    if p < |xs| && key(xs[p]) == key(x) then xs[p := x] else xs[..p] + [x] + xs[p..]
  }

  function Without<T>(key: T -> Bytes, xs: seq<T>, k: Bytes): seq<T> {
    var p := LowerBound(key, xs, k);
    if p < |xs| && key(xs[p]) == k then Drop(xs, p) else xs
  }

  lemma UpsertSorted<T>(key: T -> Bytes, xs: seq<T>, x: T)
    requires Sorted(key, xs)
    ensures Sorted(key, Upsert(key, xs, x))
  {
    var p := LowerBound(key, xs, key(x));
    if !(p < |xs| && key(xs[p]) == key(x)) {
      forall i | p <= i < |xs| ensures Less(key(x), key(xs[i])) {
        AboveLowerBound(key, xs, key(x), i);
      }
    }
  }

  lemma UpsertIsUpdate<T>(key: T -> Bytes, xs: seq<T>, x: T)
    requires Sorted(key, xs)
    ensures ByKey(key, Upsert(key, xs, x)) == ByKey(key, xs)[key(x) := x]
  {
    hide ByKey, Less;
    var p := LowerBound(key, xs, key(x));
    var ys, m := Upsert(key, xs, x), ByKey(key, xs)[key(x) := x];
    UpsertSorted(key, xs, x);
    assert ys[p] == x;
    forall j | 0 <= j < |ys| ensures key(ys[j]) in m && m[key(ys[j])] == ys[j] {
      if j != p {
        if key(ys[j]) == key(x) { SortedDistinct(key, ys, j, p); }
        ByKeyAt(key, xs, if |ys| == |xs| || j < p then j else j - 1);
      }
    }
    forall k | k in m ensures exists j :: 0 <= j < |ys| && key(ys[j]) == k {
      if k == key(x) {
        assert key(ys[p]) == k;
      } else {
        var i := ByKeyIndex(key, xs, k);
        assert ys[if |ys| == |xs| || i < p then i else i + 1] == xs[i];
      }
    }
    IsByKey(key, ys, m);
  }

  lemma WithoutSorted<T>(key: T -> Bytes, xs: seq<T>, k: Bytes)
    requires Sorted(key, xs)
    ensures Sorted(key, Without(key, xs, k))
  {
  }

  lemma WithoutIsRemoval<T>(key: T -> Bytes, xs: seq<T>, k: Bytes)
    requires Sorted(key, xs)
    ensures ByKey(key, Without(key, xs, k)) == ByKey(key, xs) - {k}
  {
    ByKeySearch(key, xs, k);
    var p := LowerBound(key, xs, k);
    if p < |xs| && key(xs[p]) == k {
      DropIsRemoval(key, xs, p);
    }
  }

  function Drop<T>(xs: seq<T>, p: nat): (ys: seq<T>)
    requires p < |xs|
    ensures |ys| == |xs| - 1
    ensures forall j | 0 <= j < |ys| :: ys[j] == xs[if j < p then j else j + 1]
  {
    xs[..p] + xs[p + 1..]
  }

  lemma DropIsRemoval<T>(key: T -> Bytes, xs: seq<T>, p: nat)
    requires Sorted(key, xs) && p < |xs|
    ensures ByKey(key, Drop(xs, p)) == ByKey(key, xs) - {key(xs[p])}
  {
    hide Less, ByKey, Drop;
    var ys, m := Drop(xs, p), ByKey(key, xs) - {key(xs[p])};
    forall j | 0 <= j < |ys| ensures key(ys[j]) in m && m[key(ys[j])] == ys[j] {
      DropKeeps(key, xs, p, if j < p then j else j + 1);
    }
    forall k | k in m ensures exists j :: 0 <= j < |ys| && key(ys[j]) == k {
      var i := ByKeyIndex(key, xs, k);
      assert ys[if i < p then i else i - 1] == xs[i];
    }
    assert Sorted(key, ys);
    IsByKey(key, ys, m);
  }

  lemma DropKeeps<T>(key: T -> Bytes, xs: seq<T>, p: nat, i: nat)
    requires Sorted(key, xs) && p < |xs| && i < |xs| && i != p
    ensures key(xs[i]) != key(xs[p]) && key(xs[i]) in ByKey(key, xs) && ByKey(key, xs)[key(xs[i])] == xs[i]
  {
    ByKeyAt(key, xs, i);
    if key(xs[i]) == key(xs[p]) { SortedDistinct(key, xs, i, p); }
  }

  // ---- Sorting ----

  function Insert<T>(key: T -> Bytes, x: T, xs: seq<T>): seq<T> {
    if xs == [] || !Less(key(xs[0]), key(x)) then [x] + xs else [xs[0]] + Insert(key, x, xs[1..])
  }

  /** A stable sort by key. */
  function Sort<T>(key: T -> Bytes, xs: seq<T>): seq<T> {
    if xs == [] then [] else Insert(key, xs[0], Sort(key, xs[1..]))
  }

  ghost predicate Ascending<T>(key: T -> Bytes, xs: seq<T>) {
    forall i, j | 0 <= i < j < |xs| :: !Less(key(xs[j]), key(xs[i]))
  }

  lemma {:induction false} InsertAscending<T>(key: T -> Bytes, x: T, xs: seq<T>)
    requires Ascending(key, xs)
    ensures Ascending(key, Insert(key, x, xs))
    ensures multiset(Insert(key, x, xs)) == multiset(xs) + multiset{x}
    decreases |xs|
  {
    hide Less;
    var ys := Insert(key, x, xs);
    if xs == [] {
    } else if !Less(key(xs[0]), key(x)) {
      forall i | 0 <= i < |xs| ensures !Less(key(xs[i]), key(x)) {
        if Less(key(xs[i]), key(x)) {
          LessTotal(key(xs[0]), key(xs[i]));
          if Less(key(xs[0]), key(xs[i])) { LessTransitive(key(xs[0]), key(xs[i]), key(x)); }
        }
      }
    } else {
      InsertAscending(key, x, xs[1..]);
      assert xs == [xs[0]] + xs[1..];
      forall j | 0 < j < |ys| ensures !Less(key(ys[j]), key(xs[0])) {
        assert ys[j] == ys[1..][j - 1];
        assert ys[j] in multiset(xs[1..]) + multiset{x};
        if ys[j] == x { LessAsymmetric(key(xs[0]), key(x)); }
      }
      assert forall i | 0 < i < |ys| :: ys[i] == ys[1..][i - 1];
    }
  }

  lemma {:induction false} SortAscending<T>(key: T -> Bytes, xs: seq<T>)
    ensures Ascending(key, Sort(key, xs))
    ensures multiset(Sort(key, xs)) == multiset(xs)
    decreases |xs|
  {
    if xs != [] {
      SortAscending(key, xs[1..]);
      InsertAscending(key, xs[0], Sort(key, xs[1..]));
      assert xs == [xs[0]] + xs[1..];
    }
  }
}
