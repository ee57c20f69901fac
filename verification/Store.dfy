/**
 The store: blobs by CID, and the commits of one bucket, each a list of MMR
 leaves. A store can let other writers commit right after it answers a
 commitment, which is when a root read is exposed to them.
 */
module Stores {
  import opened Wrappers
  import opened Octets
  import opened Format
  import opened Ordered
  import opened Hashing
  import opened Paths
  import opened Plans

  function Flatten(commits: seq<seq<Cid>>): seq<Cid> {
    if commits == [] then [] else commits[0] + Flatten(commits[1..])
  }

  lemma {:induction false} FlattenAppend(commits: seq<seq<Cid>>, last: seq<Cid>)
    ensures Flatten(commits + [last]) == Flatten(commits) + last
    decreases |commits|
  {
    if commits == [] {
      assert commits + [last] == [last];
      assert Flatten([last]) == last + Flatten([last][1..]);
    } else {
      FlattenAppend(commits[1..], last);
      assert (commits + [last])[1..] == commits[1..] + [last];
    }
  }

  /** The last leaf, if there is one. */
  function LastLeafOf(commits: seq<seq<Cid>>): Option<Cid> {
    var leaves := Flatten(commits);
    if leaves == [] then None else Some(leaves[|leaves| - 1])
  }

  class MemoryStore {
    const k: Crypto
    var blobs: Blobs
    var commits: seq<seq<Cid>>
    /** What other writers commit, one after each commitment that is answered. */
    var racing: seq<Bytes>
    /** What is answered to the next proof reads; where there is nothing, the proof of the leaf now. */
    var forged: seq<Option<Hashing.MmrProof>>
    /** Every byte string that was ever addressed by its CID. */
    ghost var seen: set<Bytes>
    /** Everything that was uploaded, in order. */
    ghost var uploads: seq<Bytes>
    /** Every leaf list that was committed to, and every proof that was answered. */
    ghost var trail: Trail

    /** Blobs are stored under their CIDs. */
    ghost predicate Valid()
      reads this
    {
      forall cid <- blobs :: ComputeCid(k, blobs[cid]) == cid && blobs[cid] in seen
    }

    constructor (crypto: Crypto)
      ensures Valid() && k == crypto
      ensures blobs == map[] && commits == [] && racing == [] && forged == []
      ensures seen == {} && trail == Trail({}, {}) && uploads == []
    {
      k, blobs, commits, racing, forged := crypto, map[], [], [], [];
      seen, trail, uploads := {}, Trail({}, {}), [];
    }

    function Leaves(): seq<Cid>
      reads this
    {
      Flatten(commits)
    }

    ghost method Saw(data: Bytes)
      requires Valid()
      modifies this`seen
      ensures Valid() && seen == old(seen) + {data}
    {
      seen := seen + {data};
    }

    /** What another writer does: upload one blob, and commit its CID. */
    method RawCommit(data: Bytes)
      requires Valid()
      modifies this`blobs, this`commits, this`seen, this`uploads
      ensures Valid() && seen == old(seen) + {data}
      ensures blobs == old(blobs)[ComputeCid(k, data) := data]
      ensures commits == old(commits) + [[ComputeCid(k, data)]]
    {
      var cid := PutBlob(data);
      commits := commits + [[cid]];
    }

    method PutBlob(data: Bytes) returns (cid: Cid)
      requires Valid()
      modifies this`blobs, this`seen, this`uploads
      ensures Valid() && seen == old(seen) + {data} && uploads == old(uploads) + [data]
      ensures cid == ComputeCid(k, data) && blobs == old(blobs)[cid := data]
    {
      cid := ComputeCid(k, data);
      blobs := blobs[cid := data];
      seen := seen + {data};
      uploads := uploads + [data];
    }

    method GetBlob(cid: Cid) returns (r: Result<Bytes, FsError>)
      ensures r == if cid in blobs then Ok(blobs[cid]) else Err(MissingBlob(cid))
    {
      r := if cid in blobs then Ok(blobs[cid]) else Err(MissingBlob(cid));
    }

    /** Append the leaves `roots`, whose blobs must all be stored. */
    method Commit(roots: seq<Cid>)
      requires Valid() && forall cid <- roots :: cid in blobs
      modifies this`commits
      ensures commits == old(commits) + [roots]
    {
      commits := commits + [roots];
    }

    /** The commitment to the leaves so far; then a racing writer may commit. */
    method Commitment() returns (r: Option<Hashing.Commitment>)
      requires Valid()
      modifies this`blobs, this`commits, this`racing, this`seen, this`trail, this`uploads
      ensures Valid()
      ensures r.None? <==> old(Leaves()) == []
      ensures r.Some? ==> CommitsTo(k, r.value, old(Leaves()))
      ensures trail == old(trail).Listed(old(Leaves()))
      ensures if old(racing) == [] then blobs == old(blobs) && commits == old(commits) && seen == old(seen)
        && racing == []
              else
                var cid := ComputeCid(k, old(racing)[0]);
                && racing == old(racing)[1..]
                && blobs == old(blobs)[cid := old(racing)[0]]
                && commits == old(commits) + [[cid]]
                && seen == old(seen) + {old(racing)[0]}
    {
      var leaves := Leaves();
      trail := trail.Listed(leaves);
      r := if leaves == [] then None else Some(Hashing.Commitment(k.mmrRoot(leaves), 0, |leaves|));
      if racing != [] {
        RawCommit(racing[0]);
        racing := racing[1..];
      }
    }

    /** A proof of the leaf at `index`, unless the store answers something else. */
    method MmrProof(index: nat) returns (p: Hashing.MmrProof)
      requires index < |Leaves()|
      modifies this`forged, this`trail
      ensures trail == old(trail).Answered(p)
      ensures forged == if old(forged) == [] then [] else old(forged)[1..]
      ensures old(forged) != [] && old(forged)[0].Some? ==> p == old(forged)[0].value
      ensures old(forged) == [] || old(forged)[0].None? ==>
        && p == ProofAt(k, Leaves(), index)
        && forall c :: MmrComplete(k, trail) && Leaves() in trail.lists && CommitsTo(k, c, Leaves())
             ==> k.verifyMmrProof(p, index, c)
    {
      p := ProofAt(k, Leaves(), index);
      if forged != [] {
        if forged[0].Some? {
          p := forged[0].value;
        }
        forged := forged[1..];
      }
      trail := trail.Answered(p);
    }
  }

  // ---- The order of a commit ----

  /** The items of `cids` that are not in `seen`, each once, by first occurrence. */
  function FirstOccurrences(cids: seq<Cid>, seen: set<Cid>): seq<Cid> {
    if cids == [] then []
    else if cids[0] in seen then FirstOccurrences(cids[1..], seen)
    else [cids[0]] + FirstOccurrences(cids[1..], seen + {cids[0]})
  }

  /** What a commit lists: the root at the end, and before it the other CIDs without repetition. */
  function CommitOrder(cids: seq<Cid>): seq<Cid> {
    if cids == [] then []
    else
      var root := cids[|cids| - 1];
      FirstOccurrences(cids[..|cids| - 1], {root}) + [root]
  }

  /** `x` occurs in `xs` first at `i`. */
  ghost predicate FirstAt<T>(xs: seq<T>, x: T, i: nat) {
    i < |xs| && xs[i] == x && x !in xs[..i]
  }

  lemma {:induction false} FirstOccurrencesLaw(cids: seq<Cid>, seen: set<Cid>)
    ensures Distinct(FirstOccurrences(cids, seen))
    ensures forall c :: c in FirstOccurrences(cids, seen) <==> c in cids && c !in seen
    decreases |cids|
  {
    if cids != [] {
      var rest := cids[1..];
      FirstOccurrencesLaw(rest, if cids[0] in seen then seen else seen + {cids[0]});
      assert forall c :: c in cids <==> c == cids[0] || c in rest;
      if cids[0] !in seen {
        assert forall c :: c in FirstOccurrences(rest, seen + {cids[0]}) ==> c != cids[0];
      }
    }
  }

  /** Items come out in the order of their first occurrences. */
  lemma {:induction false} FirstOccurrencesInOrder(cids: seq<Cid>, seen: set<Cid>, i: nat, j: nat, p: nat, q: nat)
    requires i < j < |FirstOccurrences(cids, seen)|
    requires FirstAt(cids, FirstOccurrences(cids, seen)[i], p)
    requires FirstAt(cids, FirstOccurrences(cids, seen)[j], q)
    ensures p < q
    decreases |cids|
  {
    var out := FirstOccurrences(cids, seen);
    var rest := cids[1..];
    FirstOccurrencesLaw(cids, seen);
    if cids[0] in seen {
      assert p > 0 && q > 0;
      assert rest[..p - 1] == cids[..p][1..] && rest[..q - 1] == cids[..q][1..];
      FirstOccurrencesInOrder(rest, seen, i, j, p - 1, q - 1);
    } else if i == 0 {
      assert cids[0] == out[0];
      assert q != 0;
    } else {
      assert out[i] != out[0] && out[j] != out[0];
      assert p > 0 && q > 0;
      assert rest[..p - 1] == cids[..p][1..] && rest[..q - 1] == cids[..q][1..];
      FirstOccurrencesInOrder(rest, seen + {cids[0]}, i - 1, j - 1, p - 1, q - 1);
    }
  }

  /** A commit has each distinct CID once, by first occurrence, with the root last. */
  lemma CommitOrderLaw(cids: seq<Cid>)
    requires cids != []
    ensures var (order, root) := (CommitOrder(cids), cids[|cids| - 1]);
      && Distinct(order)
      && (forall c :: c in order <==> c in cids)
      && order != [] && order[|order| - 1] == root
    ensures var order := CommitOrder(cids);
      forall i, j, p, q :: 0 <= i < j < |order| - 1 && FirstAt(cids, order[i], p) && FirstAt(cids, order[j], q) ==>
        p < q
  {
    var (rest, root) := (cids[..|cids| - 1], cids[|cids| - 1]);
    var order := CommitOrder(cids);
    FirstOccurrencesLaw(rest, {root});
    assert cids == rest + [root];
    forall i, j, p: nat, q: nat | 0 <= i < j < |order| - 1 && FirstAt(cids, order[i], p) && FirstAt(cids, order[j], q)
      ensures p < q
    {
      assert order[i] in FirstOccurrences(rest, {root}) && order[j] in FirstOccurrences(rest, {root});
      assert p < |rest| && q < |rest|;
      assert rest[..p] == cids[..p] && rest[..q] == cids[..q];
      FirstOccurrencesInOrder(rest, {root}, i, j, p, q);
    }
  }
}
