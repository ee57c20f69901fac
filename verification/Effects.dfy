/** What the operations of a tree do to a store, and that this is what they mean on drives. */
module Effects {
  import opened Wrappers
  import opened Octets
  import opened Format
  import opened Ordered
  import opened Hashing
  import opened Manifests
  import opened Paths
  import opened Drives
  import opened Plans
  import opened Represents
  import opened Refinement
  import opened OperationRefinement
  import opened Reads
  import opened Stores

  function CidOnly(r: Result<(Cid, FileStat), FsError>): Result<Cid, FsError> {
    match r
    case Err(e) => Err(e)
    case Ok((cid, _)) => Ok(cid)
  }

  ghost function CidsOf(k: Crypto, blobs: seq<Bytes>): (cids: seq<Cid>)
    ensures |cids| == |blobs|
    ensures forall i | 0 <= i < |cids| :: cids[i] == ComputeCid(k, blobs[i])
  {
    if blobs == [] then [] else [ComputeCid(k, blobs[0])] + CidsOf(k, blobs[1..])
  }

  /** The blobs that are uploaded, in order: each CID only once. */
  ghost function FirstBlobs(k: Crypto, items: seq<Bytes>): seq<Bytes> {
    if items == [] then []
    else
      var (init, last) := (items[..|items| - 1], items[|items| - 1]);
      FirstBlobs(k, init) + if ComputeCid(k, last) in CidsOf(k, init) then [] else [last]
  }

  lemma OneMoreBlob(k: Crypto, items: seq<Bytes>, b: Bytes)
    ensures CidsOf(k, items + [b]) == CidsOf(k, items) + [ComputeCid(k, b)]
    ensures FirstBlobs(k, items + [b]) ==
      FirstBlobs(k, items) + if ComputeCid(k, b) in CidsOf(k, items) then [] else [b]
  {
    hide ComputeCid, CidsOf;
    assert (items + [b])[..|items|] == items;
  }

  lemma NoBlobs(k: Crypto)
    ensures FirstBlobs(k, []) == [] && CidsOf(k, []) == []
  {
  }

  /** The leaves that a plan commits. */
  ghost function LeavesOf(k: Crypto, plan: Plan): seq<Cid> {
    CommitOrder(CidsOf(k, plan.blobs + [plan.root]))
  }

  /** The entry and manifest that writing a file answers. */
  ghost predicate IsStatOfPut(
    ctx: Context, path: Bytes, data: Bytes, contentType: Bytes, userMetadata: UserMetadata, clock: Clock,
    stat: FileStat)
  {
    && ForContent(ctx.k, ctx.bucketId, data, contentType, userMetadata) == Ok(stat.manifest)
    && NamesBelowRoot(path, NotAFile(path)).Ok?
    && stat.entry == FileEntry(ctx.k, Last(NamesBelowRoot(path, NotAFile(path)).value), stat.manifest, |data|,
      clock.first)
  }

  /** What operations change in a store. */
  datatype Snapshot = Snapshot(blobs: Blobs, commits: seq<seq<Cid>>, seen: set<Bytes>, trail: Trail)

  /** What other writers commit during the next root reads, and what the store answers instead of proofs. */
  datatype Around = Around(racing: seq<Bytes>, forged: seq<Option<MmrProof>>)

  /** Blobs are stored under their CIDs, and were seen. */
  ghost predicate Keyed(k: Crypto, s: Snapshot) {
    forall cid <- s.blobs :: ComputeCid(k, s.blobs[cid]) == cid && s.blobs[cid] in s.seen
  }

  /** The state in which an operation read the root, after any commits of other writers, and the leaf it found. */
  datatype RootSeen = RootSeen(state: Snapshot, leaf: Option<Cid>)

  /** `s` after another writer has committed `data`. */
  function Raced(k: Crypto, s: Snapshot, data: Bytes): Snapshot {
    var cid := ComputeCid(k, data);
    s.(blobs := s.blobs[cid := data], commits := s.commits + [[cid]], seen := s.seen + {data})
  }

  /** `s` after other writers have committed `racing`. */
  function AllRaced(k: Crypto, s: Snapshot, racing: seq<Bytes>): Snapshot
    decreases |racing|
  {
    if racing == [] then s else AllRaced(k, Raced(k, s, racing[0]), racing[1..])
  }

  /** A root read, which lets at most two racing commits happen, turns `before` into `state`. */
  ghost predicate Interleaved(k: Crypto, before: Snapshot, racing: seq<Bytes>, state: Snapshot) {
    && before.trail.Within(state.trail)
    && exists n: nat {:trigger racing[..n]} ::
         n <= 2 && n <= |racing| && state == AllRaced(k, before, racing[..n]).(trail := state.trail)
  }

  /** One root read lets the next racing writer commit, and uses up one answer to a proof read, or none. */
  ghost predicate OneRead(k: Crypto, before: Snapshot, around: Around, state: Snapshot, left: Around) {
    && before.trail.Within(state.trail)
    && (left.forged == around.forged || left.forged == Tail(around.forged))
    && left.racing == Tail(around.racing)
    && state.(trail := before.trail) == if around.racing == [] then before else Raced(k, before, around.racing[0])
  }

  function Tail<T>(xs: seq<T>): seq<T> { if xs == [] then [] else xs[1..] }

  lemma OneReadInterleaves(k: Crypto, before: Snapshot, around: Around, state: Snapshot, left: Around)
    requires OneRead(k, before, around, state, left)
    ensures Interleaved(k, before, around.racing, state)
  {
    hide Raced;
    var n := if around.racing == [] then 0 else 1;
    var racing := around.racing[..n];
    assert n == 1 ==> racing[1..] == [];
    assert state == AllRaced(k, before, racing).(trail := state.trail);
  }

  lemma TwoReadsInterleave(
    k: Crypto, before: Snapshot, around: Around, between: Snapshot, left: Around, state: Snapshot, after: Around)
    requires OneRead(k, before, around, between, left) && OneRead(k, between, left, state, after)
    ensures Interleaved(k, before, around.racing, state)
    ensures WasLast(before, RootSeen(state, LastLeafOf(between.commits)))
    ensures before.trail.Within(state.trail)
  {
    hide ComputeCid, LastLeafOf;
    var n := if around.racing == [] then 0 else if |around.racing| == 1 then 1 else 2;
    var racing: seq<Bytes> := around.racing[..n];
    if n == 0 {
      assert state == AllRaced(k, before, racing).(trail := state.trail);
    } else {
      var (first, rest) := (Raced(k, before, racing[0]), racing[1..]);
      assert first == between.(trail := before.trail);
      assert AllRaced(k, before, racing) == AllRaced(k, first, rest);
      if n == 2 {
        assert rest == [around.racing[1]];
        assert rest[1..] == [];
        assert AllRaced(k, first, rest) == Raced(k, first, rest[0]);
      }
      assert state == AllRaced(k, before, racing).(trail := state.trail);
      assert state.commits[..|before.commits| + 1] == between.commits;
    }
  }

  /** The leaf was the last one when the first or the second commitment was read. */
  ghost predicate WasLast(before: Snapshot, seen: RootSeen) {
    || seen.leaf == LastLeafOf(before.commits)
    || (|seen.state.commits| > |before.commits|
        && seen.leaf == LastLeafOf(seen.state.commits[..|before.commits| + 1]))
  }

  /** The leaf is the right one: for any proofs if they are sound, and without that if none is forged. */
  ghost predicate RightLeaf(k: Crypto, around: Around, before: Snapshot, seen: RootSeen) {
    MmrSound(k, seen.state.trail) || around.forged == [] ==> WasLast(before, seen)
  }

  /** A root read may leave and find this: the right leaf, or any leaf if proofs are forged. */
  ghost predicate MayFind(k: Crypto, around: Around, before: Snapshot, seen: RootSeen) {
    Interleaved(k, before, around.racing, seen.state) && RightLeaf(k, around, before, seen)
  }

  lemma NothingRaced(k: Crypto, before: Snapshot, around: Around)
    ensures Interleaved(k, before, around.racing, before)
  {
    hide Raced;
    assert around.racing[..0] == [];
    assert before == AllRaced(k, before, around.racing[..0]).(trail := before.trail);
  }

  /** The root read number `i` can fail: another writer commits during it, or its proof is forged. */
  predicate CanFail(around: Around, i: nat) {
    i < |around.racing| || (i < |around.forged| && around.forged[i].Some?)
  }

  /** Both root reads failed, which takes a race or a forged proof in each. */
  ghost predicate LostBoth<T>(k: Crypto, around: Around, state: Snapshot, r: Result<T, FsError>) {
    && r == Err(InvalidMmrProof)
    && (MmrComplete(k, state.trail) ==> CanFail(around, 0) && CanFail(around, 1))
  }

  /** The last leaf of `s` is the drive. */
  ghost predicate IsDrive(ctx: Context, s: Snapshot, drive: Drive) {
    RepDrive(ctx, s.blobs, LastLeafOf(s.commits), drive)
  }

  /** Exactly the blobs of the plan were uploaded, and one commit has their CIDs, each once, the root last. */
  ghost predicate Wrote(k: Crypto, plan: Plan, before: Snapshot, after: Snapshot) {
    && after.commits == before.commits + [LeavesOf(k, plan)]
    && after.seen == before.seen + (set b | b in plan.blobs + [plan.root])
    && after.blobs.Keys == before.blobs.Keys + (set c | c in CidsOf(k, plan.blobs + [plan.root]))
    && after.trail == before.trail
  }

  /**
   The operation failed as its plan and changed nothing, or it uploaded exactly the
   blobs of the plan and committed them in one commit with the root last.
   */
  ghost predicate Done(
    ctx: Context, op: Operation, clock: Clock, r: Result<Cid, FsError>, seen: RootSeen, after: Snapshot)
  {
    match PlanOf(ctx, seen.state.blobs, seen.leaf, op, clock)
    case Err(e) => r == Err(e) && after == seen.state
    case Ok(plan) => r == Ok(ComputeCid(ctx.k, plan.root)) && Wrote(ctx.k, plan, seen.state, after)
  }

  /** An operation from `before`, with other writers that commit during its root read, and proofs of any kind. */
  ghost predicate DoneAmong(
    ctx: Context, op: Operation, clock: Clock, r: Result<Cid, FsError>, before: Snapshot, around: Around,
    seen: RootSeen, after: Snapshot)
  {
    && Interleaved(ctx.k, before, around.racing, seen.state)
    && ((LostBoth(ctx.k, around, seen.state, r) && after == seen.state)
        || (RightLeaf(ctx.k, around, before, seen) && Done(ctx, op, clock, r, seen, after)))
  }

  /**
   The operation failed as on the drive and changed nothing, or the bucket has one
   commit more, of distinct leaves, that ends in the root of the changed drive.
   */
  ghost predicate Performed(
    ctx: Context, op: Operation, clock: Clock, drive: Drive, r: Result<Cid, FsError>, before: Snapshot, after: Snapshot)
  {
    match Apply(ctx.k, ctx.bucketId, op, clock, drive)
    case Err(e) => r == Err(e) && after == before
    case Ok(drive') =>
      && r.Ok?
      && |after.commits| == |before.commits| + 1 && before.commits <= after.commits
      && Distinct(after.commits[|before.commits|])
      && LastLeafOf(after.commits) == Some(r.value)
      && (NoCollision(ctx.k, after.seen) ==> Extends(before.blobs, after.blobs) && IsDrive(ctx, after, drive'))
  }

  /** The operation is performed on whatever drive the leaf was, unless both root reads failed. */
  ghost predicate PerformedAmong(
    ctx: Context, op: Operation, clock: Clock, drive: Drive, r: Result<Cid, FsError>, around: Around,
    seen: RootSeen, after: Snapshot)
  {
    RepDrive(ctx, seen.state.blobs, seen.leaf, drive) ==>
      (LostBoth(ctx.k, around, seen.state, r) && after == seen.state)
      || Performed(ctx, op, clock, drive, r, seen.state, after)
  }

  /** Doing the plan performs the operation on whatever drive the leaf was. */
  lemma DoneIsPerformed(
    ctx: Context, op: Operation, clock: Clock, drive: Drive, r: Result<Cid, FsError>, seen: RootSeen, after: Snapshot)
    requires Keyed(ctx.k, seen.state) && Keyed(ctx.k, after)
    requires RepDrive(ctx, seen.state.blobs, seen.leaf, drive) && Done(ctx, op, clock, r, seen, after)
    ensures Performed(ctx, op, clock, drive, r, seen.state, after)
  {
    hide PlanOf, Apply, RepDrive, ComputeCid, Flatten, CommitOrder, Distinct, RootRep, Stored;
    var (before, leaf) := (seen.state, seen.leaf);
    PlanRefinesApply(ctx, before.blobs, before.blobs, leaf, drive, op, clock);
    var planned := PlanOf(ctx, before.blobs, leaf, op, clock);
    if planned.Ok? {
      var plan := planned.value;
      CommitOrderLaw(CidsOf(ctx.k, plan.blobs + [plan.root]));
      FlattenAppend(before.commits, LeavesOf(ctx.k, plan));
      if NoCollision(ctx.k, after.seen) {
        GrowsWithoutCollision(ctx.k, before, after);
        StoredWithoutCollision(ctx.k, plan, after);
        PlanRefinesApply(ctx, before.blobs, after.blobs, leaf, drive, op, clock);
        RootRepIsDrive(ctx, after, plan, Apply(ctx.k, ctx.bucketId, op, clock, drive).value);
      }
    }
  }

  lemma RootRepIsDrive(ctx: Context, s: Snapshot, plan: Plan, drive: Drive)
    requires RootRep(ctx, s.blobs, plan, drive) && LastLeafOf(s.commits) == Some(ComputeCid(ctx.k, plan.root))
    ensures IsDrive(ctx, s, drive)
  {
    hide RepDrive, ComputeCid, LastLeafOf;
  }

  lemma GrowsWithoutCollision(k: Crypto, before: Snapshot, after: Snapshot)
    requires Keyed(k, before) && Keyed(k, after) && NoCollision(k, after.seen)
    requires before.seen <= after.seen && before.blobs.Keys <= after.blobs.Keys
    ensures Extends(before.blobs, after.blobs)
  {
    hide ComputeCid;
    forall cid | cid in before.blobs ensures cid in after.blobs && after.blobs[cid] == before.blobs[cid] {
      assert cid in before.blobs.Keys;
      assert ComputeCid(k, before.blobs[cid]) == ComputeCid(k, after.blobs[cid]);
    }
  }

  lemma StoredWithoutCollision(k: Crypto, plan: Plan, after: Snapshot)
    requires Keyed(k, after) && NoCollision(k, after.seen)
    requires (set b | b in plan.blobs + [plan.root]) <= after.seen
    requires (set c | c in CidsOf(k, plan.blobs + [plan.root])) <= after.blobs.Keys
    ensures PlanStored(k, after.blobs, plan)
  {
    hide ComputeCid;
    var all := plan.blobs + [plan.root];
    forall i | 0 <= i < |all| ensures Stored(k, after.blobs, all[i]) {
      assert all[i] in after.seen;
      assert CidsOf(k, all)[i] in (set c | c in CidsOf(k, all));
      var cid := ComputeCid(k, all[i]);
      assert cid in after.blobs.Keys;
      assert ComputeCid(k, after.blobs[cid]) == ComputeCid(k, all[i]);
    }
    assert all[|plan.blobs|] == plan.root;
    forall b | b in plan.blobs ensures Stored(k, after.blobs, b) {
      var i :| 0 <= i < |plan.blobs| && plan.blobs[i] == b;
      assert all[i] == b;
    }
  }

  /** The same, for every result. */
  lemma PerformedIfDone(ctx: Context, op: Operation, clock: Clock, drive: Drive, seen: RootSeen)
    requires Keyed(ctx.k, seen.state)
    ensures forall r, after {:trigger Done(ctx, op, clock, r, seen, after)} ::
      RepDrive(ctx, seen.state.blobs, seen.leaf, drive) && Keyed(ctx.k, after) && Done(ctx, op, clock, r, seen, after)
      ==> Performed(ctx, op, clock, drive, r, seen.state, after)
  {
    hide Done, Performed, RepDrive, Keyed;
    forall r, after
      | RepDrive(ctx, seen.state.blobs, seen.leaf, drive) && Keyed(ctx.k, after) && Done(ctx, op, clock, r, seen, after)
      ensures Performed(ctx, op, clock, drive, r, seen.state, after)
    {
      DoneIsPerformed(ctx, op, clock, drive, r, seen, after);
    }
  }
}
