/**
 Any number of writers on one bucket. Each call to the store is one atomic step, a
 writer may stop after any of them, and steps of different writers interleave in
 any order. The store keeps blobs and commits, but may answer anything for a proof;
 only these writers commit to the bucket.
 */
module Writers {
  import opened Wrappers
  import opened Octets
  import opened Format
  import opened Ordered
  import opened Hashing
  import opened Directories
  import opened Paths
  import opened Drives
  import opened Plans
  import opened Represents
  import opened Refinement
  import opened OperationRefinement
  import opened Stores
  import opened Effects
  import opened Settling
  import opened Reachability

  /**
   How many commits there were when a commitment was read and when its proof was, and
   whether that was the store's own.
   */
  datatype RootRead = RootRead(atCommitment: nat, atProof: nat, honest: bool)

  /** The next call of a writer. `base` counts the commits before the commitment that was read. */
  datatype Phase =
    | AskCommitment
    | AskProof(commitment: Commitment, base: nat)
    | Reading(leaf: Option<Cid>, base: nat, read: Blobs)
    | Uploading(plan: Plan, base: nat, done: nat)

  datatype Writer = Writer(op: Operation, clock: Clock, failed: seq<RootRead>, phase: Phase)

  /** An operation that ended, and the root it started from. */
  datatype Event = Event(op: Operation, clock: Clock, base: nat, failed: seq<RootRead>, result: Result<Cid, FsError>)

  /** The store, the writers at work, and what was done so far. */
  datatype World = World(
    blobs: Blobs, commits: seq<seq<Cid>>, seen: set<Bytes>, trail: Trail, writers: map<nat, Writer>, events: seq<Event>)

  /** A writer begins, makes its next call, or stops; `Answer` is a call for a proof that gets any answer. */
  datatype Action =
    | Begin(id: nat, op: Operation, clock: Clock)
    | Proceed(id: nat)
    | Answer(id: nat, proof: MmrProof)
    | Stop(id: nat)

  const NOTHING := World(map[], [], {}, Trail({}, {}), map[], [])

  // ---- Steps ----

  function Now(w: World, id: nat, wr: Writer, phase: Phase): World {
    w.(writers := w.writers[id := wr.(phase := phase)])
  }

  function Finish(w: World, id: nat, wr: Writer, base: nat, result: Result<Cid, FsError>): World {
    w.(writers := w.writers - {id}, events := w.events + [Event(wr.op, wr.clock, base, wr.failed, result)])
  }

  function CommitmentOf(k: Crypto, commits: seq<seq<Cid>>): Commitment {
    var leaves := Flatten(commits);
    Commitment(k.mmrRoot(leaves), 0, |leaves|)
  }

  function StepCommitment(k: Crypto, w: World, id: nat, wr: Writer): World {
    var (base, leaves) := (|w.commits|, Flatten(w.commits));
    Now(w.(trail := w.trail.Listed(leaves)), id, wr,
        if leaves == [] then Reading(None, base, map[]) else AskProof(CommitmentOf(k, w.commits), base))
  }

  /** The proof that the store makes from its leaves, if it has one at the index. */
  function OwnProof(k: Crypto, w: World, c: Commitment): Option<MmrProof> {
    var leaves := Flatten(w.commits);
    if 0 < c.leafCount <= |leaves| then Some(ProofAt(k, leaves, c.leafCount - 1)) else None
  }

  /** The answer to a proof read: with an invalid one the root is read once more. */
  function StepProof(k: Crypto, w: World, id: nat, wr: Writer, proof: MmrProof, honest: bool): World
    requires wr.phase.AskProof?
  {
    var (c, base, seen) := (wr.phase.commitment, wr.phase.base, w.(trail := w.trail.Answered(proof)));
    if c.leafCount > 0 && k.verifyMmrProof(proof, c.leafCount - 1, c)
    then Now(seen, id, wr, Reading(Some(proof.leaf), base, map[]))
    else
      var again := wr.(failed := wr.failed + [RootRead(base, |w.commits|, honest)]);
      if |again.failed| == 1 then Now(seen, id, again, AskCommitment)
      else Finish(seen, id, again, base, Err(InvalidMmrProof))
  }

  /** Read the next blob that the operation needs, or go on with what was read. */
  function StepRead(ctx: Context, w: World, id: nat, wr: Writer): World
    requires wr.phase.Reading?
  {
    var Reading(leaf, base, read) := wr.phase;
    match PlanOf(ctx, read, leaf, wr.op, wr.clock)
    case Ok(plan) => Now(w, id, wr, Uploading(plan, base, 0))
    case Err(e) =>
      if e.MissingBlob? && e.cid !in read && e.cid in w.blobs
      then Now(w, id, wr, Reading(leaf, base, read[e.cid := w.blobs[e.cid]]))
      else Finish(w, id, wr, base, Err(e))
  }

  function AllBlobs(plan: Plan): seq<Bytes> { plan.blobs + [plan.root] }

  /** Upload the next blob, unless its CID was uploaded before; after the last one, commit. */
  ghost function StepUpload(k: Crypto, w: World, id: nat, wr: Writer): World
    requires wr.phase.Uploading?
  {
    var Uploading(plan, base, done) := wr.phase;
    if done < |AllBlobs(plan)| then
      var blob := AllBlobs(plan)[done];
      var cid := ComputeCid(k, blob);
      var blobs := if cid in CidsOf(k, AllBlobs(plan)[..done]) then w.blobs else w.blobs[cid := blob];
      Now(w.(blobs := blobs, seen := w.seen + {blob}), id, wr, Uploading(plan, base, done + 1))
    else
      Finish(w.(commits := w.commits + [LeavesOf(k, plan)]), id, wr, base, Ok(ComputeCid(k, plan.root)))
  }

  /** The next call of a writer, which the store answers honestly. */
  ghost function Work(ctx: Context, w: World, id: nat, wr: Writer): World {
    match wr.phase
    case AskCommitment => StepCommitment(ctx.k, w, id, wr)
    case AskProof(c, _) =>
      (match OwnProof(ctx.k, w, c)
       case None => w
       case Some(proof) => StepProof(ctx.k, w, id, wr, proof, true))
    case Reading(_, _, _) => StepRead(ctx, w, id, wr)
    case Uploading(_, _, _) => StepUpload(ctx.k, w, id, wr)
  }

  ghost function Start(ctx: Context, w: World, id: nat, wr: Writer): World {
    match Prepare(ctx.k, ctx.bucketId, wr.op)
    case Err(e) => Finish(w, id, wr, |w.commits|, Err(e))
    case Ok(_) => Now(w, id, wr, AskCommitment)
  }

  ghost function Take(ctx: Context, w: World, a: Action): World {
    match a
    case Begin(id, op, clock) =>
      if id in w.writers then w else Start(ctx, w, id, Writer(op, clock, [], AskCommitment))
    case Stop(id) => w.(writers := w.writers - {id})
    case Answer(id, proof) =>
      if id !in w.writers || !w.writers[id].phase.AskProof? then w
      else StepProof(ctx.k, w, id, w.writers[id], proof, false)
    case Proceed(id) => if id !in w.writers then w else Work(ctx, w, id, w.writers[id])
  }

  ghost function RunOf(ctx: Context, actions: seq<Action>): World {
    if actions == [] then NOTHING
    else Take(ctx, RunOf(ctx, actions[..|actions| - 1]), actions[|actions| - 1])
  }

  // ---- What the commits mean ----

  /** What an event makes of the drives before it. */
  function Effect(ctx: Context, drives: seq<Drive>, e: Event): Result<Drive, FsError> {
    if e.base < |drives| then Apply(ctx.k, ctx.bucketId, e.op, e.clock, drives[e.base]) else Err(NotAFileSystemBucket)
  }

  /** The empty drive, and the drive after each commit: the operation on the drive of an earlier commit. */
  function DrivesOf(ctx: Context, events: seq<Event>): (ds: seq<Drive>)
    ensures ds != []
  {
    if events == [] then [map[]]
    else
      var (before, e) := (DrivesOf(ctx, events[..|events| - 1]), events[|events| - 1]);
      if e.result.Ok? && Effect(ctx, before, e).Ok? then before + [Effect(ctx, before, e).value] else before
  }

  /** A root read fails only if a commit came between commitment and proof, or the proof was not the store's own. */
  predicate Excused(r: RootRead) { r.atCommitment < r.atProof || !r.honest }

  /** Both root reads failed, one after the other. */
  predicate FailedTwice(failed: seq<RootRead>) {
    |failed| == 2 && Excused(failed[0]) && Excused(failed[1]) && failed[0].atProof <= failed[1].atCommitment
  }

  /** An event has the outcome of its operation on the drive it started from, or both its root reads failed. */
  predicate EventOk(ctx: Context, before: seq<Drive>, e: Event) {
    && e.base < |before|
    && match e.result
       case Ok(_) => Effect(ctx, before, e).Ok?
       case Err(x) => (x == InvalidMmrProof && FailedTwice(e.failed)) || Effect(ctx, before, e) == Err(x)
  }

  predicate EventsOk(ctx: Context, events: seq<Event>) {
    events != [] ==>
      && EventsOk(ctx, events[..|events| - 1])
      && EventOk(ctx, DrivesOf(ctx, events[..|events| - 1]), events[|events| - 1])
  }

  ghost predicate AllRep(ctx: Context, w: World, drives: seq<Drive>) {
    && |drives| == |w.commits| + 1
    && forall i | 0 <= i <= |w.commits| :: RepDrive(ctx, w.blobs, LastLeafOf(w.commits[..i]), drives[i])
  }

  /** A commit has each leaf once, all are stored, the last is a directory, and the others are reached from it. */
  ghost predicate CommitOk(ctx: Context, blobs: Blobs, leaves: seq<Cid>) {
    && leaves != [] && Distinct(leaves) && (forall cid <- leaves :: cid in blobs)
    && var (root, dir) := (leaves[|leaves| - 1], ReadDir(ctx.k, blobs, [], leaves[|leaves| - 1]));
    && dir.Ok? && forall cid <- leaves :: cid == root || ReachedFrom(ctx, blobs, dir.value, cid)
  }

  ghost function SnapshotOf(w: World): Snapshot { Snapshot(w.blobs, w.commits, w.seen, w.trail) }

  ghost predicate StoreOk(ctx: Context, w: World) {
    && Keyed(ctx.k, SnapshotOf(w))
    && EventsOk(ctx, w.events)
    && AllRep(ctx, w, DrivesOf(ctx, w.events))
    && forall leaves <- w.commits :: CommitOk(ctx, w.blobs, leaves)
  }

  // ---- What the writers know ----

  ghost predicate UploadedTo(k: Crypto, w: World, all: seq<Bytes>, done: nat) {
    && done <= |all|
    && forall j | 0 <= j < done :: all[j] in w.seen && ComputeCid(k, all[j]) in w.blobs
  }

  ghost predicate FailedOk(w: World, failed: seq<RootRead>) {
    |failed| <= 1 && forall r <- failed :: Excused(r) && r.atProof <= |w.commits|
  }

  /** The root reads that failed came before the commitment read at `base`. */
  ghost predicate FailedBefore(base: nat, failed: seq<RootRead>) {
    forall r <- failed :: r.atProof <= base
  }

  ghost predicate WriterOk(ctx: Context, w: World, wr: Writer) {
    && FailedOk(w, wr.failed)
    && match wr.phase
       case AskCommitment => true
       case AskProof(c, base) =>
         && base <= |w.commits| && FailedBefore(base, wr.failed)
         && c == CommitmentOf(ctx.k, w.commits[..base]) && c.leafCount > 0
         && Flatten(w.commits[..base]) in w.trail.lists
       case Reading(leaf, base, read) =>
         base <= |w.commits| && leaf == LastLeafOf(w.commits[..base]) && Extends(read, w.blobs)
       case Uploading(plan, base, done) =>
         && base <= |w.commits|
         && PlanOf(ctx, w.blobs, LastLeafOf(w.commits[..base]), wr.op, wr.clock) == Ok(plan)
         && UploadedTo(ctx.k, w, AllBlobs(plan), done)
  }

  ghost predicate Inv(ctx: Context, w: World) {
    StoreOk(ctx, w) && forall id <- w.writers :: WriterOk(ctx, w, w.writers[id])
  }

  // ---- A growing store ----

  predicate Grew(w: World, next: World) {
    w.commits <= next.commits && w.seen <= next.seen && w.trail.Within(next.trail)
  }

  lemma RepDriveGrows(ctx: Context, blobs: Blobs, more: Blobs, leaf: Option<Cid>, drive: Drive)
    requires RepDrive(ctx, blobs, leaf, drive) && Extends(blobs, more)
    ensures RepDrive(ctx, more, leaf, drive)
  {
    hide LoadedRoot, RepKids, Extends;
    LoadedRootSettles(ctx, blobs, more, leaf);
    RepKidsGrows(ctx, blobs, more, LoadedRoot(ctx, blobs, leaf).value, drive);
  }

  lemma WriterStays(ctx: Context, w: World, next: World, wr: Writer)
    requires WriterOk(ctx, w, wr)
    requires Extends(w.blobs, next.blobs) && Grew(w, next)
    ensures WriterOk(ctx, next, wr)
  {
    hide PlanOf, LastLeafOf, ComputeCid, CommitmentOf;
    match wr.phase {
      case AskCommitment =>
      case AskProof(c, base) =>
        assert next.commits[..base] == w.commits[..base];
      case Reading(leaf, base, read) =>
        assert next.commits[..base] == w.commits[..base];
      case Uploading(plan, base, done) =>
        assert next.commits[..base] == w.commits[..base];
        PlanSettles(ctx, w.blobs, next.blobs, LastLeafOf(w.commits[..base]), wr.op, wr.clock);
    }
  }

  /** Only the store grew: what held of it and of the other writers still holds. */
  lemma StoreGrows(ctx: Context, w: World, next: World)
    requires StoreOk(ctx, w)
    requires next.commits == w.commits && next.events == w.events && Extends(w.blobs, next.blobs)
    requires Keyed(ctx.k, SnapshotOf(next))
    ensures StoreOk(ctx, next)
  {
    hide RepDrive, LastLeafOf, EventsOk, DrivesOf, Keyed, CommitOk;
    var drives := DrivesOf(ctx, w.events);
    forall i | 0 <= i <= |w.commits| ensures RepDrive(ctx, next.blobs, LastLeafOf(next.commits[..i]), drives[i]) {
      RepDriveGrows(ctx, w.blobs, next.blobs, LastLeafOf(w.commits[..i]), drives[i]);
    }
    forall leaves | leaves in w.commits ensures CommitOk(ctx, next.blobs, leaves) {
      CommitStaysOk(ctx, w.blobs, next.blobs, leaves);
    }
  }

  lemma CommitStaysOk(ctx: Context, blobs: Blobs, more: Blobs, leaves: seq<Cid>)
    requires CommitOk(ctx, blobs, leaves) && Extends(blobs, more)
    ensures CommitOk(ctx, more, leaves)
  {
    hide ReadDir, ReachedFrom, Reaches;
    var root := leaves[|leaves| - 1];
    var d := ReadDir(ctx.k, blobs, [], root).value;
    ReadDirGrows(ctx.k, blobs, more, root);
    forall cid | cid in leaves ensures cid == root || ReachedFrom(ctx, more, d, cid) {
      if cid != root {
        ReachedFromGrows(ctx, blobs, more, d, cid);
      }
    }
  }

  lemma OthersStay(ctx: Context, w: World, next: World, id: nat)
    requires Inv(ctx, w) && StoreOk(ctx, next)
    requires Extends(w.blobs, next.blobs) && Grew(w, next)
    requires next.writers - {id} == w.writers - {id}
    requires id in next.writers ==> WriterOk(ctx, next, next.writers[id])
    ensures Inv(ctx, next)
  {
    hide StoreOk, WriterOk, Extends;
    forall other | other in next.writers ensures WriterOk(ctx, next, next.writers[other]) {
      if other != id {
        assert other in next.writers - {id};
        assert other in w.writers && w.writers[other] == next.writers[other];
        WriterStays(ctx, w, next, w.writers[other]);
      }
    }
  }

  // ---- Steps keep the invariant ----

  /** A step that leaves the store as it is, and gives one writer a new phase. */
  lemma MovesOn(ctx: Context, w: World, id: nat, wr: Writer, phase: Phase)
    requires Inv(ctx, w) && WriterOk(ctx, w, wr.(phase := phase))
    ensures Inv(ctx, Now(w, id, wr, phase))
  {
    hide RepDrive, LastLeafOf, EventsOk, DrivesOf, Keyed, PlanOf, ComputeCid, CommitmentOf, CommitOk, WriterOk;
    var next := Now(w, id, wr, phase);
    StoreGrows(ctx, w, next);
    WriterStays(ctx, w, next, wr.(phase := phase));
    OthersStay(ctx, w, next, id);
  }

  /** A step that ends an operation with an error. */
  lemma Fails(ctx: Context, w: World, id: nat, wr: Writer, base: nat, e: FsError)
    requires Inv(ctx, w)
    requires EventOk(ctx, DrivesOf(ctx, w.events), Event(wr.op, wr.clock, base, wr.failed, Err(e)))
    ensures Inv(ctx, Finish(w, id, wr, base, Err(e)))
  {
    hide RepDrive, LastLeafOf, Keyed, PlanOf, ComputeCid, CommitmentOf, EventOk, WriterOk, CommitOk;
    var next := Finish(w, id, wr, base, Err(e));
    assert next.events[..|w.events|] == w.events;
    assert DrivesOf(ctx, next.events) == DrivesOf(ctx, w.events);
    OthersStay(ctx, w, next, id);
  }

  /** A store call that only adds to the trail. */
  lemma TrailGrows(ctx: Context, w: World, next: World)
    requires Inv(ctx, w) && w.trail.Within(next.trail) && next == w.(trail := next.trail)
    ensures Inv(ctx, next)
  {
    hide RepDrive, LastLeafOf, EventsOk, DrivesOf, CommitOk, ComputeCid, WriterOk;
    StoreGrows(ctx, w, next);
    forall id | id in w.writers ensures WriterOk(ctx, next, next.writers[id]) {
      WriterStays(ctx, w, next, w.writers[id]);
    }
  }

  lemma CommitmentKeeps(ctx: Context, w: World, id: nat, wr: Writer)
    requires Inv(ctx, w) && WriterOk(ctx, w, wr) && wr.phase.AskCommitment?
    ensures Inv(ctx, StepCommitment(ctx.k, w, id, wr))
  {
    hide StoreOk, PlanOf, ComputeCid, Inv;
    var (base, leaves) := (|w.commits|, Flatten(w.commits));
    var listed := w.(trail := w.trail.Listed(leaves));
    assert w.commits[..base] == w.commits;
    TrailGrows(ctx, w, listed);
    var phase := if leaves == [] then Reading(None, base, map[]) else AskProof(CommitmentOf(ctx.k, w.commits), base);
    assert WriterOk(ctx, listed, wr.(phase := phase));
    MovesOn(ctx, listed, id, wr, phase);
  }

  lemma {:induction false} FlattenPrefix(commits: seq<seq<Cid>>, n: nat)
    requires n <= |commits|
    ensures Flatten(commits[..n]) <= Flatten(commits)
    decreases |commits|
  {
    hide Flatten;
    if n < |commits| {
      FlattenPrefix(commits[..|commits| - 1], n);
      FlattenAppend(commits[..|commits| - 1], commits[|commits| - 1]);
      assert commits == commits[..|commits| - 1] + [commits[|commits| - 1]];
      assert commits[..|commits| - 1][..n] == commits[..n];
    } else {
      assert commits[..n] == commits;
    }
  }

  /** Whatever the store answered: a proof that verifies proves the last leaf at the commitment read. */
  lemma AcceptedProof(k: Crypto, t: Trail, commits: seq<seq<Cid>>, base: nat, proof: MmrProof)
    requires MmrSound(k, t) && base <= |commits| && Flatten(commits[..base]) in t.lists && proof in t.proofs
    requires var c := CommitmentOf(k, commits[..base]);
      c.leafCount > 0 && k.verifyMmrProof(proof, c.leafCount - 1, c)
    ensures Some(proof.leaf) == LastLeafOf(commits[..base])
  {
    hide Flatten;
    assert CommitsTo(k, CommitmentOf(k, commits[..base]), Flatten(commits[..base]));
  }

  /** The store has a proof of its own, and that one fails only if a commit came in between. */
  lemma OwnProofFails(k: Crypto, w: World, base: nat)
    requires MmrComplete(k, w.trail) && base <= |w.commits| && Flatten(w.commits[..base]) in w.trail.lists
    requires CommitmentOf(k, w.commits[..base]).leafCount > 0
    ensures var c := CommitmentOf(k, w.commits[..base]);
      && OwnProof(k, w, c).Some?
      && (!k.verifyMmrProof(OwnProof(k, w, c).value, c.leafCount - 1, c) ==> base < |w.commits|)
  {
    hide Flatten;
    FlattenPrefix(w.commits, base);
    if base == |w.commits| {
      assert w.commits[..base] == w.commits;
      assert CommitsTo(k, CommitmentOf(k, w.commits), Flatten(w.commits));
    }
  }

  lemma ProofKeeps(ctx: Context, w: World, id: nat, wr: Writer, proof: MmrProof, honest: bool)
    requires Inv(ctx, w) && WriterOk(ctx, w, wr) && wr.phase.AskProof?
    requires MmrSound(ctx.k, w.trail.Answered(proof)) && MmrComplete(ctx.k, w.trail)
    requires honest ==> OwnProof(ctx.k, w, wr.phase.commitment) == Some(proof)
    ensures Inv(ctx, StepProof(ctx.k, w, id, wr, proof, honest))
  {
    hide PlanOf, ComputeCid, LastLeafOf, Flatten, MmrSound, MmrComplete, Inv, Effect, DrivesOf, OwnProof;
    var (c, base, seen) := (wr.phase.commitment, wr.phase.base, w.(trail := w.trail.Answered(proof)));
    OwnProofFails(ctx.k, w, base);
    TrailGrows(ctx, w, seen);
    if ctx.k.verifyMmrProof(proof, c.leafCount - 1, c) {
      AcceptedProof(ctx.k, seen.trail, w.commits, base, proof);
      var phase := Reading(Some(proof.leaf), base, map[]);
      assert WriterOk(ctx, seen, wr.(phase := phase));
      MovesOn(ctx, seen, id, wr, phase);
    } else {
      var again := wr.(failed := wr.failed + [RootRead(base, |w.commits|, honest)]);
      if |again.failed| == 1 {
        assert WriterOk(ctx, seen, again.(phase := AskCommitment));
        MovesOn(ctx, seen, id, again, AskCommitment);
      } else {
        assert wr.failed[0] in wr.failed;
        DrivesCount(ctx, seen);
        Fails(ctx, seen, id, again, base, InvalidMmrProof);
      }
    }
  }

  lemma DrivesCount(ctx: Context, w: World)
    requires Inv(ctx, w)
    ensures |DrivesOf(ctx, w.events)| == |w.commits| + 1
  {
    hide RepDrive, LastLeafOf, EventsOk, DrivesOf, Keyed, CommitOk, WriterOk;
  }

  /** The outcome of a plan is the outcome of the operation on the drive at `base`. */
  lemma PlanOutcome(ctx: Context, w: World, op: Operation, clock: Clock, base: nat)
    requires StoreOk(ctx, w) && base <= |w.commits|
    ensures Refines(ctx, w.blobs, PlanOf(ctx, w.blobs, LastLeafOf(w.commits[..base]), op, clock),
                    Apply(ctx.k, ctx.bucketId, op, clock, DrivesOf(ctx, w.events)[base]))
  {
    hide RepDrive, LastLeafOf, EventsOk, DrivesOf, Keyed, PlanOf, Apply, RootRep, PlanStored, Refines, CommitOk;
    PlanRefinesApply(ctx, w.blobs, w.blobs, LastLeafOf(w.commits[..base]), DrivesOf(ctx, w.events)[base], op, clock);
  }

  lemma ReadKeeps(ctx: Context, w: World, id: nat, wr: Writer)
    requires Inv(ctx, w) && WriterOk(ctx, w, wr) && wr.phase.Reading?
    ensures Inv(ctx, StepRead(ctx, w, id, wr))
  {
    hide LastLeafOf, ComputeCid, EventsOk, DrivesOf, PlanOf, Apply, RootRep, PlanStored, CommitmentOf, RepDrive,
      Keyed, CommitOk;
    var Reading(leaf, base, read) := wr.phase;
    var planned := PlanOf(ctx, read, leaf, wr.op, wr.clock);
    PlanSettles(ctx, read, w.blobs, leaf, wr.op, wr.clock);
    PlanOutcome(ctx, w, wr.op, wr.clock, base);
    match planned {
      case Ok(plan) =>
        MovesOn(ctx, w, id, wr, Uploading(plan, base, 0));
      case Err(e) =>
        if Asks(read, w.blobs, planned) {
          MovesOn(ctx, w, id, wr, Reading(leaf, base, read[e.cid := w.blobs[e.cid]]));
        } else {
          Fails(ctx, w, id, wr, base, e);
        }
    }
  }

  /** Uploading a blob overwrites nothing, as no two byte strings share a CID. */
  lemma UploadGrows(k: Crypto, w: World, blob: Bytes, blobs: Blobs)
    requires Keyed(k, SnapshotOf(w)) && NoCollision(k, w.seen + {blob})
    requires blobs == w.blobs || blobs == w.blobs[ComputeCid(k, blob) := blob]
    ensures Extends(w.blobs, blobs) && Keyed(k, SnapshotOf(w.(blobs := blobs, seen := w.seen + {blob})))
  {
    hide ComputeCid;
    var cid := ComputeCid(k, blob);
    if cid in w.blobs {
      assert ComputeCid(k, w.blobs[cid]) == ComputeCid(k, blob);
    }
  }

  lemma UploadKeeps(ctx: Context, w: World, id: nat, wr: Writer)
    requires Inv(ctx, w) && WriterOk(ctx, w, wr) && wr.phase.Uploading? && wr.phase.done < |AllBlobs(wr.phase.plan)|
    requires NoCollision(ctx.k, StepUpload(ctx.k, w, id, wr).seen)
    ensures Inv(ctx, StepUpload(ctx.k, w, id, wr))
  {
    hide StoreOk, NoCollision, Keyed, AllBlobs, WriterOk, Extends, StepUpload, ComputeCid, Inv, Grew;
    StoreIsOk(ctx, w);
    var next := StepUpload(ctx.k, w, id, wr);
    StoreIsKeyed(ctx, w);
    UploadStep(ctx.k, w, id, wr);
    UploadGrows(ctx.k, w, AllBlobs(wr.phase.plan)[wr.phase.done], next.blobs);
    assert SnapshotOf(next) == SnapshotOf(w.(blobs := next.blobs, seen := next.seen));
    StoreGrows(ctx, w, next);
    WriterStays(ctx, w, next, wr);
    OneMoreUploaded(ctx, w, next, id, wr);
    OthersStay(ctx, w, next, id);
  }

  lemma UploadStep(k: Crypto, w: World, id: nat, wr: Writer)
    requires wr.phase.Uploading? && wr.phase.done < |AllBlobs(wr.phase.plan)|
    ensures var (next, blob) := (StepUpload(k, w, id, wr), AllBlobs(wr.phase.plan)[wr.phase.done]);
      && (next.blobs == w.blobs || next.blobs == w.blobs[ComputeCid(k, blob) := blob])
      && next.seen == w.seen + {blob} && next.commits == w.commits && next.events == w.events
      && next.writers - {id} == w.writers - {id}
      && next.trail == w.trail && Grew(w, next)
  {
    hide ComputeCid, CidsOf, AllBlobs;
  }

  lemma OneMoreUploaded(ctx: Context, w: World, next: World, id: nat, wr: Writer)
    requires WriterOk(ctx, w, wr) && WriterOk(ctx, next, wr)
    requires wr.phase.Uploading? && wr.phase.done < |AllBlobs(wr.phase.plan)|
    requires next == StepUpload(ctx.k, w, id, wr)
    ensures id in next.writers && WriterOk(ctx, next, next.writers[id])
  {
    hide PlanOf, LastLeafOf, ComputeCid, AllBlobs, CidsOf;
    EarlierUpload(ctx.k, w, AllBlobs(wr.phase.plan), wr.phase.done);
  }

  lemma StoreIsOk(ctx: Context, w: World)
    requires Inv(ctx, w)
    ensures StoreOk(ctx, w)
  {
    hide StoreOk, WriterOk;
  }

  lemma StoreIsKeyed(ctx: Context, w: World)
    requires StoreOk(ctx, w)
    ensures Keyed(ctx.k, SnapshotOf(w))
  {
    hide RepDrive, EventsOk, CommitOk, ComputeCid;
  }

  /** A CID among those uploaded so far is stored. */
  lemma EarlierUpload(k: Crypto, w: World, all: seq<Bytes>, done: nat)
    requires UploadedTo(k, w, all, done)
    ensures forall cid <- CidsOf(k, all[..done]) :: cid in w.blobs
  {
    hide ComputeCid;
    forall cid | cid in CidsOf(k, all[..done]) ensures cid in w.blobs {
      var j :| 0 <= j < done && CidsOf(k, all[..done])[j] == cid;
      assert all[..done][j] == all[j];
    }
  }

  lemma CommitKeeps(ctx: Context, w: World, id: nat, wr: Writer)
    requires Inv(ctx, w) && WriterOk(ctx, w, wr) && wr.phase.Uploading? && wr.phase.done == |AllBlobs(wr.phase.plan)|
    requires NoCollision(ctx.k, w.seen)
    ensures Inv(ctx, StepUpload(ctx.k, w, id, wr))
  {
    hide PlanOf, LastLeafOf, ComputeCid, CommitmentOf, NoCollision, Keyed, RepDrive, Apply, EventsOk, DrivesOf,
      CommitOrder, RootRep, PlanStored, CommitOk;
    var Uploading(plan, base, done) := wr.phase;
    var all := AllBlobs(plan);
    var next := StepUpload(ctx.k, w, id, wr);
    var drives := DrivesOf(ctx, w.events);
    var result := Apply(ctx.k, ctx.bucketId, wr.op, wr.clock, drives[base]);
    assert all[..done] == all;
    EarlierUpload(ctx.k, w, all, done);
    CommitOrderLaw(CidsOf(ctx.k, all));
    AllUploaded(ctx.k, w, plan);
    StoredWithoutCollision(ctx.k, plan, SnapshotOf(w));
    PlanOutcome(ctx, w, wr.op, wr.clock, base);
    LastOfAppend(w.commits, LeavesOf(ctx.k, plan));
    CommitEvent(ctx, w.events, Event(wr.op, wr.clock, base, wr.failed, Ok(ComputeCid(ctx.k, plan.root))));
    RootRepIsDrive(ctx, SnapshotOf(next), plan, result.value);
    forall i | 0 <= i <= |next.commits|
      ensures RepDrive(ctx, next.blobs, LastLeafOf(next.commits[..i]), DrivesOf(ctx, next.events)[i])
    {
      if i <= |w.commits| {
        assert next.commits[..i] == w.commits[..i];
      } else {
        assert next.commits[..i] == next.commits;
      }
    }
    KeyedAfterCommit(ctx.k, w, next);
    PlannedCommitIsOk(ctx, w, wr);
    assert StoreOk(ctx, next);
    OthersStay(ctx, w, next, id);
  }

  lemma PlannedCommitIsOk(ctx: Context, w: World, wr: Writer)
    requires StoreOk(ctx, w) && WriterOk(ctx, w, wr) && NoCollision(ctx.k, w.seen)
    requires wr.phase.Uploading? && wr.phase.done == |AllBlobs(wr.phase.plan)|
    ensures CommitOk(ctx, w.blobs, LeavesOf(ctx.k, wr.phase.plan))
  {
    hide PlanOf, LastLeafOf, ComputeCid, NoCollision, Keyed, RepDrive, EventsOk, DrivesOf, CommitOrder, PlanStored,
      ReadDir, ReachedFrom;
    var (plan, leaf) := (wr.phase.plan, LastLeafOf(w.commits[..wr.phase.base]));
    var (all, leaves) := (AllBlobs(plan), LeavesOf(ctx.k, plan));
    assert all[..|all|] == all;
    EarlierUpload(ctx.k, w, all, |all|);
    CommitOrderLaw(CidsOf(ctx.k, all));
    AllUploaded(ctx.k, w, plan);
    StoredWithoutCollision(ctx.k, plan, SnapshotOf(w));
    var root := ComputeCid(ctx.k, plan.root);
    assert leaves[|leaves| - 1] == root;
    forall cid | cid in leaves
      ensures ReadDir(ctx.k, w.blobs, [], root).Ok?
      ensures cid == root || ReachedFrom(ctx, w.blobs, ReadDir(ctx.k, w.blobs, [], root).value, cid)
    {
      LeavesAreReached(ctx, w.blobs, w.blobs, leaf, wr.op, wr.clock, cid);
    }
    assert root in leaves;
  }

  lemma KeyedAfterCommit(k: Crypto, w: World, next: World)
    requires Keyed(k, SnapshotOf(w)) && next.blobs == w.blobs && next.seen == w.seen
    ensures Keyed(k, SnapshotOf(next))
  {
    hide ComputeCid;
  }

  lemma AllUploaded(k: Crypto, w: World, plan: Plan)
    requires UploadedTo(k, w, AllBlobs(plan), |AllBlobs(plan)|)
    ensures (set b | b in plan.blobs + [plan.root]) <= w.seen
    ensures (set c | c in CidsOf(k, plan.blobs + [plan.root])) <= w.blobs.Keys
  {
    hide ComputeCid;
    var all := AllBlobs(plan);
    assert all[..|all|] == all;
    EarlierUpload(k, w, all, |all|);
  }

  lemma LastOfAppend(commits: seq<seq<Cid>>, leaves: seq<Cid>)
    requires leaves != []
    ensures LastLeafOf(commits + [leaves]) == Some(leaves[|leaves| - 1])
  {
    FlattenAppend(commits, leaves);
  }

  lemma CommitEvent(ctx: Context, events: seq<Event>, e: Event)
    requires EventsOk(ctx, events) && EventOk(ctx, DrivesOf(ctx, events), e) && e.result.Ok?
    ensures EventsOk(ctx, events + [e])
    ensures DrivesOf(ctx, events + [e]) == DrivesOf(ctx, events) + [Effect(ctx, DrivesOf(ctx, events), e).value]
  {
    hide Effect;
    assert (events + [e])[..|events|] == events;
  }

  lemma StepKeeps(ctx: Context, w: World, a: Action)
    requires Inv(ctx, w) && Assumed(ctx.k, Take(ctx, w, a))
    ensures Inv(ctx, Take(ctx, w, a))
  {
    hide StoreOk, MmrSound, MmrComplete, NoCollision, WriterOk, StepProof, Work, Start;
    match a {
      case Begin(id, op, clock) =>
        if id !in w.writers {
          BeginKeeps(ctx, w, id, Writer(op, clock, [], AskCommitment));
        }
      case Stop(id) =>
        StopKeeps(ctx, w, id);
      case Answer(id, proof) =>
        if id in w.writers && w.writers[id].phase.AskProof? {
          ProofStep(ctx, w, id, w.writers[id], proof, false);
        }
      case Proceed(id) =>
        if id in w.writers {
          WorkKeeps(ctx, w, id, w.writers[id]);
        }
    }
  }

  lemma WorkKeeps(ctx: Context, w: World, id: nat, wr: Writer)
    requires Inv(ctx, w) && WriterOk(ctx, w, wr) && Assumed(ctx.k, Work(ctx, w, id, wr))
    ensures Inv(ctx, Work(ctx, w, id, wr))
  {
    hide Inv, MmrSound, MmrComplete, NoCollision, WriterOk, StepCommitment, StepProof, StepRead, StepUpload, OwnProof;
    match wr.phase
    case AskCommitment => CommitmentKeeps(ctx, w, id, wr);
    case AskProof(c, _) =>
      if OwnProof(ctx.k, w, c).Some? {
        ProofStep(ctx, w, id, wr, OwnProof(ctx.k, w, c).value, true);
      }
    case Reading(_, _, _) => ReadKeeps(ctx, w, id, wr);
    case Uploading(plan, _, done) =>
      UploadingInRange(ctx, w, wr);
      if done < |AllBlobs(plan)| {
        UploadKeeps(ctx, w, id, wr);
      } else {
        CommitSeesNothingNew(ctx.k, w, id, wr);
        CommitKeeps(ctx, w, id, wr);
      }
  }

  lemma ProofStep(ctx: Context, w: World, id: nat, wr: Writer, proof: MmrProof, honest: bool)
    requires Inv(ctx, w) && WriterOk(ctx, w, wr) && wr.phase.AskProof?
    requires Assumed(ctx.k, StepProof(ctx.k, w, id, wr, proof, honest))
    requires honest ==> OwnProof(ctx.k, w, wr.phase.commitment) == Some(proof)
    ensures Inv(ctx, StepProof(ctx.k, w, id, wr, proof, honest))
  {
    hide Inv, WriterOk, MmrSound, MmrComplete, NoCollision, OwnProof;
    ShorterTrail(ctx.k, w.trail, w.trail.Answered(proof));
    ProofKeeps(ctx, w, id, wr, proof, honest);
  }

  lemma UploadingInRange(ctx: Context, w: World, wr: Writer)
    requires WriterOk(ctx, w, wr) && wr.phase.Uploading?
    ensures wr.phase.done <= |AllBlobs(wr.phase.plan)|
  {
    hide PlanOf, LastLeafOf;
  }

  lemma CommitSeesNothingNew(k: Crypto, w: World, id: nat, wr: Writer)
    requires wr.phase.Uploading? && wr.phase.done == |AllBlobs(wr.phase.plan)|
    ensures StepUpload(k, w, id, wr).seen == w.seen
  {
    hide ComputeCid, CommitOrder;
  }

  lemma BeginKeeps(ctx: Context, w: World, id: nat, wr: Writer)
    requires Inv(ctx, w) && wr.failed == [] && wr.phase == AskCommitment
    ensures Inv(ctx, Start(ctx, w, id, wr))
  {
    hide Prepare, RepDrive, LastLeafOf, Keyed, EventsOk, DrivesOf, CommitOk;
    var prepared := Prepare(ctx.k, ctx.bucketId, wr.op);
    if prepared.Err? {
      Fails(ctx, w, id, wr, |w.commits|, prepared.error);
    } else {
      MovesOn(ctx, w, id, wr, AskCommitment);
    }
  }

  lemma StopKeeps(ctx: Context, w: World, id: nat)
    requires Inv(ctx, w)
    ensures Inv(ctx, w.(writers := w.writers - {id}))
  {
    hide RepDrive, LastLeafOf, Keyed, EventsOk, DrivesOf, WriterOk, CommitOk;
    var next := w.(writers := w.writers - {id});
    StoreGrows(ctx, w, next);
    OthersStay(ctx, w, next, id);
  }

  /** What is assumed of the hash functions, for what was hashed, committed to and proved so far. */
  ghost predicate Assumed(k: Crypto, w: World) {
    MmrSound(k, w.trail) && MmrComplete(k, w.trail) && NoCollision(k, w.seen)
  }

  lemma StepGrows(ctx: Context, w: World, a: Action)
    ensures Grew(w, Take(ctx, w, a))
  {
    hide PlanOf, ComputeCid, Prepare, Flatten, CommitOrder;
  }

  lemma AssumedBefore(k: Crypto, w: World, next: World)
    requires Grew(w, next) && Assumed(k, next)
    ensures Assumed(k, w)
  {
    hide ComputeCid, MmrSound, MmrComplete;
    ShorterTrail(k, w.trail, next.trail);
  }

  /**
   Under any interleaving and any answers to proof reads, each commit's last leaf is a
   whole drive, every reference in it resolves, its other leaves are reached from it,
   and it is one operation applied to the drive of an earlier commit; an operation
   fails as it does on a drive, or because both its root reads failed.
   */
  lemma {:induction false} RunsAreExplained(ctx: Context, actions: seq<Action>)
    requires Assumed(ctx.k, RunOf(ctx, actions))
    ensures Inv(ctx, RunOf(ctx, actions))
    decreases |actions|
  {
    hide Take, Inv, Assumed;
    if actions == [] {
      NothingIsExplained(ctx);
    } else {
      var (before, a) := (RunOf(ctx, actions[..|actions| - 1]), actions[|actions| - 1]);
      StepGrows(ctx, before, a);
      AssumedBefore(ctx.k, before, RunOf(ctx, actions));
      RunsAreExplained(ctx, actions[..|actions| - 1]);
      StepKeeps(ctx, before, a);
    }
  }

  lemma NothingIsExplained(ctx: Context)
    ensures Inv(ctx, NOTHING)
  {
    hide ComputeCid, ValidDirectory, RepDrive, EventOk, WriterOk, CommitOk;
    EmptyIsRep(ctx);
    assert LastLeafOf(NOTHING.commits[..0]) == None;
  }

  lemma EmptyIsRep(ctx: Context)
    ensures RepDrive(ctx, map[], None, map[])
  {
    hide ValidDirectory, EntryMap, ReadRoot, RepNode;
    EmptyIsValid(ctx.bucketId);
  }
}
