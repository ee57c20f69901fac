/**
 A run in which everything that is assumed of the hash functions holds: a writer makes
 a directory, and another one then finds the root by a proof.
 */
module Witness {
  import opened Wrappers
  import opened Octets
  import opened Scale
  import opened Format
  import opened Hashing
  import opened Directories
  import opened Paths
  import opened Drives
  import opened Plans
  import opened Stores
  import opened Effects
  import opened Writers

  const BUCKET: u64 := 7
  const MKDIR := Mkdir([SLASH, 0x61])
  const CLOCK := Clock(0, 0)

  function Zeros(n: nat): (b: Bytes)
    ensures |b| == n
  {
    if n == 0 then [] else [0] + Zeros(n - 1)
  }

  function CidNumber(n: byte): (cid: Cid)
    ensures cid[0] == n
  {
    [n] + Zeros(31)
  }

  /** Tells the empty directory from everything else. */
  function ToyHash(data: Bytes): Cid { if data == DirBlob(NewEmpty(BUCKET)) then CidNumber(0) else CidNumber(1) }

  function ToyMerkle(hashes: seq<Cid>): Cid { if hashes == [] then CidNumber(2) else hashes[0] }

  function ToyRoot(leaves: seq<Cid>): Cid { CidNumber(0) }

  /** A proof names its index. */
  function ToyPath(leaves: seq<Cid>, i: nat): Bytes { Zeros(i) }

  predicate ToyVerify(p: MmrProof, i: nat, c: Commitment) { |p.path| == i }

  /** Hash functions with values of 32 bytes that are good enough for one run. */
  function Toy(): Crypto { Crypto(ToyHash, ToyMerkle, ToyRoot, ToyPath, ToyVerify) }

  function ToyContext(): Context { Context(Toy(), BUCKET) }

  // ---- The hashes ----

  lemma EmptyIsSmall()
    ensures 0 < |DirBlob(NewEmpty(BUCKET))| < CHUNK_SIZE
  {
    var d := NewEmpty(BUCKET);
    assert EncodeAll(EntryCodec(), []) == [] && EncodeAll(MetadataCodec(), []) == [];
    assert |DirectoryFields().enc(FieldsOfDirectory(d))| == 8 + |Compact(0)| + |Compact(0)|;
  }

  /** Two blobs with the same CID are equal, if one of them is the empty directory. */
  lemma ToyTellsApart(blob: Bytes)
    requires ComputeCid(Toy(), blob) == ComputeCid(Toy(), DirBlob(NewEmpty(BUCKET)))
    ensures blob == DirBlob(NewEmpty(BUCKET))
  {
    hide DirBlob, CidNumber, NewEmpty;
    EmptyIsSmall();
    var empty := DirBlob(NewEmpty(BUCKET));
    assert Chunks(empty) == [empty];
    FirstChunk(empty);
    FirstChunk(blob);
    assert CidNumber(0) != CidNumber(1) && CidNumber(0) != CidNumber(2);
  }

  lemma FirstChunk(blob: Bytes)
    ensures ComputeCid(Toy(), blob) == if blob == [] then CidNumber(2) else ToyHash(Chunks(blob)[0])
    ensures blob != [] && |Chunks(blob)[0]| < CHUNK_SIZE ==> Chunks(blob)[0] == blob
  {
    hide ToyHash, CidNumber;
  }

  /** The proof at the last index is sound and complete for its own list. */
  lemma ToyProofs(leaves: seq<Cid>)
    requires leaves != []
    ensures var t := Trail({[], leaves}, {ProofAt(Toy(), leaves, |leaves| - 1)});
      MmrSound(Toy(), t) && MmrComplete(Toy(), t)
  {
    hide CidNumber, Zeros, ToyHash, ToyMerkle;
    forall list: seq<Cid>, i: nat | i < |list|
      ensures ToyVerify(ProofAt(Toy(), list, i), i, Commitment(ToyRoot(list), 0, 0))
    {
    }
  }

  // ---- The first operation ----

  lemma ToyPlan() returns (plan: Plan)
    ensures PlanOf(ToyContext(), map[], None, MKDIR, CLOCK) == Ok(plan)
    ensures plan.blobs == [DirBlob(NewEmpty(BUCKET))]
  {
    hide DirBlob, ComputeCid, PlanMkdir, PlanPut, PlanDelete, PlanRename, ParsePath, NewEmpty, ValidName, ReadRoot,
      Toy;
    ParsedPath();
    var names: seq<Name> := [[0x61]];
    plan := MkdirPlan(ToyContext(), names[0], MKDIR.path, CLOCK);
    assert PlanTask(ToyContext(), map[], NewEmpty(BUCKET), MkdirTask(names, MKDIR.path), CLOCK) == Ok(plan);
  }

  /** Making a directory below an empty root uploads an empty directory. */
  lemma MkdirPlan(ctx: Context, name: Name, path: Bytes, clock: Clock) returns (plan: Plan)
    ensures PlanMkdir(ctx, map[], NewEmpty(ctx.bucketId), [name], path, clock) == Ok(plan)
    ensures plan.blobs == [DirBlob(NewEmpty(ctx.bucketId))]
  {
    hide DirBlob, ComputeCid, Upserted, Directories.Found, ValidDirectory, RewriteBelow, EntryMap, NewEmpty,
      ValidName;
    var root := NewEmpty(ctx.bucketId);
    var names: seq<Name> := [name];
    EmptyIsValid(ctx.bucketId);
    FoundIsLookup(root, name);
    var chain: DirChain := [root] + [root];
    assert Parents(names) == [] && Last(names) == name;
    assert ExtendChain(ctx, map[], [root], [], true) == Ok([root]);
    RewriteStep(ctx.k, chain, names, 0, clock.first, path);
    var e := EntryForDir(ctx.k, name, root, clock.first);
    NewEntry(ctx.k, name, root, clock.first);
    UpsertedIsUpdate(root, e);
    assert Upserted(root, e).Ok?;
    var parent := Upserted(root, e).value;
    assert PutBack(ctx.k, root, name, root, clock.first, path) == Ok(parent);
    assert names[..0] == [] && UpTo(chain, 0, parent) == [parent];
    RewriteEnd(ctx.k, [parent], [], clock.first, path);
    assert [DirBlob(root)] + [] == [DirBlob(root)] && [] + [DirBlob(root)] == [DirBlob(root)];
    plan := Plan([DirBlob(root)], DirBlob(parent));
    assert RewriteBelow(ctx.k, chain, names, 0, clock.first, path) == Ok(Rewritten([DirBlob(root)], [parent]));
    assert PlanRewrite(ctx.k, [], chain, names, clock.first, path) == Ok(plan);
    assert Directories.Found(root, name) == None;

  }

  lemma NewEntry(k: Crypto, name: Name, d: DirectoryNode, mtime: u64)
    ensures ValidEntry(EntryForDir(k, name, d, mtime)) && EntryForDir(k, name, d, mtime).name == name
  {
    hide DirBlob, ComputeCid;
  }

  lemma ParsedPath()
    ensures ValidName([0x61]) && ParsePath(MKDIR.path) == Ok([[0x61]])
  {
    var n: Bytes := [0x61];
    assert n[1..] == [];
    assert Utf8(n);
    var names: seq<Name> := [n];
    assert Slashed(names) == [SLASH] + n + Slashed(names[1..]);
    ParseIsInverseOfJoin(MKDIR.path, names);
  }

  // ---- The run ----

  function Actions(): seq<Action> {
    [Begin(0, MKDIR, CLOCK), Proceed(0), Proceed(0), Proceed(0), Proceed(0), Proceed(0),
     Begin(1, MKDIR, CLOCK), Proceed(1), Proceed(1)]
  }

  lemma RunStep(ctx: Context, actions: seq<Action>, n: nat)
    requires n < |actions|
    ensures RunOf(ctx, actions[..n + 1]) == Take(ctx, RunOf(ctx, actions[..n]), actions[n])
  {
    hide Take;
    assert actions[..n + 1][..n] == actions[..n];
  }

  /** The first six actions: one directory is made, by one commit. */
  lemma FirstCommit() returns (plan: Plan)
    ensures var w := RunOf(ToyContext(), Actions()[..6]);
      && w.commits == [LeavesOf(Toy(), plan)] && w.writers == map[]
      && w.trail == Trail({[]}, {})
      && w.seen == {DirBlob(NewEmpty(BUCKET)), plan.root}
  {
    hide PlanOf, ComputeCid, CommitOrder, DirBlob, Take;
    var (ctx, actions) := (ToyContext(), Actions());
    plan := ToyPlan();
    assert actions[..0] == [];
    ParsedPath();
    RunStep(ctx, actions, 0);
    RunStep(ctx, actions, 1);
    RunStep(ctx, actions, 2);
    RunStep(ctx, actions, 3);
    RunStep(ctx, actions, 4);
    RunStep(ctx, actions, 5);
    ToyPrepares();
    var w1 := BeginsFrom(ctx, NOTHING, 0);
    var w2 := ReadsNothing(ctx, w1);
    var w3 := PlansOn(ctx, w2, plan);
    var w4 := Uploads(ctx, w3, plan, 0);
    var w5 := Uploads(ctx, w4, plan, 1);
    var w6 := Commits(ctx, w5, plan);
  }

  lemma ToyPrepares()
    ensures Prepare(Toy(), BUCKET, MKDIR).Ok?
  {
    hide ParsePath;
    ParsedPath();
  }

  /** Writer `id` is the only one at work, in this phase. */
  predicate AtWork(w: World, id: nat, phase: Phase) { w.writers == map[id := Writer(MKDIR, CLOCK, [], phase)] }

  lemma BeginsFrom(ctx: Context, w: World, id: nat) returns (next: World)
    requires w.writers == map[] && Prepare(ctx.k, ctx.bucketId, MKDIR).Ok?
    ensures next == Take(ctx, w, Begin(id, MKDIR, CLOCK)) && AtWork(next, id, AskCommitment)
    ensures next.seen == w.seen && next.commits == w.commits && next.trail == w.trail
  {
    hide Prepare;
    next := Take(ctx, w, Begin(id, MKDIR, CLOCK));
  }

  lemma ReadsNothing(ctx: Context, w: World) returns (next: World)
    requires AtWork(w, 0, AskCommitment) && w.commits == []
    ensures next == Take(ctx, w, Proceed(0)) && AtWork(next, 0, Reading(None, 0, map[]))
    ensures next.seen == w.seen && next.commits == w.commits && next.trail == w.trail.Listed([])
  {
    hide StepProof, StepRead, StepUpload, OwnProof;
    next := Take(ctx, w, Proceed(0));
  }

  lemma PlansOn(ctx: Context, w: World, plan: Plan) returns (next: World)
    requires AtWork(w, 0, Reading(None, 0, map[])) && PlanOf(ctx, map[], None, MKDIR, CLOCK) == Ok(plan)
    ensures next == Take(ctx, w, Proceed(0)) && AtWork(next, 0, Uploading(plan, 0, 0))
    ensures next.seen == w.seen && next.commits == w.commits && next.trail == w.trail
  {
    hide StepProof, StepCommitment, StepUpload, OwnProof, PlanOf;
    next := Take(ctx, w, Proceed(0));
  }

  lemma Uploads(ctx: Context, w: World, plan: Plan, n: nat) returns (next: World)
    requires AtWork(w, 0, Uploading(plan, 0, n)) && n < |AllBlobs(plan)|
    ensures next == Take(ctx, w, Proceed(0)) && AtWork(next, 0, Uploading(plan, 0, n + 1))
    ensures next.seen == w.seen + {AllBlobs(plan)[n]} && next.commits == w.commits && next.trail == w.trail
  {
    hide StepProof, StepCommitment, StepRead, OwnProof, ComputeCid, CidsOf, AllBlobs;
    next := Take(ctx, w, Proceed(0));
  }

  lemma Commits(ctx: Context, w: World, plan: Plan) returns (next: World)
    requires AtWork(w, 0, Uploading(plan, 0, |AllBlobs(plan)|))
    ensures next == Take(ctx, w, Proceed(0)) && next.writers == map[]
    ensures next.commits == w.commits + [LeavesOf(ctx.k, plan)] && next.trail == w.trail && next.seen == w.seen
  {
    hide StepProof, StepCommitment, StepRead, OwnProof, ComputeCid, CidsOf, LeavesOf, AllBlobs;
    next := Take(ctx, w, Proceed(0));
  }

  /** The second writer reads a commitment to the leaves, and the store's own proof of the last one. */
  lemma FindsRoot(ctx: Context, w: World, leaves: seq<Cid>) returns (next: World)
    requires w.commits == [leaves] && leaves != [] && AtWork(w, 1, AskCommitment)
    requires MmrComplete(ctx.k, w.trail.Listed(leaves))
    ensures next == Take(ctx, Take(ctx, w, Proceed(1)), Proceed(1))
    ensures next.commits == w.commits && next.seen == w.seen
    ensures next.trail == w.trail.Listed(leaves).Answered(ProofAt(ctx.k, leaves, |leaves| - 1))
    ensures AtWork(next, 1, Reading(LastLeafOf(w.commits), 1, map[]))
  {
    hide StepRead, StepUpload, Flatten;
    assert Flatten([leaves]) == leaves by {
      FlattenAppend([], leaves);
      NoCommits();
      assert [] + [leaves] == [leaves] && [] + leaves == leaves;
    }
    var w' := Take(ctx, w, Proceed(1));
    var c := CommitmentOf(ctx.k, [leaves]);
    assert CommitsTo(ctx.k, c, leaves);
    assert ctx.k.verifyMmrProof(ProofAt(ctx.k, leaves, |leaves| - 1), |leaves| - 1, c);
    assert AtWork(w', 1, AskProof(c, 1));
    next := Take(ctx, w', Proceed(1));
  }

  lemma NoCommits()
    ensures Flatten([]) == []
  {
  }

  /** Everything that is assumed holds of this run, with a commit and a proof that was checked. */
  ghost predicate IsWitness(ctx: Context, actions: seq<Action>) {
    var w := RunOf(ctx, actions);
    && Assumed(ctx.k, w) && |w.commits| == 1 && w.trail.proofs != {}
    && 1 in w.writers && w.writers[1].phase.Reading? && w.writers[1].phase.leaf == LastLeafOf(w.commits)
  }

  /** The hypotheses on hashes and on proofs hold together, of a run that uses them. */
  lemma AssumptionsCanHold()
    ensures exists ctx: Context, actions: seq<Action> :: IsWitness(ctx, actions)
  {
    hide Take, DirBlob, CommitOrder, ComputeCid, MmrSound, MmrComplete, LastLeafOf;
    var (ctx, actions) := (ToyContext(), Actions());
    var plan := FirstCommit();
    var leaves := LeavesOf(Toy(), plan);
    CommitOrderLaw(CidsOf(Toy(), plan.blobs + [plan.root]));
    RunStep(ctx, actions, 6);
    RunStep(ctx, actions, 7);
    RunStep(ctx, actions, 8);
    assert actions[..9] == actions;
    ToyPrepares();
    ToyProofs(leaves);
    var w7 := BeginsFrom(ctx, RunOf(ctx, actions[..6]), 1);
    ShorterTrail(Toy(), w7.trail.Listed(leaves), Trail({[], leaves}, {ProofAt(Toy(), leaves, |leaves| - 1)}));
    var w9 := FindsRoot(ctx, w7, leaves);
    ToyBlobs(plan.root);
    assert w9.trail == Trail({[], leaves}, {ProofAt(Toy(), leaves, |leaves| - 1)});
    assert ProofAt(Toy(), leaves, |leaves| - 1) in w9.trail.proofs;
    assert w9 == RunOf(ctx, actions) && 1 in w9.writers;
    assert Assumed(Toy(), w9);
    assert IsWitness(ctx, actions);
  }

  lemma ToyBlobs(root: Bytes)
    ensures NoCollision(Toy(), {DirBlob(NewEmpty(BUCKET)), root})
  {
    hide ComputeCid, DirBlob;
    var seen := {DirBlob(NewEmpty(BUCKET)), root};
    forall a, b | a in seen && b in seen && ComputeCid(Toy(), a) == ComputeCid(Toy(), b) ensures a == b {
      if a == DirBlob(NewEmpty(BUCKET)) { ToyTellsApart(b); }
      if b == DirBlob(NewEmpty(BUCKET)) { ToyTellsApart(a); }
    }
  }
}
