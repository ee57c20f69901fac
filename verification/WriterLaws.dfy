/** What runs of any number of writers keep, and what a lone writer does. */
module WriterLaws {
  import opened Wrappers
  import opened Octets
  import opened Format
  import opened Hashing
  import opened Paths
  import opened Drives
  import opened DriveLaws
  import opened Plans
  import opened Represents
  import opened Stores
  import opened Effects
  import opened Writers

  // ---- Drives ----

  /** The bucket's last leaf is a whole drive, after any interleaving and whatever was answered to proof reads. */
  lemma LastLeafIsADrive(ctx: Context, actions: seq<Action>)
    requires Assumed(ctx.k, RunOf(ctx, actions))
    ensures var (w, drives) := (RunOf(ctx, actions), DrivesOf(ctx, RunOf(ctx, actions).events));
      RepDrive(ctx, w.blobs, LastLeafOf(w.commits), drives[|drives| - 1])
  {
    hide Assumed, RepDrive, DrivesOf, EventsOk, LastLeafOf, RunOf, WriterOk, CommitOk;
    RunsAreExplained(ctx, actions);
    var w := RunOf(ctx, actions);
    assert w.commits[..|w.commits|] == w.commits;
  }

  lemma {:induction false} EventsAreOperations(ctx: Context, events: seq<Event>, i: nat)
    requires EventsOk(ctx, events) && 0 < i < |DrivesOf(ctx, events)|
    ensures var drives := DrivesOf(ctx, events);
      exists e <- events :: e.result.Ok? && e.base < i && Effect(ctx, drives, e) == Ok(drives[i])
    decreases |events|
  {
    hide Apply;
    var (init, last) := (events[..|events| - 1], events[|events| - 1]);
    var (before, drives) := (DrivesOf(ctx, init), DrivesOf(ctx, events));
    if i < |before| {
      EventsAreOperations(ctx, init, i);
      var e :| e in init && e.result.Ok? && e.base < i && Effect(ctx, before, e) == Ok(before[i]);
      assert e in events;
      assert Effect(ctx, drives, e) == Ok(drives[i]);
    } else {
      assert last in events;
      assert Effect(ctx, drives, last) == Ok(drives[i]);
    }
  }

  /** `w` holds these drives, one after each commit. */
  ghost predicate Holds(ctx: Context, w: World, drives: seq<Drive>) {
    && |drives| == |w.commits| + 1
    && drives[0] == map[]
    && forall i | 0 <= i <= |w.commits| :: RepDrive(ctx, w.blobs, LastLeafOf(w.commits[..i]), drives[i])
  }

  /** Drive `i` is one operation that ended in this run, applied to an earlier drive. */
  ghost predicate IsOperation(ctx: Context, w: World, drives: seq<Drive>, i: nat) {
    exists e <- w.events :: e.result.Ok? && e.base < i < |drives| && Effect(ctx, drives, e) == Ok(drives[i])
  }

  /**
   After every commit of a run the bucket is a drive: one operation applied to the
   drive of an earlier commit, or to the empty one.
   */
  lemma CommitsAreOperations(ctx: Context, actions: seq<Action>)
    requires Assumed(ctx.k, RunOf(ctx, actions))
    ensures var (w, drives) := (RunOf(ctx, actions), DrivesOf(ctx, RunOf(ctx, actions).events));
      Holds(ctx, w, drives) && forall i | 0 < i <= |w.commits| :: IsOperation(ctx, w, drives, i)
  {
    hide Assumed, RepDrive, DrivesOf, EventsOk, LastLeafOf, RunOf, WriterOk, CommitOk, Effect;
    RunsAreExplained(ctx, actions);
    var w := RunOf(ctx, actions);
    var drives := DrivesOf(ctx, w.events);
    FirstDriveIsEmpty(ctx, w.events);
    forall i | 0 < i <= |w.commits| ensures IsOperation(ctx, w, drives, i) {
      EventsAreOperations(ctx, w.events, i);
    }
  }

  lemma {:induction false} FirstDriveIsEmpty(ctx: Context, events: seq<Event>)
    ensures DrivesOf(ctx, events)[0] == map[]
    decreases |events|
  {
    hide Effect;
    if events != [] {
      FirstDriveIsEmpty(ctx, events[..|events| - 1]);
    }
  }

  /** All leaves of a commit are stored, each is there once, and all are reached from the last. */
  lemma CommitsHangTogether(ctx: Context, actions: seq<Action>)
    requires Assumed(ctx.k, RunOf(ctx, actions))
    ensures forall leaves <- RunOf(ctx, actions).commits :: CommitOk(ctx, RunOf(ctx, actions).blobs, leaves)
  {
    hide Assumed, RepDrive, DrivesOf, EventsOk, LastLeafOf, RunOf, WriterOk, CommitOk;
    RunsAreExplained(ctx, actions);
  }

  // ---- Failures ----

  lemma {:induction false} ErrorsAreExplained(ctx: Context, events: seq<Event>, i: nat)
    requires EventsOk(ctx, events) && i < |events| && events[i].result.Err?
    ensures if events[i].result.error == InvalidMmrProof then FailedTwice(events[i].failed)
            else AboutTheTree(events[i].result.error)
    decreases |events|
  {
    hide Apply, DrivesOf, AboutTheTree;
    var init := events[..|events| - 1];
    if i < |init| {
      ErrorsAreExplained(ctx, init, i);
    } else {
      var (before, e) := (DrivesOf(ctx, init), events[i]);
      if Effect(ctx, before, e) == Err(e.result.error) {
        ApplyErrors(ctx.k, ctx.bucketId, e.op, e.clock, before[e.base]);
        ProofsAreNotTheTree();
      }
    }
  }

  lemma ProofsAreNotTheTree()
    ensures !AboutTheTree(InvalidMmrProof)
  {
  }

  /**
   An operation of a run fails for a reason on the tree, or on an invalid proof. In
   the second case both its root reads failed, each because a commit came between its
   two calls or because the store answered something other than its own proof. No
   read ever misses a blob or finds one that is not valid.
   */
  lemma FailuresAreExplained(ctx: Context, actions: seq<Action>, i: nat)
    requires Assumed(ctx.k, RunOf(ctx, actions))
    requires i < |RunOf(ctx, actions).events| && RunOf(ctx, actions).events[i].result.Err?
    ensures var e := RunOf(ctx, actions).events[i];
      if e.result.error == InvalidMmrProof then FailedTwice(e.failed) else AboutTheTree(e.result.error)
  {
    hide Assumed, RepDrive, DrivesOf, EventsOk, LastLeafOf, RunOf, WriterOk, CommitOk, AboutTheTree, FailedTwice;
    RunsAreExplained(ctx, actions);
    ErrorsAreExplained(ctx, RunOf(ctx, actions).events, i);
  }

  // ---- Root discovery ----

  /** After the first `m` actions, writer `id` made its commitment read, and has asked for no other since. */
  ghost predicate LastCommitmentRead(ctx: Context, actions: seq<Action>, id: nat, m: nat) {
    && m < |actions| && actions[m] == Proceed(id)
    && AsksCommitment(RunOf(ctx, actions[..m]), id)
    && forall j | m < j <= |actions| :: PastCommitment(RunOf(ctx, actions[..j]), id)
  }

  predicate AsksCommitment(w: World, id: nat) { id in w.writers && w.writers[id].phase.AskCommitment? }

  predicate PastCommitment(w: World, id: nat) { id in w.writers && !w.writers[id].phase.AskCommitment? }

  /** A step leaves the base of a writer as it is, unless it is this writer's commitment read. */
  lemma StepKeepsBase(ctx: Context, w: World, a: Action, id: nat)
    requires PastCommitment(Take(ctx, w, a), id)
    ensures PastCommitment(w, id) || (a == Proceed(id) && AsksCommitment(w, id))
    ensures PastCommitment(w, id) ==> Take(ctx, w, a).writers[id].phase.base == w.writers[id].phase.base
    ensures !PastCommitment(w, id) ==> Take(ctx, w, a).writers[id].phase.base == |w.commits|
  {
    hide PlanOf, ComputeCid, Prepare, Flatten, LastLeafOf;
  }

  lemma {:induction false} BaseIsAtCommitmentRead(ctx: Context, actions: seq<Action>, id: nat) returns (m: nat)
    requires PastCommitment(RunOf(ctx, actions), id)
    ensures m < |actions| && LastCommitmentRead(ctx, actions, id, m)
    ensures RunOf(ctx, actions).writers[id].phase.base == |RunOf(ctx, actions[..m]).commits|
    decreases |actions|
  {
    hide Take, LastLeafOf;
    var n := |actions| - 1;
    var init := actions[..n];
    assert actions[..n + 1] == actions;
    StepKeepsBase(ctx, RunOf(ctx, init), actions[n], id);
    if PastCommitment(RunOf(ctx, init), id) {
      m := BaseIsAtCommitmentRead(ctx, init, id);
      assert init[..m] == actions[..m];
      forall j | m < j <= |actions| ensures PastCommitment(RunOf(ctx, actions[..j]), id) {
        if j <= n { assert init[..j] == actions[..j]; }
      }
    } else {
      m := n;
    }
  }

  lemma {:induction false} CommitsGrow(ctx: Context, actions: seq<Action>, m: nat)
    requires m <= |actions|
    ensures RunOf(ctx, actions[..m]).commits <= RunOf(ctx, actions).commits
    decreases |actions|
  {
    hide Take;
    if m < |actions| {
      var init := actions[..|actions| - 1];
      StepGrows(ctx, RunOf(ctx, init), actions[|actions| - 1]);
      CommitsGrow(ctx, init, m);
      assert init[..m] == actions[..m];
    } else {
      assert actions[..m] == actions;
    }
  }

  /**
   A writer that goes by the root `leaf` has what was the bucket's last leaf at its
   commitment read, after `m` actions.
   */
  ghost predicate LastAtCommitmentRead(ctx: Context, actions: seq<Action>, id: nat, leaf: Option<Cid>, m: nat) {
    m < |actions| && LastCommitmentRead(ctx, actions, id, m) && leaf == LastLeafOf(RunOf(ctx, actions[..m]).commits)
  }

  /**
   A writer that has read the root, whatever was answered to its proof read, has what
   was the bucket's last leaf at the moment of its commitment read.
   */
  lemma RootDiscovery(ctx: Context, actions: seq<Action>, id: nat)
    requires Assumed(ctx.k, RunOf(ctx, actions))
    requires id in RunOf(ctx, actions).writers && RunOf(ctx, actions).writers[id].phase.Reading?
    ensures exists m: nat :: LastAtCommitmentRead(ctx, actions, id, RunOf(ctx, actions).writers[id].phase.leaf, m)
  {
    hide Assumed, StoreOk, LastLeafOf, RunOf, LastCommitmentRead, WriterOk;
    RunsAreExplained(ctx, actions);
    var w := RunOf(ctx, actions);
    var wr := w.writers[id];
    var m := BaseIsAtCommitmentRead(ctx, actions, id);
    CommitsGrow(ctx, actions, m);
    ReaderKnowsRoot(ctx, w, wr);
    assert w.commits[..wr.phase.base] == RunOf(ctx, actions[..m]).commits;
    assert LastAtCommitmentRead(ctx, actions, id, wr.phase.leaf, m);
  }

  lemma ReaderKnowsRoot(ctx: Context, w: World, wr: Writer)
    requires WriterOk(ctx, w, wr) && wr.phase.Reading?
    ensures wr.phase.base <= |w.commits| && wr.phase.leaf == LastLeafOf(w.commits[..wr.phase.base])
  {
    hide LastLeafOf, PlanOf, ComputeCid;
  }

  // ---- Tidy runs ----

  lemma {:induction false} TidyEvents(ctx: Context, events: seq<Event>, i: nat)
    requires (forall e <- events :: PutOrPrune(e.op)) && i < |DrivesOf(ctx, events)|
    ensures NoEmptyDirectory(DrivesOf(ctx, events)[i])
    decreases |events|
  {
    hide NoEmptyDirectory, Apply, PutOrPrune;
    if events == [] {
      EmptyIsTidy();
    } else {
      var (init, e) := (events[..|events| - 1], events[|events| - 1]);
      var before := DrivesOf(ctx, init);
      assert forall x <- init :: x in events;
      assert e in events;
      if i < |before| {
        TidyEvents(ctx, init, i);
      } else {
        TidyEvents(ctx, init, e.base);
        StepKeepsNoEmpty(ctx.k, ctx.bucketId, e.op, e.clock, before[e.base]);
      }
    }
  }

  lemma EmptyIsTidy()
    ensures NoEmptyDirectory(map[])
  {
  }

  /** Writers that only write files and delete with pruning never leave an empty directory, however they interleave. */
  lemma TidyWriters(ctx: Context, actions: seq<Action>)
    requires Assumed(ctx.k, RunOf(ctx, actions)) && forall e <- RunOf(ctx, actions).events :: PutOrPrune(e.op)
    ensures var (w, drives) := (RunOf(ctx, actions), DrivesOf(ctx, RunOf(ctx, actions).events));
      Holds(ctx, w, drives) && forall drive <- drives :: NoEmptyDirectory(drive)
  {
    hide Assumed, RepDrive, LastLeafOf, RunOf, NoEmptyDirectory, PutOrPrune, DrivesOf, Holds;
    var drives := DrivesOf(ctx, RunOf(ctx, actions).events);
    CommitsAreOperations(ctx, actions);
    forall drive | drive in drives ensures NoEmptyDirectory(drive) {
      var i :| 0 <= i < |drives| && drives[i] == drive;
      TidyEvents(ctx, RunOf(ctx, actions).events, i);
    }
  }

  // ---- One writer ----

  /** It gave up before it did anything, because both its root reads failed. */
  predicate NoRoot(e: Event) { e.result == Err(InvalidMmrProof) }

  /** Each operation that found a root started from the one before it left, and had the outcome it has on that drive. */
  predicate Sequential(ctx: Context, events: seq<Event>) {
    events != [] ==>
      var (before, e) := (DrivesOf(ctx, events[..|events| - 1]), events[|events| - 1]);
      && Sequential(ctx, events[..|events| - 1])
      && e.base == |before| - 1
      && (NoRoot(e) || (e.result.Ok? <==> Effect(ctx, before, e).Ok?))
  }

  ghost predicate Alone(ctx: Context, w: World, id: nat) {
    Sequential(ctx, w.events) && AtNewest(w, id)
  }

  /** The only writer, if any, is `id`, and what it does began at the newest commit. */
  predicate AtNewest(w: World, id: nat) {
    && w.writers.Keys <= {id}
    && (id in w.writers ==>
          !w.writers[id].phase.AskCommitment? ==> w.writers[id].phase.base == |w.commits|)
  }

  /** Nothing ended, or one operation that began at the newest commit. */
  predicate OneMoreEvent(w: World, next: World) {
    || next.events == w.events
    || (next.events != [] && next.events[..|next.events| - 1] == w.events
        && next.events[|w.events|].base == |w.commits|)
  }

  /** The step of a lone writer: it moves on from the newest commit, or ends an operation that began there. */
  lemma AloneSteps(ctx: Context, w: World, id: nat, a: Action)
    requires AtNewest(w, id) && a.id == id
    ensures AtNewest(Take(ctx, w, a), id) && OneMoreEvent(w, Take(ctx, w, a))
  {
    hide Prepare, PlanOf, Flatten, LastLeafOf, ComputeCid;
  }

  lemma AloneStays(ctx: Context, w: World, id: nat, a: Action)
    requires Inv(ctx, w) && Inv(ctx, Take(ctx, w, a)) && Alone(ctx, w, id) && a.id == id
    ensures Alone(ctx, Take(ctx, w, a), id)
  {
    hide Take, WriterOk, Effect, DrivesOf, RepDrive, LastLeafOf, CommitOk;
    AloneSteps(ctx, w, id, a);
  }

  /** The operations that ended and found a root, in order. */
  function Steps(events: seq<Event>): seq<(Operation, Clock)> {
    if events == [] then []
    else
      var last := events[|events| - 1];
      Steps(events[..|events| - 1]) + if NoRoot(last) then [] else [(last.op, last.clock)]
  }

  lemma {:induction false} RunSnoc(
    k: Crypto, bucketId: u64, steps: seq<(Operation, Clock)>, op: Operation, clock: Clock, drive: Drive)
    ensures Run(k, bucketId, steps + [(op, clock)], drive) ==
      match Apply(k, bucketId, op, clock, Run(k, bucketId, steps, drive))
      case Ok(d) => d
      case Err(_) => Run(k, bucketId, steps, drive)
    decreases |steps|
  {
    hide Apply;
    if steps == [] {
      assert steps + [(op, clock)] == [(op, clock)];
    } else {
      assert (steps + [(op, clock)])[1..] == steps[1..] + [(op, clock)];
      var next := match Apply(k, bucketId, steps[0].0, steps[0].1, drive) case Ok(d) => d case Err(_) => drive;
      RunSnoc(k, bucketId, steps[1..], op, clock, next);
    }
  }

  lemma {:induction false} SequentialIsFold(ctx: Context, events: seq<Event>)
    requires Sequential(ctx, events)
    ensures var drives := DrivesOf(ctx, events);
      drives[|drives| - 1] == Run(ctx.k, ctx.bucketId, Steps(events), map[])
    decreases |events|
  {
    hide Apply, Run;
    if events == [] {
      RunOfNothing(ctx);
    } else {
      var (init, e) := (events[..|events| - 1], events[|events| - 1]);
      SequentialIsFold(ctx, init);
      assert Steps(init) + [] == Steps(init);
      RunSnoc(ctx.k, ctx.bucketId, Steps(init), e.op, e.clock, map[]);
    }
  }

  lemma RunOfNothing(ctx: Context)
    ensures Run(ctx.k, ctx.bucketId, [], map[]) == map[]
  {
  }

  lemma {:induction false} AloneAlways(ctx: Context, actions: seq<Action>, id: nat)
    requires Assumed(ctx.k, RunOf(ctx, actions)) && forall a <- actions :: a.id == id
    ensures Alone(ctx, RunOf(ctx, actions), id)
    decreases |actions|
  {
    hide Take, Inv, Alone, Assumed;
    RunsAreExplained(ctx, actions);
    if actions == [] {
      NothingIsAlone(ctx, id);
    } else {
      var (before, a) := (RunOf(ctx, actions[..|actions| - 1]), actions[|actions| - 1]);
      StepGrows(ctx, before, a);
      AssumedBefore(ctx.k, before, RunOf(ctx, actions));
      RunsAreExplained(ctx, actions[..|actions| - 1]);
      AloneAlways(ctx, actions[..|actions| - 1], id);
      AloneStays(ctx, before, id, a);
    }
  }

  lemma NothingIsAlone(ctx: Context, id: nat)
    ensures Alone(ctx, NOTHING, id)
  {
  }

  /**
   With one writer, which may stop and begin again at any point, a run is the fold of
   its operations that found a root.
   */
  lemma OneWriterIsFold(ctx: Context, actions: seq<Action>, id: nat)
    requires Assumed(ctx.k, RunOf(ctx, actions)) && forall a <- actions :: a.id == id
    ensures var w := RunOf(ctx, actions);
      RepDrive(ctx, w.blobs, LastLeafOf(w.commits), Run(ctx.k, ctx.bucketId, Steps(w.events), map[]))
  {
    hide Assumed, RepDrive, RunOf, Inv, DrivesOf, Run, Sequential, Steps;
    AloneAlways(ctx, actions, id);
    LastLeafIsADrive(ctx, actions);
    SequentialIsFold(ctx, RunOf(ctx, actions).events);
  }

  /** No root read has failed. */
  predicate NoneFailed(w: World) {
    && (forall id <- w.writers :: w.writers[id].failed == [])
    && forall e <- w.events :: e.failed == []
  }

  lemma HonestStep(ctx: Context, w: World, id: nat, a: Action)
    requires Inv(ctx, w) && Assumed(ctx.k, w) && AtNewest(w, id) && NoneFailed(w) && a.id == id && !a.Answer?
    ensures NoneFailed(Take(ctx, w, a))
  {
    hide StoreOk, Prepare, PlanOf, Flatten, LastLeafOf, ComputeCid, MmrSound, NoCollision, OwnProof, MmrComplete;
    if id in w.writers && w.writers[id].phase.AskProof? && a.Proceed? {
      assert WriterOk(ctx, w, w.writers[id]);
      OwnProofFails(ctx.k, w, |w.commits|);
      assert w.commits[..|w.commits|] == w.commits;
    }
  }

  /** A lone writer on a store that answers with its own proofs never fails to find the root. */
  lemma {:induction false} OneHonestWriter(ctx: Context, actions: seq<Action>, id: nat)
    requires Assumed(ctx.k, RunOf(ctx, actions)) && forall a <- actions :: a.id == id && !a.Answer?
    ensures NoneFailed(RunOf(ctx, actions))
    decreases |actions|
  {
    hide Take, Inv, Assumed, Sequential, NoneFailed, AtNewest;
    if actions == [] {
      NothingFailed();
    } else {
      var (init, a) := (actions[..|actions| - 1], actions[|actions| - 1]);
      var before := RunOf(ctx, init);
      StepGrows(ctx, before, a);
      AssumedBefore(ctx.k, before, RunOf(ctx, actions));
      RunsAreExplained(ctx, init);
      AloneAlways(ctx, init, id);
      OneHonestWriter(ctx, init, id);
      HonestStep(ctx, before, id, a);
    }
  }

  lemma NothingFailed()
    ensures NoneFailed(NOTHING)
  {
  }

  /** So on such a store every operation of a lone writer has its outcome on the drive, and none fails on a proof. */
  lemma OneHonestWriterFindsTheRoot(ctx: Context, actions: seq<Action>, id: nat, i: nat)
    requires Assumed(ctx.k, RunOf(ctx, actions)) && forall a <- actions :: a.id == id && !a.Answer?
    requires i < |RunOf(ctx, actions).events|
    ensures !NoRoot(RunOf(ctx, actions).events[i])
  {
    hide RunOf, Assumed;
    var e := RunOf(ctx, actions).events[i];
    OneHonestWriter(ctx, actions, id);
    assert e in RunOf(ctx, actions).events;
    if NoRoot(e) {
      FailuresAreExplained(ctx, actions, i);
    }
  }

  // ---- What was begun ends as itself ----

  /** Some action began this operation, with this clock. */
  predicate WasBegun(actions: seq<Action>, op: Operation, clock: Clock) {
    exists a <- actions :: a.Begin? && a.op == op && a.clock == clock
  }

  ghost predicate AllBegun(w: World, actions: seq<Action>) {
    && (forall e <- w.events :: WasBegun(actions, e.op, e.clock))
    && (forall id <- w.writers :: WasBegun(actions, w.writers[id].op, w.writers[id].clock))
  }

  lemma OneMoreBegun(actions: seq<Action>, a: Action)
    ensures forall op, clock :: WasBegun(actions, op, clock) ==> WasBegun(actions + [a], op, clock)
    ensures a.Begin? ==> WasBegun(actions + [a], a.op, a.clock)
  {
    assert a in actions + [a];
    assert forall b <- actions :: b in actions + [a];
  }

  lemma BegunStep(ctx: Context, w: World, actions: seq<Action>, a: Action)
    requires AllBegun(w, actions)
    ensures AllBegun(Take(ctx, w, a), actions + [a])
  {
    hide Prepare, PlanOf, Flatten, LastLeafOf, ComputeCid, WasBegun, OwnProof, CidsOf, LeavesOf;
    OneMoreBegun(actions, a);
  }

  /** Every operation that ended or is at work in a run was begun in it, with its arguments and clock. */
  lemma {:induction false} EventsWereBegun(ctx: Context, actions: seq<Action>)
    ensures AllBegun(RunOf(ctx, actions), actions)
    decreases |actions|
  {
    hide Take, AllBegun;
    if actions == [] {
      NothingBegun();
    } else {
      var init := actions[..|actions| - 1];
      EventsWereBegun(ctx, init);
      BegunStep(ctx, RunOf(ctx, init), init, actions[|actions| - 1]);
      assert init + [actions[|actions| - 1]] == actions;
    }
  }

  lemma NothingBegun()
    ensures AllBegun(NOTHING, [])
  {
  }

  // ---- What is answered ----

  /** The CIDs that operations answered, in order. */
  function Answers(events: seq<Event>): seq<Cid> {
    if events == [] then []
    else
      var last := events[|events| - 1];
      Answers(events[..|events| - 1]) + if last.result.Ok? then [last.result.value] else []
  }

  /** The last leaf of each commit. */
  function Roots(commits: seq<seq<Cid>>): seq<Cid> {
    if commits == [] then []
    else
      var last := commits[|commits| - 1];
      Roots(commits[..|commits| - 1]) + if last == [] then [] else [last[|last| - 1]]
  }

  lemma OneMoreAnswer(events: seq<Event>, e: Event)
    ensures Answers(events + [e]) == Answers(events) + if e.result.Ok? then [e.result.value] else []
  {
    assert (events + [e])[..|events|] == events;
  }

  lemma OneMoreRoot(k: Crypto, commits: seq<seq<Cid>>, plan: Plan)
    ensures Roots(commits + [LeavesOf(k, plan)]) == Roots(commits) + [ComputeCid(k, plan.root)]
  {
    hide ComputeCid;
    assert (commits + [LeavesOf(k, plan)])[..|commits|] == commits;
    CommitOrderLaw(CidsOf(k, plan.blobs + [plan.root]));
  }

  lemma AnswerStep(ctx: Context, w: World, a: Action)
    requires Answers(w.events) == Roots(w.commits)
    ensures Answers(Take(ctx, w, a).events) == Roots(Take(ctx, w, a).commits)
  {
    hide Prepare, PlanOf, Flatten, LastLeafOf, ComputeCid, OwnProof, CidsOf, LeavesOf, Answers, Roots;
    var next := Take(ctx, w, a);
    if next.events != w.events {
      OneMoreAnswer(w.events, next.events[|w.events|]);
      assert Answers(w.events) + [] == Answers(w.events);
    }
    if next.commits != w.commits {
      OneMoreRoot(ctx.k, w.commits, w.writers[a.id].phase.plan);
    }
  }

  /** The operations that succeed answer the roots of the commits, in order: each the last leaf of its own commit. */
  lemma {:induction false} AnswersAreRoots(ctx: Context, actions: seq<Action>)
    ensures Answers(RunOf(ctx, actions).events) == Roots(RunOf(ctx, actions).commits)
    decreases |actions|
  {
    hide Take;
    if actions != [] {
      AnswersAreRoots(ctx, actions[..|actions| - 1]);
      AnswerStep(ctx, RunOf(ctx, actions[..|actions| - 1]), actions[|actions| - 1]);
    }
  }

  // ---- Every call counts ----

  /** How far a writer is from its end: root reads that are left, the stage, and what is left of it. */
  datatype Left = Left(tries: nat, stage: nat, calls: nat)

  predicate Nearer(a: Left, b: Left) {
    || a.tries < b.tries
    || (a.tries == b.tries && a.stage < b.stage)
    || (a.tries == b.tries && a.stage == b.stage && a.calls < b.calls)
  }

  /** In a store of `stored` blobs. A writer reads each blob at most once. */
  ghost function LeftOf(stored: nat, wr: Writer): Left {
    var tries := if |wr.failed| < 2 then 2 - |wr.failed| else 0;
    match wr.phase
    case AskCommitment => Left(tries, 3, 0)
    case AskProof(_, _) => Left(tries, 2, 0)
    case Reading(_, _, read) => Left(tries, 1, if |read| < stored then stored - |read| else 0)
    case Uploading(plan, _, done) => Left(tries, 0, if done <= |AllBlobs(plan)| then |AllBlobs(plan)| + 1 - done else 0)
  }

  /**
   Each call of a writer ends its operation or brings it nearer to its end, so that
   without other writers it ends after finitely many calls: at most two root reads, one
   read for each stored blob, one upload for each blob and one commit.
   */
  lemma EveryCallCounts(ctx: Context, actions: seq<Action>, id: nat)
    requires Assumed(ctx.k, RunOf(ctx, actions)) && id in RunOf(ctx, actions).writers
    ensures var (w, next) := (RunOf(ctx, actions), RunOf(ctx, actions + [Proceed(id)]));
      id in next.writers ==> Nearer(LeftOf(|next.blobs|, next.writers[id]), LeftOf(|w.blobs|, w.writers[id]))
  {
    hide Assumed, StoreOk, Take, WriterOk;
    RunsAreExplained(ctx, actions);
    var w := RunOf(ctx, actions);
    assert (actions + [Proceed(id)])[..|actions|] == actions;
    CallCounts(ctx, w, id);
  }

  lemma CallCounts(ctx: Context, w: World, id: nat)
    requires id in w.writers && WriterOk(ctx, w, w.writers[id])
    ensures var next := Take(ctx, w, Proceed(id));
      id in next.writers ==> Nearer(LeftOf(|next.blobs|, next.writers[id]), LeftOf(|w.blobs|, w.writers[id]))
  {
    hide Prepare, PlanOf, LastLeafOf, ComputeCid, CidsOf, LeavesOf;
    var wr := w.writers[id];
    match wr.phase
    case AskCommitment =>
    case AskProof(c, base) => FlattenPrefix(w.commits, base);
    case Reading(leaf, base, read) => ReadsFit(w, read);
    case Uploading(_, _, _) =>
  }

  /** What was read is stored; if a stored blob was not read, there are more. */
  lemma ReadsFit(w: World, read: Blobs)
    requires Extends(read, w.blobs)
    ensures |read| <= |w.blobs|
    ensures forall cid :: cid in w.blobs && cid !in read ==>
      |read| < |w.blobs| && |read[cid := w.blobs[cid]]| == |read| + 1
  {
    assert read.Keys <= w.blobs.Keys;
    SubsetSize(read.Keys, w.blobs.Keys);
    assert |read| == |read.Keys| && |w.blobs| == |w.blobs.Keys|;
    forall cid | cid in w.blobs && cid !in read
      ensures |read| < |w.blobs| && |read[cid := w.blobs[cid]]| == |read| + 1
    {
      SubsetSize(read.Keys + {cid}, w.blobs.Keys);
      assert read[cid := w.blobs[cid]].Keys == read.Keys + {cid};
      assert |read[cid := w.blobs[cid]]| == |read[cid := w.blobs[cid]].Keys|;
    }
  }

  lemma SubsetSize<T>(a: set<T>, b: set<T>)
    requires a <= b
    ensures |a| <= |b|
  {
    assert b == a + (b - a);
    assert |a + (b - a)| == |a| + |b - a|;
  }
}
