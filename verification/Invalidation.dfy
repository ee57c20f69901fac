/**
 The membership invalidation feed: the follower broadcasts each block's events, a
 bounded queue forgets its oldest entry when it is full, and a drain collects what to
 drop from the cache. No membership change that was sent escapes the next drain.
 */
module Invalidations {
  import opened Wrappers
  import opened EventDecoding

  datatype Invalidation = Nothing | Buckets(buckets: seq<BucketId>) | All

  // ---- The bounded broadcast queue ----

  /** What one receiver has not read yet, and whether something it had not read was overwritten. */
  datatype FeedState = FeedState(queue: seq<BlockEvent>, missed: bool, closed: bool)

  datatype Received = Got(event: BlockEvent) | Lagged | Empty | Closed

  function SendTo(capacity: nat, f: FeedState, e: BlockEvent): FeedState
    requires capacity > 0
  {
    if |f.queue| < capacity then f.(queue := f.queue + [e])
    else f.(queue := f.queue[1..] + [e], missed := true)
  }

  /** A read of a receiver that fell behind only says so; the next one goes on with the oldest entry left. */
  function TryRecv(f: FeedState): (Received, FeedState) {
    if f.missed then (Lagged, f.(missed := false))
    else if f.queue != [] then (Got(f.queue[0]), f.(queue := f.queue[1..]))
    else if f.closed then (Closed, f)
    else (Empty, f)
  }

  class Feed {
    const capacity: nat
    var queue: seq<BlockEvent>
    var missed: bool
    var closed: bool

    ghost predicate Valid()
      reads this
    {
      capacity > 0 && |queue| <= capacity
    }

    function State(): FeedState
      reads this
    {
      FeedState(queue, missed, closed)
    }

    constructor (capacity: nat)
      requires capacity > 0
      ensures Valid() && this.capacity == capacity && State() == FeedState([], false, false)
    {
      this.capacity := capacity;
      queue, missed, closed := [], false, false;
    }

    method Send(e: BlockEvent)
      requires Valid()
      modifies this
      ensures Valid() && State() == SendTo(capacity, old(State()), e)
    {
      if |queue| == capacity {
        queue := queue[1..];
        missed := true;
      }
      queue := queue + [e];
    }

    method Close()
      requires Valid()
      modifies this
      ensures Valid() && State() == old(State()).(closed := true)
    {
      closed := true;
    }

    method Receive() returns (r: Received)
      requires Valid()
      modifies this
      ensures Valid() && (r, State()) == TryRecv(old(State()))
    {
      if missed {
        missed := false;
        return Lagged;
      }
      if queue != [] {
        r := Got(queue[0]);
        queue := queue[1..];
        return;
      }
      r := if closed then Closed else Empty;
    }
  }

  // ---- Draining, one read at a time ----

  /** What a drain has collected so far. */
  datatype Draining = Draining(buckets: seq<BucketId>, all: bool)

  function Collected(d: Draining, e: BlockEvent): Draining {
    match e
    case MembershipChanged(bucketId) => if d.all then d else d.(buckets := d.buckets + [bucketId])
    case ReplicaEstablished(bucketId, _) => if d.all then d else d.(buckets := d.buckets + [bucketId])
    case Resubscribed(_) => d.(all := true)
    case MembershipScopeUnknown(_) => d.(all := true)
    case _ => d
  }

  function ResultOf(d: Draining): Invalidation {
    if d.all then All else if d.buckets == [] then Nothing else Buckets(d.buckets)
  }

  /** The receiver, the drain under way, and the results of the drains that ended. */
  datatype Machine = Machine(feed: FeedState, drain: Draining, log: seq<Invalidation>)

  /** A send, one read of a drain, or the end of the sending side. */
  datatype Step = Send(event: BlockEvent) | Poll | Close

  const START := Machine(FeedState([], false, false), Draining([], false), [])

  function PollStep(m: Machine): Machine {
    var (r, feed) := TryRecv(m.feed);
    match r
    case Got(e) => Machine(feed, Collected(m.drain, e), m.log)
    case Lagged => Machine(feed, m.drain.(all := true), m.log)
    case Empty => Machine(feed, Draining([], false), m.log + [ResultOf(m.drain)])
    case Closed => Machine(feed, Draining([], false), m.log + [ResultOf(m.drain)])
  }

  function Next(capacity: nat, m: Machine, s: Step): Machine
    requires capacity > 0
  {
    match s
    case Send(e) => m.(feed := SendTo(capacity, m.feed, e))
    case Poll => PollStep(m)
    case Close => m.(feed := m.feed.(closed := true))
  }

  function After(capacity: nat, m: Machine, steps: seq<Step>): Machine
    requires capacity > 0
  {
    if steps == [] then m else Next(capacity, After(capacity, m, steps[..|steps| - 1]), steps[|steps| - 1])
  }

  function Sends(events: seq<BlockEvent>): (steps: seq<Step>)
    ensures |steps| == |events|
    ensures forall i | 0 <= i < |events| :: steps[i] == Send(events[i])
  {
    if events == [] then [] else [Send(events[0])] + Sends(events[1..])
  }

  /** The steps of a drain of `n` reads, with the sends of `racing[i]` just before read `i`. */
  function DrainSteps(racing: seq<seq<BlockEvent>>, n: nat): seq<Step> {
    if n == 0 then []
    else DrainSteps(racing, n - 1) + Sends(if n <= |racing| then racing[n - 1] else []) + [Poll]
  }

  class BlockEventInvalidations {
    const feed: Feed
    var closedWarned: bool

    constructor (feed: Feed)
      ensures this.feed == feed && !closedWarned
    {
      this.feed, closedWarned := feed, false;
    }

    method SendAll(events: seq<BlockEvent>, ghost start: Machine, ghost before: seq<Step>)
      requires feed.Valid() && After(feed.capacity, start, before).feed == feed.State()
      modifies feed
      ensures feed.Valid() && (events == [] ==> feed.State() == old(feed.State()))
      ensures var now := After(feed.capacity, start, before + Sends(events));
        now == After(feed.capacity, start, before).(feed := feed.State())
    {
      hide After, Sends;
      var i := 0;
      assert before + Sends(events)[..0] == before;
      while i < |events|
        invariant 0 <= i <= |events| && feed.Valid() && (i == 0 ==> feed.State() == old(feed.State()))
        invariant After(feed.capacity, start, before + Sends(events)[..i]) ==
          After(feed.capacity, start, before).(feed := feed.State())
      {
        feed.Send(events[i]);
        StepAfter(feed.capacity, start, before + Sends(events)[..i], Send(events[i]));
        assert before + Sends(events)[..i + 1] == before + Sends(events)[..i] + [Send(events[i])];
        i := i + 1;
      }
      assert Sends(events)[..i] == Sends(events);
    }

    /**
     Collect the invalidations until the feed is empty or closed. `racing[i]` is what
     is sent between this drain's reads `i - 1` and `i`; `polls` counts its reads.
     */
    method Drain(racing: seq<seq<BlockEvent>>, ghost start: Machine) returns (r: Invalidation, polls: nat)
      requires feed.Valid() && start.feed == feed.State() && start.drain == Draining([], false)
      modifies this, feed
      ensures feed.Valid()
      ensures After(feed.capacity, start, DrainSteps(racing, polls)) ==
        Machine(feed.State(), Draining([], false), start.log + [r])
      ensures closedWarned == (old(closedWarned) || (feed.closed && feed.queue == []))
    {
      hide After, Sends, DrainSteps;
      var buckets: seq<BucketId>, all := [], false;
      polls := 0;
      NoSteps(feed.capacity, start, racing);
      while true
        invariant feed.Valid() && closedWarned == old(closedWarned)
        invariant After(feed.capacity, start, DrainSteps(racing, polls)) ==
          Machine(feed.State(), Draining(buckets, all), start.log)
        decreases if polls <= |racing| then |racing| - polls else 0, |feed.queue| + (if feed.missed then 1 else 0)
      {
        ghost var steps := DrainSteps(racing, polls);
        var sent := if polls < |racing| then racing[polls] else [];
        SendAll(sent, start, steps);
        StepAfter(feed.capacity, start, steps + Sends(sent), Poll);
        assert DrainSteps(racing, polls + 1) == steps + Sends(sent) + [Poll] by { OneMorePoll(racing, polls); }
        var got := feed.Receive();
        polls := polls + 1;
        match got {
          case Got(e) =>
            match e {
              case MembershipChanged(bucketId) =>
                if !all {
                  buckets := buckets + [bucketId];
                }
              case ReplicaEstablished(bucketId, _) =>
                if !all {
                  buckets := buckets + [bucketId];
                }
              case Resubscribed(_) => all := true;
              case MembershipScopeUnknown(_) => all := true;
              case _ =>
            }
          case Lagged => all := true;
          case Empty => break;
          case Closed =>
            closedWarned := true;
            break;
        }
      }
      r := if all then All else if buckets == [] then Nothing else Buckets(buckets);
    }
  }

  lemma NoSteps(capacity: nat, m: Machine, racing: seq<seq<BlockEvent>>)
    requires capacity > 0
    ensures After(capacity, m, DrainSteps(racing, 0)) == m
  {
  }

  lemma OneMorePoll(racing: seq<seq<BlockEvent>>, n: nat)
    ensures DrainSteps(racing, n + 1) == DrainSteps(racing, n) + Sends(if n < |racing| then racing[n] else []) + [Poll]
  {
  }

  lemma StepAfter(capacity: nat, m: Machine, steps: seq<Step>, s: Step)
    requires capacity > 0
    ensures After(capacity, m, steps + [s]) == Next(capacity, After(capacity, m, steps), s)
  {
    assert (steps + [s])[..|steps|] == steps;
  }

  // ---- Nothing is missed ----

  /** `inv` drops from the cache what `e` makes stale. */
  predicate Covers(inv: Invalidation, e: BlockEvent) {
    match e
    case MembershipChanged(bucketId) => CoversBucket(inv, bucketId)
    case ReplicaEstablished(bucketId, _) => CoversBucket(inv, bucketId)
    case Resubscribed(_) => inv.All?
    case MembershipScopeUnknown(_) => inv.All?
    case _ => true
  }

  predicate CoversBucket(inv: Invalidation, bucketId: BucketId) {
    inv.All? || (inv.Buckets? && bucketId in inv.buckets)
  }

  /** `e` is still to be read, or will be known as missed, or is collected. */
  predicate Held(m: Machine, e: BlockEvent) {
    e in m.feed.queue || m.feed.missed || Covers(ResultOf(m.drain), e)
  }

  lemma StepHolds(capacity: nat, m: Machine, s: Step, e: BlockEvent)
    requires capacity > 0
    ensures s == Send(e) ==> Held(Next(capacity, m, s), e)
    ensures Held(m, e) && Next(capacity, m, s).log == m.log ==> Held(Next(capacity, m, s), e)
    ensures Held(m, e) && Next(capacity, m, s).log != m.log ==>
      Next(capacity, m, s).log == m.log + [ResultOf(m.drain)] && Covers(ResultOf(m.drain), e)
  {
    match s {
      case Send(x) =>
        var queue := SendTo(capacity, m.feed, x).queue;
        assert queue[|queue| - 1] == x;
        if e in m.feed.queue && |m.feed.queue| < capacity { assert e in queue; }
      case Poll =>
        if !m.feed.missed && m.feed.queue != [] {
          assert m.feed.queue == [m.feed.queue[0]] + m.feed.queue[1..];
          CollectedCovers(m.drain, m.feed.queue[0], e);
        }
      case Close =>
    }
  }

  lemma CollectedCovers(d: Draining, x: BlockEvent, e: BlockEvent)
    ensures Covers(ResultOf(Collected(d, x)), x)
    ensures Covers(ResultOf(d), e) ==> Covers(ResultOf(Collected(d, x)), e)
  {
    if x.MembershipChanged? || x.ReplicaEstablished? {
      assert x.bucketId in (d.buckets + [x.bucketId]);
    }
  }

  /** The state before step `n` of a run. */
  function StateAt(capacity: nat, steps: seq<Step>, n: nat): Machine
    requires capacity > 0 && n <= |steps|
  {
    After(capacity, START, steps[..n])
  }

  lemma {:induction false} HeldUntilDrained(capacity: nat, steps: seq<Step>, i: nat, j: nat, e: BlockEvent)
    requires capacity > 0 && i < j <= |steps| && steps[i] == Send(e)
    requires StateAt(capacity, steps, i + 1).log == StateAt(capacity, steps, j).log
    ensures Held(StateAt(capacity, steps, j), e)
    decreases j
  {
    hide Held, Next, StateAt;
    NextState(capacity, steps, j - 1);
    StepHolds(capacity, StateAt(capacity, steps, j - 1), steps[j - 1], e);
    if i + 1 < j {
      LogGrows(capacity, steps, i + 1, j - 1);
      LogGrows(capacity, steps, j - 1, j);
      HeldUntilDrained(capacity, steps, i, j - 1, e);
    }
  }

  lemma {:induction false} LogGrows(capacity: nat, steps: seq<Step>, i: nat, j: nat)
    requires capacity > 0 && i <= j <= |steps|
    ensures StateAt(capacity, steps, i).log <= StateAt(capacity, steps, j).log
    decreases j
  {
    hide StateAt;
    if i < j {
      LogGrows(capacity, steps, i, j - 1);
      NextState(capacity, steps, j - 1);
    }
  }

  /**
   Whatever sends, overwritten entries and drains come in between: the first drain
   that ends after an event was sent covers it, by its bucket or by `All`.
   */
  lemma NextDrainCovers(capacity: nat, steps: seq<Step>, i: nat, j: nat, e: BlockEvent)
    requires capacity > 0 && i < j < |steps| && steps[i] == Send(e)
    requires StateAt(capacity, steps, i + 1).log == StateAt(capacity, steps, j).log
    requires StateAt(capacity, steps, j + 1).log != StateAt(capacity, steps, j).log
    ensures var log := StateAt(capacity, steps, j + 1).log;
      log != [] && Covers(log[|log| - 1], e)
  {
    hide Held, Next, Covers, ResultOf, StateAt;
    HeldUntilDrained(capacity, steps, i, j, e);
    StepHolds(capacity, StateAt(capacity, steps, j), steps[j], e);
    NextState(capacity, steps, j);
  }

  lemma NextState(capacity: nat, steps: seq<Step>, n: nat)
    requires capacity > 0 && n < |steps|
    ensures StateAt(capacity, steps, n + 1) == Next(capacity, StateAt(capacity, steps, n), steps[n])
  {
    assert steps[..n + 1] == steps[..n] + [steps[n]];
    StepAfter(capacity, START, steps[..n], steps[n]);
  }

  // ---- Nothing else is dropped ----

  /** The bucket that an event makes stale by name. */
  function BucketOf(e: BlockEvent): Option<BucketId> {
    match e
    case MembershipChanged(bucketId) => Some(bucketId)
    case ReplicaEstablished(bucketId, _) => Some(bucketId)
    case _ => None
  }

  /** Before step `n` an event was sent that makes this bucket stale. */
  ghost predicate WasSent(steps: seq<Step>, n: nat, bucketId: BucketId)
    requires n <= |steps|
  {
    exists i | 0 <= i < n :: steps[i].Send? && BucketOf(steps[i].event) == Some(bucketId)
  }

  ghost predicate OnlySent(steps: seq<Step>, n: nat, m: Machine)
    requires n <= |steps|
  {
    && (forall e <- m.feed.queue :: BucketOf(e).Some? ==> WasSent(steps, n, BucketOf(e).value))
    && (forall b <- m.drain.buckets :: WasSent(steps, n, b))
    && (forall inv <- m.log :: inv.Buckets? ==> forall b <- inv.buckets :: WasSent(steps, n, b))
  }

  /** A drain names only buckets for which an event was sent. */
  lemma {:induction false} DrainedBucketsWereSent(capacity: nat, steps: seq<Step>, n: nat)
    requires capacity > 0 && n <= |steps|
    ensures OnlySent(steps, n, StateAt(capacity, steps, n))
    decreases n
  {
    hide StateAt;
    if n == 0 {
      assert StateAt(capacity, steps, 0) == START by { StateZero(capacity, steps); }
    } else {
      DrainedBucketsWereSent(capacity, steps, n - 1);
      NextState(capacity, steps, n - 1);
      SentStays(steps, n - 1);
      OnlySentStep(capacity, steps, n - 1, StateAt(capacity, steps, n - 1));
    }
  }

  lemma StateZero(capacity: nat, steps: seq<Step>)
    requires capacity > 0
    ensures StateAt(capacity, steps, 0) == START
  {
  }

  lemma SentStays(steps: seq<Step>, n: nat)
    requires n < |steps|
    ensures forall b :: WasSent(steps, n, b) ==> WasSent(steps, n + 1, b)
    ensures steps[n].Send? && BucketOf(steps[n].event).Some? ==> WasSent(steps, n + 1, BucketOf(steps[n].event).value)
  {
  }

  lemma OnlySentStep(capacity: nat, steps: seq<Step>, n: nat, m: Machine)
    requires capacity > 0 && n < |steps| && OnlySent(steps, n, m)
    ensures OnlySent(steps, n + 1, Next(capacity, m, steps[n]))
  {
    hide WasSent;
    SentStays(steps, n);
    if steps[n].Poll? && !m.feed.missed && m.feed.queue != [] {
      assert m.feed.queue[0] in m.feed.queue;
    }
  }

  // ---- From blocks to the cache ----

  /** What the follower sees of the chain: a new connection, or a finalized block, readable or not. */
  datatype ChainStep =
    | Connected(atBlock: nat)
    | Finalized(items: Option<seq<Option<RawEvent>>>, number: nat)

  /** What the follower broadcasts, in order. */
  function Broadcasts(s: ChainStep): seq<BlockEvent> {
    match s
    case Connected(atBlock) => [Resubscribed(atBlock)]
    case Finalized(None, number) => [MembershipScopeUnknown(number)]
    case Finalized(Some(items), number) => EventsFor(items, number)
  }

  /** The follower's events that are not sent yet, and the receiving side. */
  datatype Node = Node(outbox: seq<BlockEvent>, machine: Machine)

  /** The follower sees the chain, sends its next event or stops; the receiver makes one read of a drain. */
  datatype NodeStep = Follow(seen: ChainStep) | SendNext | EndSending | ReadNext

  function NodeNext(capacity: nat, n: Node, s: NodeStep): Node
    requires capacity > 0
  {
    match s
    case Follow(seen) => n.(outbox := n.outbox + Broadcasts(seen))
    case SendNext =>
      if n.outbox == [] then n else Node(n.outbox[1..], Next(capacity, n.machine, Send(n.outbox[0])))
    case EndSending => n.(machine := Next(capacity, n.machine, Close))
    case ReadNext => n.(machine := Next(capacity, n.machine, Poll))
  }

  /** The state before step `n` of a run. */
  function NodeAt(capacity: nat, steps: seq<NodeStep>, n: nat): Node
    requires capacity > 0 && n <= |steps|
  {
    if n == 0 then Node([], START) else NodeNext(capacity, NodeAt(capacity, steps, n - 1), steps[n - 1])
  }

  /** One of the drains with these numbers has ended and covers `e`. */
  predicate CoveredSince(log: seq<Invalidation>, first: nat, past: nat, e: BlockEvent) {
    exists x | first <= x < |log| && x < past :: Covers(log[x], e)
  }

  /** `e` waits to be sent or read, or was covered by a drain with number `first` or later. */
  predicate OnItsWay(n: Node, first: nat, e: BlockEvent) {
    e in n.outbox || Held(n.machine, e) || CoveredSince(n.machine.log, first, |n.machine.log|, e)
  }

  /** What one step does to the log, and to an event on its way. */
  lemma NodeStepHolds(capacity: nat, n: Node, s: NodeStep, e: BlockEvent)
    requires capacity > 0
    ensures var after := NodeNext(capacity, n, s);
      && (after.machine.log == n.machine.log || after.machine.log == n.machine.log + [ResultOf(n.machine.drain)])
      && (e in n.outbox ==> e in after.outbox || Held(after.machine, e))
      && (e in n.outbox ==> after.machine.log == n.machine.log || e in after.outbox)
      && (Held(n.machine, e) ==> if after.machine.log == n.machine.log then Held(after.machine, e)
                                 else Covers(ResultOf(n.machine.drain), e))
  {
    hide Held, Covers, ResultOf, Broadcasts;
    match s
    case Follow(_) =>
    case SendNext =>
      if n.outbox != [] {
        StepHolds(capacity, n.machine, Send(n.outbox[0]), e);
        assert n.outbox == [n.outbox[0]] + n.outbox[1..];
      }
    case EndSending => StepHolds(capacity, n.machine, Close, e);
    case ReadNext => StepHolds(capacity, n.machine, Poll, e);
  }

  lemma {:induction false} SentOrCovered(capacity: nat, steps: seq<NodeStep>, i: nat, k: nat, e: BlockEvent)
    requires capacity > 0 && i < k <= |steps|
    requires steps[i].Follow? && e in Broadcasts(steps[i].seen)
    ensures |NodeAt(capacity, steps, i).machine.log| <= |NodeAt(capacity, steps, k).machine.log|
    ensures OnItsWay(NodeAt(capacity, steps, k), |NodeAt(capacity, steps, i).machine.log|, e)
    decreases k
  {
    hide Held, Covers, ResultOf, Broadcasts, NodeNext, NodeAt;
    NodeStepAt(capacity, steps, k - 1);
    if i + 1 < k {
      SentOrCovered(capacity, steps, i, k - 1, e);
      NodeStepHolds(capacity, NodeAt(capacity, steps, k - 1), steps[k - 1], e);
      LogStep(NodeAt(capacity, steps, k - 1), NodeAt(capacity, steps, k), |NodeAt(capacity, steps, i).machine.log|, e);
    } else {
      FollowQueues(capacity, NodeAt(capacity, steps, i), steps[i].seen, e);
    }
  }

  lemma FollowQueues(capacity: nat, n: Node, seen: ChainStep, e: BlockEvent)
    requires capacity > 0 && e in Broadcasts(seen)
    ensures var after := NodeNext(capacity, n, Follow(seen));
      e in after.outbox && after.machine == n.machine
  {
  }

  lemma NodeStepAt(capacity: nat, steps: seq<NodeStep>, n: nat)
    requires capacity > 0 && n < |steps|
    ensures NodeAt(capacity, steps, n + 1) == NodeNext(capacity, NodeAt(capacity, steps, n), steps[n])
  {
  }

  /** A log that grows keeps what was covered. */
  lemma LogStep(n: Node, after: Node, first: nat, e: BlockEvent)
    requires after.machine.log == n.machine.log || after.machine.log == n.machine.log + [ResultOf(n.machine.drain)]
    ensures forall past: nat :: CoveredSince(n.machine.log, first, past, e) ==>
      CoveredSince(after.machine.log, first, past, e)
    ensures first <= |n.machine.log| && Covers(ResultOf(n.machine.drain), e) && after.machine.log != n.machine.log ==>
      CoveredSince(after.machine.log, first, |n.machine.log| + 1, e)
    ensures forall less: nat, more: nat | less <= more ::
      CoveredSince(after.machine.log, first, less, e) ==> CoveredSince(after.machine.log, first, more, e)
  {
    hide Covers, ResultOf;
    var (log, log') := (n.machine.log, after.machine.log);
    assert forall x | 0 <= x < |log| :: log'[x] == log[x];
    if first <= |log| && log' != log && Covers(ResultOf(n.machine.drain), e) {
      assert Covers(log'[|log|], e);
    }
  }

  lemma {:induction false} HeldOrCovered(capacity: nat, steps: seq<NodeStep>, i: nat, k: nat, n: nat, e: BlockEvent)
    requires capacity > 0 && i < k <= n <= |steps|
    requires steps[i].Follow? && e in Broadcasts(steps[i].seen) && NodeAt(capacity, steps, k).outbox == []
    ensures var (first, sent) := (|NodeAt(capacity, steps, i).machine.log|, |NodeAt(capacity, steps, k).machine.log|);
      var log := NodeAt(capacity, steps, n).machine.log;
      && first <= sent <= |log|
      && (CoveredSince(log, first, sent + 1, e) || (|log| == sent && Held(NodeAt(capacity, steps, n).machine, e)))
    decreases n
  {
    hide Held, Covers, ResultOf, Broadcasts, NodeNext, NodeAt;
    var (first, sent) := (|NodeAt(capacity, steps, i).machine.log|, |NodeAt(capacity, steps, k).machine.log|);
    if k == n {
      SentOrCovered(capacity, steps, i, k, e);
      LogStep(NodeAt(capacity, steps, k), NodeAt(capacity, steps, k), first, e);
    } else {
      HeldOrCovered(capacity, steps, i, k, n - 1, e);
      NodeStepAt(capacity, steps, n - 1);
      NodeStepHolds(capacity, NodeAt(capacity, steps, n - 1), steps[n - 1], e);
      LogStep(NodeAt(capacity, steps, n - 1), NodeAt(capacity, steps, n), first, e);
    }
  }

  /**
   What the cache holds for the bucket is stale after this event: a membership change or
   a new replica agreement of the bucket, or a membership change that does not decode.
   */
  predicate MakesStale(raw: RawEvent, bucketId: BucketId) {
    match raw.decoded
    case StorageProvider(BucketCreated(b)) => b == bucketId
    case StorageProvider(MemberSet(b)) => b == bucketId
    case StorageProvider(MemberRemoved(b)) => b == bucketId
    case StorageProvider(BucketDeleted(b)) => b == bucketId
    case StorageProvider(BucketVisibilityChanged(b)) => b == bucketId
    case StorageProvider(ReplicaAgreementEstablished(b, _)) => b == bucketId
    case StorageProvider(_) => false
    case OtherPallet => false
    case Undecodable =>
      || raw.name == NameBucketCreated || raw.name == NameMemberSet || raw.name == NameMemberRemoved
      || raw.name == NameBucketDeleted || raw.name == NameBucketVisibilityChanged
  }

  /** The follower tells something that covers the bucket. */
  lemma StaleIsBroadcast(s: ChainStep, raw: RawEvent, bucketId: BucketId) returns (e: BlockEvent)
    requires s.Finalized? && MakesStale(raw, bucketId) && (s.items.Some? ==> Some(raw) in s.items.value)
    ensures e in Broadcasts(s)
    ensures forall inv :: Covers(inv, e) ==> CoversBucket(inv, bucketId)
  {
    hide EventsFor, EventFor;
    if s.items.None? {
      e := MembershipScopeUnknown(s.number);
    } else {
      SaysWhatItBecomes(raw, s.number);
      if raw.decoded.Undecodable? {
        e := MembershipScopeUnknown(s.number);
      } else if raw.decoded.event.ReplicaAgreementEstablished? {
        e := ReplicaEstablished(bucketId, raw.decoded.event.provider);
      } else {
        e := MembershipChanged(bucketId);
      }
      assert Says(raw, s.number, e);
      EventIsKept(s.items.value, s.number, raw);
    }
  }

  /**
   An event in a finalized block that makes a bucket stale, in a block that could be read
   or not: the follower sees the block at step `i` and has sent all it had to by step
   `k`. The bucket, or everything, is dropped by the first drain that ends after step
   `k`, if not by one before, whatever was overwritten in between.
   */
  lemma RevocationReachesTheCache(
    capacity: nat, steps: seq<NodeStep>, i: nat, k: nat, n: nat, raw: RawEvent, bucketId: BucketId)
    requires capacity > 0 && i < k <= n <= |steps| && steps[i].Follow? && steps[i].seen.Finalized?
    requires steps[i].seen.items.Some? ==> Some(raw) in steps[i].seen.items.value
    requires MakesStale(raw, bucketId)
    requires NodeAt(capacity, steps, k).outbox == []
    requires |NodeAt(capacity, steps, n).machine.log| > |NodeAt(capacity, steps, k).machine.log|
    ensures var (first, sent) := (|NodeAt(capacity, steps, i).machine.log|, |NodeAt(capacity, steps, k).machine.log|);
      var log := NodeAt(capacity, steps, n).machine.log;
      exists x | first <= x <= sent :: CoversBucket(log[x], bucketId)
  {
    hide NodeAt, NodeNext, Held, Broadcasts, Covers, CoversBucket, MakesStale;
    var e := StaleIsBroadcast(steps[i].seen, raw, bucketId);
    HeldOrCovered(capacity, steps, i, k, n, e);
  }

  /** In the same way everything is dropped after the follower has connected anew. */
  lemma ReconnectDropsAll(capacity: nat, steps: seq<NodeStep>, i: nat, k: nat, n: nat)
    requires capacity > 0 && i < k <= n <= |steps| && steps[i].Follow? && steps[i].seen.Connected?
    requires NodeAt(capacity, steps, k).outbox == []
    requires |NodeAt(capacity, steps, n).machine.log| > |NodeAt(capacity, steps, k).machine.log|
    ensures var (first, sent) := (|NodeAt(capacity, steps, i).machine.log|, |NodeAt(capacity, steps, k).machine.log|);
      var log := NodeAt(capacity, steps, n).machine.log;
      exists x | first <= x <= sent :: log[x] == All
  {
    hide NodeAt, NodeNext, Held;
    HeldOrCovered(capacity, steps, i, k, n, Resubscribed(steps[i].seen.atBlock));
  }

  // ---- Exactly what a drain answers ----

  /** What was sent since the last drain ended, before step `n`. */
  function SentSince(capacity: nat, steps: seq<Step>, n: nat): seq<BlockEvent>
    requires capacity > 0 && n <= |steps|
  {
    if n == 0 || StateAt(capacity, steps, n).log != StateAt(capacity, steps, n - 1).log then []
    else SentSince(capacity, steps, n - 1) + if steps[n - 1].Send? then [steps[n - 1].event] else []
  }

  /** Something was overwritten unread since the last drain ended, before step `n`. */
  predicate LostSince(capacity: nat, steps: seq<Step>, n: nat)
    requires capacity > 0 && n <= |steps|
  {
    if n == 0 || StateAt(capacity, steps, n).log != StateAt(capacity, steps, n - 1).log then false
    else
      || LostSince(capacity, steps, n - 1)
      || (steps[n - 1].Send? && |StateAt(capacity, steps, n - 1).feed.queue| == capacity)
  }

  /** After these events nothing that is cached can be trusted. */
  predicate DistrustsAll(events: seq<BlockEvent>) {
    exists i | 0 <= i < |events| :: events[i].Resubscribed? || events[i].MembershipScopeUnknown?
  }

  /** The buckets of the membership changes and replica agreements, in order. */
  function StaleBuckets(events: seq<BlockEvent>): seq<BucketId> {
    if events == [] then []
    else
      var last := events[|events| - 1];
      StaleBuckets(events[..|events| - 1])
      + if last.MembershipChanged? || last.ReplicaEstablished? then [last.bucketId] else []
  }

  /** `d` is what collecting these events gives. */
  predicate HasCollected(d: Draining, events: seq<BlockEvent>) {
    (d.all <==> DistrustsAll(events)) && (!d.all ==> d.buckets == StaleBuckets(events))
  }

  lemma CollectOneMore(d: Draining, events: seq<BlockEvent>, e: BlockEvent)
    requires HasCollected(d, events)
    ensures HasCollected(Collected(d, e), events + [e])
  {
    var more := events + [e];
    assert more[..|more| - 1] == events && more[|events|] == e;
    if DistrustsAll(events) {
      var i :| 0 <= i < |events| && (events[i].Resubscribed? || events[i].MembershipScopeUnknown?);
      assert more[i] == events[i];
    }
    if DistrustsAll(more) {
      var i :| 0 <= i < |more| && (more[i].Resubscribed? || more[i].MembershipScopeUnknown?);
      assert i < |events| ==> events[i] == more[i];
    }
  }

  /** Either something was lost and will be known as lost, or the events were read in order and the rest is queued. */
  ghost predicate InOrder(m: Machine, sent: seq<BlockEvent>, lost: bool, read: seq<BlockEvent>) {
    if lost then m.feed.missed || m.drain.all
    else !m.feed.missed && sent == read + m.feed.queue && HasCollected(m.drain, read)
  }

  lemma {:induction false} DrainInOrder(capacity: nat, steps: seq<Step>, n: nat) returns (read: seq<BlockEvent>)
    requires capacity > 0 && n <= |steps|
    ensures InOrder(StateAt(capacity, steps, n), SentSince(capacity, steps, n), LostSince(capacity, steps, n), read)
    ensures |StateAt(capacity, steps, n).feed.queue| <= capacity
    decreases n
  {
    hide StateAt, HasCollected;
    read := [];
    if n == 0 {
      StateZero(capacity, steps);
      NothingCollected();
    } else {
      read := DrainInOrder(capacity, steps, n - 1);
      NextState(capacity, steps, n - 1);
      read := StepInOrder(capacity, StateAt(capacity, steps, n - 1), steps[n - 1],
                          SentSince(capacity, steps, n - 1), LostSince(capacity, steps, n - 1), read);
    }
  }

  lemma NothingCollected()
    ensures HasCollected(Draining([], false), [])
  {
  }

  lemma StepInOrder(capacity: nat, m: Machine, s: Step, sent: seq<BlockEvent>, lost: bool, read: seq<BlockEvent>)
    returns (read': seq<BlockEvent>)
    requires capacity > 0 && |m.feed.queue| <= capacity && InOrder(m, sent, lost, read)
    ensures var after := Next(capacity, m, s);
      && |after.feed.queue| <= capacity
      && if after.log != m.log then InOrder(after, [], false, read')
         else InOrder(after, sent + (if s.Send? then [s.event] else []),
                      lost || (s.Send? && |m.feed.queue| == capacity), read')
  {
    hide HasCollected, ResultOf;
    read' := read;
    match s {
      case Send(e) =>
        assert sent + [e] == read + (m.feed.queue + [e]) || lost;
      case Close =>
        assert sent + [] == sent;
      case Poll =>
        assert sent + [] == sent;
        if !m.feed.missed {
          if m.feed.queue == [] {
            read' := [];
            NothingCollected();
          } else {
            var e := m.feed.queue[0];
            assert m.feed.queue == [e] + m.feed.queue[1..];
            if !lost {
              read' := read + [e];
              CollectOneMore(m.drain, read, e);
            }
          }
        }
    }
  }

  /**
   A drain that ends at step `n` answers exactly this: everything, if something was lost
   or some event since the last drain distrusts everything; otherwise the buckets of the
   events that were sent since then, in order.
   */
  lemma DrainMeaning(capacity: nat, steps: seq<Step>, n: nat)
    requires capacity > 0 && n < |steps| && StateAt(capacity, steps, n + 1).log != StateAt(capacity, steps, n).log
    ensures var (log, sent) := (StateAt(capacity, steps, n + 1).log, SentSince(capacity, steps, n));
      && log != []
      && log[|log| - 1] ==
           if LostSince(capacity, steps, n) || DistrustsAll(sent) then All
           else if StaleBuckets(sent) == [] then Nothing
           else Buckets(StaleBuckets(sent))
  {
    hide StateAt, DistrustsAll, StaleBuckets, SentSince, LostSince;
    var read := DrainInOrder(capacity, steps, n);
    NextState(capacity, steps, n);
    assert read + [] == read;
  }

  // ---- The queue holds the newest events ----

  /** All events that were sent before step `n`. */
  function AllSent(steps: seq<Step>, n: nat): seq<BlockEvent>
    requires n <= |steps|
  {
    if n == 0 then [] else AllSent(steps, n - 1) + if steps[n - 1].Send? then [steps[n - 1].event] else []
  }

  /** How many steps before step `n` read an event, or overwrote the oldest because the queue was full. */
  function TakenFrom(capacity: nat, steps: seq<Step>, n: nat): nat
    requires capacity > 0 && n <= |steps|
  {
    if n == 0 then 0
    else
      var feed := StateAt(capacity, steps, n - 1).feed;
      var takes := match steps[n - 1]
        case Send(_) => |feed.queue| == capacity
        case Poll => !feed.missed && feed.queue != []
        case Close => false;
      TakenFrom(capacity, steps, n - 1) + if takes then 1 else 0
  }

  /**
   What is queued are the last events that were sent, in order. The oldest are read or,
   when the queue is full, overwritten first; nothing else takes an event away.
   */
  lemma {:induction false} QueueIsNewest(capacity: nat, steps: seq<Step>, n: nat)
    requires capacity > 0 && n <= |steps|
    ensures var (queue, sent) := (StateAt(capacity, steps, n).feed.queue, AllSent(steps, n));
      && |queue| <= capacity
      && TakenFrom(capacity, steps, n) <= |sent| && queue == sent[TakenFrom(capacity, steps, n)..]
    decreases n
  {
    hide StateAt;
    if n == 0 {
      StateZero(capacity, steps);
    } else {
      QueueIsNewest(capacity, steps, n - 1);
      NextState(capacity, steps, n - 1);
      var (m, s, sent) := (StateAt(capacity, steps, n - 1), steps[n - 1], AllSent(steps, n - 1));
      NextQueue(capacity, m, s, sent, TakenFrom(capacity, steps, n - 1));
    }
  }

  lemma NextQueue(capacity: nat, m: Machine, s: Step, sent: seq<BlockEvent>, taken: nat)
    requires capacity > 0 && |m.feed.queue| <= capacity && taken <= |sent| && m.feed.queue == sent[taken..]
    ensures var (queue, more) := (Next(capacity, m, s).feed.queue, if s.Send? then [s.event] else []);
      var takes := match s
        case Send(_) => |m.feed.queue| == capacity
        case Poll => !m.feed.missed && m.feed.queue != []
        case Close => false;
      && |queue| <= capacity
      && queue == (sent + more)[taken + (if takes then 1 else 0)..]
  {
    hide Collected, ResultOf;
    assert sent + [] == sent;
  }
}
