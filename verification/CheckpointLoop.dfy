/**
 The background loop that submits checkpoints of one bucket: commands and ticks in
 any order, with what each submission answered and when as inputs.
 */
module CheckpointLoops {
  import opened Wrappers
  import opened Checkpoint

  const U32_SIZE := 0x1_0000_0000

  datatype Config = Config(bucketId: nat, submitOnEmpty: bool, maxFailures: nat, retryDelay: nat)

  /** What a submission answers if there is one, and the time when it is done. */
  datatype Attempt = Attempt(result: CheckpointResult, done: nat)

  datatype Command = SubmitNow | MarkDirty(bucketId: nat) | Pause | Resume | Stop | ChannelClosed

  datatype Event =
    | Received(command: Command, attempt: Attempt)
    | Tick(now: nat, attempt: Attempt)
    | StopRequested

  datatype LoopState = LoopState(
    dirty: bool, failures: nat, last: Option<nat>, lastResult: Option<CheckpointResult>, paused: bool, running: bool,
    ended: bool)

  const INITIAL := LoopState(false, 0, None, None, false, true, false)

  // ---- One iteration, as a function ----

  /** The state after a submission; the 32-bit count of failures wraps. */
  function AfterAttempt(s: LoopState, a: Attempt): LoopState {
    var t := s.(last := Some(a.done), lastResult := Some(a.result));
    if a.result.Submitted? then t.(dirty := false, failures := 0) else t.(failures := (s.failures + 1) % U32_SIZE)
  }

  predicate InBackoff(config: Config, s: LoopState, now: nat) {
    s.failures > 0 && s.last.Some? && now < s.last.value + config.retryDelay
  }

  /** Whether the loop submits when it handles `e`. */
  predicate Submits(config: Config, s: LoopState, e: Event) {
    !s.ended && match e
      case Received(command, _) => command.SubmitNow?
      case Tick(now, _) => !s.paused && (s.dirty || config.submitOnEmpty) && !InBackoff(config, s, now)
      case StopRequested => false
  }

  function AfterCommand(config: Config, s: LoopState, command: Command): LoopState {
    match command
    case SubmitNow => s
    case MarkDirty(bucketId) => if bucketId == config.bucketId then s.(dirty := true) else s
    case Pause => s.(paused := true)
    case Resume => s.(paused := false)
    case Stop => s.(running := false, ended := true)
    case ChannelClosed => s.(running := false, ended := true)
  }

  /** The checks at the end of an iteration: pause after too many failures, end if the flag was cleared. */
  function AfterChecks(config: Config, s: LoopState): LoopState {
    s.(paused := s.paused || s.failures >= config.maxFailures, ended := !s.running)
  }

  /**
   What one event does: the flag is cleared from outside, or the loop makes one
   iteration, which skips the checks at its end on a tick while paused.
   */
  function Next(config: Config, s: LoopState, e: Event): LoopState {
    if s.ended then s
    else if e.StopRequested? then s.(running := false)
    else
      var t := if Submits(config, s, e) then AfterAttempt(s, e.attempt) else s;
      var u := if e.Received? then AfterCommand(config, t, e.command) else t;
      if u.ended || (e.Tick? && s.paused) then u else AfterChecks(config, u)
  }

  /** The state before event `n`. */
  function StateAt(config: Config, events: seq<Event>, n: nat): LoopState
    requires n <= |events|
  {
    if n == 0 then INITIAL else Next(config, StateAt(config, events, n - 1), events[n - 1])
  }

  // ---- The loop ----

  class CheckpointLoop {
    const config: Config
    var dirty: bool
    var consecutiveFailures: nat
    var lastCheckpoint: Option<nat>
    var lastResult: Option<CheckpointResult>
    var paused: bool
    var running: bool
    var ended: bool

    function State(): LoopState
      reads this
    {
      LoopState(dirty, consecutiveFailures, lastCheckpoint, lastResult, paused, running, ended)
    }

    constructor (config: Config)
      ensures this.config == config && State() == INITIAL
    {
      this.config := config;
      dirty, consecutiveFailures, lastCheckpoint, lastResult := false, 0, None, None;
      paused, running, ended := false, true, false;
    }

    method ExecuteCheckpoint(a: Attempt)
      modifies this
      ensures State() == AfterAttempt(old(State()), a)
    {
      lastCheckpoint := Some(a.done);
      lastResult := Some(a.result);
      match a.result {
        case Submitted(_) =>
          dirty := false;
          consecutiveFailures := 0;
        case _ =>
          consecutiveFailures := (consecutiveFailures + 1) % U32_SIZE;
      }
    }

    /** Handle the events until the loop stops or there are none left. */
    method Run(events: seq<Event>)
      requires State() == INITIAL
      modifies this
      ensures State() == StateAt(config, events, |events|)
    {
      hide StateAt;
      var i := 0;
      StateStart(config, events);
      while i < |events| && !ended
        invariant 0 <= i <= |events|
        invariant State() == StateAt(config, events, i)
      {
        StateStep(config, events, i);
        i := i + 1;
        match events[i - 1] {
          case StopRequested =>
            running := false;
            continue;
          case Received(command, attempt) =>
            match command {
              case SubmitNow => ExecuteCheckpoint(attempt);
              case MarkDirty(bucketId) =>
                if bucketId == config.bucketId {
                  dirty := true;
                }
              case Pause => paused := true;
              case Resume => paused := false;
              case Stop =>
                running, ended := false, true;
                break;
              case ChannelClosed =>
                running, ended := false, true;
                break;
            }
          case Tick(now, attempt) =>
            if paused {
              continue;
            }
            if dirty || config.submitOnEmpty {
              var inBackoff := consecutiveFailures > 0 && lastCheckpoint.Some?
                && now < lastCheckpoint.value + config.retryDelay;
              if !inBackoff {
                ExecuteCheckpoint(attempt);
              }
            }
        }
        if consecutiveFailures >= config.maxFailures {
          paused := true;
        }
        if !running {
          ended := true;
        }
      }
      StoppedStays(config, events, i);
    }
  }

  lemma {:induction false} StoppedStays(config: Config, events: seq<Event>, i: nat)
    requires i <= |events| && (i == |events| || StateAt(config, events, i).ended)
    ensures StateAt(config, events, |events|) == StateAt(config, events, i)
    decreases |events| - i
  {
    if i < |events| {
      StoppedStays(config, events, i + 1);
    }
  }

  // ---- Dirty ----

  /** Event `i` marks this bucket, while the loop runs. */
  predicate Marks(config: Config, events: seq<Event>, i: nat)
    requires i < |events|
  {
    !StateAt(config, events, i).ended && events[i].Received? && events[i].command == MarkDirty(config.bucketId)
  }

  predicate SubmitsAt(config: Config, events: seq<Event>, i: nat)
    requires i < |events|
  {
    Submits(config, StateAt(config, events, i), events[i])
  }

  predicate Succeeds(config: Config, events: seq<Event>, i: nat)
    requires i < |events|
  {
    SubmitsAt(config, events, i) && events[i].attempt.result.Submitted?
  }

  /** Event `i` marked the bucket, and no submission before `n` succeeded since. */
  predicate MarkedAt(config: Config, events: seq<Event>, i: nat, n: nat)
    requires i < n <= |events|
  {
    Marks(config, events, i) && forall j | i < j < n :: !Succeeds(config, events, j)
  }

  /** `dirty` holds exactly when the bucket was marked since the last successful submission. */
  lemma {:induction false} DirtyMeaning(config: Config, events: seq<Event>, n: nat)
    requires n <= |events|
    ensures StateAt(config, events, n).dirty <==> exists i | 0 <= i < n :: MarkedAt(config, events, i, n)
    decreases n
  {
    if n > 0 {
      hide StateAt, InBackoff;
      DirtyMeaning(config, events, n - 1);
      NextDirty(config, events, n - 1);
      if StateAt(config, events, n).dirty {
        if Marks(config, events, n - 1) {
          assert MarkedAt(config, events, n - 1, n);
        } else {
          var i :| 0 <= i < n - 1 && MarkedAt(config, events, i, n - 1);
          assert MarkedAt(config, events, i, n);
        }
      }
      forall i | 0 <= i < n - 1 && MarkedAt(config, events, i, n) ensures MarkedAt(config, events, i, n - 1) {
      }
    } else {
      assert !INITIAL.dirty;
    }
  }

  lemma NextDirty(config: Config, events: seq<Event>, n: nat)
    requires n < |events|
    ensures StateAt(config, events, n + 1).dirty <==>
      Marks(config, events, n) || (StateAt(config, events, n).dirty && !Succeeds(config, events, n))
    ensures Marks(config, events, n) ==> !Succeeds(config, events, n)
  {
    hide InBackoff;
  }

  // ---- Pausing ----

  /** With a maximum of at least 1, the loop is paused whenever there are that many failures. */
  lemma {:induction false} PausedAtMaximum(config: Config, events: seq<Event>, n: nat)
    requires n <= |events| && config.maxFailures >= 1
    ensures StateAt(config, events, n).failures >= config.maxFailures ==> StateAt(config, events, n).paused
    decreases n
  {
    hide InBackoff;
    if n > 0 {
      PausedAtMaximum(config, events, n - 1);
      StateStep(config, events, n - 1);
    }
  }

  /** A maximum of at least 1 is needed: with 0, the loop begins with as many failures and is not paused. */
  lemma MaximumMustBePositive(config: Config)
    ensures config.maxFailures >= 1 <==>
      forall events: seq<Event>, n: nat {:trigger StateAt(config, events, n)} :: n <= |events| ==>
        (StateAt(config, events, n).failures >= config.maxFailures ==> StateAt(config, events, n).paused)
  {
    if config.maxFailures >= 1 {
      forall events: seq<Event>, n: nat {:trigger StateAt(config, events, n)} | n <= |events|
        ensures StateAt(config, events, n).failures >= config.maxFailures ==> StateAt(config, events, n).paused
      {
        PausedAtMaximum(config, events, n);
      }
    } else {
      assert StateAt(config, [], 0) == INITIAL;
    }
  }

  // ---- Failures on ticks ----

  predicate FailsAt(config: Config, events: seq<Event>, i: nat)
    requires i < |events|
  {
    SubmitsAt(config, events, i) && !events[i].attempt.result.Submitted?
  }

  /** How many submissions on ticks failed from event `i` to before event `j`. */
  function TickFailures(config: Config, events: seq<Event>, i: nat, j: nat): nat
    requires i <= j <= |events|
    decreases j
  {
    if i == j then 0
    else TickFailures(config, events, i, j - 1) + if events[j - 1].Tick? && FailsAt(config, events, j - 1) then 1 else 0
  }

  /** How many submissions, on ticks or by command, failed from event `i` to before event `j`. */
  function AllFailures(config: Config, events: seq<Event>, i: nat, j: nat): nat
    requires i <= j <= |events|
    decreases j
  {
    if i == j then 0
    else AllFailures(config, events, i, j - 1) + if FailsAt(config, events, j - 1) then 1 else 0
  }

  /** No submission from event `i` to before event `j` succeeds. */
  predicate NoSuccess(config: Config, events: seq<Event>, i: nat, j: nat)
    requires i <= j <= |events|
  {
    forall k | i <= k < j :: !Succeeds(config, events, k)
  }

  /** From a state without failures, the count is that of the failures since, up to its wrap. */
  lemma {:induction false} CountMeaning(config: Config, events: seq<Event>, i: nat, j: nat)
    requires i <= j <= |events| && NoSuccess(config, events, i, j) && StateAt(config, events, i).failures == 0
    ensures StateAt(config, events, j).failures == AllFailures(config, events, i, j) % U32_SIZE
    decreases j
  {
    hide StateAt;
    if i < j {
      CountMeaning(config, events, i, j - 1);
      NextFailures(config, events, j - 1);
      assert !Succeeds(config, events, j - 1);
      NextRemainder(AllFailures(config, events, i, j - 1));
    }
  }

  lemma NextRemainder(n: nat)
    ensures (n + 1) % U32_SIZE == (n % U32_SIZE + 1) % U32_SIZE
  {
  }

  /**
   Since the count was 0, at most `maxFailures` submissions on ticks fail, whatever
   commands come in between, as long as at most 2^32 submissions fail.
   */
  lemma {:induction false} FewTickFailures(config: Config, events: seq<Event>, i: nat, j: nat)
    requires i <= j <= |events| && 1 <= config.maxFailures < U32_SIZE
    requires StateAt(config, events, i).failures == 0 && NoSuccess(config, events, i, j)
    requires AllFailures(config, events, i, j) <= U32_SIZE
    ensures TickFailures(config, events, i, j) <= config.maxFailures
    ensures TickFailures(config, events, i, j) <= AllFailures(config, events, i, j)
    decreases j
  {
    hide StateAt;
    if i < j {
      var k := j - 1;
      FewTickFailures(config, events, i, k);
      PausedAtMaximum(config, events, k);
      CountMeaning(config, events, i, k);
      NextFailures(config, events, k);
    }
  }

  lemma NextFailures(config: Config, events: seq<Event>, n: nat)
    requires n < |events|
    ensures StateAt(config, events, n + 1).failures ==
      if Succeeds(config, events, n) then 0
      else if FailsAt(config, events, n) then (StateAt(config, events, n).failures + 1) % U32_SIZE
      else StateAt(config, events, n).failures
    ensures events[n].Tick? && SubmitsAt(config, events, n) ==> !StateAt(config, events, n).paused
  {
    hide InBackoff;
  }

  /** A submission that fails at time 0. */
  const FAILED := Attempt(TransactionFailed, 0)

  /** `n` times the event `e`. */
  function Times(e: Event, n: nat): (events: seq<Event>)
    ensures |events| == n && forall i | 0 <= i < n :: events[i] == e
  {
    if n == 0 then [] else Times(e, n - 1) + [e]
  }

  /**
   A bucket is marked, `maxFailures` ticks fail, commands fail until the count wraps, and
   after a resume a tick fails again.
   */
  function BreakingRun(config: Config): seq<Event>
    requires 1 <= config.maxFailures < U32_SIZE
  {
    var tick := Tick(config.retryDelay, FAILED);
    [Received(MarkDirty(config.bucketId), FAILED)] + Times(tick, config.maxFailures)
      + Times(Received(SubmitNow, FAILED), U32_SIZE - config.maxFailures) + [Received(Resume, FAILED), tick]
  }

  /** Marked, running, with this many failures, and the last submission at time 0. */
  predicate Failing(s: LoopState, failures: nat) {
    s.dirty && s.running && !s.ended && s.failures == failures && (s.last == None || s.last == Some(0))
  }

  lemma FailingTick(config: Config, s: LoopState, n: nat)
    requires Failing(s, n) && !s.paused && n < config.maxFailures < U32_SIZE
    ensures var (e, t) := (Tick(config.retryDelay, FAILED), Next(config, s, Tick(config.retryDelay, FAILED)));
      Submits(config, s, e) && Failing(t, n + 1) && (t.paused <==> n + 1 == config.maxFailures)
  {
  }

  lemma FailingCommand(config: Config, s: LoopState, n: nat)
    requires Failing(s, n) && n < U32_SIZE
    ensures var (e, t) := (Received(SubmitNow, FAILED), Next(config, s, Received(SubmitNow, FAILED)));
      Submits(config, s, e) && Failing(t, (n + 1) % U32_SIZE)
  {
  }

  lemma Resumed(config: Config, s: LoopState)
    requires Failing(s, 0) && config.maxFailures >= 1
    ensures var t := Next(config, s, Received(Resume, FAILED));
      Failing(t, 0) && !t.paused && !Submits(config, s, Received(Resume, FAILED))
  {
  }

  /** A stretch of ticks that all fail. */
  lemma {:induction false} TickPhase(config: Config, events: seq<Event>, n: nat)
    requires 1 + n <= |events| && n <= config.maxFailures < U32_SIZE && config.maxFailures >= 1
    requires events[0] == Received(MarkDirty(config.bucketId), FAILED)
    requires forall i | 1 <= i < 1 + n :: events[i] == Tick(config.retryDelay, FAILED)
    ensures Failing(StateAt(config, events, 1 + n), n)
    ensures n < config.maxFailures ==> !StateAt(config, events, 1 + n).paused
    ensures NoSuccess(config, events, 0, 1 + n)
    ensures TickFailures(config, events, 0, 1 + n) == n == AllFailures(config, events, 0, 1 + n)
    decreases n
  {
    hide Next, Submits;
    StateStart(config, events);
    StateStep(config, events, n);
    if n == 0 {
      Marked(config, events);
    } else {
      TickPhase(config, events, n - 1);
      FailingTick(config, StateAt(config, events, n), n - 1);
    }
  }

  lemma Marked(config: Config, events: seq<Event>)
    requires events != [] && events[0] == Received(MarkDirty(config.bucketId), FAILED) && config.maxFailures >= 1
    ensures Failing(StateAt(config, events, 1), 0) && !StateAt(config, events, 1).paused
    ensures !SubmitsAt(config, events, 0)
    ensures TickFailures(config, events, 0, 1) == 0 == AllFailures(config, events, 0, 1)
  {
    assert StateAt(config, events, 0) == INITIAL;
  }

  /** A stretch of commands to submit that all fail. */
  lemma {:induction false} CommandPhase(config: Config, events: seq<Event>, first: nat, n: nat)
    requires first <= n <= |events| && Failing(StateAt(config, events, first), StateAt(config, events, first).failures)
    requires NoSuccess(config, events, 0, first)
    requires forall i | first <= i < n :: events[i] == Received(SubmitNow, FAILED)
    requires StateAt(config, events, first).failures + (n - first) <= U32_SIZE
    ensures n > first ==>
      Failing(StateAt(config, events, n), (StateAt(config, events, first).failures + (n - first)) % U32_SIZE)
    ensures NoSuccess(config, events, 0, n)
    ensures TickFailures(config, events, 0, n) == TickFailures(config, events, 0, first)
    ensures AllFailures(config, events, 0, n) == AllFailures(config, events, 0, first) + (n - first)
    decreases n
  {
    hide Next, Submits, StateAt;
    if n > first {
      var s := StateAt(config, events, n - 1);
      CommandPhase(config, events, first, n - 1);
      StateStep(config, events, n - 1);
      FailingCommand(config, s, s.failures);
      assert events[n - 1] == Received(SubmitNow, FAILED);
    }
  }

  /** For every configuration, 2^32 + 1 failures can hold one on a tick too many. */
  lemma WrapAllowsMore(config: Config)
    requires 1 <= config.maxFailures < U32_SIZE
    ensures var events := BreakingRun(config);
      && NoSuccess(config, events, 0, |events|)
      && AllFailures(config, events, 0, |events|) == U32_SIZE + 1
      && TickFailures(config, events, 0, |events|) == config.maxFailures + 1
  {
    hide Next, Submits, StateAt, TickFailures, AllFailures;
    var (events, max) := (BreakingRun(config), config.maxFailures);
    var wrapped := 1 + U32_SIZE;
    BreakingParts(config);
    TickPhase(config, events, max);
    CommandPhase(config, events, 1 + max, wrapped);
    var s := StateAt(config, events, wrapped);
    StateStep(config, events, wrapped);
    Resumed(config, s);
    FailingTick(config, StateAt(config, events, wrapped + 1), 0);
    FailureStep(config, events, wrapped);
    FailureStep(config, events, wrapped + 1);
    assert !Succeeds(config, events, wrapped) && !Succeeds(config, events, wrapped + 1);
  }

  lemma BreakingParts(config: Config)
    requires 1 <= config.maxFailures < U32_SIZE
    ensures var (events, max, wrapped) := (BreakingRun(config), config.maxFailures, 1 + U32_SIZE);
      && |events| == wrapped + 2
      && events[0] == Received(MarkDirty(config.bucketId), FAILED)
      && (forall i | 1 <= i < 1 + max :: events[i] == Tick(config.retryDelay, FAILED))
      && (forall i | 1 + max <= i < wrapped :: events[i] == Received(SubmitNow, FAILED))
      && events[wrapped] == Received(Resume, FAILED) && events[wrapped + 1] == Tick(config.retryDelay, FAILED)
  {
    hide Times;
  }

  lemma FailureStep(config: Config, events: seq<Event>, n: nat)
    requires n < |events|
    ensures AllFailures(config, events, 0, n + 1) ==
      AllFailures(config, events, 0, n) + if FailsAt(config, events, n) then 1 else 0
    ensures TickFailures(config, events, 0, n + 1) ==
      TickFailures(config, events, 0, n) + if events[n].Tick? && FailsAt(config, events, n) then 1 else 0
  {
  }

  /**
   In every stretch of a run without success, from a count of 0 and with at most
   `failures` failed submissions, at most `maxFailures` of them are on ticks.
   */
  ghost predicate TicksBounded(config: Config, failures: nat) {
    forall events: seq<Event>, i: nat, j: nat {:trigger TickFailures(config, events, i, j)} ::
      i <= j <= |events| && StateAt(config, events, i).failures == 0 && NoSuccess(config, events, i, j)
      && AllFailures(config, events, i, j) <= failures
      ==> TickFailures(config, events, i, j) <= config.maxFailures
  }

  /** The bound on failures on ticks holds exactly up to 2^32 failed submissions, which is where the count wraps. */
  lemma TickBoundLaw(config: Config, failures: nat)
    requires 1 <= config.maxFailures < U32_SIZE
    ensures TicksBounded(config, failures) <==> failures <= U32_SIZE
  {
    hide StateAt, TickFailures, AllFailures, NoSuccess, BreakingRun;
    if failures <= U32_SIZE {
      forall events: seq<Event>, i: nat, j: nat {:trigger TickFailures(config, events, i, j)}
        | i <= j <= |events| && StateAt(config, events, i).failures == 0 && NoSuccess(config, events, i, j)
          && AllFailures(config, events, i, j) <= failures
        ensures TickFailures(config, events, i, j) <= config.maxFailures
      {
        FewTickFailures(config, events, i, j);
      }
    } else {
      var events := BreakingRun(config);
      StateStart(config, events);
      WrapAllowsMore(config);
      assert TickFailures(config, events, 0, |events|) > config.maxFailures;
    }
  }

  lemma StateStart(config: Config, events: seq<Event>)
    ensures StateAt(config, events, 0) == INITIAL
  {
  }

  lemma StateStep(config: Config, events: seq<Event>, n: nat)
    requires n < |events|
    ensures StateAt(config, events, 0) == INITIAL
    ensures StateAt(config, events, n + 1) == Next(config, StateAt(config, events, n), events[n])
  {
  }

  // ---- Backoff ----

  /** The last submission before event `n` was at event `i`. */
  predicate LastSubmission(config: Config, events: seq<Event>, i: nat, n: nat)
    requires i < n <= |events|
  {
    SubmitsAt(config, events, i) && forall j | i < j < n :: !SubmitsAt(config, events, j)
  }

  lemma {:induction false} LastMeaning(config: Config, events: seq<Event>, i: nat, n: nat)
    requires i < n <= |events| && LastSubmission(config, events, i, n)
    ensures StateAt(config, events, n).last == Some(events[i].attempt.done)
    decreases n
  {
    hide InBackoff;
    if i < n - 1 {
      assert !SubmitsAt(config, events, n - 1);
      LastMeaning(config, events, i, n - 1);
    }
  }

  /** After a failed submission, a tick submits again only when the retry delay has passed, or the count has wrapped. */
  lemma RetriesRespectBackoff(config: Config, events: seq<Event>, i: nat, n: nat)
    requires i < n < |events| && LastSubmission(config, events, i, n) && FailsAt(config, events, i)
    requires events[n].Tick? && SubmitsAt(config, events, n)
    ensures events[n].now >= events[i].attempt.done + config.retryDelay
      || StateAt(config, events, i).failures == U32_SIZE - 1
  {
    hide StateAt;
    LastMeaning(config, events, i, n);
    NextFailures(config, events, i);
    CountIs32Bits(config, events, i);
    FailuresStay(config, events, i + 1, n);
  }

  lemma {:induction false} CountIs32Bits(config: Config, events: seq<Event>, n: nat)
    requires n <= |events|
    ensures StateAt(config, events, n).failures < U32_SIZE
    decreases n
  {
    hide StateAt;
    if n == 0 {
      StateStart(config, events);
    } else {
      CountIs32Bits(config, events, n - 1);
      NextFailures(config, events, n - 1);
    }
  }

  /** A bucket is marked, commands fail until the count wraps, and a tick comes right after a resume. */
  function HastyRun(config: Config): seq<Event> {
    [Received(MarkDirty(config.bucketId), FAILED)] + Times(Received(SubmitNow, FAILED), U32_SIZE)
      + [Received(Resume, FAILED), Tick(0, FAILED)]
  }

  /** For every configuration, a tick can submit right after the failure with which the count wraps. */
  lemma WrapSkipsBackoff(config: Config)
    requires config.maxFailures >= 1
    ensures var (events, n) := (HastyRun(config), U32_SIZE + 2);
      && |events| == n + 1 && LastSubmission(config, events, U32_SIZE, n) && FailsAt(config, events, U32_SIZE)
      && events[n] == Tick(0, FAILED) && SubmitsAt(config, events, n)
      && NoSuccess(config, events, 0, n) && AllFailures(config, events, 0, n) == U32_SIZE
  {
    hide Next, Submits, StateAt, TickFailures, AllFailures, Times;
    var (events, n) := (HastyRun(config), U32_SIZE + 2);
    Marked(config, events);
    CommandPhase(config, events, 1, U32_SIZE);
    CommandPhase(config, events, 1, U32_SIZE + 1);
    FailingCommand(config, StateAt(config, events, U32_SIZE), U32_SIZE - 1);
    StateStep(config, events, U32_SIZE + 1);
    Resumed(config, StateAt(config, events, U32_SIZE + 1));
    FirstTick(config, StateAt(config, events, n));
    FailureStep(config, events, U32_SIZE + 1);
    assert !Succeeds(config, events, U32_SIZE + 1);
  }

  lemma FirstTick(config: Config, s: LoopState)
    requires Failing(s, 0) && !s.paused
    ensures Submits(config, s, Tick(0, FAILED))
  {
  }

  /**
   In every stretch of a run without success, from a count of 0 and with at most
   `failures` failed submissions, ticks submit again only after the retry delay.
   The clock does not go back from the failure to the tick.
   */
  ghost predicate BackoffKept(config: Config, failures: nat) {
    forall events: seq<Event>, first: nat, i: nat, n: nat
      {:trigger LastSubmission(config, events, i, n), NoSuccess(config, events, first, n)} ::
      first <= i < n < |events| && StateAt(config, events, first).failures == 0
      && NoSuccess(config, events, first, n) && AllFailures(config, events, first, n) <= failures
      && LastSubmission(config, events, i, n) && FailsAt(config, events, i)
      && events[n].Tick? && SubmitsAt(config, events, n) && events[n].now >= events[i].attempt.done
      ==> events[n].now >= events[i].attempt.done + config.retryDelay
  }

  /** The backoff is kept exactly up to 2^32 - 1 failed submissions, unless there is no delay to keep. */
  lemma BackoffLaw(config: Config, failures: nat)
    requires config.maxFailures >= 1
    ensures BackoffKept(config, failures) <==> failures < U32_SIZE || config.retryDelay == 0
  {
    hide StateAt, AllFailures, NoSuccess, LastSubmission, HastyRun;
    if failures < U32_SIZE || config.retryDelay == 0 {
      forall events: seq<Event>, first: nat, i: nat, n: nat
        {:trigger LastSubmission(config, events, i, n), NoSuccess(config, events, first, n)}
        | first <= i < n < |events| && StateAt(config, events, first).failures == 0
          && NoSuccess(config, events, first, n) && AllFailures(config, events, first, n) <= failures
          && LastSubmission(config, events, i, n) && FailsAt(config, events, i)
          && events[n].Tick? && SubmitsAt(config, events, n) && events[n].now >= events[i].attempt.done
        ensures events[n].now >= events[i].attempt.done + config.retryDelay
      {
        KeptBackoff(config, events, first, i, n, failures);
      }
    } else {
      var (events, n) := (HastyRun(config), U32_SIZE + 2);
      StateStart(config, events);
      WrapSkipsBackoff(config);
      assert events[U32_SIZE].attempt.done == 0 by { HastyParts(config); }
      assert LastSubmission(config, events, U32_SIZE, n) && NoSuccess(config, events, 0, n);
    }
  }

  lemma HastyParts(config: Config)
    ensures |HastyRun(config)| == U32_SIZE + 3 && HastyRun(config)[U32_SIZE] == Received(SubmitNow, FAILED)
  {
    hide Times;
  }

  lemma KeptBackoff(config: Config, events: seq<Event>, first: nat, i: nat, n: nat, failures: nat)
    requires failures < U32_SIZE || config.retryDelay == 0
    requires first <= i < n < |events| && StateAt(config, events, first).failures == 0
    requires NoSuccess(config, events, first, n) && AllFailures(config, events, first, n) <= failures
    requires LastSubmission(config, events, i, n) && FailsAt(config, events, i)
    requires events[n].Tick? && SubmitsAt(config, events, n) && events[n].now >= events[i].attempt.done
    ensures events[n].now >= events[i].attempt.done + config.retryDelay
  {
    hide StateAt, LastSubmission;
    RetriesRespectBackoff(config, events, i, n);
    CountMeaning(config, events, first, i);
    FailuresGrow(config, events, first, i + 1, n);
    CountSmall(AllFailures(config, events, first, i));
  }

  lemma CountSmall(n: nat)
    ensures n % U32_SIZE <= n
  {
  }

  lemma {:induction false} FailuresGrow(config: Config, events: seq<Event>, first: nat, i: nat, n: nat)
    requires first <= i <= n <= |events|
    ensures AllFailures(config, events, first, i) <= AllFailures(config, events, first, n)
    decreases n
  {
    hide FailsAt;
    if i < n {
      FailuresGrow(config, events, first, i, n - 1);
    }
  }

  lemma {:induction false} FailuresStay(config: Config, events: seq<Event>, i: nat, n: nat)
    requires i <= n <= |events| && forall j | i <= j < n :: !SubmitsAt(config, events, j)
    ensures StateAt(config, events, n).failures == StateAt(config, events, i).failures
    decreases n
  {
    hide StateAt;
    if i < n {
      FailuresStay(config, events, i, n - 1);
      NextFailures(config, events, n - 1);
      assert !SubmitsAt(config, events, n - 1);
    }
  }

  // ---- Which events submit ----

  predicate Handles(config: Config, events: seq<Event>, i: nat, command: Command)
    requires i < |events|
  {
    !StateAt(config, events, i).ended && events[i].Received? && events[i].command == command
  }

  /** Event `i` is an iteration that gets to the checks at its end: no stop, and no tick while paused. */
  predicate Completes(config: Config, events: seq<Event>, i: nat)
    requires i < |events|
  {
    && !StateAt(config, events, i).ended && !events[i].StopRequested?
    && !Handles(config, events, i, Stop) && !Handles(config, events, i, ChannelClosed)
    && !(events[i].Tick? && StateAt(config, events, i).paused)
  }

  /** Event `i` is a pause, or an iteration that ends with the maximum of failures. */
  predicate Pauses(config: Config, events: seq<Event>, i: nat)
    requires i < |events|
  {
    || Handles(config, events, i, Pause)
    || (Completes(config, events, i) && StateAt(config, events, i + 1).failures >= config.maxFailures)
  }

  /** Event `i` pauses the loop, and no resume came since, before event `n`. */
  predicate PausedSince(config: Config, events: seq<Event>, i: nat, n: nat)
    requires i < n <= |events|
  {
    Pauses(config, events, i) && forall j | i < j < n :: !Handles(config, events, j, Resume)
  }

  /** Before event `n` the loop is paused. */
  ghost predicate IsPaused(config: Config, events: seq<Event>, n: nat)
    requires n <= |events|
  {
    exists i | 0 <= i < n :: PausedSince(config, events, i, n)
  }

  lemma NextPaused(config: Config, events: seq<Event>, n: nat)
    requires n < |events|
    ensures StateAt(config, events, n + 1).paused <==>
      Pauses(config, events, n) || (StateAt(config, events, n).paused && !Handles(config, events, n, Resume))
  {
    hide InBackoff, AfterAttempt;
    AttemptKeepsFlags(StateAt(config, events, n));
  }

  /**
   The loop is paused exactly when, since the last resume, it was paused or an iteration
   ended with too many failures.
   */
  lemma {:induction false} PausedMeaning(config: Config, events: seq<Event>, n: nat)
    requires n <= |events|
    ensures StateAt(config, events, n).paused <==> IsPaused(config, events, n)
    decreases n
  {
    hide StateAt, Pauses;
    if n == 0 {
      StateStart(config, events);
    } else {
      PausedMeaning(config, events, n - 1);
      NextPaused(config, events, n - 1);
      if IsPaused(config, events, n - 1) && !Handles(config, events, n - 1, Resume) {
        var i :| 0 <= i < n - 1 && PausedSince(config, events, i, n - 1);
        assert PausedSince(config, events, i, n);
      }
      if Pauses(config, events, n - 1) {
        assert PausedSince(config, events, n - 1, n);
      }
      if IsPaused(config, events, n) {
        var i :| 0 <= i < n && PausedSince(config, events, i, n);
        if i < n - 1 {
          assert PausedSince(config, events, i, n - 1);
          assert !Handles(config, events, n - 1, Resume);
        }
      }
    }
  }

  /** Event `i` ends the loop: a stop, a closed channel, or the first completed iteration after the flag was cleared. */
  predicate Ends(config: Config, events: seq<Event>, i: nat)
    requires i < |events|
  {
    || Handles(config, events, i, Stop)
    || Handles(config, events, i, ChannelClosed)
    || (Completes(config, events, i) && exists j | 0 <= j < i :: events[j].StopRequested?)
  }

  /** Before event `n` the loop has ended. */
  predicate HasEnded(config: Config, events: seq<Event>, n: nat)
    requires n <= |events|
  {
    exists i | 0 <= i < n :: Ends(config, events, i)
  }

  lemma NextEnded(config: Config, events: seq<Event>, n: nat)
    requires n < |events|
    ensures !StateAt(config, events, n).ended ==>
      && (StateAt(config, events, n + 1).ended <==>
            || Handles(config, events, n, Stop) || Handles(config, events, n, ChannelClosed)
            || (Completes(config, events, n) && !StateAt(config, events, n).running))
      && (!StateAt(config, events, n + 1).ended ==>
            (StateAt(config, events, n + 1).running <==>
               StateAt(config, events, n).running && !events[n].StopRequested?))
    ensures StateAt(config, events, n).ended ==> StateAt(config, events, n + 1).ended
  {
    hide InBackoff, AfterAttempt;
    AttemptKeepsFlags(StateAt(config, events, n));
  }

  lemma AttemptKeepsFlags(s: LoopState)
    ensures forall a :: AfterAttempt(s, a).running == s.running && AfterAttempt(s, a).ended == s.ended
    ensures forall a :: AfterAttempt(s, a).paused == s.paused
  {
  }

  /** The loop has ended exactly when some event ended it; it is told to stop exactly when the flag was cleared. */
  lemma {:induction false} EndedMeaning(config: Config, events: seq<Event>, n: nat)
    requires n <= |events|
    ensures StateAt(config, events, n).ended <==> HasEnded(config, events, n)
    ensures !StateAt(config, events, n).ended ==>
      (!StateAt(config, events, n).running <==> exists j | 0 <= j < n :: events[j].StopRequested?)
    decreases n
  {
    hide StateAt, Completes, Handles;
    if n == 0 {
      StateStart(config, events);
    } else {
      EndedMeaning(config, events, n - 1);
      NextEnded(config, events, n - 1);
      if HasEnded(config, events, n - 1) {
        var i :| 0 <= i < n - 1 && Ends(config, events, i);
        assert Ends(config, events, i) && i < n;
      }
      if !StateAt(config, events, n - 1).ended {
        NotEndedHandles(config, events, n - 1);
        if StateAt(config, events, n).ended {
          assert Ends(config, events, n - 1);
        }
        if HasEnded(config, events, n) {
          var i :| 0 <= i < n && Ends(config, events, i);
          assert i == n - 1;
        }
      }
    }
  }

  lemma NotEndedHandles(config: Config, events: seq<Event>, n: nat)
    requires n < |events|
    ensures Handles(config, events, n, Stop) || Handles(config, events, n, ChannelClosed)
      || Completes(config, events, n)
      ==> !StateAt(config, events, n).ended
  {
  }

  /**
   A failed submission is waited for: the last one was at event `i`, some count of failures
   is held, and it was too recent.
   */
  predicate WaitsFor(config: Config, events: seq<Event>, i: nat, n: nat)
    requires i < n < |events| && events[n].Tick?
  {
    && LastSubmission(config, events, i, n) && StateAt(config, events, n).failures > 0
    && events[n].now < events[i].attempt.done + config.retryDelay
  }

  /** No delay after a failed submission keeps the tick `n` from submitting. */
  ghost predicate NoDelay(config: Config, events: seq<Event>, n: nat)
    requires n < |events| && events[n].Tick?
  {
    forall i | 0 <= i < n :: !WaitsFor(config, events, i, n)
  }

  /** The bucket was marked since the last success. */
  ghost predicate IsMarked(config: Config, events: seq<Event>, n: nat)
    requires n <= |events|
  {
    exists i | 0 <= i < n :: MarkedAt(config, events, i, n)
  }

  /**
   Which events of a run submit: a command to do so, and a tick while the loop is not
   paused, if the bucket was marked or needs no mark and no delay runs; nothing once the
   loop has ended.
   */
  lemma SubmissionMeaning(config: Config, events: seq<Event>, n: nat)
    requires n < |events|
    ensures SubmitsAt(config, events, n) <==>
      && !HasEnded(config, events, n)
      && match events[n]
         case Received(command, _) => command == SubmitNow
         case StopRequested => false
         case Tick(_, _) =>
           && !IsPaused(config, events, n)
           && (config.submitOnEmpty || IsMarked(config, events, n))
           && NoDelay(config, events, n)
  {
    hide StateAt, HasEnded, IsPaused, MarkedAt, LastSubmission;
    EndedMeaning(config, events, n);
    PausedMeaning(config, events, n);
    DirtyMeaning(config, events, n);
    if events[n].Tick? {
      DelayMeaning(config, events, n);
    }
  }

  lemma IsAttempt(config: Config, events: seq<Event>, i: nat, n: nat)
    requires i < n <= |events| && LastSubmission(config, events, i, n)
    ensures !events[i].StopRequested?
  {
  }

  lemma DelayMeaning(config: Config, events: seq<Event>, n: nat)
    requires n < |events| && events[n].Tick?
    ensures NoDelay(config, events, n) <==> !InBackoff(config, StateAt(config, events, n), events[n].now)
  {
    hide StateAt, LastSubmission;
    SomeSubmission(config, events, n);
    forall i | 0 <= i < n && LastSubmission(config, events, i, n)
      ensures !events[i].StopRequested? && StateAt(config, events, n).last == Some(events[i].attempt.done)
    {
      IsAttempt(config, events, i, n);
      LastMeaning(config, events, i, n);
    }
    if InBackoff(config, StateAt(config, events, n), events[n].now) {
      var i :| 0 <= i < n && LastSubmission(config, events, i, n);
      assert WaitsFor(config, events, i, n);
    }
  }

  ghost predicate HasSubmitted(config: Config, events: seq<Event>, n: nat)
    requires n <= |events|
  {
    exists i | 0 <= i < n :: LastSubmission(config, events, i, n)
  }

  /** The loop remembers a submission exactly when there was one. */
  lemma {:induction false} SomeSubmission(config: Config, events: seq<Event>, n: nat)
    requires n <= |events|
    ensures StateAt(config, events, n).last.Some? <==> HasSubmitted(config, events, n)
    decreases n
  {
    hide StateAt, SubmitsAt;
    if n == 0 {
      StateStart(config, events);
    } else {
      SomeSubmission(config, events, n - 1);
      NextLast(config, events, n - 1);
      if SubmitsAt(config, events, n - 1) {
        assert LastSubmission(config, events, n - 1, n);
      } else {
        if HasSubmitted(config, events, n - 1) {
          var i :| 0 <= i < n - 1 && LastSubmission(config, events, i, n - 1);
          assert LastSubmission(config, events, i, n);
        }
        if HasSubmitted(config, events, n) {
          var i :| 0 <= i < n && LastSubmission(config, events, i, n);
          assert i < n - 1 && LastSubmission(config, events, i, n - 1);
        }
      }
    }
  }

  lemma NextLast(config: Config, events: seq<Event>, n: nat)
    requires n < |events|
    ensures var (s, t) := (StateAt(config, events, n), StateAt(config, events, n + 1));
      if SubmitsAt(config, events, n)
      then t.last == Some(events[n].attempt.done) && t.lastResult == Some(events[n].attempt.result)
      else t.last == s.last && t.lastResult == s.lastResult
  {
    hide InBackoff;
  }

  /** After a pause no tick submits before a resume. */
  lemma NoTickWhilePaused(config: Config, events: seq<Event>, i: nat, n: nat)
    requires i < n < |events| && Handles(config, events, i, Pause) && events[n].Tick?
    requires forall j | i < j < n :: !(events[j].Received? && events[j].command == Resume)
    ensures !SubmitsAt(config, events, n)
  {
    hide StateAt, HasEnded;
    assert PausedSince(config, events, i, n);
    SubmissionMeaning(config, events, n);
  }

  /** After the loop has ended nothing submits any more. */
  lemma {:induction false} NothingAfterEnd(config: Config, events: seq<Event>, i: nat, n: nat)
    requires i < n < |events| && Ends(config, events, i)
    ensures !SubmitsAt(config, events, n)
  {
    hide StateAt, Ends;
    SubmissionMeaning(config, events, n);
  }
}
