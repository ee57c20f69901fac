/**
 The incremental averages of provider health and of submission times: one sample at
 a time, with 64-bit arithmetic and division that drops the remainder.
 */
module Averages {
  import opened Octets
  import opened Checkpoint

  const U64_SIZE := 0x1_0000_0000_0000_0000

  function Scaled(n: nat, a: nat): nat { n * a }

  function Quotient(a: nat, n: nat): nat
    requires n > 0
  {
    a / n
  }

  /** The average of `n` samples after one more sample, which is number `n`. */
  function NextAverage(avg: nat, n: nat, sample: nat): nat
    requires n > 0
  {
    Quotient((Scaled(n - 1, avg) % U64_SIZE + sample) % U64_SIZE, n)
  }

  /** What the stored average is after these samples. */
  function AverageOf(samples: seq<u64>): nat {
    if samples == [] then 0
    else NextAverage(AverageOf(samples[..|samples| - 1]), |samples|, samples[|samples| - 1])
  }

  function Sum(samples: seq<u64>): nat {
    if samples == [] then 0 else Sum(samples[..|samples| - 1]) + samples[|samples| - 1]
  }

  /** Each sample is at least `low` and at most `high`. */
  predicate Within(samples: seq<u64>, low: nat, high: nat) {
    forall x <- samples :: low <= x <= high
  }

  lemma ScaledStep(n: nat, a: nat)
    ensures Scaled(n + 1, a) == Scaled(n, a) + a && Scaled(n, a + 1) == Scaled(n, a) + n
  {
  }

  lemma ScaledGrows(n: nat, a: nat, b: nat)
    requires a <= b
    ensures Scaled(n, a) <= Scaled(n, b)
  {
  }

  lemma QuotientLaw(a: nat, n: nat)
    requires n > 0
    ensures Scaled(n, Quotient(a, n)) <= a <= Scaled(n, Quotient(a, n)) + (n - 1)
  {
  }

  /** A quotient of a number between `n * low` and `n * high`. */
  lemma QuotientWithin(a: nat, n: nat, low: nat, high: nat)
    requires n > 0 && Scaled(n, low) <= a <= Scaled(n, high)
    ensures low <= Quotient(a, n) <= high
  {
    hide Scaled, Quotient;
    var q := Quotient(a, n);
    QuotientLaw(a, n);
    ScaledStep(n, q);
    ScaledStep(n, high);
    if q < low { ScaledGrows(n, q + 1, low); }
    if q > high { ScaledGrows(n, high + 1, q); }
  }

  /** How far an average of `n` samples can be below the exact mean, times `n`. */
  function Slack(n: nat): nat { n * (n - 1) / 2 }

  lemma SlackStep(n: nat)
    requires n > 0
    ensures Slack(n) == Slack(n - 1) + (n - 1)
  {
    assert n * (n - 1) == (n - 1) * (n - 2) + 2 * (n - 1);
  }

  /** What the last step divides, before it wraps. */
  function Dividend(samples: seq<u64>): nat
    requires samples != []
  {
    Scaled(|samples| - 1, AverageOf(samples[..|samples| - 1])) + samples[|samples| - 1]
  }

  /** No step so far went past 64 bits. */
  predicate NeverWraps(samples: seq<u64>) {
    samples != [] ==> NeverWraps(samples[..|samples| - 1]) && Dividend(samples) < U64_SIZE
  }

  /**
   As long as no step goes past 64 bits, the stored average lies between the smallest
   and the largest sample, is never above the exact mean, and is below it by at most
   (n - 1) / 2.
   */
  lemma {:induction false} AverageLaw(samples: seq<u64>, low: nat, high: nat)
    requires samples != [] && Within(samples, low, high) && NeverWraps(samples)
    ensures low <= AverageOf(samples) <= high
    ensures Scaled(|samples|, AverageOf(samples)) <= Sum(samples) <= Scaled(|samples|, AverageOf(samples))
      + Slack(|samples|)
    decreases |samples|
  {
    hide Scaled, Quotient, NextAverage, Slack;
    var n := |samples|;
    var (before, x) := (samples[..n - 1], samples[n - 1]);
    var avg := AverageOf(before);
    assert x in samples;
    if before == [] {
      NoSamples();
    } else {
      assert forall y <- before :: y in samples;
      AverageLaw(before, low, high);
      ScaledGrows(n - 1, low, avg);
      ScaledGrows(n - 1, avg, high);
    }
    var a := Scaled(n - 1, avg) + x;
    ScaledZero(low);
    ScaledZero(high);
    ScaledStep(n - 1, low);
    ScaledStep(n - 1, high);
    NoWrap(avg, n, x);
    QuotientLaw(a, n);
    QuotientWithin(a, n, low, high);
    SlackStep(n);
  }

  /** Samples that add up to less than 2^64 never wrap. */
  lemma {:induction false} SmallSumsNeverWrap(samples: seq<u64>)
    requires Sum(samples) < U64_SIZE
    ensures NeverWraps(samples)
    decreases |samples|
  {
    hide Scaled, NextAverage, Slack;
    if samples != [] {
      var before := samples[..|samples| - 1];
      SmallSumsNeverWrap(before);
      if before == [] {
        NoSamples();
      } else {
        Bounded(before);
        AverageLaw(before, 0, Sum(before));
      }
    }
  }

  lemma {:induction false} Bounded(samples: seq<u64>)
    ensures Within(samples, 0, Sum(samples))
    decreases |samples|
  {
    if samples != [] {
      var (before, x) := (samples[..|samples| - 1], samples[|samples| - 1]);
      Bounded(before);
      assert forall y <- samples :: y in before || y == x;
    }
  }

  /**
   The stored average is never above the exact mean, and a step that goes past 64 bits
   takes at least 2^64 from the sum it stands for, which no later step gives back.
   */
  lemma {:induction false} WrapsStayLost(samples: seq<u64>)
    ensures Sum(samples) >= Scaled(|samples|, AverageOf(samples)) + if NeverWraps(samples) then 0 else U64_SIZE
    decreases |samples|
  {
    hide Scaled, Quotient;
    if samples == [] {
      NoSamples();
    } else {
      var (n, before, x) := (|samples|, samples[..|samples| - 1], samples[|samples| - 1]);
      var t := Scaled(n - 1, AverageOf(before));
      WrapsStayLost(before);
      QuotientLaw((t % U64_SIZE + x) % U64_SIZE, n);
      WrapLoses(t, x);
    }
  }

  /** The average is below the mean by at most (n - 1) / 2 exactly when no step goes past 64 bits. */
  lemma MeanLaw(samples: seq<u64>)
    requires Slack(|samples|) < U64_SIZE
    ensures NeverWraps(samples) <==> Sum(samples) <= Scaled(|samples|, AverageOf(samples)) + Slack(|samples|)
  {
    hide Scaled, Quotient, NextAverage, Slack;
    WrapsStayLost(samples);
    if samples == [] {
      NoSamples();
    } else if NeverWraps(samples) {
      NearTheMean(samples);
    }
  }

  lemma NearTheMean(samples: seq<u64>)
    requires samples != [] && NeverWraps(samples)
    ensures Sum(samples) <= Scaled(|samples|, AverageOf(samples)) + Slack(|samples|)
  {
    Bounded(samples);
    AverageLaw(samples, 0, Sum(samples));
  }

  /** Two samples of 2^63 have the average 0. */
  lemma WrappedAverage()
    ensures var samples: seq<u64> := [0x8000_0000_0000_0000, 0x8000_0000_0000_0000];
      !NeverWraps(samples) && AverageOf(samples) == 0
  {
    var (one, two) := ([0x8000_0000_0000_0000], [0x8000_0000_0000_0000, 0x8000_0000_0000_0000]);
    assert two[..1] == one && one[..0] == [];
    assert AverageOf(one) == 0x8000_0000_0000_0000;
  }

  lemma WrapLoses(t: nat, x: nat)
    ensures (t % U64_SIZE + x) % U64_SIZE <= t + x - if t + x >= U64_SIZE then U64_SIZE else 0
  {
  }

  lemma NoSamples()
    ensures Scaled(0, 0) == 0 && Slack(0) == 0
  {
  }

  lemma ScaledZero(a: nat)
    ensures Scaled(0, a) == 0
  {
  }

  lemma NoWrap(avg: nat, n: nat, x: nat)
    requires n > 0 && Scaled(n - 1, avg) + x < U64_SIZE
    ensures NextAverage(avg, n, x) == Quotient(Scaled(n - 1, avg) + x, n)
  {
    hide Scaled, Quotient;
  }

  /** Samples 0, 1, 2, ..., n - 1. */
  function Climb(n: nat): (samples: seq<u64>)
    requires n <= U64_SIZE
    ensures |samples| == n
  {
    if n == 0 then [] else Climb(n - 1) + [n - 1]
  }

  /** The bound is reached: on climbing samples every step drops as much as it can. */
  lemma {:induction false} BoundIsReached(n: nat)
    requires 0 < n < U64_SIZE
    ensures AverageOf(Climb(n)) == 0 && Sum(Climb(n)) == Slack(n)
    decreases n
  {
    hide Scaled, Quotient, NextAverage, Slack;
    assert Climb(n)[..n - 1] == Climb(n - 1);
    SlackStep(n);
    NoSamples();
    if n > 1 {
      BoundIsReached(n - 1);
    }
    ScaledOfZero(n - 1);
    NoWrap(0, n, n - 1);
    QuotientLaw(n - 1, n);
    SmallQuotient(n - 1, n);
  }

  lemma ScaledOfZero(n: nat)
    ensures Scaled(n, 0) == 0
  {
  }

  lemma SmallQuotient(a: nat, n: nat)
    requires a < n
    ensures Quotient(a, n) == 0
  {
  }

  // ---- The records ----

  /** What is counted for one provider. */
  class HealthHistory {
    var totalRequests: nat
    var successfulRequests: nat
    var failedRequests: nat
    var avgResponseTimeMs: nat
    var consecutiveFailures: nat
    /** The response times recorded so far, and how many failures came after the last. */
    ghost var times: seq<u64>
    ghost var failures: nat

    ghost predicate Valid()
      reads this
    {
      && totalRequests == successfulRequests + failedRequests
      && successfulRequests == |times|
      && failedRequests == failures
      && avgResponseTimeMs == AverageOf(times)
      && consecutiveFailures <= failedRequests
    }

    constructor ()
      ensures Valid() && times == [] && failures == 0 && consecutiveFailures == 0
    {
      totalRequests, successfulRequests, failedRequests := 0, 0, 0;
      avgResponseTimeMs, consecutiveFailures := 0, 0;
      times, failures := [], 0;
    }

    method RecordSuccess(responseTimeMs: u64)
      requires Valid()
      modifies this
      ensures Valid() && times == old(times) + [responseTimeMs] && failures == old(failures) && consecutiveFailures == 0
    {
      hide NextAverage;
      totalRequests := totalRequests + 1;
      successfulRequests := successfulRequests + 1;
      consecutiveFailures := 0;
      var total := successfulRequests;
      avgResponseTimeMs := NextAverage(avgResponseTimeMs, total, responseTimeMs);
      times := times + [responseTimeMs];
      assert times[..|times| - 1] == old(times);
    }

    method RecordFailure()
      requires Valid()
      modifies this
      ensures Valid() && times == old(times) && failures == old(failures) + 1
      ensures consecutiveFailures == old(consecutiveFailures) + 1
    {
      totalRequests := totalRequests + 1;
      failedRequests := failedRequests + 1;
      consecutiveFailures := consecutiveFailures + 1;
      failures := failures + 1;
    }
  }

  /** The kinds of results that are counted apart. */
  datatype Kind = Success | TooFew | NoAnswer | Unconfigured | Rejected

  function KindOf(a: CheckpointResult): Kind {
    match a
    case Submitted(_) => Success
    case InsufficientConsensus(_, _, _) => TooFew
    case ProvidersUnreachable(_) => NoAnswer
    case NoProviders => Unconfigured
    case TransactionFailed => Rejected
  }

  /** Each kind is one of the results. */
  lemma KindMeaning(a: CheckpointResult)
    ensures KindOf(a) == Success <==> a.Submitted?
    ensures KindOf(a) == TooFew <==> a.InsufficientConsensus?
    ensures KindOf(a) == NoAnswer <==> a.ProvidersUnreachable?
    ensures KindOf(a) == Unconfigured <==> a.NoProviders?
    ensures KindOf(a) == Rejected <==> a.TransactionFailed?
  {
  }

  /** What is counted over all attempts to submit. */
  class CheckpointMetrics {
    var totalAttempts: nat
    var successfulSubmissions: nat
    var insufficientConsensusCount: nat
    var unreachableFailures: nat
    var transactionFailures: nat
    var providersQueried: nat
    var providersResponded: nat
    var avgSubmissionTimeMs: nat
    ghost var attempts: seq<(CheckpointResult, u64)>

    ghost predicate Valid()
      reads this
    {
      && totalAttempts == |attempts|
      && successfulSubmissions == |SubmissionTimes(attempts)|
      && avgSubmissionTimeMs == AverageOf(SubmissionTimes(attempts))
      && insufficientConsensusCount == Count(attempts, TooFew)
      && unreachableFailures == Count(attempts, NoAnswer)
      && transactionFailures == Count(attempts, Rejected)
    }

    constructor ()
      ensures Valid() && attempts == []
    {
      totalAttempts, successfulSubmissions, insufficientConsensusCount := 0, 0, 0;
      unreachableFailures, transactionFailures := 0, 0;
      providersQueried, providersResponded, avgSubmissionTimeMs := 0, 0, 0;
      attempts := [];
    }

    method RecordAttempt(result: CheckpointResult, durationMs: u64)
      requires Valid()
      modifies this
      ensures Valid() && attempts == old(attempts) + [(result, durationMs)]
      ensures providersResponded == old(providersResponded)
        + (match result case Submitted(s) => |s| case InsufficientConsensus(n, _, _) => n case _ => 0)
      ensures providersQueried == old(providersQueried)
        + (if result.ProvidersUnreachable? then |result.providers| else 0)
    {
      hide NextAverage, SubmissionTimes, Count;
      OneMoreAttempt(attempts, result, durationMs);
      NewestAverage(SubmissionTimes(attempts), durationMs);
      attempts := attempts + [(result, durationMs)];
      totalAttempts := totalAttempts + 1;
      match result {
        case Submitted(signers) =>
          successfulSubmissions := successfulSubmissions + 1;
          var n := successfulSubmissions;
          avgSubmissionTimeMs := NextAverage(avgSubmissionTimeMs, n, durationMs);
          providersResponded := providersResponded + |signers|;
        case InsufficientConsensus(agreeing, _, _) =>
          insufficientConsensusCount := insufficientConsensusCount + 1;
          providersResponded := providersResponded + agreeing;
        case ProvidersUnreachable(providers) =>
          unreachableFailures := unreachableFailures + 1;
          providersQueried := providersQueried + |providers|;
        case NoProviders =>
        case TransactionFailed =>
          transactionFailures := transactionFailures + 1;
      }
    }
  }

  /** The durations of the attempts that submitted. */
  ghost function SubmissionTimes(attempts: seq<(CheckpointResult, u64)>): seq<u64> {
    if attempts == [] then []
    else
      var last := attempts[|attempts| - 1];
      SubmissionTimes(attempts[..|attempts| - 1]) + if last.0.Submitted? then [last.1] else []
  }

  ghost function Count(attempts: seq<(CheckpointResult, u64)>, kind: Kind): nat {
    if attempts == [] then 0
    else Count(attempts[..|attempts| - 1], kind) + if KindOf(attempts[|attempts| - 1].0) == kind then 1 else 0
  }

  lemma OneMoreAttempt(attempts: seq<(CheckpointResult, u64)>, a: CheckpointResult, duration: u64)
    ensures SubmissionTimes(attempts + [(a, duration)]) ==
      if a.Submitted? then SubmissionTimes(attempts) + [duration] else SubmissionTimes(attempts)
    ensures forall kind ::
      Count(attempts + [(a, duration)], kind) == Count(attempts, kind) + if KindOf(a) == kind then 1 else 0
  {
    var more := attempts + [(a, duration)];
    assert more[..|more| - 1] == attempts;
  }

  lemma NewestAverage(samples: seq<u64>, x: u64)
    ensures AverageOf(samples + [x]) == NextAverage(AverageOf(samples), |samples| + 1, x)
  {
    hide NextAverage;
    assert (samples + [x])[..|samples|] == samples;
  }

  /** Every attempt is counted once: as a submission, as one of three failures, or as without providers. */
  lemma {:induction false} AttemptsPartition(attempts: seq<(CheckpointResult, u64)>)
    ensures |attempts| == |SubmissionTimes(attempts)|
      + Count(attempts, TooFew) + Count(attempts, NoAnswer)
      + Count(attempts, Rejected) + Count(attempts, Unconfigured)
    decreases |attempts|
  {
    if attempts != [] {
      AttemptsPartition(attempts[..|attempts| - 1]);
    }
  }
}
