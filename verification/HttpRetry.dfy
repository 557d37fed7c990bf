/** Sending a request over HTTP with retries, jittered backoff and a deadline. */
module HttpRetry {
  import opened Outcomes
  import opened Bytes

  datatype HttpError = BadStatus(code: nat) | TransportError

  type HttpResult = Result<(), HttpError>

  predicate IsRetriable(e: HttpError) {
    match e
    case TransportError => true
    case BadStatus(code) => code in {500, 503, 504, 507, 509, 523, 524, 529, 599}
  }

  /** Instants and durations are in nanoseconds. */
  const MILLISECOND: nat := 1_000_000

  /**
    What one round of the loop meets: the jitter drawn, the instants at which
    the clock was read and the sleep ended, and the outcome of the resend.
   */
  datatype Round = Round(jitterMs: int, checkedAt: int, wokeAt: int, outcome: HttpResult)

  /** Everything one call meets: the first outcome, the start of the retry period, the rounds. */
  datatype Surroundings = Surroundings(first: HttpResult, startedAt: int, rounds: nat -> Round)

  /** 10 ms, doubled every round, at most a second. */
  function IntervalMs(k: nat): (ms: nat)
    ensures 10 <= ms <= 1000
  {
    if k == 0 then 10 else if 2 * IntervalMs(k - 1) < 1000 then 2 * IntervalMs(k - 1) else 1000
  }

  function SleepMs(w: Surroundings, k: nat): int { IntervalMs(k) + w.rounds(k).jitterMs }

  /** The jitter is drawn from -5 to 4; the clock never goes back; sleeps last at least as long as asked. */
  ghost predicate Plausible(w: Surroundings) {
    && w.startedAt <= w.rounds(0).checkedAt
    && (forall k: nat :: -5 <= w.rounds(k).jitterMs < 5)
    && (forall k: nat :: w.rounds(k).checkedAt + SleepMs(w, k) * MILLISECOND <= w.rounds(k).wokeAt)
    && (forall k: nat :: w.rounds(k).wokeAt <= w.rounds(k + 1).checkedAt)
  }

  /** The sleeps asked for in the first `n` rounds. */
  function TotalSleepMs(w: Surroundings, n: nat): int {
    if n == 0 then 0 else TotalSleepMs(w, n - 1) + SleepMs(w, n - 1)
  }

  /** The check that ends the loop: the next sleep would end after the deadline. */
  predicate PastDeadline(w: Surroundings, timeout: nat, k: nat) {
    w.rounds(k).checkedAt + SleepMs(w, k) * MILLISECOND > w.startedAt + timeout
  }

  lemma SleepRange(w: Surroundings, k: nat)
    requires Plausible(w)
    ensures 5 <= SleepMs(w, k) <= 1004
  {
  }

  lemma IntervalTable(k: nat)
    ensures k == 0 ==> IntervalMs(k) == 10
    ensures k == 1 ==> IntervalMs(k) == 20
    ensures k == 2 ==> IntervalMs(k) == 40
    ensures k == 3 ==> IntervalMs(k) == 80
    ensures k == 4 ==> IntervalMs(k) == 160
    ensures k == 5 ==> IntervalMs(k) == 320
    ensures k == 6 ==> IntervalMs(k) == 640
    ensures k >= 7 ==> IntervalMs(k) == 1000
  {
    if k > 0 {
      IntervalTable(k - 1);
    }
  }

  /** The seven short rounds take at least 1235 ms together, every later one at least 995 ms. */
  lemma {:induction false} SleepsAddUp(w: Surroundings, n: nat)
    requires Plausible(w)
    ensures n >= 7 ==> TotalSleepMs(w, n) >= 1235 + 995 * (n - 7)
    ensures TotalSleepMs(w, n) >= 5 * n
    ensures n == 1 ==> TotalSleepMs(w, n) >= 5
    ensures n == 2 ==> TotalSleepMs(w, n) >= 20
    ensures n == 3 ==> TotalSleepMs(w, n) >= 55
    ensures n == 4 ==> TotalSleepMs(w, n) >= 130
    ensures n == 5 ==> TotalSleepMs(w, n) >= 285
    ensures n == 6 ==> TotalSleepMs(w, n) >= 600
  {
    if n > 0 {
      SleepsAddUp(w, n - 1);
      IntervalTable(n - 1);
    }
  }

  /** The deadline allows no more than the sleeps that fit in it. */
  lemma {:induction false} ClockCoversSleeps(w: Surroundings, n: nat)
    requires Plausible(w)
    ensures w.startedAt + TotalSleepMs(w, n) * MILLISECOND <= w.rounds(n).checkedAt
  {
    if n > 0 {
      ClockCoversSleeps(w, n - 1);
      assert w.rounds(n - 1).wokeAt <= w.rounds(n - 1 + 1).checkedAt;
    }
  }

  predicate FailedRetriably(r: HttpResult) { r.Err? && IsRetriable(r.error) }

  /**
    What the retry loop does: `n` rounds resend, each of them before the
    deadline check says stop and each but the last failing retriably.
   */
  ghost predicate IsRetryTrace(w: Surroundings, timeout: nat, lastErr: HttpError, n: nat, r: HttpResult) {
    && (forall k: nat :: k < n ==> !PastDeadline(w, timeout, k))
    && (forall k: nat :: k + 1 < n ==> FailedRetriably(w.rounds(k).outcome))
    && r == (if n == 0 then Err(lastErr) else w.rounds(n - 1).outcome)
    && (n == 0 || FailedRetriably(r) ==> PastDeadline(w, timeout, n))
  }

  /** Every round so far was in time and ended in a retriable failure. */
  ghost predicate AllRetried(w: Surroundings, timeout: nat, n: nat) {
    forall k: nat :: k < n ==> !PastDeadline(w, timeout, k) && FailedRetriably(w.rounds(k).outcome)
  }

  lemma RetryOnce(w: Surroundings, timeout: nat, lastErr: HttpError, n: nat)
    requires AllRetried(w, timeout, n) && !PastDeadline(w, timeout, n)
    ensures
      var r := w.rounds(n).outcome;
      if FailedRetriably(r) then AllRetried(w, timeout, n + 1) else IsRetryTrace(w, timeout, lastErr, n + 1, r)
  {
  }

  /** From one check of the deadline to the next, time passes. */
  lemma ClockAdvances(w: Surroundings, k: nat)
    requires Plausible(w)
    ensures w.rounds(k).checkedAt < w.rounds(k + 1).checkedAt
  {
    SleepRange(w, k);
    assert w.rounds(k).wokeAt <= w.rounds(k + 1).checkedAt;
  }

  /** Every request of the list carried this body. */
  predicate AllCarry(posts: seq<bytes>, body: bytes) { forall i :: 0 <= i < |posts| ==> posts[i] == body }

  /** The loop; `posts` are the bodies of the requests it sends. */
  method RetryHttpSend(w: Surroundings, body: bytes, timeout: nat, lastErr: HttpError)
    returns (r: HttpResult, posts: seq<bytes>)
    requires Plausible(w)
    ensures IsRetryTrace(w, timeout, lastErr, |posts|, r) && AllCarry(posts, body)
  {
    var retryEnd := w.startedAt + timeout;
    var retryIntervalMs := 10;
    var resends := 0;
    r, posts := Err(lastErr), [];
    while true
      invariant |posts| == resends && AllCarry(posts, body)
      invariant retryIntervalMs == IntervalMs(resends)
      invariant AllRetried(w, timeout, resends)
      invariant r == if resends == 0 then Err(lastErr) else w.rounds(resends - 1).outcome
      decreases retryEnd - w.rounds(resends).checkedAt
    {
      var round := w.rounds(resends);
      var toSleepMs := retryIntervalMs + round.jitterMs;
      SleepRange(w, resends);
      if round.checkedAt + toSleepMs * MILLISECOND > retryEnd {
        return;
      }
      ClockAdvances(w, resends);
      RetryOnce(w, timeout, lastErr, resends);
      posts := posts + [body];
      r, resends := round.outcome, resends + 1;
      if r.Ok? || !IsRetriable(r.error) {
        return;
      }
      retryIntervalMs := if retryIntervalMs * 2 < 1000 then retryIntervalMs * 2 else 1000;
    }
  }

  /** The outcomes of all attempts: the first one and the resends. */
  function OutcomeOf(w: Surroundings, attempt: nat): HttpResult {
    if attempt == 0 then w.first else w.rounds(attempt - 1).outcome
  }

  /** Why no further attempt is made after attempt number `n`. */
  predicate MustStop(w: Surroundings, timeout: nat, n: nat)
    requires n > 0
  {
    !FailedRetriably(OutcomeOf(w, n - 1)) || timeout == 0 || PastDeadline(w, timeout, n - 1)
  }

  /** Attempts go on until the first reason to stop, and the last outcome is returned. */
  ghost predicate IsSendTrace(w: Surroundings, timeout: nat, attempts: nat, r: HttpResult) {
    && attempts >= 1
    && (forall n: nat :: 1 <= n < attempts ==> !MustStop(w, timeout, n))
    && MustStop(w, timeout, attempts)
    && r == OutcomeOf(w, attempts - 1)
  }

  /** One send with its retries; `posts` are the bodies of all its requests. */
  method HttpSendWithRetries(w: Surroundings, body: bytes, timeout: nat)
    returns (r: HttpResult, posts: seq<bytes>)
    requires Plausible(w)
    ensures IsSendTrace(w, timeout, |posts|, r) && AllCarry(posts, body)
  {
    r, posts := w.first, [body];
    if r.Ok? {
      return;
    }
    if timeout == 0 || !IsRetriable(r.error) {
      return;
    }
    var resent: seq<bytes>;
    r, resent := RetryHttpSend(w, body, timeout, r.error);
    posts := posts + resent;
    ghost var attempts := |posts|;
    forall n: nat | 1 <= n < attempts
      ensures !MustStop(w, timeout, n)
    {
      assert !PastDeadline(w, timeout, n - 1);
      if n >= 2 {
        assert n - 2 + 1 < |resent|;
        assert FailedRetriably(w.rounds(n - 2).outcome);
      }
    }
  }

  /** The surroundings leave no choice: attempts and result are determined. */
  lemma SendTraceIsUnique(w: Surroundings, timeout: nat, n1: nat, r1: HttpResult, n2: nat, r2: HttpResult)
    requires IsSendTrace(w, timeout, n1, r1) && IsSendTrace(w, timeout, n2, r2)
    ensures n1 == n2 && r1 == r2
  {
  }

  /**
    Of the attempts `HttpSendWithRetries` makes, none follows a success or an
    error that is not retriable; without a retry timeout there is one; and a
    retriable failure is only returned when the deadline left no time to retry.
   */
  lemma OnlyRetriableFailuresAreRetried(w: Surroundings, timeout: nat, attempts: nat, r: HttpResult)
    requires IsSendTrace(w, timeout, attempts, r)
    ensures forall i: nat :: i < attempts - 1 ==> FailedRetriably(OutcomeOf(w, i))
    ensures timeout == 0 ==> attempts == 1
    ensures FailedRetriably(r) && timeout > 0 ==> PastDeadline(w, timeout, attempts - 1)
  {
    forall i: nat | i < attempts - 1
      ensures FailedRetriably(OutcomeOf(w, i))
    {
      assert !MustStop(w, timeout, i + 1);
    }
    assert timeout == 0 ==> MustStop(w, timeout, 1);
  }

  /** The instant, in clock terms, at which the sleep before resend number `k` is over at the earliest. */
  function SleepEnds(w: Surroundings, k: nat): int {
    w.rounds(k).checkedAt + (IntervalMs(k) + w.rounds(k).jitterMs) * 1_000_000
  }

  /**
    The timeout is used up, and not exceeded: every resend was made although its
    sleep had to end by the deadline, and a retriable failure is only returned
    when the next sleep would have ended later.
   */
  lemma TimeLeftIsUsed(w: Surroundings, timeout: nat, attempts: nat, r: HttpResult)
    requires IsSendTrace(w, timeout, attempts, r)
    ensures forall k: nat :: k < attempts - 1 ==> SleepEnds(w, k) <= w.startedAt + timeout
    ensures FailedRetriably(r) && timeout > 0 ==> SleepEnds(w, attempts - 1) > w.startedAt + timeout
  {
    forall k: nat | k < attempts - 1
      ensures SleepEnds(w, k) <= w.startedAt + timeout
    {
      assert !MustStop(w, timeout, k + 1);
    }
  }

  /** An attempt that would succeed is made, and its success returned, if the deadline leaves time to get there. */
  lemma SuccessInTimeIsReturned(w: Surroundings, timeout: nat, attempts: nat, r: HttpResult, k: nat)
    requires IsSendTrace(w, timeout, attempts, r) && timeout > 0
    requires OutcomeOf(w, k).Ok? && forall i: nat :: i < k ==> FailedRetriably(OutcomeOf(w, i))
    requires forall i: nat :: i < k ==> SleepEnds(w, i) <= w.startedAt + timeout
    ensures r.Ok? && attempts == k + 1
  {
    forall n: nat | 1 <= n <= k
      ensures !MustStop(w, timeout, n)
    {
      assert FailedRetriably(OutcomeOf(w, n - 1)) && SleepEnds(w, n - 1) <= w.startedAt + timeout;
    }
    assert MustStop(w, timeout, k + 1);
  }

  /** Without a retry timeout, or with a first outcome that is final, there is exactly one attempt. */
  lemma OneAttempt(w: Surroundings, timeout: nat, attempts: nat, r: HttpResult)
    requires IsSendTrace(w, timeout, attempts, r)
    requires timeout == 0 || w.first.Ok? || (w.first.error.BadStatus? && !(500 <= w.first.error.code < 600))
    ensures attempts == 1 && r == w.first
  {
    assert MustStop(w, timeout, 1);
  }

  /** The statuses that are worth another attempt are those of a server that may recover. */
  lemma RetriableStatuses(code: nat)
    ensures IsRetriable(BadStatus(code)) <==> code / 100 == 5 && code % 100 in {0, 3, 4, 7, 9, 23, 24, 29, 99}
    ensures IsRetriable(TransportError)
  {
  }

  lemma SleepsFit(w: Surroundings, timeout: nat, n: nat)
    requires Plausible(w) && n > 0 && !PastDeadline(w, timeout, n - 1)
    ensures TotalSleepMs(w, n) * MILLISECOND <= timeout
  {
    ClockCoversSleeps(w, n - 1);
  }

  /**
    The retry budget: each sleep asked for is 5 to 1004 ms, together they fit
    in the timeout, the number of resends is bounded by it, and at most the
    last resend starts after the deadline.
   */
  lemma RetriesFitTheBudget(w: Surroundings, timeout: nat, attempts: nat, r: HttpResult)
    requires Plausible(w) && IsSendTrace(w, timeout, attempts, r)
    ensures forall k: nat :: k < attempts - 1 ==> 5 <= SleepMs(w, k) <= 1004
    ensures TotalSleepMs(w, attempts - 1) * MILLISECOND <= timeout
    ensures attempts - 1 > 7 ==> (1235 + 995 * (attempts - 1 - 7)) * MILLISECOND <= timeout
    ensures forall k: nat :: k + 1 < attempts - 1 ==> w.rounds(k).wokeAt <= w.startedAt + timeout
  {
    var resends := attempts - 1;
    forall k: nat | k < resends
      ensures !PastDeadline(w, timeout, k) && 5 <= SleepMs(w, k) <= 1004
    {
      assert !MustStop(w, timeout, k + 1);
      SleepRange(w, k);
    }
    forall k: nat | k + 1 < resends
      ensures w.rounds(k).wokeAt <= w.startedAt + timeout
    {
      assert !PastDeadline(w, timeout, k + 1);
    }
    if resends > 0 {
      assert !PastDeadline(w, timeout, resends - 1);
      SleepsFit(w, timeout, resends);
      SleepsAddUp(w, resends);
    }
  }
}
