/**
 Bounded retry with exponential backoff, jitter and an optional deadline
 (shoreguard/client/_resilience.py). Times are exact reals; what the called
 function does, the jitter draws and how late a sleep wakes are given.
 */
module Retry {
  import opened Wrappers

  datatype StatusCode =
    | OK | CANCELLED | UNKNOWN | INVALID_ARGUMENT | DEADLINE_EXCEEDED | NOT_FOUND | ALREADY_EXISTS
    | PERMISSION_DENIED | RESOURCE_EXHAUSTED | FAILED_PRECONDITION | ABORTED | OUT_OF_RANGE
    | UNIMPLEMENTED | INTERNAL | UNAVAILABLE | DATA_LOSS | UNAUTHENTICATED

  const RETRYABLE_CODES := {UNAVAILABLE, DEADLINE_EXCEEDED, RESOURCE_EXHAUSTED, ABORTED}

  datatype RetryPolicy = RetryPolicy(
    maxAttempts: int,
    initialBackoff: real,
    maxBackoff: real,
    jitter: real,
    retryable: set<StatusCode>)
  {
    /** What `__post_init__` lets through. */
    predicate Valid()
    {
      && 1 <= maxAttempts
      && 0.0 <= initialBackoff <= maxBackoff
      && 0.0 <= jitter < 1.0
    }
  }

  /** The policies that are refused. */
  lemma InvalidExactly(policy: RetryPolicy)
    ensures !policy.Valid() <==>
      || policy.maxAttempts < 1 || policy.initialBackoff < 0.0 || policy.maxBackoff < policy.initialBackoff
      || policy.jitter < 0.0 || 1.0 <= policy.jitter
  {
  }

  const DEFAULT_POLICY := RetryPolicy(4, 0.25, 4.0, 0.1, RETRYABLE_CODES)

  /** One call: a value, a gRPC error (with a readable code or not), or another exception. */
  datatype Reply = Value | RpcError(code: Option<StatusCode>) | OtherError

  /** One attempt: its reply, how long it took, the jitter draw, and how late the sleep after it woke. */
  datatype Attempt = Attempt(reply: Reply, duration: real, draw: real, lateness: real)

  predicate Plausible(policy: RetryPolicy, a: Attempt)
  {
    0.0 <= a.duration && 0.0 <= a.lateness && -policy.jitter <= a.draw <= policy.jitter
  }

  datatype Mark = RetryMark | OkMark | GiveUpMark

  /** One `on_attempt` callback. */
  datatype Callback = Callback(attempt: nat, code: Option<StatusCode>, mark: Mark)

  datatype Outcome = Returned | Raised | Escaped

  /** What a call did: when each attempt started and ended, each sleep, each callback. */
  datatype Log = Log(starts: seq<real>, ends: seq<real>, sleeps: seq<real>, callbacks: seq<Callback>)

  // ----- Backoff ---------------------------------------------------------

  function Pow2(n: nat): real
  {
    if n == 0 then 1.0 else 2.0 * Pow2(n - 1)
  }

  function Min(x: real, y: real): real
  {
    if y < x then y else x
  }

  /** The capped exponential backoff after a failed attempt, with jitter. */
  function Backoff(policy: RetryPolicy, attempt: nat, draw: real): real
    requires 1 <= attempt
  {
    Min(policy.initialBackoff * Pow2(attempt - 1), policy.maxBackoff) * (1.0 + draw)
  }

  function Clamp(wait: real, remaining: real): real
  {
    if Min(wait, remaining) < 0.0 then 0.0 else Min(wait, remaining)
  }

  /** `_sleep_for`. */
  function SleepFor(policy: RetryPolicy, attempt: nat, remaining: real, draw: real): real
    requires 1 <= attempt
  {
    Clamp(Backoff(policy, attempt, draw), remaining)
  }

  /** Time left before the deadline, as passed to `_sleep_for`. */
  function Budget(policy: RetryPolicy, deadline: Option<real>, elapsed: real): real
  {
    if deadline.None? then policy.maxBackoff else deadline.value - elapsed
  }

  /** When an attempt is followed by another one. */
  predicate Retries(policy: RetryPolicy, deadline: Option<real>, attempt: nat, reply: Reply, elapsed: real)
  {
    && reply.RpcError? && reply.code.Some? && reply.code.value in policy.retryable
    && attempt < policy.maxAttempts
    && (deadline.Some? ==> elapsed < deadline.value)
  }

  function Sum(s: seq<real>): real
  {
    if s == [] then 0.0 else Sum(s[..|s| - 1]) + s[|s| - 1]
  }

  lemma SumSnoc(s: seq<real>, x: real)
    ensures Sum(s + [x]) == Sum(s) + x
  {
  }

  lemma Pow2Positive(n: nat)
    ensures Pow2(n) >= 1.0
  {
  }

  lemma MulMonotone(a: real, x: real, y: real)
    requires 0.0 <= a && x <= y
    ensures a * x <= a * y
  {
  }

  /** Upper end of the jittered, uncapped backoff before retry number `n`. */
  function Ceiling(policy: RetryPolicy, n: nat): real
  {
    (1.0 + policy.jitter) * policy.initialBackoff * Pow2(n)
  }

  /** `(1 + jitter) * initial * (2^n - 1)`: all waits before retry number `n`, at most. */
  function TotalCeiling(policy: RetryPolicy, n: nat): real
  {
    (1.0 + policy.jitter) * policy.initialBackoff * (Pow2(n) - 1.0)
  }

  lemma TotalCeilingStep(policy: RetryPolicy, n: nat)
    ensures TotalCeiling(policy, n + 1) == TotalCeiling(policy, n) + Ceiling(policy, n)
    ensures TotalCeiling(policy, 0) == 0.0
  {
    var c, p := (1.0 + policy.jitter) * policy.initialBackoff, Pow2(n);
    assert Pow2(n + 1) == 2.0 * p;
    assert c * (2.0 * p - 1.0) == c * (p - 1.0) + c * p;
  }

  /** A sleep is bounded by the jittered backoff, by the jittered cap, and by the remaining time. */
  lemma SleepBounds(policy: RetryPolicy, attempt: nat, remaining: real, draw: real)
    requires policy.Valid() && 1 <= attempt && -policy.jitter <= draw <= policy.jitter
    ensures var s := SleepFor(policy, attempt, remaining, draw);
      && 0.0 <= s
      && (0.0 <= remaining ==> s <= remaining)
      && s <= Ceiling(policy, attempt - 1)
      && s <= policy.maxBackoff * (1.0 + policy.jitter)
  {
    var p := Pow2(attempt - 1);
    Pow2Positive(attempt - 1);
    MulMonotone(p, 0.0, policy.initialBackoff);
    var full := policy.initialBackoff * p;
    var base := Min(full, policy.maxBackoff);
    assert 0.0 <= base;
    MulMonotone(base, 1.0 + draw, 1.0 + policy.jitter);
    MulMonotone(1.0 + policy.jitter, base, full);
    MulMonotone(1.0 + policy.jitter, base, policy.maxBackoff);
    MulMonotone(1.0 + policy.jitter, 0.0, base);
    assert (1.0 + policy.jitter) * full == Ceiling(policy, attempt - 1);
  }

  /** The backoff starts at the initial one and doubles until it meets the cap. */
  lemma BackoffDoubles(policy: RetryPolicy, attempt: nat)
    requires policy.Valid() && 1 <= attempt
    ensures Backoff(policy, 1, 0.0) == policy.initialBackoff
    ensures var b := 2.0 * Backoff(policy, attempt, 0.0);
      Backoff(policy, attempt + 1, 0.0) == if b <= policy.maxBackoff then b else policy.maxBackoff
  {
    var p := policy.initialBackoff * Pow2(attempt - 1);
    assert Pow2(attempt) == 2.0 * Pow2(attempt - 1);
    assert policy.initialBackoff * Pow2(attempt) == 2.0 * p;
  }

  /** The backoff shifted by the share that was drawn. */
  function Jittered(policy: RetryPolicy, attempt: nat, draw: real): real
    requires 1 <= attempt
  {
    Backoff(policy, attempt, 0.0) * (1.0 + draw)
  }

  /** The sleep is the jittered backoff, or the remaining time if that is shorter. */
  lemma SleepExactly(policy: RetryPolicy, attempt: nat, remaining: real, draw: real)
    requires policy.Valid() && 1 <= attempt && -policy.jitter <= draw <= policy.jitter && 0.0 <= remaining
    ensures var s, b := SleepFor(policy, attempt, remaining, draw), Jittered(policy, attempt, draw);
      s == if b <= remaining then b else remaining
  {
    Pow2Positive(attempt - 1);
    MulMonotone(policy.initialBackoff, 0.0, Pow2(attempt - 1));
    var base := Min(policy.initialBackoff * Pow2(attempt - 1), policy.maxBackoff);
    assert Backoff(policy, attempt, 0.0) == base;
    MulMonotone(base, 0.0, 1.0 + draw);
  }

  // ----- The call --------------------------------------------------------

  /** The attempts, waits and callbacks before the current attempt, all of which retried. */
  ghost predicate Retried(policy: RetryPolicy, deadline: Option<real>, world: seq<Attempt>, log: Log)
    requires policy.Valid() && |world| >= policy.maxAttempts
  {
    var n := |log.sleeps|;
    && n < policy.maxAttempts
    && |log.starts| == n + 1 && |log.ends| == n && |log.callbacks| == n && log.starts[0] == 0.0
    && (forall i :: 0 <= i < n ==> RetriedAt(policy, deadline, world, log, i))
  }

  ghost predicate RetriedAt(policy: RetryPolicy, deadline: Option<real>, world: seq<Attempt>, log: Log, i: nat)
    requires i < |world| && i < |log.sleeps| && i < |log.ends| && i + 1 < |log.starts| && i < |log.callbacks|
  {
    && log.ends[i] == log.starts[i] + world[i].duration
    && Retries(policy, deadline, i + 1, world[i].reply, log.ends[i])
    && log.sleeps[i] == SleepFor(policy, i + 1, Budget(policy, deadline, log.ends[i]), world[i].draw)
    && log.starts[i + 1] == log.ends[i] + (if log.sleeps[i] > 0.0 then log.sleeps[i] + world[i].lateness else 0.0)
    && log.callbacks[i] == Callback(i + 1, world[i].reply.code, RetryMark)
  }

  /** What the waits add up to. */
  ghost predicate Bounded(policy: RetryPolicy, deadline: Option<real>, world: seq<Attempt>, log: Log)
    requires |world| >= |log.sleeps|
  {
    var n := |log.sleeps|;
    && Sum(log.sleeps) <= TotalCeiling(policy, n)
    && (deadline.Some? && n > 0 ==> Sum(log.sleeps) <= deadline.value)
    && (forall i :: 0 <= i < n ==> 0.0 <= log.sleeps[i] <= policy.maxBackoff * (1.0 + policy.jitter))
    && (deadline.None? ==> forall i :: 0 <= i < n ==> log.sleeps[i] <= policy.maxBackoff)
    && (deadline.Some? ==>
          forall i :: 0 < i < |log.starts| && i <= n ==> log.starts[i] <= deadline.value + world[i - 1].lateness)
  }

  /** The reply of the last attempt and the final callback fit the outcome. */
  predicate Finished(policy: RetryPolicy, deadline: Option<real>, last: Attempt, n: nat, log: Log, outcome: Outcome)
    requires |log.ends| == n && 1 <= n
  {
    match last.reply
    case Value =>
      && outcome == Returned
      && log.callbacks != [] && log.callbacks[|log.callbacks| - 1] == Callback(n, None, OkMark)
    case RpcError(code) =>
      && outcome == Raised && !Retries(policy, deadline, n, last.reply, log.ends[n - 1])
      && log.callbacks != [] && log.callbacks[|log.callbacks| - 1] == Callback(n, code, GiveUpMark)
    case OtherError => outcome == Escaped && |log.callbacks| == n - 1
  }

  lemma OneMoreSleep(
    policy: RetryPolicy, deadline: Option<real>, world: seq<Attempt>, log: Log, elapsed: real, sleep: real,
    start: real)
    requires policy.Valid() && |log.starts| == |log.sleeps| + 1 && |log.sleeps| < |world|
    requires Plausible(policy, world[|log.sleeps|])
    requires Bounded(policy, deadline, world, log)
    requires Sum(log.sleeps) <= elapsed
    requires deadline.Some? ==> elapsed < deadline.value
    requires sleep == SleepFor(policy, |log.sleeps| + 1, Budget(policy, deadline, elapsed), world[|log.sleeps|].draw)
    requires start == elapsed + (if sleep > 0.0 then sleep + world[|log.sleeps|].lateness else 0.0)
    ensures Bounded(policy, deadline, world, Log(log.starts + [start], log.ends, log.sleeps + [sleep], log.callbacks))
    ensures Sum(log.sleeps + [sleep]) <= start
  {
    var n := |log.sleeps|;
    SleepBounds(policy, n + 1, Budget(policy, deadline, elapsed), world[n].draw);
    TotalCeilingStep(policy, n);
    SumSnoc(log.sleeps, sleep);
  }

  /** The log without the last attempt. */
  function BeforeLast(log: Log, n: nat): Log
    requires 1 <= n == |log.ends| && n - 1 <= |log.callbacks|
  {
    Log(log.starts, log.ends[..n - 1], log.sleeps, log.callbacks[..n - 1])
  }

  /** Everything promised about a finished call. */
  ghost predicate Completed(
    policy: RetryPolicy, deadline: Option<real>, world: seq<Attempt>, outcome: Outcome, log: Log)
    requires policy.Valid() && |world| >= policy.maxAttempts
  {
    var n := |log.ends|;
    && 1 <= n <= policy.maxAttempts
    && |log.starts| == n && |log.sleeps| == n - 1
    && |log.callbacks| == (if outcome == Escaped then n - 1 else n)
    && log.ends[n - 1] == log.starts[n - 1] + world[n - 1].duration
    && Retried(policy, deadline, world, BeforeLast(log, n))
    && Finished(policy, deadline, world[n - 1], n, log, outcome)
    && Bounded(policy, deadline, world, log)
  }

  lemma Complete(
    policy: RetryPolicy, deadline: Option<real>, world: seq<Attempt>, log: Log, done: Log, outcome: Outcome)
    requires policy.Valid() && |world| >= policy.maxAttempts
    requires Retried(policy, deadline, world, log) && Bounded(policy, deadline, world, log)
    requires var n := |log.sleeps| + 1;
      && done.starts == log.starts && done.sleeps == log.sleeps
      && done.ends == log.ends + [log.starts[n - 1] + world[n - 1].duration]
      && log.callbacks <= done.callbacks && |done.callbacks| == (if outcome == Escaped then n - 1 else n)
      && Finished(policy, deadline, world[n - 1], n, done, outcome)
    ensures Completed(policy, deadline, world, outcome, done)
  {
    var n := |done.ends|;
    assert BeforeLast(done, n) == log;
  }

  lemma RetryOnceMore(
    policy: RetryPolicy, deadline: Option<real>, world: seq<Attempt>, log: Log, end: real, sleep: real, start: real)
    requires policy.Valid() && |world| >= policy.maxAttempts
    requires Retried(policy, deadline, world, log)
    requires var n := |log.sleeps|;
      && end == log.starts[n] + world[n].duration
      && Retries(policy, deadline, n + 1, world[n].reply, end)
      && sleep == SleepFor(policy, n + 1, Budget(policy, deadline, end), world[n].draw)
      && start == end + (if sleep > 0.0 then sleep + world[n].lateness else 0.0)
    ensures Retried(policy, deadline, world,
      Log(log.starts + [start], log.ends + [end], log.sleeps + [sleep],
          log.callbacks + [Callback(|log.sleeps| + 1, world[|log.sleeps|].reply.code, RetryMark)]))
  {
    var n := |log.sleeps|;
    var more := Log(log.starts + [start], log.ends + [end], log.sleeps + [sleep],
                    log.callbacks + [Callback(n + 1, world[n].reply.code, RetryMark)]);
    forall i | 0 <= i < n + 1
      ensures RetriedAt(policy, deadline, world, more, i)
    {
      if i < n {
        assert RetriedAt(policy, deadline, world, log, i);
      }
    }
  }

  /** State of the loop at the start of an attempt. */
  ghost predicate Underway(policy: RetryPolicy, deadline: Option<real>, world: seq<Attempt>, log: Log, now: real)
    requires policy.Valid() && |world| >= policy.maxAttempts
  {
    && Retried(policy, deadline, world, log)
    && Bounded(policy, deadline, world, log)
    && now == log.starts[|log.sleeps|] && Sum(log.sleeps) <= now
  }

  lemma Continue(
    policy: RetryPolicy, deadline: Option<real>, world: seq<Attempt>, log: Log, now: real, end: real, sleep: real,
    start: real)
    requires policy.Valid() && |world| >= policy.maxAttempts && Underway(policy, deadline, world, log, now)
    requires var n := |log.sleeps|;
      && Plausible(policy, world[n])
      && end == now + world[n].duration
      && Retries(policy, deadline, n + 1, world[n].reply, end)
      && sleep == SleepFor(policy, n + 1, Budget(policy, deadline, end), world[n].draw)
      && start == end + (if sleep > 0.0 then sleep + world[n].lateness else 0.0)
    ensures Underway(policy, deadline, world,
      Log(log.starts + [start], log.ends + [end], log.sleeps + [sleep],
          log.callbacks + [Callback(|log.sleeps| + 1, world[|log.sleeps|].reply.code, RetryMark)]), start)
  {
    RetryOnceMore(policy, deadline, world, log, end, sleep, start);
    OneMoreSleep(policy, deadline, world, log, end, sleep, start);
  }

  /** `call_with_retry`. */
  method CallWithRetry(policy: RetryPolicy, deadline: Option<real>, world: seq<Attempt>)
    returns (outcome: Outcome, log: Log)
    requires policy.Valid() && |world| >= policy.maxAttempts
    requires forall i :: 0 <= i < |world| ==> Plausible(policy, world[i])
    ensures Completed(policy, deadline, world, outcome, log)
  {
    var now := 0.0;
    var attempt := 1;
    log := Log([now], [], [], []);
    TotalCeilingStep(policy, 0);
    while attempt <= policy.maxAttempts
      invariant 1 <= attempt <= policy.maxAttempts && attempt == |log.sleeps| + 1
      invariant Underway(policy, deadline, world, log, now)
    {
      var a := world[attempt - 1];
      ghost var began := now;
      now := now + a.duration;
      var seen := log.(ends := log.ends + [now]);
      match a.reply {
        case Value =>
          outcome, seen := Returned, seen.(callbacks := log.callbacks + [Callback(attempt, None, OkMark)]);
          Complete(policy, deadline, world, log, seen, outcome);
          return outcome, seen;
        case OtherError =>
          Complete(policy, deadline, world, log, seen, Escaped);
          return Escaped, seen;
        case RpcError(code) =>
          var isRetryable := code.Some? && code.value in policy.retryable;
          var isLast := attempt >= policy.maxAttempts;
          var budgetExhausted := deadline.Some? && deadline.value - now <= 0.0;
          if !isRetryable || isLast || budgetExhausted {
            outcome, seen := Raised, seen.(callbacks := log.callbacks + [Callback(attempt, code, GiveUpMark)]);
            Complete(policy, deadline, world, log, seen, outcome);
            return outcome, seen;
          }
          var sleep := SleepFor(policy, attempt, Budget(policy, deadline, now), a.draw);
          var start := now + (if sleep > 0.0 then sleep + a.lateness else 0.0);
          Continue(policy, deadline, world, log, began, now, sleep, start);
          log := Log(log.starts + [start], seen.ends, log.sleeps + [sleep],
                     log.callbacks + [Callback(attempt, code, RetryMark)]);
          now := start;
          attempt := attempt + 1;
      }
    }
    assert false;
  }

  // ----- Reading the promise ---------------------------------------------

  /**
   The callbacks of a finished call, each with the code of its attempt: one retry
   per wait, in order, then one final mark unless an exception escaped.
   */
  lemma CallbackShape(policy: RetryPolicy, deadline: Option<real>, world: seq<Attempt>, outcome: Outcome, log: Log)
    requires policy.Valid() && |world| >= policy.maxAttempts
    requires Completed(policy, deadline, world, outcome, log)
    ensures var n := |log.ends|;
      && (forall i :: 0 <= i < n - 1 ==> log.callbacks[i].mark == RetryMark && log.callbacks[i].attempt == i + 1)
      && (forall i :: 0 <= i < n - 1 ==>
            world[i].reply.RpcError? && log.callbacks[i].code == world[i].reply.code)
      && (outcome == Raised ==> log.callbacks[n - 1].code == world[n - 1].reply.code)
      && (outcome == Returned ==> log.callbacks[n - 1] == Callback(n, None, OkMark))
      && (outcome == Raised ==> log.callbacks[n - 1].mark == GiveUpMark && log.callbacks[n - 1].attempt == n)
  {
    var n := |log.ends|;
    forall i | 0 <= i < n - 1
      ensures log.callbacks[i].mark == RetryMark && log.callbacks[i].attempt == i + 1
      ensures world[i].reply.RpcError? && log.callbacks[i].code == world[i].reply.code
    {
      assert RetriedAt(policy, deadline, world, BeforeLast(log, n), i);
      assert BeforeLast(log, n).callbacks[i] == log.callbacks[i];
    }
  }

  /** The attempt is followed by another one in the log. */
  lemma RetriedIn(policy: RetryPolicy, deadline: Option<real>, world: seq<Attempt>, outcome: Outcome, log: Log, i: nat)
    requires policy.Valid() && |world| >= policy.maxAttempts && Completed(policy, deadline, world, outcome, log)
    requires i < |log.sleeps|
    ensures i + 1 < policy.maxAttempts && RetriedAt(policy, deadline, world, log, i)
  {
    assert RetriedAt(policy, deadline, world, BeforeLast(log, |log.ends|), i);
  }

  /**
   Which attempts are followed by another one: those answered by an error with a
   retryable code, except the last that is allowed and those that end at or
   after the deadline.
   */
  lemma RetriesExactly(
    policy: RetryPolicy, deadline: Option<real>, world: seq<Attempt>, outcome: Outcome, log: Log, i: nat)
    requires policy.Valid() && |world| >= policy.maxAttempts && Completed(policy, deadline, world, outcome, log)
    requires i < |log.ends|
    ensures i + 1 < |log.ends| <==>
      && world[i].reply.RpcError? && world[i].reply.code.Some? && world[i].reply.code.value in policy.retryable
      && i + 1 < policy.maxAttempts
      && (deadline.Some? ==> log.ends[i] < deadline.value)
  {
    if i < |log.sleeps| {
      RetriedIn(policy, deadline, world, outcome, log, i);
    }
  }

  /**
   When attempts start and how long the waits are: the first at once, each later
   one after the end of the one before, its wait, and how late the wait woke. A
   wait is the backoff with its draw, or what remains: the time to the deadline
   if there is one, and otherwise `maxBackoff`.
   */
  lemma TimesExactly(
    policy: RetryPolicy, deadline: Option<real>, world: seq<Attempt>, outcome: Outcome, log: Log, i: nat)
    requires policy.Valid() && |world| >= policy.maxAttempts && Completed(policy, deadline, world, outcome, log)
    requires i < |log.sleeps| && Plausible(policy, world[i])
    ensures log.starts[0] == 0.0 && log.ends[i] == log.starts[i] + world[i].duration
    ensures var s := log.sleeps[i];
      log.starts[i + 1] == log.ends[i] + s + if s > 0.0 then world[i].lateness else 0.0
    ensures var wait, left := Jittered(policy, i + 1, world[i].draw),
        if deadline.Some? then deadline.value - log.ends[i] else policy.maxBackoff;
      log.sleeps[i] == if wait <= left then wait else left
  {
    RetriedIn(policy, deadline, world, outcome, log, i);
    SleptAt(policy, deadline, log.ends[i], i + 1, world[i].draw);
    assert log.starts[0] == BeforeLast(log, |log.ends|).starts[0] == 0.0;
  }

  lemma SleptAt(policy: RetryPolicy, deadline: Option<real>, elapsed: real, attempt: nat, draw: real)
    requires policy.Valid() && 1 <= attempt && -policy.jitter <= draw <= policy.jitter
    requires deadline.Some? ==> elapsed < deadline.value
    ensures var wait, left := Jittered(policy, attempt, draw),
        if deadline.Some? then deadline.value - elapsed else policy.maxBackoff;
      var s := SleepFor(policy, attempt, Budget(policy, deadline, elapsed), draw);
      s == (if wait <= left then wait else left) && 0.0 <= s
  {
    SleepExactly(policy, attempt, Budget(policy, deadline, elapsed), draw);
    SleepBounds(policy, attempt, Budget(policy, deadline, elapsed), draw);
  }

  /** How a call ends: by the reply of its last attempt. */
  lemma OutcomeExactly(policy: RetryPolicy, deadline: Option<real>, world: seq<Attempt>, outcome: Outcome, log: Log)
    requires policy.Valid() && |world| >= policy.maxAttempts && Completed(policy, deadline, world, outcome, log)
    ensures var reply := world[|log.ends| - 1].reply;
      && (outcome == Returned <==> reply.Value?)
      && (outcome == Raised <==> reply.RpcError?)
      && (outcome == Escaped <==> reply.OtherError?)
  {
  }

  /** What the default policy retries on. */
  lemma DefaultCodes(code: StatusCode)
    ensures code in DEFAULT_POLICY.retryable
       <==> code.UNAVAILABLE? || code.DEADLINE_EXCEEDED? || code.RESOURCE_EXHAUSTED? || code.ABORTED?
  {
  }

  // ----- A call does nothing else ----------------------------------------

  lemma EndsAfter(policy: RetryPolicy, deadline: Option<real>, world: seq<Attempt>, outcome: Outcome, log: Log, i: nat)
    requires policy.Valid() && |world| >= policy.maxAttempts && Completed(policy, deadline, world, outcome, log)
    requires i < |log.ends|
    ensures log.starts[0] == 0.0 && log.ends[i] == log.starts[i] + world[i].duration
  {
    if i < |log.sleeps| {
      RetriedIn(policy, deadline, world, outcome, log, i);
    }
  }

  lemma {:induction false} SameStart(
    policy: RetryPolicy, deadline: Option<real>, world: seq<Attempt>, outcome: Outcome, log: Log, outcome': Outcome,
    log': Log, i: nat)
    requires policy.Valid() && |world| >= policy.maxAttempts
    requires Completed(policy, deadline, world, outcome, log) && Completed(policy, deadline, world, outcome', log')
    requires i < |log.ends| && i < |log'.ends|
    ensures log.starts[i] == log'.starts[i] && log.ends[i] == log'.ends[i]
  {
    EndsAfter(policy, deadline, world, outcome, log, i);
    EndsAfter(policy, deadline, world, outcome', log', i);
    if i > 0 {
      SameStart(policy, deadline, world, outcome, log, outcome', log', i - 1);
      RetriedIn(policy, deadline, world, outcome, log, i - 1);
      RetriedIn(policy, deadline, world, outcome', log', i - 1);
    }
  }

  /** The longer of two logs would retry where the shorter one stops. */
  lemma SameLength(
    policy: RetryPolicy, deadline: Option<real>, world: seq<Attempt>, outcome: Outcome, log: Log, outcome': Outcome,
    log': Log)
    requires policy.Valid() && |world| >= policy.maxAttempts
    requires Completed(policy, deadline, world, outcome, log) && Completed(policy, deadline, world, outcome', log')
    ensures |log'.ends| <= |log.ends|
  {
    var n := |log.ends|;
    if n < |log'.ends| {
      SameStart(policy, deadline, world, outcome, log, outcome', log', n - 1);
      RetriedIn(policy, deadline, world, outcome', log', n - 1);
    }
  }

  /** What a call does is determined by the replies, the draws and the delays. */
  lemma CompletedUnique(
    policy: RetryPolicy, deadline: Option<real>, world: seq<Attempt>, outcome: Outcome, log: Log, outcome': Outcome,
    log': Log)
    requires policy.Valid() && |world| >= policy.maxAttempts
    requires Completed(policy, deadline, world, outcome, log) && Completed(policy, deadline, world, outcome', log')
    ensures outcome == outcome' && log == log'
  {
    var n := |log.ends|;
    SameLength(policy, deadline, world, outcome, log, outcome', log');
    SameLength(policy, deadline, world, outcome', log', outcome, log);
    forall i | 0 <= i < n
      ensures log.starts[i] == log'.starts[i] && log.ends[i] == log'.ends[i]
    {
      SameStart(policy, deadline, world, outcome, log, outcome', log', i);
    }
    forall i | 0 <= i < n - 1
      ensures log.sleeps[i] == log'.sleeps[i] && log.callbacks[i] == log'.callbacks[i]
    {
      RetriedIn(policy, deadline, world, outcome, log, i);
      RetriedIn(policy, deadline, world, outcome', log', i);
    }
  }

  // ----- With a deadline the cap does not hold ---------------------------

  /** The earliest end of an attempt after so many retries: every wait as short as the jitter allows. */
  function Earliest(policy: RetryPolicy, retries: nat): real
  {
    if retries == 0 then 0.0 else Earliest(policy, retries - 1) + Backoff(policy, retries, -policy.jitter)
  }

  /** The longest backoff at that point is above the cap, and so is the time left. */
  predicate RoomAboveCap(policy: RetryPolicy, deadline: real, retries: nat)
  {
    && Backoff(policy, retries + 1, policy.jitter) > policy.maxBackoff
    && deadline - Earliest(policy, retries) > policy.maxBackoff
  }

  predicate CanExceedCap(policy: RetryPolicy, deadline: Option<real>)
  {
    && deadline.Some? && policy.retryable != {}
    && exists i :: 0 <= i < policy.maxAttempts - 1 && RoomAboveCap(policy, deadline.value, i)
  }

  /** A call in which some sleep is longer than `maxBackoff`. */
  ghost predicate ExceedsCap(
    policy: RetryPolicy, deadline: Option<real>, world: seq<Attempt>, outcome: Outcome, log: Log)
    requires policy.Valid()
  {
    && |world| >= policy.maxAttempts && (forall i :: 0 <= i < |world| ==> Plausible(policy, world[i]))
    && Completed(policy, deadline, world, outcome, log)
    && exists i :: 0 <= i < |log.sleeps| && log.sleeps[i] > policy.maxBackoff
  }

  lemma BackoffBetween(policy: RetryPolicy, attempt: nat, draw: real)
    requires policy.Valid() && 1 <= attempt && -policy.jitter <= draw <= policy.jitter
    ensures 0.0 <= Backoff(policy, attempt, -policy.jitter) <= Backoff(policy, attempt, draw)
    ensures Backoff(policy, attempt, draw) <= Backoff(policy, attempt, policy.jitter)
  {
    Pow2Positive(attempt - 1);
    MulMonotone(policy.initialBackoff, 0.0, Pow2(attempt - 1));
    var base := Min(policy.initialBackoff * Pow2(attempt - 1), policy.maxBackoff);
    MulMonotone(base, 0.0, 1.0 - policy.jitter);
    MulMonotone(base, 1.0 - policy.jitter, 1.0 + draw);
    MulMonotone(base, 1.0 + draw, 1.0 + policy.jitter);
  }

  /** An attempt that is followed by another one has not ended before its earliest time. */
  lemma {:induction false} NotEarlier(
    policy: RetryPolicy, deadline: real, world: seq<Attempt>, outcome: Outcome, log: Log, i: nat)
    requires policy.Valid() && |world| >= policy.maxAttempts
    requires forall j :: 0 <= j < |world| ==> Plausible(policy, world[j])
    requires Completed(policy, Some(deadline), world, outcome, log) && i < |log.sleeps|
    ensures Earliest(policy, i) <= log.ends[i]
  {
    RetriedIn(policy, Some(deadline), world, outcome, log, i);
    assert Plausible(policy, world[i]);
    if i > 0 {
      NotEarlier(policy, deadline, world, outcome, log, i - 1);
      RetriedIn(policy, Some(deadline), world, outcome, log, i - 1);
      assert Plausible(policy, world[i - 1]);
      BackoffBetween(policy, i, world[i - 1].draw);
    }
  }

  lemma {:induction false} EarliestGrows(policy: RetryPolicy, i: nat, j: nat)
    requires policy.Valid() && i <= j
    ensures Earliest(policy, i) <= Earliest(policy, j)
  {
    if i < j {
      EarliestGrows(policy, i, j - 1);
      BackoffBetween(policy, j, policy.jitter);
    }
  }

  /** Failures with the shortest waits, then one with the longest, then a value. */
  function WorstCase(policy: RetryPolicy, code: StatusCode, i: nat): seq<Attempt>
    requires policy.Valid()
  {
    seq(policy.maxAttempts, j requires 0 <= j < policy.maxAttempts =>
      if j <= i then Attempt(RpcError(Some(code)), 0.0, if j < i then -policy.jitter else policy.jitter, 0.0)
      else Attempt(Value, 0.0, 0.0, 0.0))
  }

  lemma {:induction false} Warmup(policy: RetryPolicy, deadline: real, code: StatusCode, i: nat, j: nat)
    returns (log: Log)
    requires policy.Valid() && code in policy.retryable && j <= i < policy.maxAttempts - 1
    requires Earliest(policy, i) < deadline
    ensures Underway(policy, Some(deadline), WorstCase(policy, code, i), log, Earliest(policy, j))
    ensures |log.sleeps| == j
  {
    if j == 0 {
      log := Log([0.0], [], [], []);
      TotalCeilingStep(policy, 0);
    } else {
      var before := Warmup(policy, deadline, code, i, j - 1);
      var now, sleep := Earliest(policy, j - 1), Backoff(policy, j, -policy.jitter);
      EarliestGrows(policy, j, i);
      BackoffBetween(policy, j, -policy.jitter);
      Continue(policy, Some(deadline), WorstCase(policy, code, i), before, now, now, sleep, now + sleep);
      log := Log(before.starts + [now + sleep], before.ends + [now], before.sleeps + [sleep],
                 before.callbacks + [Callback(j, Some(code), RetryMark)]);
    }
  }

  lemma LongWait(policy: RetryPolicy, deadline: real, code: StatusCode, i: nat) returns (log: Log, now: real)
    requires policy.Valid() && code in policy.retryable && i < policy.maxAttempts - 1
    requires RoomAboveCap(policy, deadline, i)
    ensures Underway(policy, Some(deadline), WorstCase(policy, code, i), log, now)
    ensures |log.sleeps| == i + 1 && log.sleeps[i] > policy.maxBackoff
  {
    var end := Earliest(policy, i);
    var before := Warmup(policy, deadline, code, i, i);
    var sleep := SleepFor(policy, i + 1, deadline - end, policy.jitter);
    now := end + sleep;
    Continue(policy, Some(deadline), WorstCase(policy, code, i), before, end, end, sleep, now);
    log := Log(before.starts + [now], before.ends + [end], before.sleeps + [sleep],
               before.callbacks + [Callback(i + 1, Some(code), RetryMark)]);
  }

  lemma WorstCasePlausible(policy: RetryPolicy, code: StatusCode, i: nat)
    requires policy.Valid()
    ensures forall j :: 0 <= j < |WorstCase(policy, code, i)| ==> Plausible(policy, WorstCase(policy, code, i)[j])
  {
  }

  lemma Exceeding(policy: RetryPolicy, deadline: real, code: StatusCode, i: nat) returns (log: Log)
    requires policy.Valid() && code in policy.retryable && i < policy.maxAttempts - 1
    requires RoomAboveCap(policy, deadline, i)
    ensures ExceedsCap(policy, Some(deadline), WorstCase(policy, code, i), Returned, log)
  {
    var waited, now := LongWait(policy, deadline, code, i);
    WorstCasePlausible(policy, code, i);
    log := waited.(ends := waited.ends + [now], callbacks := waited.callbacks + [Callback(i + 2, None, OkMark)]);
    Complete(policy, Some(deadline), WorstCase(policy, code, i), waited, log, Returned);
    assert log.sleeps[i] > policy.maxBackoff;
  }

  /**
   The policies and deadlines under which `maxBackoff` is no cap: in some call a
   sleep exceeds it exactly if there is a deadline, a code to retry on, and a
   retry whose longest backoff and longest remaining time both do.
   */
  lemma CapExact(policy: RetryPolicy, deadline: Option<real>)
    requires policy.Valid()
    ensures CanExceedCap(policy, deadline)
       <==> exists world, outcome, log :: ExceedsCap(policy, deadline, world, outcome, log)
  {
    if CanExceedCap(policy, deadline) {
      var code :| code in policy.retryable;
      var i :| 0 <= i < policy.maxAttempts - 1 && RoomAboveCap(policy, deadline.value, i);
      var log := Exceeding(policy, deadline.value, code, i);
    }
    if world: seq<Attempt>, outcome: Outcome, log: Log :| ExceedsCap(policy, deadline, world, outcome, log) {
      var i :| 0 <= i < |log.sleeps| && log.sleeps[i] > policy.maxBackoff;
      RetriedIn(policy, deadline, world, outcome, log, i);
      assert Plausible(policy, world[i]);
      BackoffBetween(policy, i + 1, world[i].draw);
      NotEarlier(policy, deadline.value, world, outcome, log, i);
      assert RoomAboveCap(policy, deadline.value, i);
    }
  }

  /** The default policy keeps its cap, whatever the deadline. */
  lemma DefaultPolicyKeepsCap(deadline: Option<real>)
    ensures !CanExceedCap(DEFAULT_POLICY, deadline)
  {
    if deadline.Some? {
      assert Pow2(0) == 1.0 && Pow2(1) == 2.0 && Pow2(2) == 4.0;
      forall i | 0 <= i < 3
        ensures !RoomAboveCap(DEFAULT_POLICY, deadline.value, i)
      {
        assert i == 0 || i == 1 || i == 2;
      }
    }
  }

  /** Four failures with the largest jitter. */
  function Failures(): seq<Attempt>
  {
    var a := Attempt(RpcError(Some(UNAVAILABLE)), 0.0, 0.1, 0.0);
    [a, a, a, a]
  }

  lemma FailOnce(log: Log, now: real, sleep: real) returns (more: Log)
    requires Underway(DEFAULT_POLICY, None, Failures(), log, now) && |log.sleeps| < 3
    requires sleep == SleepFor(DEFAULT_POLICY, |log.sleeps| + 1, 4.0, 0.1) && 0.0 < sleep
    ensures Underway(DEFAULT_POLICY, None, Failures(), more, now + sleep) && more.sleeps == log.sleeps + [sleep]
  {
    Continue(DEFAULT_POLICY, None, Failures(), log, now, now, sleep, now + sleep);
    more := Log(log.starts + [now + sleep], log.ends + [now], log.sleeps + [sleep],
                log.callbacks + [Callback(|log.sleeps| + 1, Some(UNAVAILABLE), RetryMark)]);
  }

  lemma GiveUp(before: Log, now: real) returns (log: Log)
    requires Underway(DEFAULT_POLICY, None, Failures(), before, now) && |before.sleeps| == 3
    ensures Completed(DEFAULT_POLICY, None, Failures(), Raised, log) && log.sleeps == before.sleeps
  {
    log := before.(ends := before.ends + [now],
                   callbacks := before.callbacks + [Callback(4, Some(UNAVAILABLE), GiveUpMark)]);
    Complete(DEFAULT_POLICY, None, Failures(), before, log, Raised);
  }

  lemma DefaultSleeps()
    ensures SleepFor(DEFAULT_POLICY, 1, 4.0, 0.1) == 0.275
    ensures SleepFor(DEFAULT_POLICY, 2, 4.0, 0.1) == 0.55
    ensures SleepFor(DEFAULT_POLICY, 3, 4.0, 0.1) == 1.1
  {
    assert Pow2(0) == 1.0 && Pow2(1) == 2.0 && Pow2(2) == 4.0;
  }

  lemma BeforeFailing() returns (log: Log)
    ensures Underway(DEFAULT_POLICY, None, Failures(), log, 0.0) && log.sleeps == []
  {
    TotalCeilingStep(DEFAULT_POLICY, 0);
    log := Log([0.0], [], [], []);
  }

  lemma SumOfThree(a: real, b: real, c: real)
    ensures Sum([a, b, c]) == a + b + c
  {
    SumSnoc([a, b], c);
    SumSnoc([a], b);
    SumSnoc([], a);
    assert [] + [a] == [a] && [a] + [b] == [a, b] && [a, b] + [c] == [a, b, c];
  }

  /** The bound of `DefaultPolicyTotal` is reached by a call that fails four times. */
  lemma DefaultPolicyTotalReached() returns (log: Log)
    ensures Completed(DEFAULT_POLICY, None, Failures(), Raised, log)
    ensures log.sleeps == [0.275, 0.55, 1.1] && Sum(log.sleeps) == 1.925
  {
    DefaultSleeps();
    var log0 := BeforeFailing();
    var log1 := FailOnce(log0, 0.0, 0.275);
    var log2 := FailOnce(log1, 0.275, 0.55);
    var log3 := FailOnce(log2, 0.825, 1.1);
    log := GiveUp(log3, 1.925);
    SumOfThree(0.275, 0.55, 1.1);
  }

  /** With the default policy all waits together stay below two seconds. */
  lemma DefaultPolicyTotal(deadline: Option<real>, world: seq<Attempt>, outcome: Outcome, log: Log)
    requires |world| >= 4 && Completed(DEFAULT_POLICY, deadline, world, outcome, log)
    ensures Sum(log.sleeps) <= 1.925
  {
    var n := |log.sleeps|;
    assert n == 0 || n == 1 || n == 2 || n == 3;
    assert Pow2(0) == 1.0 && Pow2(1) == 2.0 && Pow2(2) == 4.0 && Pow2(3) == 8.0;
  }
}
