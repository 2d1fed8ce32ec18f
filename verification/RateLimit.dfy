/**
 The sliding-window rate limiter (shoreguard/api/ratelimit.py). Readings of the
 monotonic clock are parameters that never go backwards.
 */
module RateLimit {
  import opened Seqs

  const CLEANUP_INTERVAL: nat := 100

  datatype Limits = Limits(maxAttempts: int, window: int, lockout: int)

  /** `is_limited`: the pair it returns, or the exception of indexing an empty deque. */
  datatype Verdict = Verdict(blocked: bool, retryAfter: int) | IndexError

  datatype Limiter = Limiter(buckets: map<string, seq<real>>, calls: nat)

  // ----- Operations on values --------------------------------------------

  /** Python's `int(x)`. */
  function Trunc(x: real): int
  {
    if x < 0.0 then -((-x).Floor) else x.Floor
  }

  function RetryAfter(cfg: Limits, oldest: real, now: real): int
  {
    var wait := Trunc(oldest + cfg.lockout as real - now) + 1;
    if wait < 1 then 1 else wait
  }

  /** Popping from the left while the oldest time is before the cutoff. */
  function Expire(bucket: seq<real>, cutoff: real): seq<real>
  {
    if bucket == [] || bucket[0] >= cutoff then bucket else Expire(bucket[1..], cutoff)
  }

  predicate Stale(cfg: Limits, bucket: seq<real>, now: real)
  {
    bucket == [] || bucket[|bucket| - 1] < now - cfg.window as real - cfg.lockout as real
  }

  function Purged(cfg: Limits, buckets: map<string, seq<real>>, now: real): map<string, seq<real>>
  {
    map k | k in buckets && !Stale(cfg, buckets[k], now) :: buckets[k]
  }

  function BucketOf(s: Limiter, key: string): seq<real>
  {
    if key in s.buckets then s.buckets[key] else []
  }

  /** Counting the call and, every hundredth time, purging. */
  function Counted(cfg: Limits, s: Limiter, now: real): Limiter
  {
    var calls := s.calls + 1;
    if calls % CLEANUP_INTERVAL == 0 then Limiter(Purged(cfg, s.buckets, now), calls) else s.(calls := calls)
  }

  function Checked(cfg: Limits, s: Limiter, key: string, purgeNow: real, now: real): Limiter
  {
    var c := Counted(cfg, s, purgeNow);
    if key in c.buckets then c.(buckets := c.buckets[key := Expire(c.buckets[key], now - cfg.window as real)]) else c
  }

  function CheckVerdict(cfg: Limits, s: Limiter, key: string, purgeNow: real, now: real): Verdict
  {
    var c := Counted(cfg, s, purgeNow);
    if key !in c.buckets then Verdict(false, 0)
    else
      var bucket := Expire(c.buckets[key], now - cfg.window as real);
      if |bucket| < cfg.maxAttempts then Verdict(false, 0)
      else if bucket == [] then IndexError
      else Verdict(true, RetryAfter(cfg, bucket[0], now))
  }

  function Recorded(s: Limiter, key: string, now: real): Limiter
  {
    s.(buckets := s.buckets[key := BucketOf(s, key) + [now]])
  }

  function WithoutKey(s: Limiter, key: string): Limiter
  {
    s.(buckets := map k | k in s.buckets && k != key :: s.buckets[k])
  }

  /** The least whole number of seconds, one at least, that reaches past the oldest attempt plus the lockout. */
  lemma RetryAfterExactly(cfg: Limits, oldest: real, now: real)
    ensures var r := RetryAfter(cfg, oldest, now);
      && 1 <= r && oldest + cfg.lockout as real < now + r as real
      && (1 < r ==> now + (r - 1) as real <= oldest + cfg.lockout as real)
  {
  }

  /** The latest attempt lies more than the window and the lockout back, or there is none. */
  predicate LongIdle(cfg: Limits, bucket: seq<real>, now: real)
  {
    forall i :: i == |bucket| - 1 && 0 <= i ==> bucket[i] + cfg.window as real + cfg.lockout as real < now
  }

  /** What a check leaves of another key's bucket: nothing if it is long idle and this is a hundredth call. */
  lemma PurgeExactly(cfg: Limits, s: Limiter, key: string, purgeNow: real, now: real, other: string)
    requires other != key
    ensures var t := Checked(cfg, s, key, purgeNow, now);
      && t.calls == s.calls + 1
      && (other in t.buckets <==>
            other in s.buckets && !((s.calls + 1) % 100 == 0 && LongIdle(cfg, s.buckets[other], purgeNow)))
      && (other in t.buckets ==> t.buckets[other] == s.buckets[other])
  {
  }

  /** `_cleanup` deletes exactly the long idle keys. */
  lemma CleanupExactly(cfg: Limits, buckets: map<string, seq<real>>, now: real, key: string)
    ensures key in Purged(cfg, buckets, now) <==> key in buckets && !LongIdle(cfg, buckets[key], now)
    ensures key in Purged(cfg, buckets, now) ==> Purged(cfg, buckets, now)[key] == buckets[key]
  {
  }

  /**
   With no attempt allowed, a key that is not purged is blocked, and makes the
   check raise if its attempts have all left the window. Otherwise it never raises.
   */
  lemma IndexErrorExactly(cfg: Limits, s: Limiter, key: string, purgeNow: real, now: real)
    ensures var v := CheckVerdict(cfg, s, key, purgeNow, now);
      var kept := key in s.buckets && !((s.calls + 1) % 100 == 0 && LongIdle(cfg, s.buckets[key], purgeNow));
      && (v == IndexError <==>
            cfg.maxAttempts <= 0 && kept
            && forall i :: 0 <= i < |s.buckets[key]| ==> s.buckets[key][i] + cfg.window as real < now)
      && (cfg.maxAttempts <= 0 && v != IndexError ==> v.blocked == kept)
      && (v.Verdict? && !v.blocked ==> v.retryAfter == 0)
  {
    if key in s.buckets {
      ExpireIsSuffix(s.buckets[key], now - cfg.window as real);
    }
  }

  // ----- The class -------------------------------------------------------

  class SlidingWindowRateLimiter {
    const cfg: Limits
    var buckets: map<string, seq<real>>
    var calls: nat

    constructor (cfg: Limits)
      ensures this.cfg == cfg && View() == Limiter(map[], 0)
    {
      this.cfg := cfg;
      buckets, calls := map[], 0;
    }

    function View(): Limiter
      reads this
    {
      Limiter(buckets, calls)
    }

    method IsLimited(key: string, purgeNow: real, now: real) returns (v: Verdict)
      modifies this
      ensures View() == Checked(cfg, old(View()), key, purgeNow, now)
      ensures v == CheckVerdict(cfg, old(View()), key, purgeNow, now)
    {
      calls := calls + 1;
      if calls % CLEANUP_INTERVAL == 0 {
        Cleanup(purgeNow);
      }
      if key !in buckets {
        return Verdict(false, 0);
      }
      var bucket := buckets[key];
      ghost var full := bucket;
      var cutoff := now - cfg.window as real;
      while bucket != [] && bucket[0] < cutoff
        invariant Expire(bucket, cutoff) == Expire(full, cutoff)
        decreases |bucket|
      {
        bucket := bucket[1..];
      }
      buckets := buckets[key := bucket];
      if |bucket| >= cfg.maxAttempts {
        if bucket == [] {
          return IndexError;
        }
        var retryAfter := Trunc(bucket[0] + cfg.lockout as real - now) + 1;
        return Verdict(true, if retryAfter < 1 then 1 else retryAfter);
      }
      v := Verdict(false, 0);
    }

    method Record(key: string, now: real)
      modifies this
      ensures View() == Recorded(old(View()), key, now)
    {
      if key !in buckets {
        buckets := buckets[key := []];
      }
      buckets := buckets[key := buckets[key] + [now]];
    }

    method Reset(key: string)
      modifies this
      ensures View() == WithoutKey(old(View()), key)
    {
      buckets := map k | k in buckets && k != key :: buckets[k];
    }

    /** Collects the stale keys, then deletes them one by one. */
    method Cleanup(now: real)
      modifies this`buckets
      ensures View() == old(View()).(buckets := Purged(cfg, old(buckets), now))
    {
      ghost var before := buckets;
      var stale := set k | k in buckets && Stale(cfg, buckets[k], now);
      while stale != {}
        invariant forall k :: k in stale ==> k in before && Stale(cfg, before[k], now)
        invariant buckets == map k | k in before && (!Stale(cfg, before[k], now) || k in stale) :: before[k]
        decreases |stale|
      {
        var key :| key in stale;
        buckets := map k | k in buckets && k != key :: buckets[k];
        stale := stale - {key};
      }
    }
  }

  // ----- Runs and their history ------------------------------------------

  datatype Event =
    | Check(key: string, purgeNow: real, now: real)
    | Record(key: string, now: real)
    | Reset(key: string)
    | Cleanup(now: real)

  function Step(cfg: Limits, s: Limiter, e: Event): Limiter
  {
    match e
    case Check(key, purgeNow, now) => Checked(cfg, s, key, purgeNow, now)
    case Record(key, now) => Recorded(s, key, now)
    case Reset(key) => WithoutKey(s, key)
    case Cleanup(now) => s.(buckets := Purged(cfg, s.buckets, now))
  }

  function Run(cfg: Limits, es: seq<Event>): Limiter
  {
    if es == [] then Limiter(map[], 0)
    else Step(cfg, Run(cfg, es[..|es| - 1]), es[|es| - 1])
  }

  /** Clock after an event that found the clock at `t`. */
  function Later(t: real, e: Event): real
  {
    match e
    case Check(_, _, now) => now
    case Record(_, now) => now
    case Reset(_) => t
    case Cleanup(now) => now
  }

  function Clock(es: seq<Event>): real
  {
    if es == [] then 0.0 else Later(Clock(es[..|es| - 1]), es[|es| - 1])
  }

  predicate InOrder(t: real, e: Event)
  {
    match e
    case Check(_, purgeNow, now) => t <= purgeNow <= now
    case Record(_, now) => t <= now
    case Reset(_) => true
    case Cleanup(now) => t <= now
  }

  /** Clock readings never decrease. */
  predicate Timed(es: seq<Event>)
  {
    es == [] || (Timed(es[..|es| - 1]) && InOrder(Clock(es[..|es| - 1]), es[|es| - 1]))
  }

  /** Attempts on `key` since its last reset, after one more event. */
  function Noted(attempts: seq<real>, key: string, e: Event): seq<real>
  {
    match e
    case Record(k, now) => if k == key then attempts + [now] else attempts
    case Reset(k) => if k == key then [] else attempts
    case _ => attempts
  }

  /** Times of all attempts on a key since its last reset. */
  function Attempts(es: seq<Event>, key: string): seq<real>
  {
    if es == [] then [] else Noted(Attempts(es[..|es| - 1], key), key, es[|es| - 1])
  }

  function NotBefore(cutoff: real): real -> bool
  {
    (t: real) => t >= cutoff
  }

  /** The whole-history meaning: the attempts inside the window that ends now. */
  function InWindow(cfg: Limits, es: seq<Event>, key: string, now: real): seq<real>
  {
    Filter(Attempts(es, key), NotBefore(now - cfg.window as real))
  }

  // ----- Refinement ------------------------------------------------------

  predicate Ascending(s: seq<real>)
  {
    forall i, j :: 0 <= i < j < |s| ==> s[i] <= s[j]
  }

  /** The bucket is the history without some attempts that have left the window for good. */
  predicate Tracks(cfg: Limits, attempts: seq<real>, bucket: seq<real>, clock: real)
  {
    && |bucket| <= |attempts|
    && (forall i :: 0 <= i < |attempts| - |bucket| ==> attempts[i] < clock - cfg.window as real)
    && (forall i :: 0 <= i < |bucket| ==> bucket[i] == attempts[|attempts| - |bucket| + i])
    && Ascending(attempts)
    && (forall i :: 0 <= i < |attempts| ==> attempts[i] <= clock)
  }

  /** Purging never removes an attempt that can still count. */
  predicate PurgeSafe(cfg: Limits)
  {
    0 <= cfg.lockout || cfg.window < 0
  }

  lemma TracksLater(cfg: Limits, attempts: seq<real>, bucket: seq<real>, clock: real, now: real)
    requires clock <= now && Tracks(cfg, attempts, bucket, clock)
    ensures Tracks(cfg, attempts, bucket, now)
  {
  }

  lemma StaleTracksNothing(cfg: Limits, attempts: seq<real>, bucket: seq<real>, clock: real, now: real)
    requires PurgeSafe(cfg) && clock <= now && Stale(cfg, bucket, now)
    requires Tracks(cfg, attempts, bucket, clock)
    ensures Tracks(cfg, attempts, [], now)
  {
    if bucket != [] {
      assert bucket[|bucket| - 1] == attempts[|attempts| - 1];
    }
  }

  lemma PurgedBucket(cfg: Limits, s: Limiter, key: string, now: real)
    ensures BucketOf(s.(buckets := Purged(cfg, s.buckets, now)), key)
         == if key in s.buckets && Stale(cfg, s.buckets[key], now) then [] else BucketOf(s, key)
  {
  }

  lemma PurgeKeepsTracks(cfg: Limits, s: Limiter, key: string, attempts: seq<real>, clock: real, now: real)
    requires PurgeSafe(cfg) && clock <= now
    requires Tracks(cfg, attempts, BucketOf(s, key), clock)
    ensures Tracks(cfg, attempts, BucketOf(s.(buckets := Purged(cfg, s.buckets, now)), key), now)
  {
    PurgedBucket(cfg, s, key, now);
    if key in s.buckets && Stale(cfg, s.buckets[key], now) {
      StaleTracksNothing(cfg, attempts, s.buckets[key], clock, now);
    } else {
      TracksLater(cfg, attempts, BucketOf(s, key), clock, now);
    }
  }

  lemma {:induction false} ExpireIsSuffix(bucket: seq<real>, cutoff: real)
    ensures var rest := Expire(bucket, cutoff);
      && |rest| <= |bucket| && rest == bucket[|bucket| - |rest|..]
      && (forall i :: 0 <= i < |bucket| - |rest| ==> bucket[i] < cutoff)
      && (rest != [] ==> rest[0] >= cutoff)
  {
    if bucket != [] && bucket[0] < cutoff {
      ExpireIsSuffix(bucket[1..], cutoff);
      var rest := Expire(bucket, cutoff);
      assert bucket[1..][|bucket| - 1 - |rest|..] == bucket[|bucket| - |rest|..];
      forall i | 0 <= i < |bucket| - |rest|
        ensures bucket[i] < cutoff
      {
        assert i > 0 ==> bucket[i] == bucket[1..][i - 1];
      }
    }
  }

  lemma ExpireKeepsTracks(cfg: Limits, attempts: seq<real>, bucket: seq<real>, clock: real, now: real)
    requires clock <= now && Tracks(cfg, attempts, bucket, clock)
    ensures Tracks(cfg, attempts, Expire(bucket, now - cfg.window as real), now)
  {
    var cutoff := now - cfg.window as real;
    ExpireIsSuffix(bucket, cutoff);
    var rest := Expire(bucket, cutoff);
    forall i | 0 <= i < |attempts| - |rest|
      ensures attempts[i] < cutoff
    {
      var d := |attempts| - |bucket|;
      if i >= d {
        assert attempts[i] == bucket[i - d];
      }
    }
  }

  lemma CountedBucket(cfg: Limits, s: Limiter, key: string, now: real)
    ensures BucketOf(Counted(cfg, s, now), key) == BucketOf(s, key)
         || BucketOf(Counted(cfg, s, now), key) == BucketOf(s.(buckets := Purged(cfg, s.buckets, now)), key)
  {
  }

  lemma CountingKeepsTracks(cfg: Limits, s: Limiter, key: string, attempts: seq<real>, clock: real, now: real)
    requires PurgeSafe(cfg) && clock <= now
    requires Tracks(cfg, attempts, BucketOf(s, key), clock)
    ensures Tracks(cfg, attempts, BucketOf(Counted(cfg, s, now), key), now)
  {
    CountedBucket(cfg, s, key, now);
    PurgeKeepsTracks(cfg, s, key, attempts, clock, now);
    TracksLater(cfg, attempts, BucketOf(s, key), clock, now);
  }

  lemma CheckedBucket(cfg: Limits, s: Limiter, k: string, purgeNow: real, now: real, key: string)
    ensures var bucket := BucketOf(Counted(cfg, s, purgeNow), key);
      BucketOf(Checked(cfg, s, k, purgeNow, now), key)
      == if k == key then Expire(bucket, now - cfg.window as real) else bucket
  {
  }

  lemma CheckTracks(cfg: Limits, s: Limiter, key: string, attempts: seq<real>, clock: real, e: Event)
    requires e.Check? && PurgeSafe(cfg) && InOrder(clock, e)
    requires Tracks(cfg, attempts, BucketOf(s, key), clock)
    ensures Tracks(cfg, attempts, BucketOf(Step(cfg, s, e), key), e.now)
  {
    var bucket := BucketOf(Counted(cfg, s, e.purgeNow), key);
    CountingKeepsTracks(cfg, s, key, attempts, clock, e.purgeNow);
    CheckedBucket(cfg, s, e.key, e.purgeNow, e.now, key);
    if e.key == key {
      ExpireKeepsTracks(cfg, attempts, bucket, e.purgeNow, e.now);
    } else {
      TracksLater(cfg, attempts, bucket, e.purgeNow, e.now);
    }
  }

  lemma RecordTracks(cfg: Limits, attempts: seq<real>, bucket: seq<real>, clock: real, now: real)
    requires clock <= now && Tracks(cfg, attempts, bucket, clock)
    ensures Tracks(cfg, attempts + [now], bucket + [now], now)
  {
  }

  lemma StepTracks(cfg: Limits, s: Limiter, key: string, attempts: seq<real>, clock: real, e: Event)
    requires PurgeSafe(cfg) && InOrder(clock, e)
    requires Tracks(cfg, attempts, BucketOf(s, key), clock)
    ensures Tracks(cfg, Noted(attempts, key, e), BucketOf(Step(cfg, s, e), key), Later(clock, e))
  {
    match e
    case Check(_, _, _) => CheckTracks(cfg, s, key, attempts, clock, e);
    case Record(k, now) =>
      if k == key {
        RecordTracks(cfg, attempts, BucketOf(s, key), clock, now);
      }
    case Reset(_) =>
    case Cleanup(now) => PurgeKeepsTracks(cfg, s, key, attempts, clock, now);
  }

  lemma {:induction false} RunTracks(cfg: Limits, es: seq<Event>, key: string)
    requires PurgeSafe(cfg) && Timed(es)
    ensures Tracks(cfg, Attempts(es, key), BucketOf(Run(cfg, es), key), Clock(es))
  {
    if es != [] {
      var before := es[..|es| - 1];
      RunTracks(cfg, before, key);
      StepTracks(cfg, Run(cfg, before), key, Attempts(before, key), Clock(before), es[|es| - 1]);
    }
  }

  /** After the lazy expiry the bucket is exactly the window. */
  lemma ExpiredIsWindow(cfg: Limits, attempts: seq<real>, bucket: seq<real>, clock: real, now: real)
    requires clock <= now && Tracks(cfg, attempts, bucket, clock)
    ensures Expire(bucket, now - cfg.window as real) == Filter(attempts, NotBefore(now - cfg.window as real))
  {
    var cutoff := now - cfg.window as real;
    var rest := Expire(bucket, cutoff);
    ExpireKeepsTracks(cfg, attempts, bucket, clock, now);
    ExpireIsSuffix(bucket, cutoff);
    var d := |attempts| - |rest|;
    assert rest == attempts[d..];
    assert forall i :: d <= i < |attempts| ==> attempts[i] >= rest[0] >= cutoff;
    FilterTail(attempts, 0, d, NotBefore(cutoff));
  }

  /** The verdict of counting the whole history in the window. */
  function SpecVerdict(cfg: Limits, es: seq<Event>, key: string, now: real): Verdict
  {
    var w := InWindow(cfg, es, key, now);
    if |w| < cfg.maxAttempts || w == [] then Verdict(false, 0) else Verdict(true, RetryAfter(cfg, w[0], now))
  }

  /** A configuration whose limiter always agrees with counting the whole history. */
  ghost predicate Agrees(cfg: Limits)
  {
    forall es: seq<Event>, key: string, purgeNow: real, now: real
      | Timed(es) && InOrder(Clock(es), Check(key, purgeNow, now))
      :: BlockedAgrees(cfg, es, key, purgeNow, now)
  }

  /** Blocked exactly when the attempts in the window number at least the maximum. */
  predicate BlockedAgrees(cfg: Limits, es: seq<Event>, key: string, purgeNow: real, now: real)
  {
    var v := CheckVerdict(cfg, Run(cfg, es), key, purgeNow, now);
    v.Verdict? && (v.blocked <==> |InWindow(cfg, es, key, now)| >= cfg.maxAttempts)
  }

  /**
   Lazy popping and purging are never observable: after any run, the verdict and
   the waiting time are those of counting the whole history.
   */
  lemma VerdictMatchesHistory(cfg: Limits, es: seq<Event>, key: string, purgeNow: real, now: real)
    requires 1 <= cfg.maxAttempts && PurgeSafe(cfg)
    requires Timed(es) && InOrder(Clock(es), Check(key, purgeNow, now))
    ensures CheckVerdict(cfg, Run(cfg, es), key, purgeNow, now) == SpecVerdict(cfg, es, key, now)
  {
    var s, attempts := Run(cfg, es), Attempts(es, key);
    RunTracks(cfg, es, key);
    CountingKeepsTracks(cfg, s, key, attempts, Clock(es), purgeNow);
    ExpiredIsWindow(cfg, attempts, BucketOf(Counted(cfg, s, purgeNow), key), purgeNow, now);
    VerdictOfWindow(cfg, s, key, purgeNow, now, InWindow(cfg, es, key, now));
  }

  lemma VerdictOfWindow(cfg: Limits, s: Limiter, key: string, purgeNow: real, now: real, w: seq<real>)
    requires 1 <= cfg.maxAttempts
    requires Expire(BucketOf(Counted(cfg, s, purgeNow), key), now - cfg.window as real) == w
    ensures CheckVerdict(cfg, s, key, purgeNow, now)
         == if |w| < cfg.maxAttempts then Verdict(false, 0) else Verdict(true, RetryAfter(cfg, w[0], now))
  {
  }

  lemma RunSnoc(cfg: Limits, es: seq<Event>, e: Event)
    ensures Run(cfg, es + [e]) == Step(cfg, Run(cfg, es), e)
    ensures Timed(es + [e]) <==> Timed(es) && InOrder(Clock(es), e)
    ensures Clock(es + [e]) == Later(Clock(es), e)
    ensures forall key :: Attempts(es + [e], key) == Noted(Attempts(es, key), key, e)
  {
  }

  function Repeated(e: Event, n: nat): seq<Event>
  {
    if n == 0 then [] else Repeated(e, n - 1) + [e]
  }

  lemma {:induction false} RepeatedAttempts(cfg: Limits, key: string, n: nat)
    ensures var es := Repeated(Record(key, 0.0), n);
      && Timed(es) && Clock(es) == 0.0
      && |Attempts(es, key)| == n && (forall i :: 0 <= i < n ==> Attempts(es, key)[i] == 0.0)
      && BucketOf(Run(cfg, es), key) == Attempts(es, key)
  {
    if n > 0 {
      RepeatedAttempts(cfg, key, n - 1);
      RunSnoc(cfg, Repeated(Record(key, 0.0), n - 1), Record(key, 0.0));
    }
  }

  /** The maximum number of attempts at time zero, then a purge at the end of the window. */
  lemma EarlyPurge(cfg: Limits, now: real) returns (es: seq<Event>)
    requires 1 <= cfg.maxAttempts && cfg.lockout < 0 <= cfg.window && now == cfg.window as real
    ensures Timed(es) && Clock(es) == now
    ensures "k" !in Run(cfg, es).buckets
    ensures |Attempts(es, "k")| == cfg.maxAttempts
    ensures forall i :: 0 <= i < |Attempts(es, "k")| ==> Attempts(es, "k")[i] == 0.0
  {
    var recorded := Repeated(Record("k", 0.0), cfg.maxAttempts);
    RepeatedAttempts(cfg, "k", cfg.maxAttempts);
    es := recorded + [Cleanup(now)];
    RunSnoc(cfg, recorded, Cleanup(now));
    PurgedTooEarly(cfg, Run(cfg, recorded), "k", now);
  }

  /** A negative lockout purges attempts that are still inside the window. */
  lemma NegativeLockoutDisagrees(cfg: Limits)
    requires 1 <= cfg.maxAttempts && cfg.lockout < 0 <= cfg.window
    ensures !Agrees(cfg)
  {
    var now := cfg.window as real;
    var es := EarlyPurge(cfg, now);
    FilterAll(Attempts(es, "k"), NotBefore(0.0));
    UnknownKeyPasses(cfg, Run(cfg, es), "k", now);
    assert InWindow(cfg, es, "k", now) == Attempts(es, "k");
    assert InOrder(Clock(es), Check("k", now, now));
    assert !BlockedAgrees(cfg, es, "k", now, now);
  }

  lemma PurgedTooEarly(cfg: Limits, s: Limiter, key: string, now: real)
    requires cfg.lockout < 0 <= cfg.window && now == cfg.window as real
    requires BucketOf(s, key) != [] && BucketOf(s, key)[|BucketOf(s, key)| - 1] == 0.0
    ensures key !in Purged(cfg, s.buckets, now)
  {
  }

  lemma UnknownKeyPasses(cfg: Limits, s: Limiter, key: string, now: real)
    requires key !in s.buckets
    ensures CheckVerdict(cfg, s, key, now, now) == Verdict(false, 0)
  {
  }

  /**
   Which configurations the limiter is right for: at least one attempt allowed,
   and a lockout that is not negative (irrelevant if the window is).
   */
  lemma RefinementExact(cfg: Limits)
    ensures Agrees(cfg) <==> 1 <= cfg.maxAttempts && PurgeSafe(cfg)
  {
    if 1 <= cfg.maxAttempts && PurgeSafe(cfg) {
      forall es: seq<Event>, key: string, purgeNow: real, now: real
        | Timed(es) && InOrder(Clock(es), Check(key, purgeNow, now))
        ensures BlockedAgrees(cfg, es, key, purgeNow, now)
      {
        VerdictMatchesHistory(cfg, es, key, purgeNow, now);
      }
    } else if cfg.maxAttempts < 1 {
      assert Timed([]) && InOrder(Clock([]), Check("k", 0.0, 0.0));
      assert !BlockedAgrees(cfg, [], "k", 0.0, 0.0);
    } else {
      NegativeLockoutDisagrees(cfg);
    }
  }
}
