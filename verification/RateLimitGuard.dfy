/**
 The check-then-record guard around the limiter
 (shoreguard/api/middleware.py): what it admits, and whether waiting helps.
 */
module RateLimitGuard {
  import opened Seqs
  import opened RateLimit

  /** A request: the clock at the purge, at the check, and at the record if admitted. */
  datatype Request = Request(key: string, purgeNow: real, now: real, recordNow: real)

  predicate Admitted(cfg: Limits, es: seq<Event>, r: Request)
  {
    CheckVerdict(cfg, Run(cfg, es), r.key, r.purgeNow, r.now) == Verdict(false, 0)
  }

  function Serve(cfg: Limits, es: seq<Event>, r: Request): seq<Event>
  {
    var checked := es + [Check(r.key, r.purgeNow, r.now)];
    if Admitted(cfg, es, r) then checked + [Record(r.key, r.recordNow)] else checked
  }

  /** The limiter events of a sequence of guarded requests. */
  function Trace(cfg: Limits, rs: seq<Request>): seq<Event>
  {
    if rs == [] then [] else Serve(cfg, Trace(cfg, rs[..|rs| - 1]), rs[|rs| - 1])
  }

  predicate OnTime(clock: real, r: Request)
  {
    clock <= r.purgeNow <= r.now <= r.recordNow
  }

  predicate Arriving(cfg: Limits, rs: seq<Request>)
  {
    rs == [] ||
    (Arriving(cfg, rs[..|rs| - 1]) && OnTime(Clock(Trace(cfg, rs[..|rs| - 1])), rs[|rs| - 1]))
  }

  /** Times at which requests of a key were admitted. */
  function AdmittedTimes(cfg: Limits, rs: seq<Request>, key: string): seq<real>
  {
    Attempts(Trace(cfg, rs), key)
  }

  function Granted(times: seq<real>, cfg: Limits, es: seq<Event>, r: Request, key: string): seq<real>
  {
    if Admitted(cfg, es, r) && r.key == key then times + [r.recordNow] else times
  }

  lemma ServeSnoc(cfg: Limits, es: seq<Event>, r: Request)
    requires Timed(es) && OnTime(Clock(es), r)
    ensures Timed(Serve(cfg, es, r))
    ensures forall key :: Attempts(Serve(cfg, es, r), key) == Granted(Attempts(es, key), cfg, es, r, key)
    ensures Clock(Serve(cfg, es, r)) == if Admitted(cfg, es, r) then r.recordNow else r.now
  {
    var checked := es + [Check(r.key, r.purgeNow, r.now)];
    RunSnoc(cfg, es, Check(r.key, r.purgeNow, r.now));
    if Admitted(cfg, es, r) {
      RunSnoc(cfg, checked, Record(r.key, r.recordNow));
    }
  }

  /** The guard admits exactly when the window has room. */
  lemma AdmittedIfRoom(cfg: Limits, es: seq<Event>, key: string, purgeNow: real, now: real)
    requires 1 <= cfg.maxAttempts && PurgeSafe(cfg)
    requires Timed(es) && Clock(es) <= purgeNow <= now
    ensures CheckVerdict(cfg, Run(cfg, es), key, purgeNow, now) == Verdict(false, 0)
       <==> |InWindow(cfg, es, key, now)| < cfg.maxAttempts
  {
    VerdictMatchesHistory(cfg, es, key, purgeNow, now);
  }

  /** A blocked check reports the waiting time of the oldest attempt in the window. */
  lemma BlockedReports(cfg: Limits, es: seq<Event>, key: string, purgeNow: real, now: real)
    requires 1 <= cfg.maxAttempts && PurgeSafe(cfg)
    requires Timed(es) && Clock(es) <= purgeNow <= now
    requires |InWindow(cfg, es, key, now)| >= cfg.maxAttempts
    ensures CheckVerdict(cfg, Run(cfg, es), key, purgeNow, now)
         == Verdict(true, RetryAfter(cfg, InWindow(cfg, es, key, now)[0], now))
  {
    VerdictMatchesHistory(cfg, es, key, purgeNow, now);
  }

  // ----- Admission bound -------------------------------------------------

  predicate Apart(times: seq<real>, i: nat, j: nat, window: real)
    requires i < j < |times|
  {
    times[j] - times[i] > window
  }

  /** Any time comes more than a window after those `n` or more places before it. */
  predicate Spaced(times: seq<real>, n: int, window: real)
  {
    forall i: nat, j: nat :: i < j < |times| && i + n <= j ==> Apart(times, i, j, window)
  }

  lemma CountsLateOnes(times: seq<real>, n: nat, cutoff: real)
    requires 1 <= n <= |times| && Ascending(times) && times[|times| - n] >= cutoff
    ensures |Filter(times, NotBefore(cutoff))| >= n
  {
    var d := |times| - n;
    assert times == times[..d] + times[d..];
    FilterConcat(times[..d], times[d..], NotBefore(cutoff));
    FilterAll(times[d..], NotBefore(cutoff));
  }

  lemma AdmittingKeepsSpaced(times: seq<real>, n: nat, window: real, now: real, recordNow: real)
    requires 1 <= n && Ascending(times) && Spaced(times, n, window)
    requires |Filter(times, NotBefore(now - window))| < n
    requires now <= recordNow
    ensures Spaced(times + [recordNow], n, window)
  {
    var more := times + [recordNow];
    forall i: nat, j: nat | i < j < |more| && i + n <= j
      ensures Apart(more, i, j, window)
    {
      if j < |times| {
        assert Apart(times, i, j, window);
      } else if times[|times| - n] >= now - window {
        CountsLateOnes(times, n, now - window);
      } else {
        assert times[i] <= times[|times| - n];
      }
    }
  }

  lemma {:induction false} AttemptsAscend(es: seq<Event>, key: string)
    requires Timed(es)
    ensures Ascending(Attempts(es, key))
    ensures forall i :: 0 <= i < |Attempts(es, key)| ==> Attempts(es, key)[i] <= Clock(es)
  {
    if es != [] {
      AttemptsAscend(es[..|es| - 1], key);
    }
  }

  ghost predicate Paced(cfg: Limits, es: seq<Event>, key: string)
  {
    Spaced(Attempts(es, key), cfg.maxAttempts, cfg.window as real)
  }

  lemma ServeKeepsPaced(cfg: Limits, es: seq<Event>, r: Request, key: string)
    requires 1 <= cfg.maxAttempts && PurgeSafe(cfg) && Timed(es) && OnTime(Clock(es), r)
    requires Paced(cfg, es, key)
    ensures Timed(Serve(cfg, es, r)) && Paced(cfg, Serve(cfg, es, r), key)
  {
    ServeSnoc(cfg, es, r);
    if Admitted(cfg, es, r) && r.key == key {
      AdmittedIfRoom(cfg, es, key, r.purgeNow, r.now);
      GrantKeepsSpaced(cfg, es, key, r.now, r.recordNow);
    }
  }

  lemma GrantKeepsSpaced(cfg: Limits, es: seq<Event>, key: string, now: real, recordNow: real)
    requires 1 <= cfg.maxAttempts && Timed(es) && now <= recordNow && Paced(cfg, es, key)
    requires |InWindow(cfg, es, key, now)| < cfg.maxAttempts
    ensures Spaced(Attempts(es, key) + [recordNow], cfg.maxAttempts, cfg.window as real)
  {
    AttemptsAscend(es, key);
    AdmittingKeepsSpaced(Attempts(es, key), cfg.maxAttempts, cfg.window as real, now, recordNow);
  }

  /** Under the guard any admission comes more than a window after the one `maxAttempts` places before it. */
  lemma {:induction false} AdmissionsSpaced(cfg: Limits, rs: seq<Request>, key: string)
    requires 1 <= cfg.maxAttempts && PurgeSafe(cfg) && Arriving(cfg, rs)
    ensures Timed(Trace(cfg, rs)) && Paced(cfg, Trace(cfg, rs), key)
  {
    if rs != [] {
      AdmissionsSpaced(cfg, rs[..|rs| - 1], key);
      ServeKeepsPaced(cfg, Trace(cfg, rs[..|rs| - 1]), rs[|rs| - 1], key);
    }
  }

  function Within(from: real, to: real): real -> bool
  {
    (t: real) => from <= t <= to
  }

  lemma SpacedFront(times: seq<real>, n: int, window: real)
    requires times != [] && Spaced(times, n, window)
    ensures Spaced(times[..|times| - 1], n, window)
  {
    var front := times[..|times| - 1];
    forall i: nat, j: nat | i < j < |front| && i + n <= j
      ensures Apart(front, i, j, window)
    {
      assert Apart(times, i, j, window);
    }
  }

  /** When the last time is in the interval, only the last `n` can be. */
  lemma LastInInterval(times: seq<real>, n: nat, window: real, from: real, to: real)
    requires 1 <= n < |times| && Spaced(times, n, window) && to - from <= window
    requires from <= times[|times| - 1] <= to
    ensures |Filter(times, Within(from, to))| <= n
  {
    var m := |times| - 1;
    var d := m - n + 1;
    assert times == times[..d] + times[d..];
    FilterConcat(times[..d], times[d..], Within(from, to));
    forall i | 0 <= i < d
      ensures times[i] < from
    {
      assert Apart(times, i, m, window);
    }
    FilterNone(times[..d], Within(from, to));
  }

  /** With any `n + 1` times more than a window apart, no interval of window length holds more than `n`. */
  lemma {:induction false} IntervalCount(times: seq<real>, n: nat, window: real, from: real, to: real)
    requires 1 <= n && Spaced(times, n, window) && to - from <= window
    ensures |Filter(times, Within(from, to))| <= n
  {
    if |times| > n {
      if from <= times[|times| - 1] <= to {
        LastInInterval(times, n, window, from, to);
      } else {
        SpacedFront(times, n, window);
        IntervalCount(times[..|times| - 1], n, window, from, to);
      }
    }
  }

  /** Every closed interval as long as the window holds at most the maximum of admissions. */
  lemma AdmissionBound(cfg: Limits, rs: seq<Request>, key: string, from: real)
    requires 1 <= cfg.maxAttempts && PurgeSafe(cfg) && Arriving(cfg, rs)
    ensures |Filter(AdmittedTimes(cfg, rs, key), Within(from, from + cfg.window as real))| <= cfg.maxAttempts
  {
    AdmissionsSpaced(cfg, rs, key);
    PacedBound(cfg, Trace(cfg, rs), key, from);
  }

  lemma PacedBound(cfg: Limits, es: seq<Event>, key: string, from: real)
    requires 1 <= cfg.maxAttempts && Paced(cfg, es, key)
    ensures |Filter(Attempts(es, key), Within(from, from + cfg.window as real))| <= cfg.maxAttempts
  {
    IntervalCount(Attempts(es, key), cfg.maxAttempts, cfg.window as real, from, from + cfg.window as real);
  }

  // ----- Waiting ---------------------------------------------------------

  /** Spacing leaves at most the maximum in any window, so a blocked key holds exactly the maximum. */
  lemma WindowHoldsAtMost(times: seq<real>, n: nat, window: real, now: real)
    requires 1 <= n && Spaced(times, n, window)
    requires forall i :: 0 <= i < |times| ==> times[i] <= now
    ensures |Filter(times, NotBefore(now - window))| <= n
  {
    FilterAgree(times, NotBefore(now - window), Within(now - window, now));
    IntervalCount(times, n, window, now - window, now);
  }

  /** `retry_after` whole seconds from `now` lie after the oldest attempt plus the lockout. */
  lemma RetryReaches(cfg: Limits, oldest: real, now: real)
    ensures 1 <= RetryAfter(cfg, oldest, now)
    ensures now + RetryAfter(cfg, oldest, now) as real > oldest + cfg.lockout as real
  {
  }

  /** Whether a key that is blocked at `now` is admitted after waiting the returned time. */
  predicate WaitUnblocks(cfg: Limits, es: seq<Event>, key: string, purgeNow: real, now: real, later: real)
  {
    var v := CheckVerdict(cfg, Run(cfg, es), key, purgeNow, now);
    v.Verdict? && v.blocked && now + v.retryAfter as real <= later ==>
      CheckVerdict(cfg, Run(cfg, es + [Check(key, purgeNow, now)]), key, later, later) == Verdict(false, 0)
  }

  ghost predicate WaitingWorks(cfg: Limits)
  {
    forall rs: seq<Request>, key: string, purgeNow: real, now: real, later: real
      | Arriving(cfg, rs) && Clock(Trace(cfg, rs)) <= purgeNow <= now
      :: WaitUnblocks(cfg, Trace(cfg, rs), key, purgeNow, now, later)
  }

  lemma ShrinkingWindow(times: seq<real>, cutoff: real, cutoff': real)
    requires Ascending(times) && cutoff <= cutoff'
    requires Filter(times, NotBefore(cutoff)) != [] && Filter(times, NotBefore(cutoff))[0] < cutoff'
    ensures |Filter(times, NotBefore(cutoff'))| < |Filter(times, NotBefore(cutoff))|
  {
    var w := Filter(times, NotBefore(cutoff));
    FilterTwice(times, NotBefore(cutoff), NotBefore(cutoff'), NotBefore(cutoff'));
    assert w == [w[0]] + w[1..];
    FilterConcat([w[0]], w[1..], NotBefore(cutoff'));
    assert [w[0]][..0] == [];
  }

  /** Once the oldest of at most `n` attempts has left the window there is room again. */
  lemma RoomAfterWait(cfg: Limits, es: seq<Event>, key: string, now: real, later: real)
    requires Ascending(Attempts(es, key))
    requires InWindow(cfg, es, key, now) != [] && |InWindow(cfg, es, key, now)| <= cfg.maxAttempts
    requires now <= later && InWindow(cfg, es, key, now)[0] < later - cfg.window as real
    ensures |InWindow(cfg, es, key, later)| < cfg.maxAttempts
  {
    ShrinkingWindow(Attempts(es, key), now - cfg.window as real, later - cfg.window as real);
  }

  lemma WindowOfPaced(cfg: Limits, es: seq<Event>, key: string, now: real)
    requires PurgeSafe(cfg) && 1 <= cfg.maxAttempts
    requires Timed(es) && Clock(es) <= now && Paced(cfg, es, key)
    ensures |InWindow(cfg, es, key, now)| <= cfg.maxAttempts
  {
    AttemptsAscend(es, key);
    WindowHoldsAtMost(Attempts(es, key), cfg.maxAttempts, cfg.window as real, now);
  }

  lemma PacedWaitUnblocks(cfg: Limits, es: seq<Event>, key: string, purgeNow: real, now: real, later: real)
    requires 1 <= cfg.maxAttempts && PurgeSafe(cfg) && cfg.window <= cfg.lockout
    requires Timed(es) && Clock(es) <= purgeNow <= now && Paced(cfg, es, key)
    ensures WaitUnblocks(cfg, es, key, purgeNow, now, later)
  {
    WindowOfPaced(cfg, es, key, now);
    AttemptsAscend(es, key);
    AdmittedIfRoom(cfg, es, key, purgeNow, now);
    var seen := InWindow(cfg, es, key, now);
    if |seen| >= cfg.maxAttempts {
      BlockedReports(cfg, es, key, purgeNow, now);
      RetryReaches(cfg, seen[0], now);
      if now + RetryAfter(cfg, seen[0], now) as real <= later {
        RoomAfterWait(cfg, es, key, now, later);
        RunSnoc(cfg, es, Check(key, purgeNow, now));
        AdmittedIfRoom(cfg, es + [Check(key, purgeNow, now)], key, later, later);
      }
    }
  }

  function Burst(n: nat): seq<Request>
  {
    if n == 0 then [] else Burst(n - 1) + [Request("k", 0.0, 0.0, 0.0)]
  }

  predicate AllZero(times: seq<real>)
  {
    forall i :: 0 <= i < |times| ==> times[i] == 0.0
  }

  /** A history of `n` attempts at time zero. */
  predicate AtZero(es: seq<Event>, n: nat)
  {
    Timed(es) && Clock(es) == 0.0 && |Attempts(es, "k")| == n && AllZero(Attempts(es, "k"))
  }

  lemma ServeAtZero(cfg: Limits, es: seq<Event>, n: nat)
    requires n < cfg.maxAttempts && 0 <= cfg.lockout && AtZero(es, n)
    ensures AtZero(Serve(cfg, es, Request("k", 0.0, 0.0, 0.0)), n + 1)
  {
    AdmittedIfRoom(cfg, es, "k", 0.0, 0.0);
    ServeSnoc(cfg, es, Request("k", 0.0, 0.0, 0.0));
  }

  lemma TraceSnoc(cfg: Limits, rs: seq<Request>, r: Request)
    ensures Trace(cfg, rs + [r]) == Serve(cfg, Trace(cfg, rs), r)
    ensures Arriving(cfg, rs + [r]) <==> Arriving(cfg, rs) && OnTime(Clock(Trace(cfg, rs)), r)
  {
    assert (rs + [r])[..|rs|] == rs;
  }

  /** Requests at time zero that have all been admitted. */
  predicate FullBurst(cfg: Limits, rs: seq<Request>, n: nat)
  {
    Arriving(cfg, rs) && AtZero(Trace(cfg, rs), n)
  }

  lemma NoBurst(cfg: Limits)
    ensures FullBurst(cfg, [], 0)
  {
  }

  lemma BurstNext(cfg: Limits, rs: seq<Request>, n: nat)
    requires n < cfg.maxAttempts && 0 <= cfg.lockout && FullBurst(cfg, rs, n)
    ensures FullBurst(cfg, rs + [Request("k", 0.0, 0.0, 0.0)], n + 1)
  {
    var r := Request("k", 0.0, 0.0, 0.0);
    ServeAtZero(cfg, Trace(cfg, rs), n);
    TraceSnoc(cfg, rs, r);
  }

  /** The maximum of requests at time zero are all admitted. */
  lemma {:induction false} BurstAdmitted(cfg: Limits, n: nat)
    requires 1 <= cfg.maxAttempts && 0 <= cfg.lockout && n <= cfg.maxAttempts
    ensures FullBurst(cfg, Burst(n), n)
  {
    if n == 0 {
      NoBurst(cfg);
    } else {
      BurstAdmitted(cfg, n - 1);
      BurstNext(cfg, Burst(n - 1), n - 1);
    }
  }

  lemma AllZeroInWindow(cfg: Limits, es: seq<Event>, now: real)
    requires AllZero(Attempts(es, "k")) && now <= cfg.window as real
    ensures InWindow(cfg, es, "k", now) == Attempts(es, "k")
  {
  }

  lemma StillBlocked(cfg: Limits, es: seq<Event>)
    requires 1 <= cfg.maxAttempts && 0 <= cfg.lockout < cfg.window
    requires AtZero(es, cfg.maxAttempts)
    ensures !WaitUnblocks(cfg, es, "k", 0.0, 0.0, (cfg.lockout + 1) as real)
  {
    var later := (cfg.lockout + 1) as real;
    AllZeroInWindow(cfg, es, 0.0);
    BlockedReports(cfg, es, "k", 0.0, 0.0);
    BurstRetry(cfg);
    RunSnoc(cfg, es, Check("k", 0.0, 0.0));
    var es' := es + [Check("k", 0.0, 0.0)];
    AllZeroInWindow(cfg, es', later);
    AdmittedIfRoom(cfg, es', "k", later, later);
  }

  /** With a lockout shorter than the window, a burst is still blocked after the returned wait. */
  lemma ShortLockoutMisleads(cfg: Limits)
    requires 1 <= cfg.maxAttempts && 0 <= cfg.lockout < cfg.window
    ensures !WaitingWorks(cfg)
  {
    var rs := Burst(cfg.maxAttempts);
    BurstAdmitted(cfg, cfg.maxAttempts);
    StillBlocked(cfg, Trace(cfg, rs));
  }

  lemma BurstRetry(cfg: Limits)
    requires 0 <= cfg.lockout
    ensures RetryAfter(cfg, 0.0, 0.0) == cfg.lockout + 1
  {
  }

  /**
   Under the guard, waiting the returned number of seconds always unblocks the
   key exactly if the lockout is at least as long as the window.
   */
  lemma WaitingExact(cfg: Limits)
    requires 1 <= cfg.maxAttempts && 0 <= cfg.lockout
    ensures WaitingWorks(cfg) <==> cfg.window <= cfg.lockout
  {
    if cfg.window <= cfg.lockout {
      forall rs: seq<Request>, key: string, purgeNow: real, now: real, later: real
        | Arriving(cfg, rs) && Clock(Trace(cfg, rs)) <= purgeNow <= now
        ensures WaitUnblocks(cfg, Trace(cfg, rs), key, purgeNow, now, later)
      {
        AdmissionsSpaced(cfg, rs, key);
        PacedWaitUnblocks(cfg, Trace(cfg, rs), key, purgeNow, now, later);
      }
    } else {
      ShortLockoutMisleads(cfg);
    }
  }
}
