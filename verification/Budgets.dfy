/**
 Sandbox budgets (`set_budget`, `_evaluate_budgets` and `_detach_sandbox` in
 shoreguard/services/budgets.py). Days are day numbers; what the clock, the
 usage table and the gateway say during a pass is given.
 */
module Budgets {
  import opened Metering
  import opened Seqs
  import opened Wrappers

  datatype Target = Target(gateway: string, sandbox: string)

  datatype Window = Daily | Weekly | Monthly | Total

  datatype Action = Notify | Detach

  /** A window key: the first day of the window, or "total". */
  datatype Key = FromDay(day: int) | TotalKey

  datatype Budget = Budget(
    target: Target,
    limitRequests: int,
    limitUsd: Option<real>,
    window: Window,
    action: Action,
    notified: Option<Key>)

  datatype SetError = InvalidWindow | InvalidAction | RequestsTooLow | DollarsTooLow

  /** A value of a provider record: absent, a string, or anything else. */
  datatype Field = Missing | Text(text: string) | Other(truthy: bool)

  datatype Provider = Provider(name: Field, providerName: Field)

  datatype Entry = Entry(target: Target, providers: seq<string>, engagedBy: string)

  /**
   What the evaluation of one budget finds: the usage rows of its sandbox, the
   day at each of its two clock readings, the attached providers, unless the
   gateway is unavailable, and the names whose detach raises.
   */
  datatype Reading = Reading(
    usage: seq<UsageRow>,
    usageDay: int,
    keyDay: int,
    providers: Option<seq<Provider>>,
    refused: set<string>)

  // ----- Windows and ceilings --------------------------------------------

  function WindowDays(w: Window): Option<int>
  {
    match w
    case Daily => Some(1)
    case Weekly => Some(7)
    case Monthly => Some(30)
    case Total => None
  }

  /** `_window_start`. */
  function WindowStart(w: Window, day: int): Option<int>
  {
    match WindowDays(w)
    case None => None
    case Some(days) => Some(day - (days - 1))
  }

  function KeyOf(w: Window, day: int): Key
  {
    match WindowStart(w, day)
    case None => TotalKey
    case Some(start) => FromDay(start)
  }

  /** Whether usage has reached the ceiling; a dollar ceiling wins. */
  predicate Trips(cost: nat -> real, b: Budget, r: Reading)
  {
    var used := WindowUsage(r.usage, WindowStart(b.window, r.usageDay));
    if b.limitUsd.Some? then cost(used) >= b.limitUsd.value else used >= b.limitRequests
  }

  predicate Acts(cost: nat -> real, b: Budget, r: Reading)
  {
    Trips(cost, b, r) && b.notified != Some(KeyOf(b.window, r.keyDay))
  }

  function Evaluated(cost: nat -> real, b: Budget, r: Reading): Budget
  {
    if Acts(cost, b, r) then b.(notified := Some(KeyOf(b.window, r.keyDay))) else b
  }

  /** The usage has reached the ceiling; a dollar ceiling wins. */
  predicate Reached(cost: nat -> real, b: Budget, used: nat)
  {
    match b.limitUsd
    case Some(limit) => limit <= cost(used)
    case None => b.limitRequests <= used
  }

  /**
   When a budget trips: the requests of the last 1, 7 or 30 days, today
   included, or all requests ever, have reached its ceiling.
   */
  lemma TripsExactly(cost: nat -> real, b: Budget, r: Reading)
    ensures Trips(cost, b, r) <==>
      match b.window
      case Daily => Reached(cost, b, Requests(Filter(r.usage, OnOrAfter(r.usageDay))))
      case Weekly => Reached(cost, b, Requests(Filter(r.usage, OnOrAfter(r.usageDay - 6))))
      case Monthly => Reached(cost, b, Requests(Filter(r.usage, OnOrAfter(r.usageDay - 29))))
      case Total => Reached(cost, b, Requests(r.usage))
  {
    WindowUsageSums(r.usage, r.usageDay);
    WindowUsageSums(r.usage, r.usageDay - 6);
    WindowUsageSums(r.usage, r.usageDay - 29);
  }

  /** The same in terms of the log lines that metering has counted. */
  lemma TripsOnCountedLines(cost: nat -> real, b: Budget, r: Reading, sources: seq<string>, polls: seq<Poll>)
    requires r.usage == Metering.Run(sources, Meter(None, []), polls).usage
    ensures var counts := Counted(sources, Meter(None, []), polls);
      Trips(cost, b, r) <==>
      match b.window
      case Daily => Reached(cost, b, |Filter(counts, BookedFrom(r.usageDay))|)
      case Weekly => Reached(cost, b, |Filter(counts, BookedFrom(r.usageDay - 6))|)
      case Monthly => Reached(cost, b, |Filter(counts, BookedFrom(r.usageDay - 29))|)
      case Total => Reached(cost, b, |counts|)
  {
    TripsExactly(cost, b, r);
    UsageCountsLines(sources, polls, r.usageDay);
    UsageCountsLines(sources, polls, r.usageDay - 6);
    UsageCountsLines(sources, polls, r.usageDay - 29);
  }

  /** The key is the first day of the window and so changes every day; a total budget has one key for good. */
  lemma KeyExactly(w: Window, day: int)
    ensures KeyOf(w, day) == if w.Total? then TotalKey else FromDay(FirstDay(w, day))
  {
  }

  /** The first of the last 1, 7 or 30 days. */
  function FirstDay(w: Window, day: int): int
  {
    if w.Weekly? then day - 6 else if w.Monthly? then day - 29 else day
  }

  // ----- Detaching -------------------------------------------------------

  predicate Truthy(f: Field)
  {
    match f
    case Missing => false
    case Text(text) => text != ""
    case Other(truthy) => truthy
  }

  /** `p.get("name") or p.get("provider_name")`. */
  function NameField(p: Provider): Field
  {
    if Truthy(p.name) then p.name else p.providerName
  }

  predicate Named(p: Provider)
  {
    NameField(p).Text? && NameField(p).text != ""
  }

  function NameOf(p: Provider): string
  {
    if NameField(p).Text? then NameField(p).text else ""
  }

  /** The name under which a provider is detached: the first of the two fields that is truthy, if it is text. */
  predicate GoesBy(p: Provider, name: string)
  {
    && name != ""
    && (p.name == Text(name)
        || (p.providerName == Text(name) && (p.name == Missing || p.name == Text("") || p.name == Other(false))))
  }

  lemma NamedExactly(p: Provider, name: string)
    ensures Named(p) && NameOf(p) == name <==> GoesBy(p, name)
  {
  }

  function Detachable(refused: set<string>): Provider -> bool
  {
    (p: Provider) => Named(p) && NameOf(p) !in refused
  }

  function Names(ps: seq<Provider>): seq<string>
  {
    seq(|ps|, i requires 0 <= i < |ps| => NameOf(ps[i]))
  }

  predicate HasEntry(entries: seq<Entry>, target: Target)
  {
    exists i :: 0 <= i < |entries| && entries[i].target == target
  }

  /** What comes off: the names of the providers that the gateway does not refuse. */
  lemma {:induction false} DetachedExactly(ps: seq<Provider>, refused: set<string>, name: string)
    ensures name in Names(Filter(ps, Detachable(refused)))
       <==> name !in refused && exists i :: 0 <= i < |ps| && GoesBy(ps[i], name)
  {
    if ps != [] {
      var n := |ps| - 1;
      var front := ps[..n];
      DetachedExactly(front, refused, name);
      NamedExactly(ps[n], name);
      NamesSnoc(Filter(front, Detachable(refused)), ps[n]);
      assert (exists i :: 0 <= i < |ps| && GoesBy(ps[i], name))
        <==> GoesBy(ps[n], name) || exists i :: 0 <= i < n && GoesBy(front[i], name);
    }
  }

  lemma NamesSnoc(ps: seq<Provider>, p: Provider)
    ensures Names(ps + [p]) == Names(ps) + [NameOf(p)]
  {
  }

  /** `_detach_sandbox`: one entry for a sandbox that has none, whatever came off. */
  function Cut(entries: seq<Entry>, target: Target, providers: Option<seq<Provider>>, refused: set<string>): seq<Entry>
  {
    if HasEntry(entries, target) || providers.None? then entries
    else entries + [Entry(target, Names(Filter(providers.value, Detachable(refused))), "budget")]
  }

  // ----- A pass over all budgets -----------------------------------------

  function EvaluatedAll(cost: nat -> real, bs: seq<Budget>, rs: seq<Reading>): seq<Budget>
    requires |bs| == |rs|
  {
    seq(|bs|, i requires 0 <= i < |bs| => Evaluated(cost, bs[i], rs[i]))
  }

  /** The entries after a pass. */
  function CutAll(cost: nat -> real, bs: seq<Budget>, rs: seq<Reading>, entries: seq<Entry>): seq<Entry>
    requires |bs| == |rs|
  {
    if bs == [] then entries
    else
      var n := |bs| - 1;
      var before := CutAll(cost, bs[..n], rs[..n], entries);
      if Acts(cost, bs[n], rs[n]) && bs[n].action.Detach? then Cut(before, bs[n].target, rs[n].providers, rs[n].refused)
      else before
  }

  /** The sandboxes a pass fires `budget.exceeded` for. */
  function FiredAll(cost: nat -> real, bs: seq<Budget>, rs: seq<Reading>): seq<Target>
    requires |bs| == |rs|
  {
    if bs == [] then []
    else
      var n := |bs| - 1;
      FiredAll(cost, bs[..n], rs[..n]) + if Acts(cost, bs[n], rs[n]) then [bs[n].target] else []
  }

  /** A pass that has evaluated its first `i` budgets. */
  ghost predicate Passed(
    cost: nat -> real, bs: seq<Budget>, rs: seq<Reading>, entries: seq<Entry>,
    i: nat, bs': seq<Budget>, entries': seq<Entry>, fired: seq<Target>)
    requires i <= |bs| == |rs|
  {
    && bs' == EvaluatedAll(cost, bs[..i], rs[..i]) + bs[i..]
    && entries' == CutAll(cost, bs[..i], rs[..i], entries)
    && fired == FiredAll(cost, bs[..i], rs[..i])
  }

  lemma PassNext(
    cost: nat -> real, bs: seq<Budget>, rs: seq<Reading>, entries: seq<Entry>,
    i: nat, bs': seq<Budget>, entries': seq<Entry>, fired: seq<Target>)
    requires i < |bs| == |rs| && Passed(cost, bs, rs, entries, i, bs', entries', fired)
    ensures var acts := Acts(cost, bs[i], rs[i]);
      && |bs'| == |bs| && bs'[i] == bs[i]
      && Passed(cost, bs, rs, entries, i + 1, bs'[i := Evaluated(cost, bs[i], rs[i])],
                if acts && bs[i].action.Detach? then Cut(entries', bs[i].target, rs[i].providers, rs[i].refused)
                else entries',
                if acts then fired + [bs[i].target] else fired)
  {
    assert bs[..i + 1][..i] == bs[..i] && rs[..i + 1][..i] == rs[..i];
    var b := Evaluated(cost, bs[i], rs[i]);
    assert EvaluatedAll(cost, bs[..i + 1], rs[..i + 1]) == EvaluatedAll(cost, bs[..i], rs[..i]) + [b];
  }

  lemma PassDone(
    cost: nat -> real, bs: seq<Budget>, rs: seq<Reading>, entries: seq<Entry>,
    bs': seq<Budget>, entries': seq<Entry>, fired: seq<Target>)
    requires |bs| == |rs| && Passed(cost, bs, rs, entries, |bs|, bs', entries', fired)
    ensures bs' == EvaluatedAll(cost, bs, rs)
    ensures entries' == CutAll(cost, bs, rs, entries) && fired == FiredAll(cost, bs, rs)
  {
    assert bs[..|bs|] == bs && rs[..|rs|] == rs;
  }

  // ----- Setting ---------------------------------------------------------

  function ParseWindow(s: string): Option<Window>
  {
    if s == "daily" then Some(Daily)
    else if s == "weekly" then Some(Weekly)
    else if s == "monthly" then Some(Monthly)
    else if s == "total" then Some(Total)
    else None
  }

  function ParseAction(s: string): Option<Action>
  {
    if s == "notify" then Some(Notify) else if s == "detach" then Some(Detach) else None
  }

  /** The budget a call to `set_budget` asks for; a saved budget has acted in no window yet. */
  function Requested(target: Target, limitRequests: int, window: string, action: string, limitUsd: Option<real>)
    : Result<Budget, SetError>
  {
    if ParseWindow(window).None? then Err(InvalidWindow)
    else if ParseAction(action).None? then Err(InvalidAction)
    else if limitRequests < 1 then Err(RequestsTooLow)
    else if limitUsd.Some? && limitUsd.value <= 0.0 then Err(DollarsTooLow)
    else Ok(Budget(target, limitRequests, limitUsd, ParseWindow(window).value, ParseAction(action).value, None))
  }

  /** Which budgets are refused, with which error, and what is saved otherwise. */
  lemma RequestedExactly(
    target: Target, limitRequests: int, window: string, action: string, limitUsd: Option<real>)
    ensures var r := Requested(target, limitRequests, window, action, limitUsd);
      var windowOk := window == "daily" || window == "weekly" || window == "monthly" || window == "total";
      var actionOk := action == "notify" || action == "detach";
      && (r == Err(InvalidWindow) <==> !windowOk)
      && (r == Err(InvalidAction) <==> windowOk && !actionOk)
      && (r == Err(RequestsTooLow) <==> windowOk && actionOk && limitRequests < 1)
      && (r == Err(DollarsTooLow) <==>
            windowOk && actionOk && 1 <= limitRequests && limitUsd.Some? && limitUsd.value <= 0.0)
      && (r.Ok? ==>
            var b := r.value;
            && b.target == target && b.limitRequests == limitRequests && b.limitUsd == limitUsd && b.notified == None
            && (b.window == Daily <==> window == "daily") && (b.window == Weekly <==> window == "weekly")
            && (b.window == Monthly <==> window == "monthly") && (b.window == Total <==> window == "total")
            && (b.action == Detach <==> action == "detach"))
  {
  }

  /** Replaces the first row of the target, or appends one. */
  function Saved(bs: seq<Budget>, b: Budget): seq<Budget>
  {
    if bs == [] then [b]
    else if bs[0].target == b.target then [b] + bs[1..]
    else [bs[0]] + Saved(bs[1..], b)
  }

  lemma {:induction false} SavedAt(bs: seq<Budget>, b: Budget, n: nat)
    requires n <= |bs| && forall i :: 0 <= i < n ==> bs[i].target != b.target
    requires n < |bs| ==> bs[n].target == b.target
    ensures Saved(bs, b) == if n == |bs| then bs + [b] else bs[n := b]
  {
    if n > 0 {
      SavedAt(bs[1..], b, n - 1);
      SavedBehind(bs[0], bs[1..], b, n - 1);
    } else if bs != [] {
      assert [b] + bs[1..] == bs[0 := b];
    }
  }

  /** `get_budget`: the first row of the target. */
  function BudgetOf(bs: seq<Budget>, target: Target): Option<Budget>
  {
    if bs == [] then None else if bs[0].target == target then Some(bs[0]) else BudgetOf(bs[1..], target)
  }

  /** A saved budget is the one found for its sandbox, and no other sandbox's changes. */
  lemma {:induction false} SavedFrame(bs: seq<Budget>, b: Budget, target: Target)
    ensures BudgetOf(Saved(bs, b), target) == if target == b.target then Some(b) else BudgetOf(bs, target)
  {
    if bs != [] && bs[0].target != b.target {
      SavedFrame(bs[1..], b, target);
      assert Saved(bs, b)[1..] == Saved(bs[1..], b);
    }
  }

  lemma SavedBehind(first: Budget, rest: seq<Budget>, b: Budget, n: nat)
    requires n <= |rest|
    ensures n == |rest| ==> [first] + (rest + [b]) == ([first] + rest) + [b]
    ensures n < |rest| ==> [first] + rest[n := b] == ([first] + rest)[n + 1 := b]
  {
  }

  // ----- The service -----------------------------------------------------

  class BudgetService {
    const cost: nat -> real
    var budgets: seq<Budget>
    var entries: seq<Entry>

    constructor (cost: nat -> real)
      ensures this.cost == cost && budgets == [] && entries == []
    {
      this.cost := cost;
      budgets, entries := [], [];
    }

    method SetBudget(target: Target, limitRequests: int, window: string, action: string, limitUsd: Option<real>)
      returns (r: Result<Budget, SetError>)
      modifies this`budgets
      ensures r == Requested(target, limitRequests, window, action, limitUsd)
      ensures budgets == if r.Ok? then Saved(old(budgets), r.value) else old(budgets)
    {
      r := Requested(target, limitRequests, window, action, limitUsd);
      if r.Err? {
        return;
      }
      var n := 0;
      while n < |budgets| && budgets[n].target != target
        invariant 0 <= n <= |budgets|
        invariant forall i :: 0 <= i < n ==> budgets[i].target != target
      {
        n := n + 1;
      }
      SavedAt(budgets, r.value, n);
      if n == |budgets| {
        budgets := budgets + [r.value];
      } else {
        budgets := budgets[n := r.value];
      }
    }

    method EvaluateBudgets(rs: seq<Reading>) returns (fired: seq<Target>)
      requires |rs| == |budgets|
      modifies this
      ensures budgets == EvaluatedAll(cost, old(budgets), rs)
      ensures entries == CutAll(cost, old(budgets), rs, old(entries))
      ensures fired == FiredAll(cost, old(budgets), rs)
    {
      ghost var was, cut := budgets, entries;
      fired := [];
      for i := 0 to |budgets|
        invariant |budgets| == |was| && Passed(cost, was, rs, cut, i, budgets, entries, fired)
      {
        PassNext(cost, was, rs, cut, i, budgets, entries, fired);
        var acted := EvaluateBudget(i, rs[i]);
        if acted {
          fired := fired + [budgets[i].target];
        }
      }
      PassDone(cost, was, rs, cut, budgets, entries, fired);
    }

    /** One round of the loop over the budgets. */
    method EvaluateBudget(i: nat, r: Reading) returns (acted: bool)
      requires i < |budgets|
      modifies this
      ensures acted == Acts(cost, old(budgets[i]), r)
      ensures budgets == old(budgets)[i := Evaluated(cost, old(budgets[i]), r)]
      ensures entries == if acted && old(budgets[i]).action.Detach?
                         then Cut(old(entries), old(budgets[i]).target, r.providers, r.refused) else old(entries)
    {
      var b := budgets[i];
      var used := WindowUsage(r.usage, WindowStart(b.window, r.usageDay));
      var below := if b.limitUsd.Some? then cost(used) < b.limitUsd.value else used < b.limitRequests;
      if below {
        return false;
      }
      var windowKey := KeyOf(b.window, r.keyDay);
      if b.notified == Some(windowKey) {
        return false;
      }
      budgets := budgets[i := b.(notified := Some(windowKey))];
      if b.action == Detach {
        DetachSandbox(b.target, r.providers, r.refused);
      }
      acted := true;
    }

    method DetachSandbox(target: Target, providers: Option<seq<Provider>>, refused: set<string>)
      modifies this`entries
      ensures entries == Cut(old(entries), target, providers, refused)
    {
      if (exists i :: 0 <= i < |entries| && entries[i].target == target) || providers.None? {
        return;
      }
      var detached := DetachAll(providers.value, refused);
      entries := entries + [Entry(target, detached, "budget")];
    }

    /** Tries every named provider and keeps the names of those that came off. */
    method DetachAll(ps: seq<Provider>, refused: set<string>) returns (detached: seq<string>)
      ensures detached == Names(Filter(ps, Detachable(refused)))
    {
      detached := [];
      for i := 0 to |ps|
        invariant detached == Names(Filter(ps[..i], Detachable(refused)))
      {
        FilterUpTo(ps, i, Detachable(refused));
        var pname := if Truthy(ps[i].name) then ps[i].name else ps[i].providerName;
        if pname.Text? && pname.text != "" && pname.text !in refused {
          detached := detached + [pname.text];
        }
      }
      assert ps[..|ps|] == ps;
    }
  }

  // ----- Runs of one budget ----------------------------------------------

  function Run(cost: nat -> real, b: Budget, rs: seq<Reading>): Budget
  {
    if rs == [] then b else Evaluated(cost, Run(cost, b, rs[..|rs| - 1]), rs[|rs| - 1])
  }

  predicate ActsAt(cost: nat -> real, b: Budget, rs: seq<Reading>, i: nat)
    requires i < |rs|
  {
    Acts(cost, Run(cost, b, rs[..i]), rs[i])
  }

  predicate TripsAt(cost: nat -> real, b: Budget, rs: seq<Reading>, i: nat)
    requires i < |rs|
  {
    Trips(cost, b, rs[i])
  }

  function KeyAt(b: Budget, rs: seq<Reading>, i: nat): Key
    requires i < |rs|
  {
    KeyOf(b.window, rs[i].keyDay)
  }

  /** Days never go backwards. */
  predicate Forward(rs: seq<Reading>)
  {
    forall i, j :: 0 <= i < j < |rs| ==> rs[i].keyDay <= rs[j].keyDay
  }

  /** The first reading at or above the ceiling under its window key. */
  predicate FirstUnderKey(cost: nat -> real, b: Budget, rs: seq<Reading>, i: nat)
    requires i < |rs|
  {
    && TripsAt(cost, b, rs, i)
    && forall j :: 0 <= j < i && TripsAt(cost, b, rs, j) ==> KeyAt(b, rs, j) != KeyAt(b, rs, i)
  }

  /** What a run leaves: only the last key. */
  predicate Remembers(cost: nat -> real, b: Budget, rs: seq<Reading>, now: Budget)
  {
    && now == b.(notified := now.notified)
    && (now.notified.None? ==> forall j :: 0 <= j < |rs| ==> !TripsAt(cost, b, rs, j))
    && (now.notified.Some? ==> exists j :: 0 <= j < |rs| && LastTrip(cost, b, rs, now, j))
  }

  predicate LastTrip(cost: nat -> real, b: Budget, rs: seq<Reading>, now: Budget, j: nat)
    requires j < |rs|
  {
    && now.notified == Some(KeyOf(b.window, rs[j].keyDay))
    && TripsAt(cost, b, rs, j)
    && forall k :: j < k < |rs| ==> !TripsAt(cost, b, rs, k)
  }

  lemma {:induction false} RunRemembers(cost: nat -> real, b: Budget, rs: seq<Reading>)
    requires b.notified.None?
    ensures Remembers(cost, b, rs, Run(cost, b, rs))
  {
    if rs != [] {
      var n := |rs| - 1;
      var before, now := Run(cost, b, rs[..n]), Run(cost, b, rs);
      RunRemembers(cost, b, rs[..n]);
      if TripsAt(cost, b, rs, n) {
        assert LastTrip(cost, b, rs, now, n);
      } else if now.notified.Some? {
        var j :| 0 <= j < n && LastTrip(cost, b, rs[..n], before, j);
        forall k | j < k < |rs|
          ensures !TripsAt(cost, b, rs, k)
        {
          assert k < n ==> !TripsAt(cost, b, rs[..n], k);
        }
        assert LastTrip(cost, b, rs, now, j);
      } else {
        forall k | 0 <= k < |rs|
          ensures !TripsAt(cost, b, rs, k)
        {
          assert k < n ==> !TripsAt(cost, b, rs[..n], k);
        }
      }
    }
  }

  /** An earlier reading at or above the ceiling under the same key. */
  predicate ActedBefore(cost: nat -> real, b: Budget, rs: seq<Reading>, i: nat, k: nat)
    requires i < k < |rs|
  {
    TripsAt(cost, b, rs, i) && KeyAt(b, rs, i) == KeyAt(b, rs, k)
  }

  /** The latest reading before `k` at or above the ceiling. */
  predicate LatestTrip(cost: nat -> real, b: Budget, rs: seq<Reading>, j: nat, k: nat)
    requires j < k < |rs|
  {
    TripsAt(cost, b, rs, j) && forall m :: j < m < k ==> !TripsAt(cost, b, rs, m)
  }

  /** The key of `k` has been acted under, then displaced by another one, and is back. */
  ghost predicate KeyReturns(cost: nat -> real, b: Budget, rs: seq<Reading>, k: nat)
    requires k < |rs|
  {
    && TripsAt(cost, b, rs, k)
    && exists i, j :: 0 <= i < j < k && ActedBefore(cost, b, rs, i, k) && LatestTrip(cost, b, rs, j, k)
                      && KeyAt(b, rs, j) != KeyAt(b, rs, k)
  }

  /** A budget acts exactly if the latest reading at or above its ceiling, if any, had another key. */
  lemma ActsExactly(cost: nat -> real, b: Budget, rs: seq<Reading>, k: nat)
    requires b.notified.None? && k < |rs|
    ensures ActsAt(cost, b, rs, k) <==>
      TripsAt(cost, b, rs, k)
      && forall j :: 0 <= j < k && LatestTrip(cost, b, rs, j, k) ==> KeyAt(b, rs, j) != KeyAt(b, rs, k)
  {
    RunRemembers(cost, b, rs[..k]);
    var now := Run(cost, b, rs[..k]);
    forall j | 0 <= j < k
      ensures TripsAt(cost, b, rs, j) <==> TripsAt(cost, b, rs[..k], j)
    {
    }
    if now.notified.Some? {
      var last :| 0 <= last < k && LastTrip(cost, b, rs[..k], now, last);
      assert LatestTrip(cost, b, rs, last, k) by {
        forall m | last < m < k
          ensures !TripsAt(cost, b, rs, m)
        {
          assert !TripsAt(cost, b, rs[..k], m);
        }
      }
      forall j | 0 <= j < k && LatestTrip(cost, b, rs, j, k)
        ensures j == last
      {
        assert TripsAt(cost, b, rs, j) && TripsAt(cost, b, rs, last);
      }
    }
  }

  /** If a reading below `k` trips, there is a latest one. */
  lemma LatestTripExists(cost: nat -> real, b: Budget, rs: seq<Reading>, i: nat, k: nat) returns (j: nat)
    requires i < k < |rs| && TripsAt(cost, b, rs, i)
    ensures i <= j < k && LatestTrip(cost, b, rs, j, k)
  {
    j := k - 1;
    while !TripsAt(cost, b, rs, j)
      decreases j
      invariant i <= j < k && forall m :: j < m < k ==> !TripsAt(cost, b, rs, m)
    {
      j := j - 1;
    }
  }

  /**
   Remembering only the last key fails exactly when a key returns: a budget
   acts on the first reading at or above its ceiling under each key, and acts
   again under one exactly if it has acted under another in between.
   */
  lemma ActsAgainUnderKey(cost: nat -> real, b: Budget, rs: seq<Reading>, k: nat)
    requires b.notified.None? && k < |rs|
    ensures ActsAt(cost, b, rs, k) <==> FirstUnderKey(cost, b, rs, k) || KeyReturns(cost, b, rs, k)
    ensures !(FirstUnderKey(cost, b, rs, k) && KeyReturns(cost, b, rs, k))
  {
    ActsExactly(cost, b, rs, k);
    if ActsAt(cost, b, rs, k) && !FirstUnderKey(cost, b, rs, k) {
      var i :| 0 <= i < k && TripsAt(cost, b, rs, i) && KeyAt(b, rs, i) == KeyAt(b, rs, k);
      var j := LatestTripExists(cost, b, rs, i, k);
      assert ActedBefore(cost, b, rs, i, k) && i != j;
    }
    if KeyReturns(cost, b, rs, k) {
      var i, j :| 0 <= i < j < k && ActedBefore(cost, b, rs, i, k) && LatestTrip(cost, b, rs, j, k)
                  && KeyAt(b, rs, j) != KeyAt(b, rs, k);
      forall j' | 0 <= j' < k && LatestTrip(cost, b, rs, j', k)
        ensures j' == j
      {
        assert TripsAt(cost, b, rs, j') && TripsAt(cost, b, rs, j);
      }
    }
  }

  /** With days that never go backwards no key returns, so a budget acts once per key. */
  lemma ActsOncePerKey(cost: nat -> real, b: Budget, rs: seq<Reading>, i: nat)
    requires b.notified.None? && Forward(rs) && i < |rs|
    ensures ActsAt(cost, b, rs, i) <==> FirstUnderKey(cost, b, rs, i)
  {
    ActsAgainUnderKey(cost, b, rs, i);
  }

  /** A clock that steps back can make a daily budget act twice under one key. */
  lemma ClockBackActsTwice(cost: nat -> real) returns (b: Budget, rs: seq<Reading>)
    ensures |rs| == 3 && b.notified.None? && b.window.Daily? && b.limitRequests >= 1
    ensures rs[0].keyDay == rs[2].keyDay && ActsAt(cost, b, rs, 0) && ActsAt(cost, b, rs, 2)
  {
    var usage := [UsageRow(2, 1)];
    b := Budget(Target("", ""), 1, None, Daily, Notify, None);
    rs := [Reading(usage, 1, 1, None, {}), Reading(usage, 2, 2, None, {}), Reading(usage, 1, 1, None, {})];
    assert WindowUsage(usage, Some(1)) == 1 && WindowUsage(usage, Some(2)) == 1;
    assert TripsAt(cost, b, rs, 0) && TripsAt(cost, b, rs, 1) && TripsAt(cost, b, rs, 2);
    ActsAgainUnderKey(cost, b, rs, 0);
    ActsAgainUnderKey(cost, b, rs, 2);
    assert ActedBefore(cost, b, rs, 0, 2) && LatestTrip(cost, b, rs, 1, 2);
  }

  /**
   How often that is: a total budget acts once at most, every other budget
   once a day. A weekly or monthly window moves every day, so it acts again on
   each later day it is found over its ceiling.
   */
  lemma ActsAgainExactly(cost: nat -> real, b: Budget, rs: seq<Reading>, i: nat)
    requires b.notified.None? && Forward(rs) && i < |rs|
    ensures ActsAt(cost, b, rs, i) <==>
      TripsAt(cost, b, rs, i)
      && forall j :: 0 <= j < i && TripsAt(cost, b, rs, j) ==> b.window != Total && rs[j].keyDay < rs[i].keyDay
  {
    ActsOncePerKey(cost, b, rs, i);
  }

  /** A pass fires for exactly the sandboxes with a budget that acts. */
  lemma {:induction false} FiredExactly(cost: nat -> real, bs: seq<Budget>, rs: seq<Reading>, target: Target)
    requires |bs| == |rs|
    ensures target in FiredAll(cost, bs, rs)
       <==> exists i :: 0 <= i < |bs| && bs[i].target == target && Acts(cost, bs[i], rs[i])
  {
    if bs != [] {
      FiredExactly(cost, bs[..|bs| - 1], rs[..|rs| - 1], target);
    }
  }

  // ----- What a pass cuts ------------------------------------------------

  predicate OneEntryEach(entries: seq<Entry>)
  {
    forall i, j :: 0 <= i < j < |entries| ==> entries[i].target != entries[j].target
  }

  /** The budgets of a pass that reach the providers of a sandbox without an entry. */
  predicate Cuts(cost: nat -> real, b: Budget, r: Reading, target: Target)
  {
    b.target == target && b.action.Detach? && Acts(cost, b, r) && r.providers.Some?
  }

  predicate JustCut(cost: nat -> real, bs: seq<Budget>, rs: seq<Reading>, i: nat, e: Entry)
    requires |bs| == |rs| && i < |bs|
  {
    && Cuts(cost, bs[i], rs[i], e.target)
    && e.providers == Names(Filter(rs[i].providers.value, Detachable(rs[i].refused)))
    && e.engagedBy == "budget"
  }

  predicate Justified(cost: nat -> real, bs: seq<Budget>, rs: seq<Reading>, e: Entry)
    requires |bs| == |rs|
  {
    exists i :: 0 <= i < |bs| && JustCut(cost, bs, rs, i, e)
  }

  /**
   A pass only adds entries, never a second one for a sandbox, and each one
   lists exactly the providers whose detach succeeded.
   */
  lemma {:induction false} PassCuts(cost: nat -> real, bs: seq<Budget>, rs: seq<Reading>, entries: seq<Entry>)
    requires |bs| == |rs| && OneEntryEach(entries)
    ensures var after := CutAll(cost, bs, rs, entries);
      && OneEntryEach(after) && entries <= after
      && forall k :: |entries| <= k < |after| ==> Justified(cost, bs, rs, after[k])
  {
    if bs != [] {
      var n := |bs| - 1;
      PassCuts(cost, bs[..n], rs[..n], entries);
      var before, after := CutAll(cost, bs[..n], rs[..n], entries), CutAll(cost, bs, rs, entries);
      forall k | |entries| <= k < |after|
        ensures Justified(cost, bs, rs, after[k])
      {
        if k < |before| {
          var i :| 0 <= i < n && JustCut(cost, bs[..n], rs[..n], i, before[k]);
          assert JustCut(cost, bs, rs, i, after[k]);
        } else {
          assert JustCut(cost, bs, rs, n, after[k]);
        }
      }
    }
  }

  /**
   A sandbox has an entry after a pass exactly if it had one, or a detach budget
   of it acts while its gateway answers.
   */
  lemma {:induction false} EntryExactly(
    cost: nat -> real, bs: seq<Budget>, rs: seq<Reading>, entries: seq<Entry>, target: Target)
    requires |bs| == |rs|
    ensures HasEntry(CutAll(cost, bs, rs, entries), target)
       <==> HasEntry(entries, target) || exists i :: 0 <= i < |bs| && Cuts(cost, bs[i], rs[i], target)
  {
    if bs != [] {
      var n := |bs| - 1;
      EntryExactly(cost, bs[..n], rs[..n], entries, target);
      var before, after := CutAll(cost, bs[..n], rs[..n], entries), CutAll(cost, bs, rs, entries);
      assert before <= after;
      if HasEntry(before, target) {
        var k :| 0 <= k < |before| && before[k].target == target;
        assert after[k].target == target;
      }
      if HasEntry(after, target) && !HasEntry(before, target) {
        var k :| 0 <= k < |after| && after[k].target == target;
        assert k == |before| && Cuts(cost, bs[n], rs[n], target);
      }
      if Cuts(cost, bs[n], rs[n], target) && !HasEntry(before, target) {
        assert after[|before|].target == target;
      }
    }
  }

  // ----- Whether a detach budget is ever enforced ------------------------

  /**
   One evaluation of a detach budget and what happened to its sandbox since the
   last one: others attached and removed providers; the gateway answers or not,
   and refuses to detach some names.
   */
  datatype Tick = Tick(
    joined: seq<Provider>,
    removed: set<string>,
    usage: seq<UsageRow>,
    usageDay: int,
    keyDay: int,
    reachable: bool,
    refused: set<string>)

  /** The budget, the entries, and the providers attached to the sandbox. */
  datatype Cutoff = Cutoff(budget: Budget, entries: seq<Entry>, attached: seq<Provider>)

  function NotRemoved(removed: set<string>): Provider -> bool
  {
    (p: Provider) => NameOf(p) !in removed
  }

  function StaysOn(refused: set<string>): Provider -> bool
  {
    (p: Provider) => !(Named(p) && NameOf(p) !in refused)
  }

  /** The providers attached when the budget is evaluated. */
  function Present(attached: seq<Provider>, t: Tick): seq<Provider>
  {
    Filter(attached, NotRemoved(t.removed)) + t.joined
  }

  function ReadingOf(attached: seq<Provider>, t: Tick): Reading
  {
    Reading(t.usage, t.usageDay, t.keyDay, if t.reachable then Some(Present(attached, t)) else None, t.refused)
  }

  /** Whether the evaluation gets as far as detaching. */
  predicate Detaches(cost: nat -> real, s: Cutoff, t: Tick)
  {
    && Acts(cost, s.budget, ReadingOf(s.attached, t)) && s.budget.action.Detach?
    && !HasEntry(s.entries, s.budget.target) && t.reachable
  }

  function AfterTick(cost: nat -> real, s: Cutoff, t: Tick): Cutoff
  {
    var r, present := ReadingOf(s.attached, t), Present(s.attached, t);
    Cutoff(Evaluated(cost, s.budget, r),
           CutAll(cost, [s.budget], [r], s.entries),
           if Detaches(cost, s, t) then Filter(present, StaysOn(t.refused)) else present)
  }

  function CutRun(cost: nat -> real, s: Cutoff, ts: seq<Tick>): Cutoff
  {
    if ts == [] then s else AfterTick(cost, CutRun(cost, s, ts[..|ts| - 1]), ts[|ts| - 1])
  }

  /** The providers attached if the budget detaches nothing. */
  function Undisturbed(attached: seq<Provider>, ts: seq<Tick>): seq<Provider>
  {
    if ts == [] then attached else Present(Undisturbed(attached, ts[..|ts| - 1]), ts[|ts| - 1])
  }

  /** The readings as the budget's ceiling and key see them. */
  function Readings(ts: seq<Tick>): seq<Reading>
  {
    seq(|ts|, i requires 0 <= i < |ts| => ReadingOf([], ts[i]))
  }

  predicate AllOff(attached: seq<Provider>)
  {
    forall p :: p in attached ==> !Named(p)
  }

  /** Some evaluation detaches, and every named provider it finds comes off. */
  ghost predicate Enforced(cost: nat -> real, s: Cutoff, ts: seq<Tick>)
  {
    exists i :: 0 <= i < |ts| && EnforcedAt(cost, s, ts, i)
  }

  ghost predicate EnforcedAt(cost: nat -> real, s: Cutoff, ts: seq<Tick>, i: nat)
    requires i < |ts|
  {
    Detaches(cost, CutRun(cost, s, ts[..i]), ts[i]) && AllOff(CutRun(cost, s, ts[..i + 1]).attached)
  }

  /** The budget acts while the gateway answers. */
  predicate AnsweredAt(cost: nat -> real, b: Budget, ts: seq<Tick>, i: nat)
    requires i < |ts|
  {
    ActsAt(cost, b, Readings(ts), i) && ts[i].reachable
  }

  predicate FirstAnswer(cost: nat -> real, b: Budget, ts: seq<Tick>, i: nat)
    requires i < |ts|
  {
    AnsweredAt(cost, b, ts, i) && forall j :: 0 <= j < i ==> !AnsweredAt(cost, b, ts, j)
  }

  predicate NoneRefused(present: seq<Provider>, refused: set<string>)
  {
    forall p :: p in present && Named(p) ==> NameOf(p) !in refused
  }

  lemma ReadingsFront(ts: seq<Tick>, n: nat)
    requires n <= |ts|
    ensures Readings(ts[..n]) == Readings(ts)[..n]
  {
  }

  /** When a budget acts does not depend on what is attached. */
  lemma {:induction false} RunBudget(cost: nat -> real, s: Cutoff, ts: seq<Tick>)
    ensures CutRun(cost, s, ts).budget == Run(cost, s.budget, Readings(ts))
  {
    if ts != [] {
      var n := |ts| - 1;
      RunBudget(cost, s, ts[..n]);
      ReadingsFront(ts, n);
    }
  }

  lemma ActsOnTick(cost: nat -> real, s: Cutoff, ts: seq<Tick>, i: nat)
    requires i < |ts|
    ensures var now := CutRun(cost, s, ts[..i]);
      && now.budget == s.budget.(notified := now.budget.notified)
      && (Acts(cost, now.budget, ReadingOf(now.attached, ts[i])) <==> ActsAt(cost, s.budget, Readings(ts), i))
  {
    RunBudget(cost, s, ts[..i]);
    ReadingsFront(ts, i);
    RunKeepsBudget(cost, s.budget, Readings(ts)[..i]);
  }

  lemma {:induction false} RunKeepsBudget(cost: nat -> real, b: Budget, rs: seq<Reading>)
    ensures Run(cost, b, rs) == b.(notified := Run(cost, b, rs).notified)
  {
    if rs != [] {
      RunKeepsBudget(cost, b, rs[..|rs| - 1]);
    }
  }

  predicate Answered(cost: nat -> real, b: Budget, ts: seq<Tick>)
  {
    exists i :: 0 <= i < |ts| && AnsweredAt(cost, b, ts, i)
  }

  lemma AnsweredSnoc(cost: nat -> real, b: Budget, ts: seq<Tick>)
    requires ts != []
    ensures Answered(cost, b, ts) <==> Answered(cost, b, ts[..|ts| - 1]) || AnsweredAt(cost, b, ts, |ts| - 1)
  {
    var front := ts[..|ts| - 1];
    AnswersFront(cost, b, ts, |ts| - 1);
    if i :| 0 <= i < |front| && AnsweredAt(cost, b, front, i) {
      assert AnsweredAt(cost, b, ts, i);
    }
    if i :| 0 <= i < |front| && AnsweredAt(cost, b, ts, i) {
      assert AnsweredAt(cost, b, front, i);
    }
  }

  /** Before the first answer nothing is cut; at and after it there is an entry. */
  lemma {:induction false} EntryAfterAnswer(cost: nat -> real, s: Cutoff, ts: seq<Tick>)
    requires s.budget.action.Detach? && !HasEntry(s.entries, s.budget.target)
    ensures HasEntry(CutRun(cost, s, ts).entries, s.budget.target) <==> Answered(cost, s.budget, ts)
    ensures !Answered(cost, s.budget, ts) ==> CutRun(cost, s, ts).attached == Undisturbed(s.attached, ts)
  {
    if ts != [] {
      var n := |ts| - 1;
      var now := CutRun(cost, s, ts[..n]);
      EntryAfterAnswer(cost, s, ts[..n]);
      AnsweredSnoc(cost, s.budget, ts);
      ActsOnTick(cost, s, ts, n);
      TickMakesEntry(cost, now, ts[n]);
    }
  }

  /** One evaluation creates an entry exactly if the budget acts while the gateway answers. */
  lemma TickMakesEntry(cost: nat -> real, s: Cutoff, t: Tick)
    requires s.budget.action.Detach?
    ensures var acts := Acts(cost, s.budget, ReadingOf(s.attached, t));
      && (HasEntry(AfterTick(cost, s, t).entries, s.budget.target)
          <==> HasEntry(s.entries, s.budget.target) || (acts && t.reachable))
      && (!(acts && t.reachable) ==> AfterTick(cost, s, t).attached == Present(s.attached, t))
  {
    var r := ReadingOf(s.attached, t);
    CutOne(cost, s.budget, r, s.entries);
    var after := AfterTick(cost, s, t).entries;
    if after != s.entries {
      assert after[|after| - 1].target == s.budget.target;
    }
  }

  lemma AnswersFront(cost: nat -> real, b: Budget, ts: seq<Tick>, n: nat)
    requires n <= |ts|
    ensures forall i :: 0 <= i < n ==> AnsweredAt(cost, b, ts[..n], i) == AnsweredAt(cost, b, ts, i)
  {
    ReadingsFront(ts, n);
    forall i | 0 <= i < n
      ensures AnsweredAt(cost, b, ts[..n], i) == AnsweredAt(cost, b, ts, i)
    {
      assert Readings(ts)[..n][..i] == Readings(ts)[..i];
    }
  }

  lemma DetachesAtFirstAnswer(cost: nat -> real, s: Cutoff, ts: seq<Tick>, i: nat)
    requires i < |ts| && s.budget.action.Detach? && !HasEntry(s.entries, s.budget.target)
    ensures Detaches(cost, CutRun(cost, s, ts[..i]), ts[i]) <==> FirstAnswer(cost, s.budget, ts, i)
  {
    ActsOnTick(cost, s, ts, i);
    EntryAfterAnswer(cost, s, ts[..i]);
    AnswersFront(cost, s.budget, ts, i);
  }

  lemma OffExactly(present: seq<Provider>, refused: set<string>)
    ensures AllOff(Filter(present, StaysOn(refused))) <==> NoneRefused(present, refused)
  {
    FilterMembers(present, StaysOn(refused));
  }

  /**
   A detach budget takes every named provider off exactly if its sandbox has no
   entry yet, the gateway answers on some reading it acts on, and on the first
   such reading no named provider is refused.
   */
  lemma EnforcedExactly(cost: nat -> real, s: Cutoff, ts: seq<Tick>)
    requires s.budget.action.Detach?
    ensures Enforced(cost, s, ts) <==>
      && !HasEntry(s.entries, s.budget.target)
      && exists i :: 0 <= i < |ts| && FirstAnswer(cost, s.budget, ts, i)
                     && NoneRefused(Undisturbed(s.attached, ts[..i + 1]), ts[i].refused)
  {
    if HasEntry(s.entries, s.budget.target) {
      forall i | 0 <= i < |ts|
        ensures !EnforcedAt(cost, s, ts, i)
      {
        NeverRetried(cost, s, ts[..i]);
      }
    } else {
      forall i | 0 <= i < |ts|
        ensures EnforcedAt(cost, s, ts, i)
           <==> FirstAnswer(cost, s.budget, ts, i) && NoneRefused(Undisturbed(s.attached, ts[..i + 1]), ts[i].refused)
      {
        EnforcedAtExactly(cost, s, ts, i);
      }
    }
  }

  /** The first reading at or above the ceiling under its key, and the gateway answers. */
  predicate FreshAnswer(cost: nat -> real, b: Budget, ts: seq<Tick>, i: nat)
    requires i < |ts|
  {
    FirstUnderKey(cost, b, Readings(ts), i) && ts[i].reachable
  }

  /**
   With days that never go backwards: a detach budget is enforced exactly if
   the gateway answers on some first reading under a key, and on the earliest
   such reading no named provider is refused.
   */
  lemma EnforcedInOrder(cost: nat -> real, s: Cutoff, ts: seq<Tick>)
    requires s.budget.action.Detach? && s.budget.notified.None? && Forward(Readings(ts))
    requires !HasEntry(s.entries, s.budget.target)
    ensures Enforced(cost, s, ts) <==>
      exists i :: 0 <= i < |ts| && FreshAnswer(cost, s.budget, ts, i)
                  && (forall j :: 0 <= j < i ==> !FreshAnswer(cost, s.budget, ts, j))
                  && NoneRefused(Undisturbed(s.attached, ts[..i + 1]), ts[i].refused)
  {
    EnforcedExactly(cost, s, ts);
    forall i | 0 <= i < |ts|
      ensures AnsweredAt(cost, s.budget, ts, i) <==> FreshAnswer(cost, s.budget, ts, i)
    {
      ActsOncePerKey(cost, s.budget, Readings(ts), i);
    }
    forall i | 0 <= i < |ts|
      ensures FirstAnswer(cost, s.budget, ts, i)
         <==> FreshAnswer(cost, s.budget, ts, i) && forall j :: 0 <= j < i ==> !FreshAnswer(cost, s.budget, ts, j)
    {
    }
  }

  lemma EnforcedAtExactly(cost: nat -> real, s: Cutoff, ts: seq<Tick>, i: nat)
    requires i < |ts| && s.budget.action.Detach? && !HasEntry(s.entries, s.budget.target)
    ensures EnforcedAt(cost, s, ts, i)
       <==> FirstAnswer(cost, s.budget, ts, i) && NoneRefused(Undisturbed(s.attached, ts[..i + 1]), ts[i].refused)
  {
    var now := CutRun(cost, s, ts[..i]);
    DetachesAtFirstAnswer(cost, s, ts, i);
    if FirstAnswer(cost, s.budget, ts, i) {
      EntryAfterAnswer(cost, s, ts[..i]);
      AnswersFront(cost, s.budget, ts, i);
      assert ts[..i + 1][..i] == ts[..i];
      OffExactly(Present(now.attached, ts[i]), ts[i].refused);
    }
  }

  /**
   A failed or partial detach is never retried: once the sandbox has an entry,
   no later reading under any key detaches anything, and only others change
   what is attached.
   */
  lemma {:induction false} NeverRetried(cost: nat -> real, s: Cutoff, ts: seq<Tick>)
    requires HasEntry(s.entries, s.budget.target)
    ensures var now := CutRun(cost, s, ts);
      && now.entries == s.entries && now.attached == Undisturbed(s.attached, ts)
      && now.budget == s.budget.(notified := now.budget.notified)
  {
    if ts != [] {
      var n := |ts| - 1;
      NeverRetried(cost, s, ts[..n]);
      var now := CutRun(cost, s, ts[..n]);
      CutOne(cost, now.budget, ReadingOf(now.attached, ts[n]), now.entries);
    }
  }

  /** A provider that was refused stays attached until somebody else removes it. */
  lemma RefusedStays(cost: nat -> real, s: Cutoff, ts: seq<Tick>, p: Provider)
    requires HasEntry(s.entries, s.budget.target) && p in s.attached
    requires forall i :: 0 <= i < |ts| ==> NameOf(p) !in ts[i].removed
    ensures p in CutRun(cost, s, ts).attached
  {
    NeverRetried(cost, s, ts);
    StaysUndisturbed(s.attached, ts, p);
  }

  lemma {:induction false} StaysUndisturbed(attached: seq<Provider>, ts: seq<Tick>, p: Provider)
    requires p in attached && forall i :: 0 <= i < |ts| ==> NameOf(p) !in ts[i].removed
    ensures p in Undisturbed(attached, ts)
  {
    if ts != [] {
      var n := |ts| - 1;
      StaysUndisturbed(attached, ts[..n], p);
      FilterMembers(Undisturbed(attached, ts[..n]), NotRemoved(ts[n].removed));
    }
  }

  /**
   A total budget gets one try: it is enforced exactly if, when it first trips,
   the gateway answers and refuses no named provider.
   */
  lemma TotalBudgetTriesOnce(cost: nat -> real, s: Cutoff, ts: seq<Tick>, first: nat)
    requires s.budget.notified.None? && s.budget.action.Detach? && s.budget.window.Total?
    requires !HasEntry(s.entries, s.budget.target)
    requires first < |ts| && TripsAt(cost, s.budget, Readings(ts), first)
    requires forall j :: 0 <= j < first ==> !TripsAt(cost, s.budget, Readings(ts), j)
    ensures Enforced(cost, s, ts)
       <==> ts[first].reachable && NoneRefused(Undisturbed(s.attached, ts[..first + 1]), ts[first].refused)
  {
    EnforcedExactly(cost, s, ts);
    forall i | 0 <= i < |ts|
      ensures ActsAt(cost, s.budget, Readings(ts), i) <==> i == first
    {
      TotalActsOnce(cost, s.budget, Readings(ts), first, i);
    }
    assert ts[first].reachable ==> FirstAnswer(cost, s.budget, ts, first);
  }

  lemma TotalActsOnce(cost: nat -> real, b: Budget, rs: seq<Reading>, first: nat, i: nat)
    requires b.notified.None? && b.window.Total? && first < |rs| && i < |rs|
    requires TripsAt(cost, b, rs, first) && forall j :: 0 <= j < first ==> !TripsAt(cost, b, rs, j)
    ensures ActsAt(cost, b, rs, i) <==> i == first
  {
    ActsExactly(cost, b, rs, i);
    if first < i {
      var j := LatestTripExists(cost, b, rs, first, i);
    }
  }

  lemma CutOne(cost: nat -> real, b: Budget, r: Reading, entries: seq<Entry>)
    ensures CutAll(cost, [b], [r], entries)
         == if Acts(cost, b, r) && b.action.Detach? then Cut(entries, b.target, r.providers, r.refused) else entries
  {
    assert [b][..0] == [] && [r][..0] == [];
    assert CutAll(cost, [], [], entries) == entries;
  }

  lemma AllRefused(ps: seq<Provider>, refused: set<string>)
    requires forall p :: p in ps && Named(p) ==> NameOf(p) in refused
    ensures Names(Filter(ps, Detachable(refused))) == [] && Filter(ps, StaysOn(refused)) == ps
  {
    forall i | 0 <= i < |ps|
      ensures !Detachable(refused)(ps[i]) && StaysOn(refused)(ps[i])
    {
      assert ps[i] in ps;
    }
    FilterNone(ps, Detachable(refused));
    FilterAll(ps, StaysOn(refused));
  }

  /** An entry alone proves nothing: if every detach is refused it is created all the same, and empty. */
  lemma EntryWithoutEffect(cost: nat -> real, s: Cutoff, t: Tick)
    requires Detaches(cost, s, t) && forall p :: p in Present(s.attached, t) && Named(p) ==> NameOf(p) in t.refused
    ensures AfterTick(cost, s, t).entries == s.entries + [Entry(s.budget.target, [], "budget")]
    ensures AfterTick(cost, s, t).attached == Present(s.attached, t)
  {
    CutOne(cost, s.budget, ReadingOf(s.attached, t), s.entries);
    AllRefused(Present(s.attached, t), t.refused);
  }
}
