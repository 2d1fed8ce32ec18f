/** The boot hook service (shoreguard/services/boot_hooks.py): creating, reordering and running hooks. */
module BootHookRuns {
  import opened BootHooks
  import opened Seqs
  import opened Wrappers

  /** What executing a hook comes to; `ExecRaised` if it could not be executed at all. */
  datatype Outcome = Succeeded(output: string) | Failed(output: string) | ExecRaised

  datatype HookResult = HookResult(id: nat, name: string, status: Status, output: string)

  // ----- Output ----------------------------------------------------------

  function Decimal(n: nat): string
  {
    var digit := ["0123456789"[n % 10]];
    if n < 10 then digit else Decimal(n / 10) + digit
  }

  /** `_truncate`. */
  function Truncate(text: string): string
  {
    if |text| <= OUTPUT_LIMIT then text
    else text[..OUTPUT_LIMIT - 32] + "\n... [truncated, " + Decimal(|text|) + " bytes]"
  }

  function Pow10(k: nat): nat
  {
    if k == 0 then 1 else 10 * Pow10(k - 1)
  }

  lemma {:induction false} DecimalLength(n: nat, k: nat)
    requires 1 <= k
    ensures |Decimal(n)| <= k <==> n < Pow10(k)
  {
    if n < 10 {
      Pow10Grows(k - 1);
    } else if k == 1 {
      DecimalLength(n / 10, 1);
    } else {
      DecimalLength(n / 10, k - 1);
    }
  }

  lemma {:induction false} Pow10Grows(k: nat)
    ensures Pow10(k) >= 1
  {
    if k > 0 {
      Pow10Grows(k - 1);
    }
  }

  /** Truncating once is enough, and fits the limit, exactly for outputs below a hundred million characters. */
  lemma TruncateFits(text: string)
    ensures |Truncate(text)| <= OUTPUT_LIMIT <==> |text| < 100_000_000
    ensures Truncate(Truncate(text)) == Truncate(text) <==> |text| < 100_000_000
  {
    if |text| > OUTPUT_LIMIT {
      DecimalLength(|text|, 8);
      assert Pow10(8) == 100_000_000;
      var once := Truncate(text);
      if |once| > OUTPUT_LIMIT {
        CutAgain(text);
      }
    }
  }

  /** Short output is kept; of longer output the first 4064 characters, with a marker that tells its length. */
  lemma TruncateExactly(text: string)
    ensures |text| <= 4096 <==> Truncate(text) == text
    ensures |text| > 4096 ==>
      var t := Truncate(text);
      && t[..4064] == text[..4064] && t[4064..4081] == "\n... [truncated, " && t[|t| - 7..] == " bytes]"
      && IsDecimal(t[4081..|t| - 7], |text|)
  {
    if |text| > 4096 {
      DecimalReads(|text|);
      Parts(text[..4064], "\n... [truncated, ", Decimal(|text|), " bytes]");
      MarkedTooLong(text);
    }
  }

  lemma Parts(a: string, b: string, c: string, d: string)
    ensures var t := a + b + c + d;
      && t[..|a|] == a && t[|a|..|a| + |b|] == b && t[|a| + |b|..|t| - |d|] == c && t[|t| - |d|..] == d
  {
  }

  /** A decimal numeral without leading zeros. */
  predicate IsDecimal(s: string, n: nat)
  {
    && s != "" && (forall i :: 0 <= i < |s| ==> '0' <= s[i] <= '9')
    && Number(s) == n && (n > 0 ==> s[0] != '0')
  }

  function Number(s: string): int
  {
    if s == "" then 0 else 10 * Number(s[..|s| - 1]) + (s[|s| - 1] as int - '0' as int)
  }

  lemma {:induction false} DecimalReads(n: nat)
    ensures IsDecimal(Decimal(n), n)
  {
    DigitReads(n % 10);
    if n < 10 {
      IsDecimalSnoc("", 0, n);
      assert "" + Decimal(n) == Decimal(n);
    } else {
      DecimalReads(n / 10);
      IsDecimalSnoc(Decimal(n / 10), n / 10, n % 10);
    }
  }

  lemma DigitReads(d: nat)
    requires d < 10
    ensures "0123456789"[d] == ('0' as int + d) as char
  {
  }

  lemma IsDecimalSnoc(s: string, n: nat, d: nat)
    requires d < 10 && ((IsDecimal(s, n) && 0 < n) || (s == "" && n == 0))
    ensures IsDecimal(s + [('0' as int + d) as char], 10 * n + d)
  {
    var c := ('0' as int + d) as char;
    var t := s + [c];
    assert c as int - '0' as int == d && '0' <= c <= '9' && (d > 0 ==> c != '0');
    assert t[..|t| - 1] == s && t[|t| - 1] == c;
    assert Number(s) == n;
    assert Number(t) == 10 * n + d;
    assert s != "" ==> t[0] == s[0];
  }

  /** A text with its own length after 4081 characters would have to be that long. */
  lemma MarkedTooLong(text: string)
    requires |text| > 4096
    ensures Truncate(text) != text
  {
    DecimalShort(|text|);
    DecimalLength(|text|, 8);
    assert Pow10(8) == 100_000_000;
    assert |Truncate(text)| == 4064 + 17 + |Decimal(|text|)| + 7;
  }

  lemma CutAgain(text: string)
    requires |text| >= 100_000_000 && |Truncate(text)| > OUTPUT_LIMIT
    ensures Truncate(Truncate(text)) != Truncate(text)
  {
    var once := Truncate(text);
    DecimalShort(|text|);
    assert |once| < |text|;
    if Truncate(once) == once {
      var kept, tail := text[..OUTPUT_LIMIT - 32], " bytes]";
      assert |once| - |kept| - 17 - 7 == |Decimal(|text|)|;
      assert |Truncate(once)| - |kept| - 17 - 7 == |Decimal(|once|)|;
      var a, b := kept + "\n... [truncated, " + Decimal(|text|), kept + "\n... [truncated, " + Decimal(|once|);
      assert once == a + tail && once == b + tail;
      assert a == once[..|a|] && b == once[..|b|];
      assert Decimal(|text|) == a[|kept| + 17..] && Decimal(|once|) == b[|kept| + 17..];
      DecimalInjective(|text|, |once|);
    }
  }

  lemma {:induction false} DecimalShort(n: nat)
    ensures |Decimal(n)| <= n / 10 + 1
  {
    if n >= 10 {
      DecimalShort(n / 10);
    }
  }

  lemma {:induction false} DecimalInjective(m: nat, n: nat)
    requires Decimal(m) == Decimal(n)
    ensures m == n
  {
    var s, t := Decimal(m), Decimal(n);
    assert s[|s| - 1] == "0123456789"[m % 10] && t[|t| - 1] == "0123456789"[n % 10];
    if m >= 10 && n >= 10 {
      assert s[..|s| - 1] == Decimal(m / 10) && t[..|t| - 1] == Decimal(n / 10);
      DecimalInjective(m / 10, n / 10);
    } else {
      DecimalNonEmpty(m / 10);
      DecimalNonEmpty(n / 10);
    }
  }

  lemma DecimalNonEmpty(n: nat)
    ensures Decimal(n) != ""
  {
  }

  // ----- Running ---------------------------------------------------------

  function StatusOf(o: Outcome): Status
  {
    if o.Succeeded? then Success else Failure
  }

  function ResultOf(h: Hook, o: Outcome): HookResult
  {
    HookResult(h.id, h.name, StatusOf(o), Truncate(if o.ExecRaised? then "" else o.output))
  }

  /** Which result ends a run: before creation any failure does. */
  predicate Halts(h: Hook, o: Outcome)
  {
    StatusOf(o).Failure? && (h.group.phase == PHASE_PRE || !h.continueOnFailure)
  }

  /** Whether the result reaches the table; a post-create hook that could not be executed leaves no trace. */
  predicate Persists(h: Hook, o: Outcome)
  {
    h.group.phase == PHASE_PRE || !o.ExecRaised?
  }

  /** A run executes the shortest prefix that ends in a halting failure, or everything. */
  predicate Executes(hooks: seq<Hook>, outcome: nat -> Outcome, n: nat)
  {
    && n <= |hooks|
    && (forall i :: 0 <= i < n - 1 ==> !Halts(hooks[i], outcome(hooks[i].id)))
    && (n < |hooks| ==> n > 0 && Halts(hooks[n - 1], outcome(hooks[n - 1].id)))
  }

  function WithStatus(rows: seq<Hook>, id: nat, status: Status): seq<Hook>
  {
    seq(|rows|, i requires 0 <= i < |rows| =>
      if rows[i].id == id then rows[i].(lastStatus := Some(status)) else rows[i])
  }

  /** The table after executing the hooks. */
  function AfterRun(rows: seq<Hook>, hooks: seq<Hook>, outcome: nat -> Outcome): seq<Hook>
  {
    if hooks == [] then rows
    else
      var n := |hooks| - 1;
      var before, o := AfterRun(rows, hooks[..n], outcome), outcome(hooks[n].id);
      if Persists(hooks[n], o) then WithStatus(before, hooks[n].id, StatusOf(o)) else before
  }

  function Results(hooks: seq<Hook>, outcome: nat -> Outcome): seq<HookResult>
  {
    seq(|hooks|, i requires 0 <= i < |hooks| => ResultOf(hooks[i], outcome(hooks[i].id)))
  }

  /** The results and the table of a finished run. */
  ghost predicate Done(
    rows: seq<Hook>, hooks: seq<Hook>, outcome: nat -> Outcome, rows': seq<Hook>, results: seq<HookResult>)
  {
    && Executes(hooks, outcome, |results|)
    && results == Results(hooks[..|results|], outcome)
    && rows' == AfterRun(rows, hooks[..|results|], outcome)
  }

  /** A run that has gone through its first `i` hooks. */
  ghost predicate Ran(
    rows: seq<Hook>, hooks: seq<Hook>, outcome: nat -> Outcome, i: nat, rows': seq<Hook>, results: seq<HookResult>)
    requires i <= |hooks|
  {
    && results == Results(hooks[..i], outcome)
    && rows' == AfterRun(rows, hooks[..i], outcome)
    && forall j :: 0 <= j < i ==> !Halts(hooks[j], outcome(hooks[j].id))
  }

  lemma RanNext(
    rows: seq<Hook>, hooks: seq<Hook>, outcome: nat -> Outcome, i: nat, rows': seq<Hook>, results: seq<HookResult>)
    requires i < |hooks| && Ran(rows, hooks, outcome, i, rows', results)
    ensures var h, o := hooks[i], outcome(hooks[i].id);
      var table := if Persists(h, o) then WithStatus(rows', h.id, StatusOf(o)) else rows';
      if Halts(h, o) then Done(rows, hooks, outcome, table, results + [ResultOf(h, o)])
      else Ran(rows, hooks, outcome, i + 1, table, results + [ResultOf(h, o)])
  {
    assert hooks[..i + 1][..i] == hooks[..i];
    var result := ResultOf(hooks[i], outcome(hooks[i].id));
    assert Results(hooks[..i + 1], outcome) == Results(hooks[..i], outcome) + [result];
  }

  lemma RanAll(rows: seq<Hook>, hooks: seq<Hook>, outcome: nat -> Outcome, rows': seq<Hook>, results: seq<HookResult>)
    requires Ran(rows, hooks, outcome, |hooks|, rows', results)
    ensures Done(rows, hooks, outcome, rows', results)
  {
  }

  /** What a run leaves in each row: the status of its own execution, or what it had. */
  lemma {:induction false} StatusAfterRun(rows: seq<Hook>, hooks: seq<Hook>, outcome: nat -> Outcome, k: nat)
    requires k < |rows|
    ensures |AfterRun(rows, hooks, outcome)| == |rows|
    ensures AfterRun(rows, hooks, outcome)[k]
         == if exists i :: 0 <= i < |hooks| && hooks[i].id == rows[k].id && Persists(hooks[i], outcome(hooks[i].id))
            then rows[k].(lastStatus := Some(StatusOf(outcome(rows[k].id)))) else rows[k]
  {
    if hooks != [] {
      var n := |hooks| - 1;
      StatusAfterRun(rows, hooks[..n], outcome, k);
      var front := hooks[..n];
      var here := hooks[n].id == rows[k].id && Persists(hooks[n], outcome(hooks[n].id));
      assert (exists i :: 0 <= i < |hooks| && hooks[i].id == rows[k].id && Persists(hooks[i], outcome(hooks[i].id)))
        <==> here || exists i :: 0 <= i < n && front[i].id == rows[k].id && Persists(front[i], outcome(front[i].id));
    }
  }

  /** A pre-create run goes through exactly if every enabled hook succeeds. */
  lemma PreCreateSucceedsExactly(hooks: seq<Hook>, outcome: nat -> Outcome, n: nat)
    requires Executes(hooks, outcome, n) && forall i :: 0 <= i < |hooks| ==> hooks[i].group.phase == PHASE_PRE
    ensures (n > 0 ==> outcome(hooks[n - 1].id).Succeeded?)
       <==> forall i :: 0 <= i < |hooks| ==> outcome(hooks[i].id).Succeeded?
  {
  }

  /**
   Where a run stops, told by the hooks: all executed hooks but the last
   succeeded, or failed after creation with `continue_on_failure`; the last one
   failed without it, or before creation, unless every hook was executed.
   */
  lemma ExecutesExactly(hooks: seq<Hook>, outcome: nat -> Outcome, n: nat)
    ensures Executes(hooks, outcome, n) <==>
      && n <= |hooks|
      && (forall i :: 0 <= i < n - 1 ==> GoesOn(hooks[i], outcome(hooks[i].id)))
      && (n < |hooks| ==> n > 0 && !GoesOn(hooks[n - 1], outcome(hooks[n - 1].id)))
  {
  }

  predicate GoesOn(h: Hook, o: Outcome)
  {
    match o
    case Succeeded(_) => true
    case Failed(_) => h.group.phase != "pre_create" && h.continueOnFailure
    case ExecRaised => h.group.phase != "pre_create" && h.continueOnFailure
  }

  /**
   What a finished run has done: it reports on the executed hooks in order, each
   with its own result, and stops where `GoesOn` says so.
   */
  lemma RunExactly(
    rows: seq<Hook>, hooks: seq<Hook>, outcome: nat -> Outcome, rows': seq<Hook>, results: seq<HookResult>)
    requires Done(rows, hooks, outcome, rows', results)
    ensures var n := |results|;
      && n <= |hooks| && (hooks != [] ==> n > 0)
      && (forall i :: 0 <= i < n ==> results[i] == ResultOf(hooks[i], outcome(hooks[i].id)))
      && (forall i :: 0 <= i < n - 1 ==> GoesOn(hooks[i], outcome(hooks[i].id)))
      && (n < |hooks| ==> !GoesOn(hooks[n - 1], outcome(hooks[n - 1].id)))
  {
    ExecutesExactly(hooks, outcome, |results|);
  }

  /** What is reported for an executed hook, and when its status reaches the table. */
  lemma ResultExactly(h: Hook, o: Outcome)
    ensures var r := ResultOf(h, o);
      && r.id == h.id && r.name == h.name
      && match o
         case Succeeded(output) => r.status == Success && r.output == Truncate(output) && Persists(h, o)
         case Failed(output) => r.status == Failure && r.output == Truncate(output) && Persists(h, o)
         case ExecRaised => r.status == Failure && r.output == "" && (Persists(h, o) <==> h.group.phase == "pre_create")
  {
  }

  /** Which hooks a run goes through: the enabled ones of the sandbox and phase, by order and id. */
  lemma EnabledExactly(rows: seq<Hook>, g: Group)
    requires UniqueIds(rows)
    ensures forall h :: h in Enabled(rows, g) <==> h in rows && h.group == g && h.enabled
    ensures forall i, j :: 0 <= i < j < |Enabled(rows, g)| ==>
      var a, b := Enabled(rows, g)[i], Enabled(rows, g)[j];
      a.order < b.order || (a.order == b.order && a.id < b.id)
  {
    ListingIsSorted(rows, g);
    FilterMembers(Listing(rows, g), IsEnabled());
    FilterAscends(Listing(rows, g), IsEnabled());
    forall i, j | 0 <= i < j < |Enabled(rows, g)|
      ensures Before(Enabled(rows, g)[i], Enabled(rows, g)[j])
    {
      FollowsAt(Enabled(rows, g), i, j);
    }
  }

  lemma {:induction false} FilterAscends(s: seq<Hook>, keep: Hook -> bool)
    requires Ascending(s)
    ensures Ascending(Filter(s, keep))
  {
    if s != [] {
      var n := |s| - 1;
      var front := Filter(s[..n], keep);
      FrontMembers(s);
      FilterAscends(s[..n], keep);
      FilterMembers(s[..n], keep);
      if keep(s[n]) {
        forall i, j | 0 <= i < j < |front| + 1
          ensures Follows(front + [s[n]], i, j)
        {
          if j < |front| {
            assert Follows(front, i, j);
          } else {
            assert front[i] in s[..n];
            var k :| 0 <= k < n && s[k] == front[i];
            FollowsAt(s, k, n);
          }
        }
      }
    }
  }

  // ----- The service -----------------------------------------------------

  class BootHookService {
    var rows: seq<Hook>
    var nextId: nat

    constructor ()
      ensures rows == [] && nextId == 0 && Valid()
    {
      rows, nextId := [], 0;
    }

    ghost predicate Valid()
      reads this
    {
      UniqueIds(rows) && forall i :: 0 <= i < |rows| ==> rows[i].id < nextId
    }

    method Create(
      g: Group, name: string, command: string, timeout: int, order: Option<int>, enabled: bool, continueOnFailure: bool)
      returns (r: Result<Hook, HookError>)
      requires Valid()
      modifies this
      ensures Valid()
      ensures match CreateError(old(rows), g, name, command, timeout)
        case Some(e) => r == Err(e) && rows == old(rows) && nextId == old(nextId)
        case None => r.Ok? && rows == old(rows) + [r.value] && nextId == old(nextId) + 1
      ensures r.Ok? ==>
        r.value == Hook(old(nextId), g, name, command, timeout, r.value.order, enabled, continueOnFailure, None)
      ensures r.Ok? && order.Some? ==> r.value.order == order.value
      ensures r.Ok? && order.None? ==> Listing(rows, g) == Listing(old(rows), g) + [r.value]
    {
      var refused := CreateError(rows, g, name, command, timeout);
      if refused.Some? {
        return Err(refused.value);
      }
      var slot := if order.Some? then order.value else NextOrder(rows, g);
      var hook := Hook(nextId, g, name, command, timeout, slot, enabled, continueOnFailure, None);
      SnocUnique(rows, hook);
      if order.None? {
        CreateAppends(rows, hook, g);
      }
      rows, nextId := rows + [hook], nextId + 1;
      r := Ok(hook);
    }

    method Reorder(g: Group, ids: seq<nat>) returns (r: Result<seq<Hook>, HookError>)
      requires Valid()
      modifies this`rows
      ensures Valid()
      ensures r.Err? <==> (g.phase != PHASE_PRE && g.phase != PHASE_POST) || !MatchesGroup(old(rows), g, ids)
      ensures r.Err? ==> rows == old(rows)
      ensures r.Ok? ==> rows == Reordered(old(rows), ids) && Realises(rows, ids, r.value)
      ensures r.Ok? ==> Ids(Listing(rows, g)) == KeepLast(ids)
    {
      if g.phase != PHASE_PRE && g.phase != PHASE_POST {
        return Err(InvalidPhase);
      }
      if !MatchesGroup(rows, g, ids) {
        return Err(WrongIds);
      }
      ghost var was := rows;
      ReorderedListing(was, g, ids);
      ReorderedUnique(was, ids);
      ApplyOrder(g, ids);
      var updated := Reply(was, g, ids);
      r := Ok(updated);
    }

    method ApplyOrder(g: Group, ids: seq<nat>)
      requires UniqueIds(rows) && MatchesGroup(rows, g, ids)
      modifies this`rows
      ensures rows == Reordered(old(rows), ids)
    {
      ghost var was := rows;
      assert rows == Reordered(rows, ids[..0]);
      for index := 0 to |ids|
        invariant rows == Reordered(was, ids[..index])
      {
        HasRow(was, g, ids, index, ids[..index]);
        var k := FindRow(ids[index]);
        ReorderedNext(was, ids, index, k);
        rows := rows[k := rows[k].(order := index)];
      }
      assert ids[..|ids|] == ids;
    }

    method Reply(ghost was: seq<Hook>, g: Group, ids: seq<nat>) returns (updated: seq<Hook>)
      requires MatchesGroup(was, g, ids) && rows == Reordered(was, ids)
      ensures Realises(rows, ids, updated)
    {
      updated := [];
      for index := 0 to |ids|
        invariant Realises(rows, ids[..index], updated)
      {
        HasRow(was, g, ids, index, ids);
        var k := FindRow(ids[index]);
        updated := updated + [rows[k]];
      }
      assert ids[..|ids|] == ids;
    }

    /** `id_to_row[hook_id]`. */
    method FindRow(id: nat) returns (k: nat)
      requires id in Ids(rows)
      ensures k < |rows| && rows[k].id == id
    {
      k := 0;
      ghost var at :| 0 <= at < |rows| && Ids(rows)[at] == id;
      while rows[k].id != id
        invariant k <= at
        decreases |rows| - k
      {
        k := k + 1;
      }
    }

    method RunPreCreate(gateway: string, sandbox: string, outcome: nat -> Outcome)
      returns (results: seq<HookResult>, error: Option<string>)
      modifies this`rows
      ensures Done(old(rows), Enabled(old(rows), Group(gateway, sandbox, PHASE_PRE)), outcome, rows, results)
      ensures error.Some? <==> results != [] && results[|results| - 1].status.Failure?
      ensures error.Some? ==> error.value == results[|results| - 1].name
    {
      var hooks := Enabled(rows, Group(gateway, sandbox, PHASE_PRE));
      EnabledGroup(rows, Group(gateway, sandbox, PHASE_PRE));
      results, error := [], None;
      for i := 0 to |hooks|
        invariant Ran(old(rows), hooks, outcome, i, rows, results)
        invariant results != [] ==> results[|results| - 1].status.Success?
      {
        var hook := hooks[i];
        RanNext(old(rows), hooks, outcome, i, rows, results);
        var result := ResultOf(hook, outcome(hook.id));
        rows := WithStatus(rows, hook.id, result.status);
        results := results + [result];
        if result.status == Failure {
          error := Some(hook.name);
          return;
        }
      }
      RanAll(old(rows), hooks, outcome, rows, results);
    }

    method RunPostCreate(gateway: string, sandbox: string, available: bool, outcome: nat -> Outcome)
      returns (results: seq<HookResult>)
      modifies this`rows
      ensures !available ==> results == [] && rows == old(rows)
      ensures available ==>
        Done(old(rows), Enabled(old(rows), Group(gateway, sandbox, PHASE_POST)), outcome, rows, results)
    {
      results := [];
      if !available {
        return;
      }
      var hooks := Enabled(rows, Group(gateway, sandbox, PHASE_POST));
      EnabledGroup(rows, Group(gateway, sandbox, PHASE_POST));
      for i := 0 to |hooks|
        invariant Ran(old(rows), hooks, outcome, i, rows, results)
      {
        var hook := hooks[i];
        RanNext(old(rows), hooks, outcome, i, rows, results);
        var o := outcome(hook.id);
        var result := ResultOf(hook, o);
        if !o.ExecRaised? {
          rows := WithStatus(rows, hook.id, result.status);
        }
        results := results + [result];
        if result.status == Failure && !hook.continueOnFailure {
          return;
        }
      }
      RanAll(old(rows), hooks, outcome, rows, results);
    }
  }

  lemma SnocUnique(rows: seq<Hook>, h: Hook)
    requires UniqueIds(rows) && forall i :: 0 <= i < |rows| ==> rows[i].id < h.id
    ensures UniqueIds(rows + [h])
  {
    forall i, j | 0 <= i < j < |rows| + 1
      ensures Apart(rows + [h], i, j)
    {
      assert j < |rows| ==> Apart(rows, i, j);
    }
  }

  lemma HasRow(rows: seq<Hook>, g: Group, ids: seq<nat>, index: nat, done: seq<nat>)
    requires MatchesGroup(rows, g, ids) && index < |ids|
    ensures ids[index] in Ids(Reordered(rows, done))
  {
    assert ids[index] in ids;
    var k :| 0 <= k < |rows| && rows[k].id == ids[index] && rows[k].group == g;
    assert Ids(Reordered(rows, done))[k] == ids[index];
  }

  lemma ReorderedNext(rows: seq<Hook>, ids: seq<nat>, index: nat, k: nat)
    requires UniqueIds(rows) && index < |ids| && k < |rows| && rows[k].id == ids[index]
    ensures var before := Reordered(rows, ids[..index]);
      before[k := before[k].(order := index)] == Reordered(rows, ids[..index + 1])
  {
    var before, after := Reordered(rows, ids[..index]), Reordered(rows, ids[..index + 1]);
    assert ids[..index + 1][..index] == ids[..index];
    forall i | 0 <= i < |rows|
      ensures after[i] == before[k := before[k].(order := index)][i]
    {
      assert i < k ==> Apart(rows, i, k);
      assert k < i ==> Apart(rows, k, i);
      assert rows[i].id in ids[..index + 1] <==> rows[i].id in ids[..index] || rows[i].id == ids[index];
    }
  }

  lemma EnabledGroup(rows: seq<Hook>, g: Group)
    ensures forall i :: 0 <= i < |Enabled(rows, g)| ==> Enabled(rows, g)[i].group == g
  {
    var listing := Listing(rows, g);
    FilterMembers(rows, InGroup(g));
    SortedMembers(Filter(rows, InGroup(g)));
    FilterMembers(listing, IsEnabled());
    forall i | 0 <= i < |Enabled(rows, g)|
      ensures Enabled(rows, g)[i].group == g
    {
      assert Enabled(rows, g)[i] in Enabled(rows, g);
    }
  }

  lemma {:induction false} SortedMembers(s: seq<Hook>)
    ensures forall x :: x in Sorted(s) <==> x in s
  {
    if s != [] {
      var n := |s| - 1;
      SortedMembers(s[..n]);
      InsertMembers(Sorted(s[..n]), s[n]);
      assert s == s[..n] + [s[n]];
    }
  }

  // ----- Reordering, then running ----------------------------------------

  predicate EnabledId(rows: seq<Hook>, id: nat)
  {
    exists k :: 0 <= k < |rows| && rows[k].id == id && rows[k].enabled
  }

  function EnabledIn(rows: seq<Hook>): nat -> bool
  {
    (id: nat) => EnabledId(rows, id)
  }

  lemma {:induction false} IdsOfEnabled(rows: seq<Hook>, s: seq<Hook>)
    requires UniqueIds(rows) && forall h :: h in s ==> h in rows
    ensures Ids(Filter(s, IsEnabled())) == Filter(Ids(s), EnabledIn(rows))
  {
    if s != [] {
      var n := |s| - 1;
      IdsOfEnabled(rows, s[..n]);
      assert Ids(s)[..n] == Ids(s[..n]);
      assert s[n] in rows;
      var k :| 0 <= k < |rows| && rows[k] == s[n];
      if EnabledId(rows, s[n].id) {
        var m :| 0 <= m < |rows| && rows[m].id == s[n].id && rows[m].enabled;
        SameId(rows, rows[m], rows[k]);
      }
    }
  }

  lemma EnabledReordered(rows: seq<Hook>, ids: seq<nat>, id: nat)
    ensures EnabledId(Reordered(rows, ids), id) <==> EnabledId(rows, id)
  {
    var after := Reordered(rows, ids);
    if EnabledId(rows, id) {
      var k :| 0 <= k < |rows| && rows[k].id == id && rows[k].enabled;
      assert after[k].id == id && after[k].enabled;
    }
    if EnabledId(after, id) {
      var k :| 0 <= k < |after| && after[k].id == id && after[k].enabled;
      assert rows[k].id == id && rows[k].enabled;
    }
  }

  /** After `reorder` a run goes through the requested ids in order: last occurrences, enabled hooks only. */
  lemma RunOrderAfterReorder(rows: seq<Hook>, g: Group, ids: seq<nat>)
    requires UniqueIds(rows) && MatchesGroup(rows, g, ids)
    ensures Ids(Enabled(Reordered(rows, ids), g)) == Filter(KeepLast(ids), EnabledIn(rows))
  {
    var after := Reordered(rows, ids);
    ReorderedUnique(rows, ids);
    ReorderedListing(rows, g, ids);
    ListingIsSorted(after, g);
    IdsOfEnabled(after, Listing(after, g));
    forall id
      ensures EnabledId(after, id) <==> EnabledId(rows, id)
    {
      EnabledReordered(rows, ids, id);
    }
    FilterAgree(KeepLast(ids), EnabledIn(after), EnabledIn(rows));
  }

  /** The reply of `reorder` is the new listing exactly if no id was given twice (see `KeepLastAll`). */
  lemma ReorderReply(rows: seq<Hook>, g: Group, ids: seq<nat>, reply: seq<Hook>)
    requires UniqueIds(rows) && MatchesGroup(rows, g, ids) && Realises(Reordered(rows, ids), ids, reply)
    ensures reply == Listing(Reordered(rows, ids), g) <==> KeepLast(ids) == ids
  {
    var after := Reordered(rows, ids);
    ReorderedUnique(rows, ids);
    ReorderedListing(rows, g, ids);
    ListingIsSorted(after, g);
    IdsSame(after, ids, reply, Listing(after, g), KeepLast(ids));
  }

  lemma IdsSame(rows: seq<Hook>, ids: seq<nat>, s: seq<Hook>, t: seq<Hook>, ids': seq<nat>)
    requires UniqueIds(rows) && Realises(rows, ids, s) && Ids(t) == ids' && forall h :: h in t ==> h in rows
    ensures s == t <==> ids' == ids
  {
    assert Ids(s) == ids;
    if ids' == ids {
      assert |s| == |t|;
      forall i | 0 <= i < |s|
        ensures s[i] == t[i]
      {
        assert t[i] in t && Ids(t)[i] == t[i].id;
        SameId(rows, s[i], t[i]);
      }
    }
  }

  /** Nothing is dropped exactly if no id occurs twice. */
  lemma {:induction false} KeepLastAll(ids: seq<nat>)
    ensures |KeepLast(ids)| <= |ids|
    ensures KeepLast(ids) == ids <==> forall i, j :: 0 <= i < j < |ids| ==> ids[i] != ids[j]
  {
    if ids != [] {
      var tail := ids[1..];
      KeepLastAll(tail);
      if ids[0] in tail {
        var j :| 0 <= j < |tail| && tail[j] == ids[0];
        assert ids[0] == ids[j + 1];
      } else {
        assert ids == [ids[0]] + tail;
        if KeepLast(tail) == tail {
          forall i, j | 0 <= i < j < |ids|
            ensures ids[i] != ids[j]
          {
            assert ids[j] == tail[j - 1];
            assert i > 0 ==> ids[i] == tail[i - 1];
          }
        } else {
          var i, j :| 0 <= i < j < |tail| && tail[i] == tail[j];
          assert ids[i + 1] == ids[j + 1];
          assert KeepLast(ids)[1..] == KeepLast(tail);
        }
      }
    }
  }
}
