/**
 Whole runs of the approval workflow, seen from one chunk: what every
 interleaving of calls keeps, what calls that do not overlap guarantee, and
 exactly what goes wrong when calls overlap or fail half way.
 */
module QuorumRuns {
  import opened Wrappers
  import opened Seqs
  import opened Quorum

  // ----- Runs ------------------------------------------------------------

  predicate IsRun(s: System, steps: seq<Step>)
    decreases |steps|, 0
  {
    steps == [] || (IsRun(s, steps[..|steps| - 1]) && Enabled(Run(s, steps[..|steps| - 1]), steps[|steps| - 1]))
  }

  function Run(s: System, steps: seq<Step>): System
    requires IsRun(s, steps)
    decreases |steps|, 1
  {
    if steps == [] then s else Next(Run(s, steps[..|steps| - 1]), steps[|steps| - 1])
  }

  lemma RunSnoc(s: System, steps: seq<Step>, step: Step)
    requires IsRun(s, steps) && Enabled(Run(s, steps), step)
    ensures IsRun(s, steps + [step]) && Run(s, steps + [step]) == Next(Run(s, steps), step)
  {
    assert (steps + [step])[..|steps|] == steps;
  }

  function Rows(s: System, scope: Scope, chunk: string): seq<Decision>
  {
    Listed(s.store.decisions, scope, chunk)
  }

  predicate OnIt(c: Call, scope: Scope, chunk: string)
  {
    On(c.ballot, scope, chunk)
  }

  /** The step inserts a row on the chunk. */
  predicate Lands(s: System, step: Step, scope: Scope, chunk: string)
    requires Enabled(s, step)
  {
    step.Write? && OnIt(s.calls[step.call], scope, chunk) && WorkflowExists(s.store, s.calls[step.call])
  }

  /** The step leaves the chunk without rows. */
  predicate Empties(s: System, step: Step, scope: Scope, chunk: string)
    requires Enabled(s, step)
  {
    || (step.Finish? && OnIt(s.calls[step.call], scope, chunk) && Terminal(s.calls[step.call].stage.result))
    || (step.Deleted? && step.scope == scope)
  }

  function NewRow(s: System, call: nat): Decision
    requires call in s.calls
  {
    Decision(s.store.nextVote, s.calls[call].workflow.id, s.calls[call].ballot)
  }

  // ----- Kept by every interleaving --------------------------------------

  /** The call has inserted its row. */
  predicate Wrote(c: Call)
  {
    c.stage.Inserted? || c.stage.Tallied?
  }

  predicate SoundCall(s: Store, c: Call)
  {
    && (c.ballot.decision == APPROVE || c.ballot.decision == REJECT)
    && 1 <= c.workflow.requiredApprovals
    && (Wrote(c) ==> c.stage.vote < s.nextVote)
    && (c.stage.Tallied? ==> forall d :: d in c.stage.result.decisions ==> d.id < s.nextVote)
  }

  ghost predicate Sound(s: System)
  {
    WellKept(s.store) && forall id :: id in s.calls ==> SoundCall(s.store, s.calls[id])
  }

  lemma StartIsSound()
    ensures Sound(Start())
  {
  }

  lemma ClearKeepsWellKept(s: Store, scope: Scope, chunk: string)
    requires WellKept(s)
    ensures WellKept(Clear(s, scope, chunk))
  {
    FilterMembers(s.decisions, OffChunk(scope, chunk));
  }

  lemma InsertKeepsWellKept(s: Store, c: Call)
    requires WellKept(s) && WorkflowExists(s, c) && (c.ballot.decision == APPROVE || c.ballot.decision == REJECT)
    ensures WellKept(Insert(s, c.workflow.id, c.ballot))
  {
    var t := Insert(s, c.workflow.id, c.ballot);
    forall d | d in t.decisions
      ensures Owned(t, d)
    {
      assert d in s.decisions ==> Owned(s, d);
    }
  }

  lemma UpsertKeepsWellKept(s: Store, scope: Scope, n: int, roles: seq<string>, distinct: bool)
    requires WellKept(s) && 1 <= n
    ensures WellKept(Upsert(s, scope, n, roles, distinct).value)
  {
    var t := Upsert(s, scope, n, roles, distinct).value;
    forall d | d in t.decisions
      ensures Owned(t, d)
    {
      assert Owned(s, d);
    }
  }

  lemma NextKeepsWellKept(s: System, step: Step)
    requires Sound(s) && Enabled(s, step)
    ensures WellKept(Next(s, step).store)
  {
    match step
    case Open(_, _) =>
    case Admit(_) =>
    case Write(call) => if WorkflowExists(s.store, s.calls[call]) { InsertKeepsWellKept(s.store, s.calls[call]); }
    case Count(_) =>
    case Finish(call) => ClearKeepsWellKept(s.store, s.calls[call].ballot.scope, s.calls[call].ballot.chunk);
    case Fail(_) =>
    case Upserted(scope, n, roles, distinct) => if 1 <= n { UpsertKeepsWellKept(s.store, scope, n, roles, distinct); }
    case Deleted(scope) => DeleteKeepsWellKept(s.store, scope);
  }

  lemma CountIsSound(s: System, call: nat)
    requires Sound(s) && Enabled(s, Count(call))
    ensures SoundCall(s.store, Next(s, Count(call)).calls[call])
  {
    var b := s.calls[call].ballot;
    FilterMembers(s.store.decisions, OnChunk(b.scope, b.chunk));
  }

  lemma NextKeepsSound(s: System, step: Step)
    requires Sound(s) && Enabled(s, step)
    ensures Sound(Next(s, step)) && s.store.nextVote <= Next(s, step).store.nextVote
  {
    NextKeepsWellKept(s, step);
    if step.Count? {
      CountIsSound(s, step.call);
    }
  }

  lemma {:induction false} RunKeepsSound(s: System, steps: seq<Step>)
    requires Sound(s) && IsRun(s, steps)
    ensures Sound(Run(s, steps)) && s.store.nextVote <= Run(s, steps).store.nextVote
  {
    if steps != [] {
      RunKeepsSound(s, steps[..|steps| - 1]);
      NextKeepsSound(Run(s, steps[..|steps| - 1]), steps[|steps| - 1]);
    }
  }

  /** Every state reached from the empty store is sound. */
  lemma ReachableIsSound(steps: seq<Step>)
    requires IsRun(Start(), steps)
    ensures Sound(Run(Start(), steps))
  {
    StartIsSound();
    RunKeepsSound(Start(), steps);
  }

  predicate Quiet(s: System, scope: Scope, chunk: string)
  {
    forall id :: id in s.calls ==> !OnIt(s.calls[id], scope, chunk)
  }

  // ----- The rows of one chunk -------------------------------------------

  lemma StepRows(s: System, step: Step, scope: Scope, chunk: string)
    requires Sound(s) && Enabled(s, step)
    ensures Rows(Next(s, step), scope, chunk)
         == if Empties(s, step, scope, chunk) then []
            else if Lands(s, step, scope, chunk) then Rows(s, scope, chunk) + [NewRow(s, step.call)]
            else Rows(s, scope, chunk)
  {
    match step
    case Open(_, _) =>
    case Admit(_) =>
    case Write(call) => RowsSplit(s.store, s.calls[call].workflow.id, s.calls[call].ballot, scope, chunk);
    case Count(_) =>
    case Finish(call) =>
      var b := s.calls[call].ballot;
      ClearedRows(s.store.decisions, b.scope, b.chunk, scope, chunk);
    case Fail(_) =>
    case Upserted(_, _, _, _) =>
    case Deleted(sc) => DeleteCascades(s.store, sc, scope, chunk);
  }

  lemma RowsOnChunk(s: System, scope: Scope, chunk: string)
    ensures var rows := Rows(s, scope, chunk);
      forall i :: 0 <= i < |rows| ==> rows[i].ballot.scope == scope && rows[i].ballot.chunk == chunk
  {
    FilterMembers(s.store.decisions, OnChunk(scope, chunk));
    var rows := Rows(s, scope, chunk);
    forall i | 0 <= i < |rows|
      ensures On(rows[i].ballot, scope, chunk)
    {
      assert rows[i] in rows;
    }
  }

  /** Rows have keys already used, and are approvals or rejects. */
  lemma RowsOwned(s: System, scope: Scope, chunk: string)
    requires Sound(s)
    ensures forall d :: d in Rows(s, scope, chunk) ==>
      d.id < s.store.nextVote && (d.ballot.decision == APPROVE || d.ballot.decision == REJECT)
  {
    FilterMembers(s.store.decisions, OnChunk(scope, chunk));
    forall d | d in Rows(s, scope, chunk)
      ensures Owned(s.store, d)
    {
      assert d in s.store.decisions;
    }
  }

  /** Whether a run empties the chunk. */
  predicate Emptied(s: System, steps: seq<Step>, scope: Scope, chunk: string)
    requires IsRun(s, steps)
  {
    steps != [] &&
    (var front, last := steps[..|steps| - 1], steps[|steps| - 1];
     Empties(Run(s, front), last, scope, chunk) || Emptied(s, front, scope, chunk))
  }

  predicate AllSince(rows: seq<Decision>, vote: nat)
  {
    forall i :: 0 <= i < |rows| ==> vote <= rows[i].id
  }

  /** Rows are only ever added, until the chunk is emptied and starts over with new ones. */
  lemma {:induction false} RowsOfRun(s: System, steps: seq<Step>, scope: Scope, chunk: string)
    requires Sound(s) && IsRun(s, steps)
    ensures var rows, rows' := Rows(s, scope, chunk), Rows(Run(s, steps), scope, chunk);
      if Emptied(s, steps, scope, chunk) then AllSince(rows', s.store.nextVote) else rows <= rows'
  {
    if steps != [] {
      var front, last := steps[..|steps| - 1], steps[|steps| - 1];
      RowsOfRun(s, front, scope, chunk);
      RunKeepsSound(s, front);
      StepRows(Run(s, front), last, scope, chunk);
    }
  }

  // ----- Calls that fail half way ----------------------------------------

  /** A call on the chunk fails after its insert, which stays. */
  predicate Abandons(s: System, step: Step, scope: Scope, chunk: string)
    requires Enabled(s, step)
  {
    step.Fail? && OnIt(s.calls[step.call], scope, chunk) && Wrote(s.calls[step.call])
  }

  /** Some call of the run does. */
  predicate Abandoned(s: System, steps: seq<Step>, scope: Scope, chunk: string)
    requires IsRun(s, steps)
  {
    steps != [] &&
    (var front, last := steps[..|steps| - 1], steps[|steps| - 1];
     Abandons(Run(s, front), last, scope, chunk) || Abandoned(s, front, scope, chunk))
  }

  /** The call that inserted the row with this key has failed. */
  predicate FailedWith(s: System, steps: seq<Step>, vote: nat, scope: Scope, chunk: string)
    requires IsRun(s, steps)
  {
    steps != [] &&
    (var front, last := steps[..|steps| - 1], steps[|steps| - 1];
     var now := Run(s, front);
     || (Abandons(now, last, scope, chunk) && now.calls[last.call].stage.vote == vote)
     || FailedWith(s, front, vote, scope, chunk))
  }

  /** The step inserts a reject under this key. */
  predicate LandsReject(s: System, step: Step, vote: nat, scope: Scope, chunk: string)
    requires Enabled(s, step)
  {
    Lands(s, step, scope, chunk) && s.calls[step.call].ballot.decision == REJECT && s.store.nextVote == vote
  }

  /** A reject has been inserted under this key, and nothing has emptied the chunk since. */
  predicate RejectSince(s: System, steps: seq<Step>, vote: nat, scope: Scope, chunk: string)
    requires IsRun(s, steps)
  {
    steps != [] &&
    (var front, last := steps[..|steps| - 1], steps[|steps| - 1];
     var now := Run(s, front);
     && !Empties(now, last, scope, chunk)
     && (LandsReject(now, last, vote, scope, chunk) || RejectSince(s, front, vote, scope, chunk)))
  }

  /** A call that is still going to clear the reject with this key. */
  predicate WillClear(c: Call, vote: nat, scope: Scope, chunk: string)
  {
    && OnIt(c, scope, chunk) && Wrote(c) && c.stage.vote == vote
    && (c.stage.Tallied? ==> c.stage.result.rejectSeen)
  }

  ghost predicate RejectPending(s: System, vote: nat, scope: Scope, chunk: string)
  {
    exists id :: id in s.calls && WillClear(s.calls[id], vote, scope, chunk)
  }

  predicate IsReject(d: Decision, vote: nat)
  {
    d.id == vote && d.ballot.decision == REJECT
  }

  predicate HoldsReject(rows: seq<Decision>, vote: nat)
  {
    exists i :: 0 <= i < |rows| && IsReject(rows[i], vote)
  }

  lemma HoldsRejectSnoc(rows: seq<Decision>, d: Decision, vote: nat)
    ensures HoldsReject(rows + [d], vote) <==> HoldsReject(rows, vote) || IsReject(d, vote)
  {
    assert (rows + [d])[|rows|] == d;
    if i :| 0 <= i < |rows| && IsReject(rows[i], vote) {
      assert IsReject((rows + [d])[i], vote);
    }
  }

  /** The rejects of a chunk are those inserted since it was last emptied. */
  lemma {:induction false} RejectSinceStored(s: System, steps: seq<Step>, vote: nat, scope: Scope, chunk: string)
    requires Sound(s) && IsRun(s, steps) && !HasReject(Rows(s, scope, chunk))
    ensures HoldsReject(Rows(Run(s, steps), scope, chunk), vote) <==> RejectSince(s, steps, vote, scope, chunk)
  {
    if steps != [] {
      var front, last := steps[..|steps| - 1], steps[|steps| - 1];
      var now := Run(s, front);
      RejectSinceStored(s, front, vote, scope, chunk);
      RunKeepsSound(s, front);
      StepRows(now, last, scope, chunk);
      if Lands(now, last, scope, chunk) {
        HoldsRejectSnoc(Rows(now, scope, chunk), NewRow(now, last.call), vote);
      }
    }
  }

  /** Counting sees a reject that is stored. */
  lemma CountSeesReject(s: System, call: nat, vote: nat, scope: Scope, chunk: string)
    requires Enabled(s, Count(call)) && WillClear(s.calls[call], vote, scope, chunk)
    requires HoldsReject(Rows(s, scope, chunk), vote)
    ensures WillClear(Next(s, Count(call)).calls[call], vote, scope, chunk)
  {
  }

  lemma StepKeepsPending(s: System, step: Step, id: nat, vote: nat, scope: Scope, chunk: string)
    requires Enabled(s, step) && id in s.calls && WillClear(s.calls[id], vote, scope, chunk)
    requires HoldsReject(Rows(s, scope, chunk), vote) && !Empties(s, step, scope, chunk)
    ensures RejectPending(Next(s, step), vote, scope, chunk)
         || (Abandons(s, step, scope, chunk) && s.calls[step.call].stage.vote == vote)
  {
    if step == Count(id) {
      CountSeesReject(s, id, vote, scope, chunk);
    }
    if step != Fail(id) {
      assert id in Next(s, step).calls && WillClear(Next(s, step).calls[id], vote, scope, chunk);
    }
  }

  /** The call that inserted a stored reject has failed, or is still going to clear it. */
  lemma {:induction false} RejectTracked(s: System, steps: seq<Step>, vote: nat, scope: Scope, chunk: string)
    requires Sound(s) && IsRun(s, steps) && !HasReject(Rows(s, scope, chunk))
    requires RejectSince(s, steps, vote, scope, chunk)
    ensures FailedWith(s, steps, vote, scope, chunk) || RejectPending(Run(s, steps), vote, scope, chunk)
  {
    var front, last := steps[..|steps| - 1], steps[|steps| - 1];
    var now := Run(s, front);
    if RejectSince(s, front, vote, scope, chunk) {
      RejectTracked(s, front, vote, scope, chunk);
      RejectSinceStored(s, front, vote, scope, chunk);
      if !FailedWith(s, front, vote, scope, chunk) {
        var id :| id in now.calls && WillClear(now.calls[id], vote, scope, chunk);
        StepKeepsPending(now, last, id, vote, scope, chunk);
      }
    } else {
      assert WillClear(Next(now, last).calls[last.call], vote, scope, chunk);
    }
  }

  /** A reject that its failed call has left behind. */
  predicate LeftBehind(s: System, steps: seq<Step>, vote: nat, scope: Scope, chunk: string)
    requires IsRun(s, steps)
  {
    RejectSince(s, steps, vote, scope, chunk) && FailedWith(s, steps, vote, scope, chunk)
  }

  /**
   When a chunk that no call is working on holds a reject: exactly if a call
   inserted one and failed before it was done, and nothing has emptied the chunk
   since the insert.
   */
  lemma LeftRejectExactly(s: System, steps: seq<Step>, scope: Scope, chunk: string)
    requires Sound(s) && IsRun(s, steps) && !HasReject(Rows(s, scope, chunk))
    requires Quiet(Run(s, steps), scope, chunk)
    ensures HasReject(Rows(Run(s, steps), scope, chunk)) <==> exists vote :: LeftBehind(s, steps, vote, scope, chunk)
  {
    var rows := Rows(Run(s, steps), scope, chunk);
    if i :| 0 <= i < |rows| && rows[i].ballot.decision == REJECT {
      assert IsReject(rows[i], rows[i].id);
      RejectSinceStored(s, steps, rows[i].id, scope, chunk);
      RejectTracked(s, steps, rows[i].id, scope, chunk);
      assert LeftBehind(s, steps, rows[i].id, scope, chunk);
    }
    if vote :| LeftBehind(s, steps, vote, scope, chunk) {
      RejectSinceStored(s, steps, vote, scope, chunk);
    }
  }

  lemma {:induction false} FailedIsAbandoned(s: System, steps: seq<Step>, vote: nat, scope: Scope, chunk: string)
    requires IsRun(s, steps) && FailedWith(s, steps, vote, scope, chunk)
    ensures Abandoned(s, steps, scope, chunk)
  {
    if FailedWith(s, steps[..|steps| - 1], vote, scope, chunk) {
      FailedIsAbandoned(s, steps[..|steps| - 1], vote, scope, chunk);
    }
  }

  /** In every run from the empty store in which no call fails half way, a chunk at rest holds approvals only. */
  lemma NoRejectIsLeft(steps: seq<Step>, scope: Scope, chunk: string)
    requires IsRun(Start(), steps) && Quiet(Run(Start(), steps), scope, chunk)
    requires !Abandoned(Start(), steps, scope, chunk)
    ensures AllApprove(Rows(Run(Start(), steps), scope, chunk))
  {
    StartIsSound();
    ReachableIsSound(steps);
    LeftRejectExactly(Start(), steps, scope, chunk);
    if vote :| LeftBehind(Start(), steps, vote, scope, chunk) {
      FailedIsAbandoned(Start(), steps, vote, scope, chunk);
    }
    RowsOwned(Run(Start(), steps), scope, chunk);
  }

  // ----- Where the approvals go ------------------------------------------

  /**
   Approvals recorded, tallies met, and what became of the approvals cleared:
   consumed by a met quorum, discarded by a reject, lost because no tally had
   counted them, dropped with their workflow. `counted` is how many of the
   chunk's rows some tally has counted; rows are only ever appended.
   */
  datatype Ledger = Ledger(
    recorded: nat,
    firings: nat,
    consumed: nat,
    rejected: nat,
    lost: nat,
    dropped: nat,
    counted: nat)

  const EMPTY_LEDGER := Ledger(0, 0, 0, 0, 0, 0, 0)

  function Approved(s: System, scope: Scope, chunk: string): nat
  {
    |Approvals(Rows(s, scope, chunk))|
  }

  function Older(rows: seq<Decision>, n: nat): seq<Decision>
  {
    if n <= |rows| then rows[..n] else rows
  }

  function Newer(rows: seq<Decision>, n: nat): seq<Decision>
  {
    if n <= |rows| then rows[n..] else []
  }

  function Account(s: System, l: Ledger, step: Step, scope: Scope, chunk: string): Ledger
    requires Enabled(s, step)
  {
    var rows := Rows(s, scope, chunk);
    var older, newer := |Approvals(Older(rows, l.counted))|, |Approvals(Newer(rows, l.counted))|;
    match step
    case Write(call) =>
      if Lands(s, step, scope, chunk) && s.calls[call].ballot.decision == APPROVE then l.(recorded := l.recorded + 1)
      else l
    case Count(call) =>
      if !OnIt(s.calls[call], scope, chunk) then l
      else if Next(s, step).calls[call].stage.result.quorumMet then l.(counted := |rows|, firings := l.firings + 1)
      else l.(counted := |rows|)
    case Finish(call) =>
      if !Empties(s, step, scope, chunk) then l
      else if s.calls[call].stage.result.quorumMet
      then l.(counted := 0, lost := l.lost + newer, consumed := l.consumed + older)
      else l.(counted := 0, lost := l.lost + newer, rejected := l.rejected + older)
    case Deleted(_) =>
      if Empties(s, step, scope, chunk) then l.(counted := 0, dropped := l.dropped + older + newer) else l
    case _ => l
  }

  function Accounts(s: System, steps: seq<Step>, scope: Scope, chunk: string): Ledger
    requires IsRun(s, steps)
  {
    if steps == [] then EMPTY_LEDGER
    else
      var front := steps[..|steps| - 1];
      Account(Run(s, front), Accounts(s, front, scope, chunk), steps[|steps| - 1], scope, chunk)
  }

  predicate Balanced(l: Ledger, start: nat, approved: nat)
  {
    start + l.recorded == l.consumed + l.rejected + l.lost + l.dropped + approved
  }

  lemma OlderNewer(rows: seq<Decision>, n: nat)
    ensures |Approvals(rows)| == |Approvals(Older(rows, n))| + |Approvals(Newer(rows, n))|
  {
    assert rows == Older(rows, n) + Newer(rows, n);
    FilterConcat(Older(rows, n), Newer(rows, n), IsApproval());
  }

  lemma StepBalances(s: System, l: Ledger, step: Step, scope: Scope, chunk: string, start: nat)
    requires Sound(s) && Enabled(s, step) && Balanced(l, start, Approved(s, scope, chunk))
    ensures Balanced(Account(s, l, step, scope, chunk), start, Approved(Next(s, step), scope, chunk))
  {
    StepRows(s, step, scope, chunk);
    OlderNewer(Rows(s, scope, chunk), l.counted);
    if Lands(s, step, scope, chunk) {
      FilterSnoc(Rows(s, scope, chunk), NewRow(s, step.call), IsApproval());
    }
  }

  /**
   Conservation over every interleaving, failures included: each approval
   recorded on a chunk was consumed by a met quorum, discarded by a reject, lost
   uncounted, dropped with its workflow, or is still stored.
   */
  lemma {:induction false} VotesConserved(s: System, steps: seq<Step>, scope: Scope, chunk: string)
    requires Sound(s) && IsRun(s, steps)
    ensures Balanced(Accounts(s, steps, scope, chunk), Approved(s, scope, chunk), Approved(Run(s, steps), scope, chunk))
  {
    if steps != [] {
      var front, last := steps[..|steps| - 1], steps[|steps| - 1];
      VotesConserved(s, front, scope, chunk);
      RunKeepsSound(s, front);
      StepBalances(Run(s, front), Accounts(s, front, scope, chunk), last, scope, chunk, Approved(s, scope, chunk));
    }
  }

  // ----- Lost votes ------------------------------------------------------

  /** A tally on the chunk. */
  predicate Tallies(s: System, step: Step, scope: Scope, chunk: string)
    requires Enabled(s, step)
  {
    step.Count? && OnIt(s.calls[step.call], scope, chunk)
  }

  /** Some tally of the run has counted the row. */
  predicate TalliedIn(s: System, steps: seq<Step>, d: Decision, scope: Scope, chunk: string)
    requires IsRun(s, steps)
  {
    steps != [] &&
    (var front, last := steps[..|steps| - 1], steps[|steps| - 1];
     || (Tallies(Run(s, front), last, scope, chunk) && d in Rows(Run(s, front), scope, chunk))
     || TalliedIn(s, front, d, scope, chunk))
  }

  lemma {:induction false} TalliedOld(s: System, steps: seq<Step>, d: Decision, scope: Scope, chunk: string)
    requires Sound(s) && IsRun(s, steps) && TalliedIn(s, steps, d, scope, chunk)
    ensures d.id < Run(s, steps).store.nextVote
  {
    var front, last := steps[..|steps| - 1], steps[|steps| - 1];
    RunKeepsSound(s, front);
    RowsOwned(Run(s, front), scope, chunk);
    NextKeepsSound(Run(s, front), last);
    if TalliedIn(s, front, d, scope, chunk) {
      TalliedOld(s, front, d, scope, chunk);
    }
  }

  ghost predicate CountedRight(s: System, steps: seq<Step>, counted: nat, scope: Scope, chunk: string)
    requires IsRun(s, steps)
  {
    var rows := Rows(Run(s, steps), scope, chunk);
    counted <= |rows| && forall i :: 0 <= i < |rows| ==> (i < counted <==> TalliedIn(s, steps, rows[i], scope, chunk))
  }

  lemma AccountCounted(s: System, l: Ledger, step: Step, scope: Scope, chunk: string)
    requires Enabled(s, step)
    ensures Account(s, l, step, scope, chunk).counted
         == if Empties(s, step, scope, chunk) then 0
            else if Tallies(s, step, scope, chunk) then |Rows(s, scope, chunk)|
            else l.counted
  {
  }

  lemma CountedNext(s: System, steps: seq<Step>, counted: nat, scope: Scope, chunk: string)
    requires Sound(s) && IsRun(s, steps) && steps != []
    requires CountedRight(s, steps[..|steps| - 1], counted, scope, chunk)
    ensures var now, last := Run(s, steps[..|steps| - 1]), steps[|steps| - 1];
      CountedRight(s, steps, if Empties(now, last, scope, chunk) then 0
                             else if Tallies(now, last, scope, chunk) then |Rows(now, scope, chunk)|
                             else counted, scope, chunk)
  {
    var front, last := steps[..|steps| - 1], steps[|steps| - 1];
    var now := Run(s, front);
    RunKeepsSound(s, front);
    StepRows(now, last, scope, chunk);
    if Lands(now, last, scope, chunk) && TalliedIn(s, front, NewRow(now, last.call), scope, chunk) {
      TalliedOld(s, front, NewRow(now, last.call), scope, chunk);
    }
  }

  /** The ledger counts exactly the rows that some tally of the run has counted. */
  lemma {:induction false} CountedExactly(s: System, steps: seq<Step>, scope: Scope, chunk: string)
    requires Sound(s) && IsRun(s, steps)
    ensures CountedRight(s, steps, Accounts(s, steps, scope, chunk).counted, scope, chunk)
  {
    if steps != [] {
      var front := steps[..|steps| - 1];
      CountedExactly(s, front, scope, chunk);
      CountedNext(s, steps, Accounts(s, front, scope, chunk).counted, scope, chunk);
      AccountCounted(Run(s, front), Accounts(s, front, scope, chunk), steps[|steps| - 1], scope, chunk);
    }
  }

  /** An approval that no tally of the run has counted. */
  function Overlooked(s: System, steps: seq<Step>, scope: Scope, chunk: string): Decision -> bool
    requires IsRun(s, steps)
  {
    (d: Decision) => d.ballot.decision == APPROVE && !TalliedIn(s, steps, d, scope, chunk)
  }

  lemma NewerOnly(rows: seq<Decision>, n: nat, keep: Decision -> bool)
    requires n <= |rows| && forall i :: 0 <= i < n ==> !keep(rows[i])
    requires forall i :: n <= i < |rows| ==> keep(rows[i]) == IsApproval()(rows[i])
    ensures Filter(rows, keep) == Approvals(Newer(rows, n))
  {
    var older, newer := rows[..n], rows[n..];
    assert rows == older + newer;
    FilterSecond(older, newer, keep, IsApproval());
  }

  lemma AccountLost(s: System, l: Ledger, step: Step, scope: Scope, chunk: string)
    requires Enabled(s, step)
    ensures Account(s, l, step, scope, chunk).lost
         == l.lost + if step.Finish? && Empties(s, step, scope, chunk)
                     then |Approvals(Newer(Rows(s, scope, chunk), l.counted))| else 0
  {
  }

  /** Votes are lost when a decided chunk is cleared, and exactly those that no tally has counted. */
  lemma LostExactly(s: System, steps: seq<Step>, call: nat, scope: Scope, chunk: string)
    requires Sound(s) && IsRun(s, steps) && Enabled(Run(s, steps), Finish(call))
    requires Empties(Run(s, steps), Finish(call), scope, chunk)
    ensures var t, l := Run(s, steps), Accounts(s, steps, scope, chunk);
      Account(t, l, Finish(call), scope, chunk).lost
      == l.lost + |Filter(Rows(t, scope, chunk), Overlooked(s, steps, scope, chunk))|
  {
    var l := Accounts(s, steps, scope, chunk);
    CountedExactly(s, steps, scope, chunk);
    NewerOnly(Rows(Run(s, steps), scope, chunk), l.counted, Overlooked(s, steps, scope, chunk));
    AccountLost(Run(s, steps), l, Finish(call), scope, chunk);
  }

  // ----- Calls that do not overlap ---------------------------------------

  /** Every call on the chunk starts when no other one is under way. */
  predicate NonOverlapping(s: System, steps: seq<Step>, scope: Scope, chunk: string)
    requires IsRun(s, steps)
  {
    steps == [] ||
    (var front, last := steps[..|steps| - 1], steps[|steps| - 1];
     && NonOverlapping(s, front, scope, chunk)
     && StartsAlone(Run(s, front), last, scope, chunk))
  }

  predicate StartsAlone(s: System, step: Step, scope: Scope, chunk: string)
  {
    step.Open? && On(step.ballot, scope, chunk) ==> Quiet(s, scope, chunk)
  }

  predicate OneAtATime(s: System, scope: Scope, chunk: string)
  {
    forall k, m :: k in s.calls && m in s.calls && OnIt(s.calls[k], scope, chunk) && OnIt(s.calls[m], scope, chunk)
      ==> k == m
  }

  /** At most one call is under way, and what it has counted is all there is. */
  predicate Settled(s: System, l: Ledger, scope: Scope, chunk: string)
  {
    && l.lost == 0 && OneAtATime(s, scope, chunk)
    && (forall k :: k in s.calls && OnIt(s.calls[k], scope, chunk) && s.calls[k].stage.Tallied?
          ==> l.counted == |Rows(s, scope, chunk)|)
  }

  lemma StepKeepsOne(s: System, step: Step, scope: Scope, chunk: string)
    requires Enabled(s, step) && OneAtATime(s, scope, chunk) && StartsAlone(s, step, scope, chunk)
    ensures OneAtATime(Next(s, step), scope, chunk)
  {
  }

  lemma StepSettles(s: System, l: Ledger, step: Step, scope: Scope, chunk: string)
    requires Sound(s) && Enabled(s, step) && Settled(s, l, scope, chunk) && StartsAlone(s, step, scope, chunk)
    ensures Settled(Next(s, step), Account(s, l, step, scope, chunk), scope, chunk)
  {
    StepKeepsOne(s, step, scope, chunk);
    StepRows(s, step, scope, chunk);
    AllCounted(Rows(s, scope, chunk));
    AccountCounted(s, l, step, scope, chunk);
    AccountLost(s, l, step, scope, chunk);
  }

  lemma AllCounted(rows: seq<Decision>)
    ensures Older(rows, |rows|) == rows && Newer(rows, |rows|) == []
  {
  }

  /** Calls that do not overlap lose no votes, even if some fail or workflows change. */
  lemma {:induction false} NothingLost(s: System, steps: seq<Step>, scope: Scope, chunk: string)
    requires Sound(s) && IsRun(s, steps) && NonOverlapping(s, steps, scope, chunk) && Quiet(s, scope, chunk)
    ensures Settled(Run(s, steps), Accounts(s, steps, scope, chunk), scope, chunk)
  {
    if steps != [] {
      var front, last := steps[..|steps| - 1], steps[|steps| - 1];
      NothingLost(s, front, scope, chunk);
      RunKeepsSound(s, front);
      StepSettles(Run(s, front), Accounts(s, front, scope, chunk), last, scope, chunk);
    }
  }

  /** Nothing in the run changes or deletes the workflow of the sandbox. */
  predicate Unchanged(steps: seq<Step>, scope: Scope)
  {
    forall i :: 0 <= i < |steps| && (steps[i].Upserted? || steps[i].Deleted?) ==> steps[i].scope != scope
  }

  predicate Different(rows: seq<Decision>, i: nat, j: nat)
    requires i < |rows| && j < |rows|
  {
    rows[i].ballot.actor != rows[j].ballot.actor
  }

  /** Votes from permitted roles and, if required, from different actors. */
  predicate Fair(w: Workflow, rows: seq<Decision>)
  {
    && (forall i :: 0 <= i < |rows| ==> w.requiredRoles == [] || rows[i].ballot.role in w.requiredRoles)
    && (w.distinctActors ==> forall i, j :: 0 <= i < j < |rows| ==> Different(rows, i, j))
  }

  predicate Backed(w: Workflow, rows: seq<Decision>)
  {
    AllApprove(rows) && Fair(w, rows)
  }

  /** Rows that still wait for more votes; if no call has failed half way, fewer approvals than the quorum. */
  predicate Collecting(w: Workflow, rows: seq<Decision>, kept: bool)
  {
    Fair(w, rows) && (kept ==> |rows| < w.requiredApprovals && AllApprove(rows))
  }

  predicate MayVote(w: Workflow, rows: seq<Decision>, b: Ballot)
  {
    Permitted(w, b.role) && (w.distinctActors ==> !HasActor(rows, b.actor))
  }

  /** The chunk's rows while a single call is at some stage. */
  predicate Underway(w: Workflow, rows: seq<Decision>, c: Call, kept: bool)
  {
    && c.workflow == w
    && match c.stage
       case Opened => Collecting(w, rows, kept) && Permitted(w, c.ballot.role)
       case Admitted => Collecting(w, rows, kept) && MayVote(w, rows, c.ballot)
       case Inserted(_) => JustVoted(w, rows, c.ballot, kept)
       case Tallied(_, result) => JustVoted(w, rows, c.ballot, kept) && result == Tally(w, rows)
  }

  predicate JustVoted(w: Workflow, rows: seq<Decision>, b: Ballot, kept: bool)
  {
    && rows != [] && rows[|rows| - 1].ballot == b
    && Collecting(w, rows[..|rows| - 1], kept) && MayVote(w, rows[..|rows| - 1], b)
  }

  predicate Alone(s: System, id: nat, scope: Scope, chunk: string)
  {
    id in s.calls && OnIt(s.calls[id], scope, chunk)
    && forall k :: k in s.calls && OnIt(s.calls[k], scope, chunk) ==> k == id
  }

  /** One call at a time, under the workflow as it is. */
  ghost predicate Serial(s: System, w: Workflow, scope: Scope, chunk: string, kept: bool)
  {
    && scope in s.store.workflows && s.store.workflows[scope] == w
    && ((Quiet(s, scope, chunk) && Collecting(w, Rows(s, scope, chunk), kept))
        || exists id :: Alone(s, id, scope, chunk) && Underway(w, Rows(s, scope, chunk), s.calls[id], kept))
  }

  /** Votes consumed by a number of firings of a quorum. */
  function Cost(n: int, firings: int): int
  {
    n * firings
  }

  /** A firing whose call has not cleared the chunk yet. */
  predicate Firing(s: System, scope: Scope, chunk: string)
  {
    exists id :: id in s.calls && OnIt(s.calls[id], scope, chunk) && s.calls[id].stage.Tallied?
                 && s.calls[id].stage.result.quorumMet
  }

  predicate Priced(s: System, l: Ledger, w: Workflow, scope: Scope, chunk: string)
  {
    l.dropped == 0
    && l.consumed == Cost(w.requiredApprovals, l.firings - if Firing(s, scope, chunk) then 1 else 0)
  }

  lemma VotedIsFair(w: Workflow, rows: seq<Decision>, b: Ballot, kept: bool)
    requires JustVoted(w, rows, b, kept)
    ensures Fair(w, rows)
  {
    var front := rows[..|rows| - 1];
    forall i, j | w.distinctActors && 0 <= i < j < |rows|
      ensures Different(rows, i, j)
    {
      if j < |front| {
        assert Different(front, i, j);
      } else {
        assert front[i].ballot.actor != b.actor;
      }
    }
  }

  lemma MetIsBacked(w: Workflow, rows: seq<Decision>, b: Ballot, kept: bool)
    requires JustVoted(w, rows, b, kept) && Tally(w, rows).quorumMet
    requires forall d :: d in rows ==> d.ballot.decision == APPROVE || d.ballot.decision == REJECT
    ensures Backed(w, rows) && w.requiredApprovals <= |rows| && |Approvals(rows)| == |rows|
    ensures kept ==> |rows| == w.requiredApprovals
  {
    VotedIsFair(w, rows, b, kept);
    forall i | 0 <= i < |rows|
      ensures rows[i].ballot.decision == APPROVE
    {
      assert rows[i] in rows;
    }
    FilterAll(rows, IsApproval());
  }

  lemma NotMetCollects(w: Workflow, rows: seq<Decision>, b: Ballot, kept: bool)
    requires JustVoted(w, rows, b, kept) && !Terminal(Tally(w, rows))
    requires forall d :: d in rows ==> d.ballot.decision == APPROVE || d.ballot.decision == REJECT
    ensures Collecting(w, rows, kept)
  {
    VotedIsFair(w, rows, b, kept);
    forall i | 0 <= i < |rows|
      ensures rows[i].ballot.decision == APPROVE
    {
      assert rows[i] in rows;
    }
    FilterAll(rows, IsApproval());
  }

  predicate OnIt'(s: System, k: nat, scope: Scope, chunk: string)
  {
    k in s.calls && OnIt(s.calls[k], scope, chunk)
  }

  /** The calls on the chunk are the same in both states. */
  ghost predicate SameCalls(s: System, t: System, scope: Scope, chunk: string)
  {
    && (forall k :: OnIt'(t, k, scope, chunk) == OnIt'(s, k, scope, chunk))
    && (forall k :: OnIt'(s, k, scope, chunk) ==> k in t.calls && t.calls[k] == s.calls[k])
  }

  lemma SameCallsSerial(s: System, t: System, w: Workflow, scope: Scope, chunk: string, kept: bool)
    requires SameCalls(s, t, scope, chunk) && Serial(s, w, scope, chunk, kept)
    requires Rows(t, scope, chunk) == Rows(s, scope, chunk)
    requires scope in t.store.workflows && t.store.workflows[scope] == w
    ensures Serial(t, w, scope, chunk, kept)
  {
    if id :| Alone(s, id, scope, chunk) && Underway(w, Rows(s, scope, chunk), s.calls[id], kept) {
      assert OnIt'(s, id, scope, chunk);
      assert Alone(t, id, scope, chunk) by {
        forall k | k in t.calls && OnIt(t.calls[k], scope, chunk)
          ensures k == id
        {
          assert OnIt'(t, k, scope, chunk) && OnIt'(s, k, scope, chunk);
        }
      }
    } else {
      assert Quiet(t, scope, chunk) by {
        forall k | k in t.calls
          ensures !OnIt(t.calls[k], scope, chunk)
        {
          assert OnIt'(t, k, scope, chunk) == OnIt'(s, k, scope, chunk);
        }
      }
    }
  }

  lemma SameCallsFiring(s: System, t: System, scope: Scope, chunk: string)
    requires SameCalls(s, t, scope, chunk)
    ensures Firing(t, scope, chunk) == Firing(s, scope, chunk)
  {
    if id :| id in s.calls && OnIt(s.calls[id], scope, chunk) && s.calls[id].stage.Tallied?
             && s.calls[id].stage.result.quorumMet {
      assert OnIt'(s, id, scope, chunk) && OnIt'(t, id, scope, chunk);
    }
    if id :| id in t.calls && OnIt(t.calls[id], scope, chunk) && t.calls[id].stage.Tallied?
             && t.calls[id].stage.result.quorumMet {
      assert OnIt'(t, id, scope, chunk) && OnIt'(s, id, scope, chunk);
    }
  }

  /** The step belongs to a call on the chunk. */
  predicate Own(s: System, step: Step, scope: Scope, chunk: string)
    requires Enabled(s, step)
  {
    (step.Admit? || step.Write? || step.Count? || step.Finish? || step.Fail?) && OnIt(s.calls[step.call], scope, chunk)
  }

  /** The step neither belongs to a call on the chunk nor changes the workflow of its sandbox. */
  predicate Elsewhere(s: System, step: Step, scope: Scope, chunk: string)
    requires Enabled(s, step)
  {
    && !Own(s, step, scope, chunk)
    && (step.Open? ==> !On(step.ballot, scope, chunk))
    && ((step.Upserted? || step.Deleted?) ==> step.scope != scope)
  }

  lemma ElsewhereKeepsCalls(s: System, step: Step, scope: Scope, chunk: string)
    requires Enabled(s, step) && Elsewhere(s, step, scope, chunk)
    ensures SameCalls(s, Next(s, step), scope, chunk)
  {
  }

  lemma ElsewhereKeepsWorkflow(s: System, step: Step, scope: Scope, chunk: string)
    requires Enabled(s, step) && Elsewhere(s, step, scope, chunk) && scope in s.store.workflows
    ensures var t := Next(s, step);
      scope in t.store.workflows && t.store.workflows[scope] == s.store.workflows[scope]
  {
  }

  lemma ElsewhereKeepsRows(s: System, l: Ledger, step: Step, scope: Scope, chunk: string)
    requires Sound(s) && Enabled(s, step) && Elsewhere(s, step, scope, chunk)
    ensures Rows(Next(s, step), scope, chunk) == Rows(s, scope, chunk) && Account(s, l, step, scope, chunk) == l
  {
    StepRows(s, step, scope, chunk);
  }

  lemma OpenStep(s: System, w: Workflow, call: nat, b: Ballot, scope: Scope, chunk: string, kept: bool)
    requires Sound(s) && Enabled(s, Open(call, b)) && Serial(s, w, scope, chunk, kept)
    requires On(b, scope, chunk) && Quiet(s, scope, chunk)
    ensures Serial(Next(s, Open(call, b)), w, scope, chunk, kept)
    ensures !Firing(Next(s, Open(call, b)), scope, chunk) && !Firing(s, scope, chunk)
  {
    var t := Next(s, Open(call, b));
    if Opening(s.store, b).Ok? {
      assert Alone(t, call, scope, chunk) && Underway(w, Rows(t, scope, chunk), t.calls[call], kept);
    }
  }

  /** The only call on the chunk. */
  lemma Only(s: System, w: Workflow, id: nat, scope: Scope, chunk: string, kept: bool)
    requires Serial(s, w, scope, chunk, kept) && id in s.calls && OnIt(s.calls[id], scope, chunk)
    ensures Alone(s, id, scope, chunk) && Underway(w, Rows(s, scope, chunk), s.calls[id], kept)
  {
  }

  lemma AdmitStep(s: System, w: Workflow, id: nat, scope: Scope, chunk: string, kept: bool)
    requires Sound(s) && Enabled(s, Admit(id)) && Serial(s, w, scope, chunk, kept) && OnIt(s.calls[id], scope, chunk)
    ensures Serial(Next(s, Admit(id)), w, scope, chunk, kept)
    ensures !Firing(s, scope, chunk) && !Firing(Next(s, Admit(id)), scope, chunk)
  {
    var t := Next(s, Admit(id));
    Only(s, w, id, scope, chunk, kept);
    if Repeated(s.store, w, s.calls[id].ballot) {
      assert Quiet(t, scope, chunk) by { GoneIsQuiet(s, t, id, scope, chunk); }
    } else {
      assert Alone(t, id, scope, chunk) && Underway(w, Rows(t, scope, chunk), t.calls[id], kept);
    }
  }

  lemma GoneIsQuiet(s: System, t: System, id: nat, scope: Scope, chunk: string)
    requires Alone(s, id, scope, chunk) && t.calls == s.calls - {id}
    ensures Quiet(t, scope, chunk)
  {
  }

  lemma WriteStep(s: System, w: Workflow, id: nat, scope: Scope, chunk: string, kept: bool)
    requires Sound(s) && Enabled(s, Write(id)) && Serial(s, w, scope, chunk, kept) && OnIt(s.calls[id], scope, chunk)
    ensures Serial(Next(s, Write(id)), w, scope, chunk, kept)
    ensures !Firing(s, scope, chunk) && !Firing(Next(s, Write(id)), scope, chunk)
  {
    var t, rows := Next(s, Write(id)), Rows(s, scope, chunk);
    Only(s, w, id, scope, chunk, kept);
    StepRows(s, Write(id), scope, chunk);
    assert (rows + [NewRow(s, id)])[..|rows|] == rows;
    assert Alone(t, id, scope, chunk) && Underway(w, Rows(t, scope, chunk), t.calls[id], kept);
  }

  lemma CountStep(s: System, w: Workflow, id: nat, scope: Scope, chunk: string, kept: bool)
    requires Sound(s) && Enabled(s, Count(id)) && Serial(s, w, scope, chunk, kept) && OnIt(s.calls[id], scope, chunk)
    ensures var t := Next(s, Count(id));
      && Serial(t, w, scope, chunk, kept) && !Firing(s, scope, chunk)
      && (Firing(t, scope, chunk) <==> t.calls[id].stage.result.quorumMet)
  {
    var t := Next(s, Count(id));
    Only(s, w, id, scope, chunk, kept);
    assert Alone(t, id, scope, chunk) && Underway(w, Rows(t, scope, chunk), t.calls[id], kept);
  }

  lemma FinishStep(s: System, w: Workflow, id: nat, scope: Scope, chunk: string, kept: bool)
    requires Sound(s) && Enabled(s, Finish(id)) && Serial(s, w, scope, chunk, kept) && OnIt(s.calls[id], scope, chunk)
    ensures Serial(Next(s, Finish(id)), w, scope, chunk, kept) && !Firing(Next(s, Finish(id)), scope, chunk)
    ensures Firing(s, scope, chunk) <==> s.calls[id].stage.result.quorumMet
    ensures kept && Firing(s, scope, chunk) ==> Approved(s, scope, chunk) == w.requiredApprovals
  {
    var t, rows, b := Next(s, Finish(id)), Rows(s, scope, chunk), s.calls[id].ballot;
    Only(s, w, id, scope, chunk, kept);
    StepRows(s, Finish(id), scope, chunk);
    RowsOwned(s, scope, chunk);
    if !Terminal(Tally(w, rows)) {
      NotMetCollects(w, rows, b, kept);
    } else if Tally(w, rows).quorumMet {
      MetIsBacked(w, rows, b, kept);
    }
    GoneIsQuiet(s, t, id, scope, chunk);
  }

  lemma FailStep(s: System, w: Workflow, id: nat, scope: Scope, chunk: string, kept: bool)
    requires Sound(s) && Enabled(s, Fail(id)) && Serial(s, w, scope, chunk, kept) && OnIt(s.calls[id], scope, chunk)
    ensures Serial(Next(s, Fail(id)), w, scope, chunk, kept && !Wrote(s.calls[id]))
    ensures !Firing(Next(s, Fail(id)), scope, chunk) && (!Wrote(s.calls[id]) ==> !Firing(s, scope, chunk))
  {
    Only(s, w, id, scope, chunk, kept);
    GoneIsQuiet(s, Next(s, Fail(id)), id, scope, chunk);
    if Wrote(s.calls[id]) {
      VotedIsFair(w, Rows(s, scope, chunk), s.calls[id].ballot, kept);
    }
  }

  /** Whether no call has failed half way after this step. */
  predicate StillKept(s: System, step: Step, scope: Scope, chunk: string, kept: bool)
    requires Enabled(s, step)
  {
    kept && !Abandons(s, step, scope, chunk)
  }

  lemma OwnStep(s: System, l: Ledger, w: Workflow, step: Step, scope: Scope, chunk: string, kept: bool)
    requires Sound(s) && Enabled(s, step) && Serial(s, w, scope, chunk, kept) && Settled(s, l, scope, chunk)
    requires kept ==> Priced(s, l, w, scope, chunk)
    requires Own(s, step, scope, chunk)
    ensures Serial(Next(s, step), w, scope, chunk, StillKept(s, step, scope, chunk, kept))
    ensures StillKept(s, step, scope, chunk, kept) ==>
      Priced(Next(s, step), Account(s, l, step, scope, chunk), w, scope, chunk)
  {
    match step
    case Admit(id) => AdmitStep(s, w, id, scope, chunk, kept);
    case Write(id) => WriteStep(s, w, id, scope, chunk, kept);
    case Count(id) => CountStep(s, w, id, scope, chunk, kept);
    case Finish(id) =>
      FinishStep(s, w, id, scope, chunk, kept);
      AllCounted(Rows(s, scope, chunk));
      CostOfOneMore(w.requiredApprovals, l.firings - 1);
    case Fail(id) => FailStep(s, w, id, scope, chunk, kept);
  }

  lemma ElsewhereStep(s: System, l: Ledger, w: Workflow, step: Step, scope: Scope, chunk: string, kept: bool)
    requires Sound(s) && Enabled(s, step) && Serial(s, w, scope, chunk, kept)
    requires kept ==> Priced(s, l, w, scope, chunk)
    requires Elsewhere(s, step, scope, chunk)
    ensures Serial(Next(s, step), w, scope, chunk, kept) && !Abandons(s, step, scope, chunk)
    ensures kept ==> Priced(Next(s, step), Account(s, l, step, scope, chunk), w, scope, chunk)
  {
    var t := Next(s, step);
    ElsewhereKeepsCalls(s, step, scope, chunk);
    ElsewhereKeepsWorkflow(s, step, scope, chunk);
    ElsewhereKeepsRows(s, l, step, scope, chunk);
    SameCallsSerial(s, t, w, scope, chunk, kept);
    SameCallsFiring(s, t, scope, chunk);
  }

  lemma SerialStep(s: System, l: Ledger, w: Workflow, step: Step, scope: Scope, chunk: string, kept: bool)
    requires Sound(s) && Enabled(s, step) && Serial(s, w, scope, chunk, kept) && Settled(s, l, scope, chunk)
    requires kept ==> Priced(s, l, w, scope, chunk)
    requires (step.Upserted? || step.Deleted?) ==> step.scope != scope
    requires StartsAlone(s, step, scope, chunk)
    ensures Serial(Next(s, step), w, scope, chunk, StillKept(s, step, scope, chunk, kept))
    ensures StillKept(s, step, scope, chunk, kept) ==>
      Priced(Next(s, step), Account(s, l, step, scope, chunk), w, scope, chunk)
  {
    if Own(s, step, scope, chunk) {
      OwnStep(s, l, w, step, scope, chunk, kept);
    } else if step.Open? && On(step.ballot, scope, chunk) {
      OpenStep(s, w, step.call, step.ballot, scope, chunk, kept);
    } else {
      ElsewhereStep(s, l, w, step, scope, chunk, kept);
    }
  }

  lemma CostOfOneMore(n: int, firings: int)
    ensures Cost(n, firings + 1) == Cost(n, firings) + n
  {
    assert n * (firings + 1) == n * firings + n;
  }

  lemma {:induction false} SerialRun(s: System, w: Workflow, steps: seq<Step>, scope: Scope, chunk: string)
    requires Sound(s) && IsRun(s, steps) && NonOverlapping(s, steps, scope, chunk) && Unchanged(steps, scope)
    requires Serial(s, w, scope, chunk, true) && Quiet(s, scope, chunk)
    ensures Serial(Run(s, steps), w, scope, chunk, !Abandoned(s, steps, scope, chunk))
    ensures !Abandoned(s, steps, scope, chunk) ==>
      Priced(Run(s, steps), Accounts(s, steps, scope, chunk), w, scope, chunk)
  {
    if steps == [] {
      assert Cost(w.requiredApprovals, 0) == 0;
    } else {
      var front, last := steps[..|steps| - 1], steps[|steps| - 1];
      SerialRun(s, w, front, scope, chunk);
      RunKeepsSound(s, front);
      NothingLost(s, front, scope, chunk);
      SerialStep(Run(s, front), Accounts(s, front, scope, chunk), w, last, scope, chunk,
                 !Abandoned(s, front, scope, chunk));
    }
  }

  /** Approvals recorded: the quorum for each firing, those a reject discarded, and those still waiting. */
  predicate Conserved(l: Ledger, n: int, rows: seq<Decision>)
  {
    l.recorded == Cost(n, l.firings) + l.rejected + |rows| && |rows| < n && AllApprove(rows)
  }

  lemma QuietAgain(s: System, l: Ledger, w: Workflow, scope: Scope, chunk: string)
    requires Serial(s, w, scope, chunk, true) && Quiet(s, scope, chunk) && Priced(s, l, w, scope, chunk)
    requires Balanced(l, 0, Approved(s, scope, chunk)) && l.lost == 0
    ensures Conserved(l, w.requiredApprovals, Rows(s, scope, chunk))
  {
    FilterAll(Rows(s, scope, chunk), IsApproval());
  }

  lemma EmptyIsSerial(s: System, scope: Scope, chunk: string)
    requires Sound(s) && scope in s.store.workflows && Quiet(s, scope, chunk) && Rows(s, scope, chunk) == []
    ensures Serial(s, s.store.workflows[scope], scope, chunk, true) && Approved(s, scope, chunk) == 0
  {
  }

  /**
   Quorum conservation. Under a fixed workflow and with calls on the chunk that
   neither overlap nor fail half way: the approvals recorded are the quorum times
   the firings, plus those a reject discarded, plus those still stored, which are
   fewer than a quorum. Calls on other chunks may do anything.
   */
  lemma QuorumConservation(s: System, steps: seq<Step>, scope: Scope, chunk: string)
    requires Sound(s) && IsRun(s, steps) && NonOverlapping(s, steps, scope, chunk) && Unchanged(steps, scope)
    requires scope in s.store.workflows && Quiet(s, scope, chunk) && Rows(s, scope, chunk) == []
    requires Quiet(Run(s, steps), scope, chunk) && !Abandoned(s, steps, scope, chunk)
    ensures Conserved(
      Accounts(s, steps, scope, chunk), s.store.workflows[scope].requiredApprovals, Rows(Run(s, steps), scope, chunk))
  {
    EmptyIsSerial(s, scope, chunk);
    SerialRun(s, s.store.workflows[scope], steps, scope, chunk);
    VotesConserved(s, steps, scope, chunk);
    NothingLost(s, steps, scope, chunk);
    QuietAgain(Run(s, steps), Accounts(s, steps, scope, chunk), s.store.workflows[scope], scope, chunk);
  }

  /**
   With calls on the chunk that do not overlap, whether or not some fail: every
   met tally is backed by at least the required number of approvals, from
   permitted roles and, when the workflow asks for it, from that many different
   actors; by exactly that number if no call has failed half way.
   */
  lemma EveryFiringIsBacked(s: System, steps: seq<Step>, scope: Scope, chunk: string, id: nat)
    requires Sound(s) && IsRun(s, steps) && NonOverlapping(s, steps, scope, chunk) && Unchanged(steps, scope)
    requires scope in s.store.workflows && Quiet(s, scope, chunk) && Rows(s, scope, chunk) == []
    requires var t := Run(s, steps);
      && id in t.calls && OnIt(t.calls[id], scope, chunk)
      && t.calls[id].stage.Tallied? && t.calls[id].stage.result.quorumMet
    ensures var w, rows := s.store.workflows[scope], Run(s, steps).calls[id].stage.result.decisions;
      && Backed(w, rows) && CheckQuorum(w.requiredApprovals, rows) && w.requiredApprovals <= |rows|
      && (forall i :: 0 <= i < |rows| ==> rows[i].ballot.scope == scope && rows[i].ballot.chunk == chunk)
      && (!Abandoned(s, steps, scope, chunk) ==> |rows| == w.requiredApprovals)
  {
    var w, t, kept := s.store.workflows[scope], Run(s, steps), !Abandoned(s, steps, scope, chunk);
    EmptyIsSerial(s, scope, chunk);
    SerialRun(s, w, steps, scope, chunk);
    Only(t, w, id, scope, chunk, kept);
    RunKeepsSound(s, steps);
    RowsOwned(t, scope, chunk);
    RowsOnChunk(t, scope, chunk);
    MetIsBacked(w, Rows(t, scope, chunk), t.calls[id].ballot, kept);
  }

  lemma StepTo(s: System, steps: seq<Step>, step: Step, t: System)
    requires IsRun(s, steps) && Enabled(Run(s, steps), step) && Next(Run(s, steps), step) == t
    ensures IsRun(s, steps + [step]) && Run(s, steps + [step]) == t
  {
    RunSnoc(s, steps, step);
  }

  lemma RunTwo(s: System, steps: seq<Step>, a: Step, b: Step)
    requires IsRun(s, steps) && Enabled(Run(s, steps), a) && Enabled(Next(Run(s, steps), a), b)
    ensures IsRun(s, steps + [a, b]) && Run(s, steps + [a, b]) == Next(Next(Run(s, steps), a), b)
  {
    RunSnoc(s, steps, a);
    RunSnoc(s, steps + [a], b);
    assert steps + [a, b] == (steps + [a]) + [b];
  }

  /** A call that has passed every check with nothing in between. */
  lemma Undisturbed(s: System, call: nat, b: Ballot)
    requires call !in s.calls && Admission(s.store, b).Ok?
    ensures var steps := [Open(call, b), Admit(call)];
      && IsRun(s, steps)
      && Run(s, steps) == s.(calls := s.calls[call := Call(b, Admission(s.store, b).value, Admitted)])
  {
    RunTwo(s, [], Open(call, b), Admit(call));
    assert [] + [Open(call, b), Admit(call)] == [Open(call, b), Admit(call)];
  }

  function CallAlone(call: nat, b: Ballot): seq<Step>
  {
    [Open(call, b), Admit(call)] + [Write(call)] + [Count(call)]
  }

  lemma UndisturbedCounts(s: System, call: nat, b: Ballot)
    requires call !in s.calls && Admission(s.store, b).Ok?
    ensures var w, store := Admission(s.store, b).value, s.store;
      var voted := Insert(store, w.id, b);
      var result := Tally(w, Listed(voted.decisions, b.scope, b.chunk));
      && IsRun(s, CallAlone(call, b))
      && Run(s, CallAlone(call, b)) == System(voted, s.calls[call := Call(b, w, Tallied(store.nextVote, result))])
  {
    var w, store := Admission(s.store, b).value, s.store;
    var voted := Insert(store, w.id, b);
    var result := Tally(w, Listed(voted.decisions, b.scope, b.chunk));
    var written := System(voted, s.calls[call := Call(b, w, Inserted(store.nextVote))]);
    var counted := System(voted, s.calls[call := Call(b, w, Tallied(store.nextVote, result))]);
    Undisturbed(s, call, b);
    StepTo(s, [Open(call, b), Admit(call)], Write(call), written);
    StepTo(s, [Open(call, b), Admit(call)] + [Write(call)], Count(call), counted);
  }

  /** A call during which no other step happens is the atomic vote. */
  lemma UndisturbedCallIsVote(s: System, call: nat, b: Ballot)
    requires call !in s.calls && Admission(s.store, b).Ok?
    ensures var steps := CallAlone(call, b);
      && IsRun(s, steps) && Enabled(Run(s, steps), Finish(call))
      && Vote(s.store, b) == (Next(Run(s, steps), Finish(call)).store, Ok(Run(s, steps).calls[call].stage.result))
  {
    UndisturbedCounts(s, call, b);
  }

  // ----- Two firings on the same votes -----------------------------------

  predicate Share(a: seq<Decision>, b: seq<Decision>)
  {
    exists i, j :: 0 <= i < |a| && 0 <= j < |b| && a[i] == b[j]
  }

  /** The call has just counted the chunk as it is, and its quorum is met. */
  predicate HasFired(s: System, p: nat, scope: Scope, chunk: string)
  {
    && p in s.calls && OnIt(s.calls[p], scope, chunk) && s.calls[p].stage.Tallied?
    && s.calls[p].stage.result == Tally(s.calls[p].workflow, Rows(s, scope, chunk))
    && s.calls[p].stage.result.quorumMet
  }

  predicate AboutToCount(s: System, q: nat, scope: Scope, chunk: string)
  {
    q in s.calls && OnIt(s.calls[q], scope, chunk) && s.calls[q].stage.Inserted?
  }

  /**
   Double firing, exactly. After one call's tally has met its quorum, another
   call fires on votes that the first one has counted exactly if its tally comes
   before anything empties the chunk, and the stored approvals reach its own
   quorum with no reject among them.
   */
  lemma DoubleFiringExactly(s: System, steps: seq<Step>, p: nat, q: nat, scope: Scope, chunk: string)
    requires Sound(s) && IsRun(s, steps)
    requires HasFired(s, p, scope, chunk) && AboutToCount(Run(s, steps), q, scope, chunk)
    ensures var t := Run(s, steps);
      var w, rows := t.calls[q].workflow, Rows(t, scope, chunk);
      var first, second := s.calls[p].stage.result, Next(t, Count(q)).calls[q].stage.result;
      second.quorumMet && Share(first.decisions, second.decisions)
      <==> !Emptied(s, steps, scope, chunk) && !HasReject(rows) && |Approvals(rows)| >= w.requiredApprovals
  {
    var t := Run(s, steps);
    var before, rows := Rows(s, scope, chunk), Rows(t, scope, chunk);
    RowsOfRun(s, steps, scope, chunk);
    assert SoundCall(s.store, s.calls[p]);
    assert |Approvals(before)| >= 1;
    assert before != [];
    if Emptied(s, steps, scope, chunk) {
      forall i, j | 0 <= i < |before| && 0 <= j < |rows|
        ensures before[i] != rows[j]
      {
        assert before[i] in s.calls[p].stage.result.decisions;
      }
    } else {
      assert before[0] == rows[0];
    }
  }

  lemma {:induction false} ApprovalsGrow(rows: seq<Decision>, more: seq<Decision>)
    requires rows <= more
    ensures |Approvals(rows)| <= |Approvals(more)|
  {
    assert more == rows + more[|rows|..];
    FilterConcat(rows, more[|rows|..], IsApproval());
  }

  /** With the same or a smaller quorum it is only the emptying and a reject that matter. */
  lemma DoubleFiringSameQuorum(s: System, steps: seq<Step>, p: nat, q: nat, scope: Scope, chunk: string)
    requires Sound(s) && IsRun(s, steps)
    requires HasFired(s, p, scope, chunk) && AboutToCount(Run(s, steps), q, scope, chunk)
    requires Run(s, steps).calls[q].workflow.requiredApprovals <= s.calls[p].workflow.requiredApprovals
    ensures var t := Run(s, steps);
      var first, second := s.calls[p].stage.result, Next(t, Count(q)).calls[q].stage.result;
      second.quorumMet && Share(first.decisions, second.decisions)
      <==> !Emptied(s, steps, scope, chunk) && !HasReject(Rows(t, scope, chunk))
  {
    DoubleFiringExactly(s, steps, p, q, scope, chunk);
    RowsOfRun(s, steps, scope, chunk);
    if !Emptied(s, steps, scope, chunk) {
      ApprovalsGrow(Rows(s, scope, chunk), Rows(Run(s, steps), scope, chunk));
    }
  }

  // ----- Two votes of the same actor -------------------------------------

  /** The actor's vote has landed on the chunk and the chunk has not been emptied since. */
  predicate VotedSince(s: System, steps: seq<Step>, actor: string, scope: Scope, chunk: string)
    requires IsRun(s, steps)
  {
    steps != [] &&
    (var front, last := steps[..|steps| - 1], steps[|steps| - 1];
     var now := Run(s, front);
     && !Empties(now, last, scope, chunk)
     && ((Lands(now, last, scope, chunk) && now.calls[last.call].ballot.actor == actor)
         || VotedSince(s, front, actor, scope, chunk)))
  }

  lemma HasActorSnoc(rows: seq<Decision>, d: Decision, actor: string)
    ensures HasActor(rows + [d], actor) <==> HasActor(rows, actor) || d.ballot.actor == actor
  {
    assert (rows + [d])[|rows|] == d;
    if HasActor(rows, actor) {
      var i :| 0 <= i < |rows| && rows[i].ballot.actor == actor;
      assert (rows + [d])[i].ballot.actor == actor;
    }
  }

  /**
   Voting twice, exactly. When a call that was admitted because its actor had no
   vote on the chunk comes to insert, the actor already has one exactly if
   another call of the same actor has inserted since, and the chunk has not been
   emptied after that.
   */
  lemma {:induction false} SecondVoteExactly(s: System, steps: seq<Step>, actor: string, scope: Scope, chunk: string)
    requires Sound(s) && IsRun(s, steps) && !HasActor(Rows(s, scope, chunk), actor)
    ensures HasActor(Rows(Run(s, steps), scope, chunk), actor) <==> VotedSince(s, steps, actor, scope, chunk)
  {
    if steps != [] {
      var front, last := steps[..|steps| - 1], steps[|steps| - 1];
      var now := Run(s, front);
      SecondVoteExactly(s, front, actor, scope, chunk);
      RunKeepsSound(s, front);
      StepRows(now, last, scope, chunk);
      if Lands(now, last, scope, chunk) {
        HasActorSnoc(Rows(now, scope, chunk), NewRow(now, last.call), actor);
      }
    }
  }

  // ----- These failures are reachable ------------------------------------

  const SITE := Scope("gateway", "sandbox")

  function Voting(actor: string, decision: string): Ballot
  {
    Ballot(SITE, "chunk", actor, "operator", decision)
  }

  function Approval(actor: string): Ballot
  {
    Voting(actor, APPROVE)
  }

  function Site(n: int): Workflow
  {
    Workflow(1, n, [], true)
  }

  /** Two calls that have passed every check before either inserts, under a quorum of different actors. */
  function Entering(n: int, a: Ballot, b: Ballot): seq<Step>
  {
    [Upserted(SITE, n, [], true)] + [Open(1, a)] + [Open(2, b)] + [Admit(1)] + [Admit(2)]
  }

  predicate AtSite(b: Ballot)
  {
    On(b, SITE, "chunk") && (b.decision == APPROVE || b.decision == REJECT)
  }

  lemma EnteredState(n: int, a: Ballot, b: Ballot)
    requires 1 <= n && AtSite(a) && AtSite(b)
    ensures IsRun(Start(), Entering(n, a, b))
    ensures Run(Start(), Entering(n, a, b))
         == System(Store(map[SITE := Site(n)], [], 2, 1),
                   map[1 := Call(a, Site(n), Admitted), 2 := Call(b, Site(n), Admitted)])
  {
    var w, store := Site(n), Store(map[SITE := Site(n)], [], 2, 1);
    StepTo(Start(), [], Upserted(SITE, n, [], true), System(store, map[]));
    assert [] + [Upserted(SITE, n, [], true)] == [Upserted(SITE, n, [], true)];
    var steps := [Upserted(SITE, n, [], true)];
    StepTo(Start(), steps, Open(1, a), System(store, map[1 := Call(a, w, Opened)]));
    steps := steps + [Open(1, a)];
    StepTo(Start(), steps, Open(2, b), System(store, map[1 := Call(a, w, Opened), 2 := Call(b, w, Opened)]));
    steps := steps + [Open(2, b)];
    StepTo(Start(), steps, Admit(1), System(store, map[1 := Call(a, w, Admitted), 2 := Call(b, w, Opened)]));
    steps := steps + [Admit(1)];
    StepTo(Start(), steps, Admit(2), System(store, map[1 := Call(a, w, Admitted), 2 := Call(b, w, Admitted)]));
  }

  /** Both insert before either is tallied. */
  function Overlap(first: string, second: string): seq<Step>
  {
    Entering(2, Approval(first), Approval(second)) + [Write(1), Write(2)]
  }

  function BothRows(first: string, second: string): seq<Decision>
  {
    [Decision(1, 1, Approval(first)), Decision(2, 1, Approval(second))]
  }

  lemma OverlapState(first: string, second: string)
    ensures IsRun(Start(), Overlap(first, second))
    ensures Run(Start(), Overlap(first, second))
         == System(Store(map[SITE := Site(2)], BothRows(first, second), 2, 3),
                   map[1 := Call(Approval(first), Site(2), Inserted(1)),
                       2 := Call(Approval(second), Site(2), Inserted(2))])
  {
    EnteredState(2, Approval(first), Approval(second));
    RunTwo(Start(), Entering(2, Approval(first), Approval(second)), Write(1), Write(2));
  }

  lemma TwoRows(first: string, second: string)
    ensures var w, rows := Site(2), BothRows(first, second);
      Listed(rows, SITE, "chunk") == rows && Tally(w, rows).quorumMet && Tally(w, rows).decisions == rows
  {
    var rows := BothRows(first, second);
    FilterAll(rows, OnChunk(SITE, "chunk"));
    FilterAll(rows, IsApproval());
  }

  /** Two admitted actors, one quorum of two, and two firings. */
  lemma TwoFiringsReachable()
    ensures var steps := Overlap("ann", "bob") + [Count(1)];
      && IsRun(Start(), steps) && Enabled(Run(Start(), steps), Count(2))
      && HasFired(Run(Start(), steps), 1, SITE, "chunk")
      && Next(Run(Start(), steps), Count(2)).calls[2].stage.result.quorumMet
  {
    OverlapState("ann", "bob");
    TwoRows("ann", "bob");
    RunSnoc(Start(), Overlap("ann", "bob"), Count(1));
  }

  /** One actor, admitted twice, meets a quorum of two different actors alone. */
  lemma OneActorQuorumReachable()
    ensures var steps := Overlap("eve", "eve");
      && IsRun(Start(), steps) && Enabled(Run(Start(), steps), Count(2))
      && Run(Start(), steps).calls[2].workflow.distinctActors
      && var r := Next(Run(Start(), steps), Count(2)).calls[2].stage.result;
         r.quorumMet && forall d :: d in r.decisions ==> d.ballot.actor == "eve"
  {
    OverlapState("eve", "eve");
    TwoRows("eve", "eve");
  }

  /** A second vote inserted between the first one's tally, which meets the quorum, and its clearing. */
  function Late(): seq<Step>
  {
    Entering(1, Approval("ann"), Approval("bob")) + [Write(1)] + [Count(1)]
  }

  /** After the first insert. */
  lemma LateWritten(a: Ballot, b: Ballot)
    requires AtSite(a) && AtSite(b)
    ensures var steps := Entering(1, a, b) + [Write(1)];
      && IsRun(Start(), steps)
      && Run(Start(), steps)
         == System(Store(map[SITE := Site(1)], [Decision(1, 1, a)], 2, 2),
                   map[1 := Call(a, Site(1), Inserted(1)), 2 := Call(b, Site(1), Admitted)])
  {
    EnteredState(1, a, b);
    StepTo(Start(), Entering(1, a, b), Write(1),
           System(Store(map[SITE := Site(1)], [Decision(1, 1, a)], 2, 2),
                  map[1 := Call(a, Site(1), Inserted(1)), 2 := Call(b, Site(1), Admitted)]));
  }

  lemma LateState()
    ensures IsRun(Start(), Late())
    ensures var w, row := Site(1), Decision(1, 1, Approval("ann"));
      Run(Start(), Late())
      == System(Store(map[SITE := w], [row], 2, 2),
                map[1 := Call(Approval("ann"), w, Tallied(1, Tally(w, [row]))),
                    2 := Call(Approval("bob"), w, Admitted)])
  {
    var w, row, a, b := Site(1), Decision(1, 1, Approval("ann")), Approval("ann"), Approval("bob");
    LateWritten(a, b);
    FilterAll([row], OnChunk(SITE, "chunk"));
    StepTo(Start(), Entering(1, a, b) + [Write(1)], Count(1),
           System(Store(map[SITE := w], [row], 2, 2),
                  map[1 := Call(a, w, Tallied(1, Tally(w, [row]))), 2 := Call(b, w, Admitted)]));
  }

  lemma LateCounted()
    ensures IsRun(Start(), Late())
    ensures TalliedIn(Start(), Late(), BothRows("ann", "bob")[0], SITE, "chunk")
    ensures !TalliedIn(Start(), Late(), BothRows("ann", "bob")[1], SITE, "chunk")
  {
    LateState();
    StartIsSound();
    if TalliedIn(Start(), Late(), BothRows("ann", "bob")[1], SITE, "chunk") {
      TalliedOld(Start(), Late(), BothRows("ann", "bob")[1], SITE, "chunk");
    }
    LateWritten(Approval("ann"), Approval("bob"));
    assert Late()[..|Late()| - 1] == Entering(1, Approval("ann"), Approval("bob")) + [Write(1)];
    FilterAll([BothRows("ann", "bob")[0]], OnChunk(SITE, "chunk"));
  }

  lemma LateRows()
    ensures IsRun(Start(), Late() + [Write(2)])
    ensures var t := Run(Start(), Late() + [Write(2)]);
      && t.store.decisions == Rows(t, SITE, "chunk") == BothRows("ann", "bob")
      && Enabled(t, Finish(1)) && Empties(t, Finish(1), SITE, "chunk")
      && 2 in t.calls && t.calls[2] == Call(Approval("bob"), Site(1), Inserted(2))
  {
    LateState();
    RunSnoc(Start(), Late(), Write(2));
    var row := BothRows("ann", "bob")[..1];
    FilterAll(BothRows("ann", "bob"), OnChunk(SITE, "chunk"));
    FilterAll(row, IsApproval());
  }

  lemma OneOfTwo<T>(a: T, b: T, keep: T -> bool)
    requires !keep(a) && keep(b)
    ensures Filter([a, b], keep) == [b]
  {
    FilterNone([a], keep);
    FilterSnoc([a], b, keep);
    assert [a] + [b] == [a, b];
  }

  lemma LateOverlooked()
    ensures IsRun(Start(), Late() + [Write(2)])
    ensures |Filter(BothRows("ann", "bob"), Overlooked(Start(), Late() + [Write(2)], SITE, "chunk"))| == 1
  {
    var a, b := BothRows("ann", "bob")[0], BothRows("ann", "bob")[1];
    LateRows();
    LateCounted();
    assert (Late() + [Write(2)])[..|Late()|] == Late();
    OneOfTwo(a, b, Overlooked(Start(), Late() + [Write(2)], SITE, "chunk"));
    assert BothRows("ann", "bob") == [a, b];
  }

  /** The late vote's own call, tallied after the clearing, finds a quorum of one not met. */
  lemma LateTally(t: System)
    requires t.store.decisions == BothRows("ann", "bob") && Enabled(t, Finish(1))
    requires Empties(t, Finish(1), SITE, "chunk")
    requires 2 in t.calls && t.calls[2] == Call(Approval("bob"), Site(1), Inserted(2))
    ensures Enabled(Next(t, Finish(1)), Count(2))
    ensures !Next(Next(t, Finish(1)), Count(2)).calls[2].stage.result.quorumMet
  {
    ClearedRows(BothRows("ann", "bob"), SITE, "chunk", SITE, "chunk");
  }

  predicate LosesOne(s: System, steps: seq<Step>, call: nat, scope: Scope, chunk: string)
    requires IsRun(s, steps) && Enabled(Run(s, steps), Finish(call))
  {
    var l := Accounts(s, steps, scope, chunk);
    Account(Run(s, steps), l, Finish(call), scope, chunk).lost == l.lost + 1
  }

  lemma OneOverlooked(s: System, steps: seq<Step>, call: nat, scope: Scope, chunk: string)
    requires Sound(s) && IsRun(s, steps) && Enabled(Run(s, steps), Finish(call))
    requires Empties(Run(s, steps), Finish(call), scope, chunk)
    requires |Filter(Rows(Run(s, steps), scope, chunk), Overlooked(s, steps, scope, chunk))| == 1
    ensures LosesOne(s, steps, call, scope, chunk)
  {
    LostExactly(s, steps, call, scope, chunk);
  }

  /** The late vote is deleted uncounted, and its own call finds the quorum of one not met. */
  lemma LostVoteReachable()
    ensures var steps := Late() + [Write(2)];
      && IsRun(Start(), steps) && Enabled(Run(Start(), steps), Finish(1))
      && LosesOne(Start(), steps, 1, SITE, "chunk")
      && var t := Next(Run(Start(), steps), Finish(1));
         Enabled(t, Count(2)) && !Next(t, Count(2)).calls[2].stage.result.quorumMet
  {
    StartIsSound();
    LateRows();
    LateOverlooked();
    OneOverlooked(Start(), Late() + [Write(2)], 1, SITE, "chunk");
    LateTally(Run(Start(), Late() + [Write(2)]));
  }

  /** A rejecting call that fails after its insert. */
  function HalfRejected(): seq<Step>
  {
    Entering(2, Voting("ann", REJECT), Approval("bob")) + [Write(1), Fail(1)]
  }

  /** Its reject stays behind, and the next approval only clears the chunk. */
  lemma LeftRejectReachable()
    ensures IsRun(Start(), HalfRejected() + [Fail(2)])
    ensures var t := Run(Start(), HalfRejected() + [Fail(2)]);
      && Quiet(t, SITE, "chunk") && HasReject(Rows(t, SITE, "chunk"))
      && Vote(t.store, Approval("cat")).1.Ok? && Vote(t.store, Approval("cat")).1.value.rejectSeen
      && Rows(t.(store := Vote(t.store, Approval("cat")).0), SITE, "chunk") == []
  {
    var d := Decision(1, 1, Voting("ann", REJECT));
    EnteredState(2, Voting("ann", REJECT), Approval("bob"));
    RunTwo(Start(), Entering(2, Voting("ann", REJECT), Approval("bob")), Write(1), Fail(1));
    RunSnoc(Start(), HalfRejected(), Fail(2));
    var t := Run(Start(), HalfRejected() + [Fail(2)]);
    assert t.store.decisions == [d];
    FilterAll([d], OnChunk(SITE, "chunk"));
    assert [d][0].ballot.decision == REJECT;
    RejectSpoilsNextVote(t.store, Approval("cat"));
  }
}
