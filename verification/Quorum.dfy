/**
 Quorum bookkeeping for draft approvals
 (shoreguard/services/approval_workflow.py).

 `record_decision` awaits the database between reading the workflow, reading
 the votes, the insert, the tally and the clearing of a decided chunk, and no
 lock or constraint keeps other calls out, so a call is five steps over a table
 of pending calls. The insert and the clearing are committed separately; a call
 can fail at any point.
 */
module Quorum {
  import opened Wrappers
  import opened Seqs

  datatype Scope = Scope(gateway: string, sandbox: string)

  datatype Workflow = Workflow(id: nat, requiredApprovals: int, requiredRoles: seq<string>, distinctActors: bool)

  /** The arguments of a vote. */
  datatype Ballot = Ballot(scope: Scope, chunk: string, actor: string, role: string, decision: string)

  datatype Decision = Decision(id: nat, workflowId: nat, ballot: Ballot)

  /** The two tables with their next keys; decisions are in insertion order. */
  datatype Store = Store(workflows: map<Scope, Workflow>, decisions: seq<Decision>, nextId: nat, nextVote: nat)

  datatype VoteResult = VoteResult(
    workflow: Workflow,
    decisions: seq<Decision>,
    quorumMet: bool,
    rejectSeen: bool,
    votesNeeded: int)

  datatype VoteError = InvalidDecision | NoWorkflow | RoleNotPermitted | AlreadyVoted

  const APPROVE := "approve"
  const REJECT := "reject"

  predicate On(b: Ballot, scope: Scope, chunk: string)
  {
    b.scope == scope && b.chunk == chunk
  }

  function OnChunk(scope: Scope, chunk: string): Decision -> bool
  {
    (d: Decision) => On(d.ballot, scope, chunk)
  }

  function OffChunk(scope: Scope, chunk: string): Decision -> bool
  {
    (d: Decision) => !On(d.ballot, scope, chunk)
  }

  function IsApproval(): Decision -> bool
  {
    (d: Decision) => d.ballot.decision == APPROVE
  }

  /** `_list_decision_rows`. */
  function Listed(decisions: seq<Decision>, scope: Scope, chunk: string): seq<Decision>
  {
    Filter(decisions, OnChunk(scope, chunk))
  }

  function Approvals(decisions: seq<Decision>): seq<Decision>
  {
    Filter(decisions, IsApproval())
  }

  predicate HasReject(decisions: seq<Decision>)
  {
    exists i :: 0 <= i < |decisions| && decisions[i].ballot.decision == REJECT
  }

  predicate HasActor(decisions: seq<Decision>, actor: string)
  {
    exists i :: 0 <= i < |decisions| && decisions[i].ballot.actor == actor
  }

  /** `check_quorum`. */
  predicate CheckQuorum(requiredApprovals: int, decisions: seq<Decision>)
  {
    if HasReject(decisions) then false else |Approvals(decisions)| >= requiredApprovals
  }

  predicate Permitted(w: Workflow, role: string)
  {
    w.requiredRoles == [] || role in w.requiredRoles
  }

  // ----- Operations on values --------------------------------------------

  /** What `record_decision` checks before it looks at the votes of the chunk. */
  function Opening(s: Store, b: Ballot): Result<Workflow, VoteError>
  {
    if b.decision != APPROVE && b.decision != REJECT then Err(InvalidDecision)
    else if b.scope !in s.workflows then Err(NoWorkflow)
    else if !Permitted(s.workflows[b.scope], b.role) then Err(RoleNotPermitted)
    else Ok(s.workflows[b.scope])
  }

  /** The actor has a stored vote, and the workflow asks for different actors. */
  predicate Repeated(s: Store, w: Workflow, b: Ballot)
  {
    w.distinctActors && HasActor(Listed(s.decisions, b.scope, b.chunk), b.actor)
  }

  /** Everything `record_decision` checks before it writes. */
  function Admission(s: Store, b: Ballot): Result<Workflow, VoteError>
  {
    match Opening(s, b)
    case Err(e) => Err(e)
    case Ok(w) => if Repeated(s, w, b) then Err(AlreadyVoted) else Ok(w)
  }

  function Insert(s: Store, workflowId: nat, b: Ballot): Store
  {
    s.(decisions := s.decisions + [Decision(s.nextVote, workflowId, b)], nextVote := s.nextVote + 1)
  }

  /** The result computed from the rows of a chunk. */
  function Tally(w: Workflow, rows: seq<Decision>): VoteResult
  {
    var rejectSeen := HasReject(rows);
    VoteResult(w, rows, !rejectSeen && |Approvals(rows)| >= w.requiredApprovals, rejectSeen, w.requiredApprovals)
  }

  predicate Terminal(r: VoteResult)
  {
    r.quorumMet || r.rejectSeen
  }

  function Clear(s: Store, scope: Scope, chunk: string): Store
  {
    s.(decisions := Filter(s.decisions, OffChunk(scope, chunk)))
  }

  /** A whole call with nothing in between. */
  function Vote(s: Store, b: Ballot): (Store, Result<VoteResult, VoteError>)
  {
    match Admission(s, b)
    case Err(e) => (s, Err(e))
    case Ok(w) =>
      var voted := Insert(s, w.id, b);
      var result := Tally(w, Listed(voted.decisions, b.scope, b.chunk));
      (if Terminal(result) then Clear(voted, b.scope, b.chunk) else voted, Ok(result))
  }

  /** `upsert_workflow`: an existing row keeps its id, and its decisions. */
  function Upsert(s: Store, scope: Scope, requiredApprovals: int, requiredRoles: seq<string>, distinctActors: bool)
    : Result<Store, ()>
  {
    if requiredApprovals < 1 then Err(())
    else if scope in s.workflows then
      var w := Workflow(s.workflows[scope].id, requiredApprovals, requiredRoles, distinctActors);
      Ok(s.(workflows := s.workflows[scope := w]))
    else
      var w := Workflow(s.nextId, requiredApprovals, requiredRoles, distinctActors);
      Ok(s.(workflows := s.workflows[scope := w], nextId := s.nextId + 1))
  }

  function OtherWorkflow(id: nat): Decision -> bool
  {
    (d: Decision) => d.workflowId != id
  }

  /** `delete_workflow`; the foreign key cascades to the decisions made under it. */
  function Delete(s: Store, scope: Scope): Store
  {
    if scope !in s.workflows then s
    else
      s.(workflows := map k | k in s.workflows && k != scope :: s.workflows[k],
         decisions := Filter(s.decisions, OtherWorkflow(s.workflows[scope].id)))
  }

  // ----- Pending calls ---------------------------------------------------

  /** How far a call has come; `vote` is the key of the row it inserted. */
  datatype Stage = Opened | Admitted | Inserted(vote: nat) | Tallied(vote: nat, result: VoteResult)

  /** A call of `record_decision`, with the workflow as it read it. */
  datatype Call = Call(ballot: Ballot, workflow: Workflow, stage: Stage)

  datatype System = System(store: Store, calls: map<nat, Call>)

  datatype Step =
    | Open(call: nat, ballot: Ballot)
    | Admit(call: nat)
    | Write(call: nat)
    | Count(call: nat)
    | Finish(call: nat)
    | Fail(call: nat)
    | Upserted(scope: Scope, requiredApprovals: int, requiredRoles: seq<string>, distinctActors: bool)
    | Deleted(scope: Scope)

  function Start(): System
  {
    System(Store(map[], [], 1, 1), map[])
  }

  predicate Enabled(s: System, step: Step)
  {
    match step
    case Open(call, _) => call !in s.calls
    case Admit(call) => call in s.calls && s.calls[call].stage.Opened?
    case Write(call) => call in s.calls && s.calls[call].stage.Admitted?
    case Count(call) => call in s.calls && s.calls[call].stage.Inserted?
    case Finish(call) => call in s.calls && s.calls[call].stage.Tallied?
    case Fail(call) => call in s.calls
    case Upserted(_, _, _, _) => true
    case Deleted(_) => true
  }

  /** The foreign key holds: the workflow the call has read still exists. */
  predicate WorkflowExists(s: Store, c: Call)
  {
    c.ballot.scope in s.workflows && s.workflows[c.ballot.scope].id == c.workflow.id
  }

  function Next(s: System, step: Step): System
    requires Enabled(s, step)
  {
    match step
    case Open(call, ballot) =>
      (match Opening(s.store, ballot)
       case Err(_) => s
       case Ok(w) => s.(calls := s.calls[call := Call(ballot, w, Opened)]))
    case Admit(call) =>
      var c := s.calls[call];
      if Repeated(s.store, c.workflow, c.ballot) then s.(calls := s.calls - {call})
      else s.(calls := s.calls[call := c.(stage := Admitted)])
    case Write(call) =>
      var c := s.calls[call];
      if WorkflowExists(s.store, c) then
        System(Insert(s.store, c.workflow.id, c.ballot), s.calls[call := c.(stage := Inserted(s.store.nextVote))])
      else s.(calls := s.calls - {call})
    case Count(call) =>
      var c := s.calls[call];
      var r := Tally(c.workflow, Listed(s.store.decisions, c.ballot.scope, c.ballot.chunk));
      s.(calls := s.calls[call := c.(stage := Tallied(c.stage.vote, r))])
    case Finish(call) =>
      var c := s.calls[call];
      var done := Terminal(c.stage.result);
      System(if done then Clear(s.store, c.ballot.scope, c.ballot.chunk) else s.store, s.calls - {call})
    case Fail(call) => s.(calls := s.calls - {call})
    case Upserted(scope, n, roles, distinct) =>
      var r := Upsert(s.store, scope, n, roles, distinct);
      if r.Ok? then s.(store := r.value) else s
    case Deleted(scope) => s.(store := Delete(s.store, scope))
  }

  // ----- The service -----------------------------------------------------

  class ApprovalWorkflowService {
    var workflows: map<Scope, Workflow>
    var decisions: seq<Decision>
    var nextId: nat
    var nextVote: nat
    var calls: map<nat, Call>

    constructor ()
      ensures View() == Start()
    {
      workflows, decisions, nextId, nextVote, calls := map[], [], 1, 1, map[];
    }

    function StoreView(): Store
      reads this
    {
      Store(workflows, decisions, nextId, nextVote)
    }

    function View(): System
      reads this
    {
      System(StoreView(), calls)
    }

    /** `record_decision` up to reading the votes of the chunk. */
    method OpenVote(call: nat, b: Ballot) returns (error: Option<VoteError>)
      requires Enabled(View(), Open(call, b))
      modifies this`calls
      ensures View() == Next(old(View()), Open(call, b))
      ensures match Opening(old(StoreView()), b)
        case Err(e) => error == Some(e)
        case Ok(_) => error == None
    {
      if b.decision != APPROVE && b.decision != REJECT {
        return Some(InvalidDecision);
      }
      if b.scope !in workflows {
        return Some(NoWorkflow);
      }
      var workflow := workflows[b.scope];
      if workflow.requiredRoles != [] && b.role !in workflow.requiredRoles {
        return Some(RoleNotPermitted);
      }
      calls := calls[call := Call(b, workflow, Opened)];
      error := None;
    }

    /** The actor check, against the votes stored now and the workflow as read. */
    method AdmitVote(call: nat) returns (ok: bool)
      requires Enabled(View(), Admit(call))
      modifies this`calls
      ensures View() == Next(old(View()), Admit(call))
      ensures ok <==> !Repeated(old(StoreView()), old(calls)[call].workflow, old(calls)[call].ballot)
    {
      var c := calls[call];
      var existing := Listed(decisions, c.ballot.scope, c.ballot.chunk);
      ok := !(c.workflow.distinctActors && HasActor(existing, c.ballot.actor));
      calls := if ok then calls[call := c.(stage := Admitted)] else calls - {call};
    }

    /** The insert, which fails if the workflow has been deleted meanwhile. */
    method WriteVote(call: nat) returns (ok: bool)
      requires Enabled(View(), Write(call))
      modifies this
      ensures View() == Next(old(View()), Write(call))
      ensures ok <==> WorkflowExists(old(StoreView()), old(calls)[call])
    {
      var c := calls[call];
      ok := c.ballot.scope in workflows && workflows[c.ballot.scope].id == c.workflow.id;
      if !ok {
        calls := calls - {call};
        return;
      }
      decisions := decisions + [Decision(nextVote, c.workflow.id, c.ballot)];
      calls := calls[call := c.(stage := Inserted(nextVote))];
      nextVote := nextVote + 1;
    }

    /** The result, from the rows that are stored now and the workflow as read. */
    method CountVotes(call: nat)
      requires Enabled(View(), Count(call))
      modifies this`calls
      ensures View() == Next(old(View()), Count(call))
    {
      var c := calls[call];
      var rows := Listed(decisions, c.ballot.scope, c.ballot.chunk);
      var approvals := Approvals(rows);
      var rejectSeen := HasReject(rows);
      var quorumMet := !rejectSeen && |approvals| >= c.workflow.requiredApprovals;
      var result := VoteResult(c.workflow, rows, quorumMet, rejectSeen, c.workflow.requiredApprovals);
      calls := calls[call := c.(stage := Tallied(c.stage.vote, result))];
    }

    /** Clears a decided chunk and returns. */
    method FinishVote(call: nat) returns (result: VoteResult)
      requires Enabled(View(), Finish(call))
      modifies this
      ensures View() == Next(old(View()), Finish(call))
      ensures result == old(calls)[call].stage.result
    {
      var c := calls[call];
      result := c.stage.result;
      if result.quorumMet || result.rejectSeen {
        decisions := Filter(decisions, OffChunk(c.ballot.scope, c.ballot.chunk));
      }
      calls := calls - {call};
    }

    /** A call that neither fails nor runs beside another one. */
    method RecordDecision(call: nat, b: Ballot) returns (r: Result<VoteResult, VoteError>)
      requires call !in calls
      modifies this
      ensures (StoreView(), r) == Vote(old(StoreView()), b) && calls == old(calls)
    {
      var error := OpenVote(call, b);
      if error.Some? {
        return Err(error.value);
      }
      var admitted := AdmitVote(call);
      if !admitted {
        return Err(AlreadyVoted);
      }
      var ok := WriteVote(call);
      CountVotes(call);
      var result := FinishVote(call);
      r := Ok(result);
    }

    method UpsertWorkflow(scope: Scope, requiredApprovals: int, requiredRoles: seq<string>, distinctActors: bool)
      returns (ok: bool)
      modifies this`workflows, this`nextId
      ensures View() == Next(old(View()), Upserted(scope, requiredApprovals, requiredRoles, distinctActors))
      ensures ok <==> 1 <= requiredApprovals
    {
      if requiredApprovals < 1 {
        return false;
      }
      var id := nextId;
      if scope in workflows {
        id := workflows[scope].id;
      } else {
        nextId := nextId + 1;
      }
      workflows := workflows[scope := Workflow(id, requiredApprovals, requiredRoles, distinctActors)];
      ok := true;
    }

    method DeleteWorkflow(scope: Scope) returns (removed: bool)
      modifies this`workflows, this`decisions
      ensures removed <==> scope in old(workflows)
      ensures View() == Next(old(View()), Deleted(scope))
    {
      if scope !in workflows {
        return false;
      }
      var id := workflows[scope].id;
      workflows := map k | k in workflows && k != scope :: workflows[k];
      decisions := Filter(decisions, OtherWorkflow(id));
      removed := true;
    }
  }

  // ----- Stores between calls --------------------------------------------

  /** Keys are fresh, and decisions belong to the workflow of their sandbox. */
  ghost predicate WellKept(s: Store)
  {
    && (forall d :: d in s.decisions ==> Owned(s, d))
    && (forall k :: k in s.workflows ==> s.workflows[k].id < s.nextId && 1 <= s.workflows[k].requiredApprovals)
    && (forall k, m :: k in s.workflows && m in s.workflows && s.workflows[k].id == s.workflows[m].id ==> k == m)
  }

  predicate Owned(s: Store, d: Decision)
  {
    && d.ballot.scope in s.workflows && s.workflows[d.ballot.scope].id == d.workflowId && d.id < s.nextVote
    && (d.ballot.decision == APPROVE || d.ballot.decision == REJECT)
  }

  predicate AllApprove(rows: seq<Decision>)
  {
    forall i :: 0 <= i < |rows| ==> rows[i].ballot.decision == "approve"
  }

  /** Votes stored on a chunk. */
  function Stored(s: Store, scope: Scope, chunk: string): nat
  {
    |Listed(s.decisions, scope, chunk)|
  }

  lemma RowsSplit(s: Store, workflowId: nat, b: Ballot, scope: Scope, chunk: string)
    ensures Listed(Insert(s, workflowId, b).decisions, scope, chunk)
         == Listed(s.decisions, scope, chunk)
            + if On(b, scope, chunk) then [Decision(s.nextVote, workflowId, b)] else []
  {
    FilterSnoc(s.decisions, Decision(s.nextVote, workflowId, b), OnChunk(scope, chunk));
  }

  /** What counting one more vote on a chunk of approvals comes to. */
  lemma TallyOneMore(w: Workflow, rows: seq<Decision>, d: Decision)
    requires AllApprove(rows) && (d.ballot.decision == APPROVE || d.ballot.decision == REJECT)
    ensures var r := Tally(w, rows + [d]);
      && r.rejectSeen == (d.ballot.decision == REJECT)
      && r.quorumMet == (d.ballot.decision == APPROVE && |rows| + 1 >= w.requiredApprovals)
      && r.quorumMet == CheckQuorum(w.requiredApprovals, r.decisions)
  {
    FilterAll(rows, IsApproval());
    FilterSnoc(rows, d, IsApproval());
    assert (rows + [d])[|rows|] == d;
    assert HasReject(rows + [d]) <==> d.ballot.decision == REJECT;
  }

  lemma ClearedRows(decisions: seq<Decision>, scope: Scope, chunk: string, scope': Scope, chunk': string)
    ensures Listed(Filter(decisions, OffChunk(scope, chunk)), scope', chunk')
         == if scope' == scope && chunk' == chunk then [] else Listed(decisions, scope', chunk')
  {
    var on, off := OnChunk(scope', chunk'), OffChunk(scope, chunk);
    if scope' == scope && chunk' == chunk {
      FilterTwice(decisions, off, on, (d: Decision) => false);
      FilterNone(decisions, (d: Decision) => false);
    } else {
      FilterTwice(decisions, off, on, on);
    }
  }

  /**
   What an undisturbed vote does: an approval fires exactly when it brings the
   chunk to the quorum, a reject ends the chunk at once, and both leave it
   empty; otherwise the vote is stored.
   */
  lemma VoteOutcome(s: Store, b: Ballot)
    requires Admission(s, b).Ok? && AllApprove(Listed(s.decisions, b.scope, b.chunk))
    ensures var w, rows := s.workflows[b.scope], Listed(s.decisions, b.scope, b.chunk);
      var (t, r) := Vote(s, b);
      && r.Ok?
      && r.value.workflow == w && r.value.votesNeeded == w.requiredApprovals
      && r.value.decisions == rows + [Decision(s.nextVote, w.id, b)]
      && r.value.rejectSeen == (b.decision == "reject")
      && r.value.quorumMet == (b.decision == "approve" && |rows| + 1 >= w.requiredApprovals)
      && r.value.quorumMet == CheckQuorum(w.requiredApprovals, r.value.decisions)
      && Listed(t.decisions, b.scope, b.chunk)
         == if r.value.quorumMet || r.value.rejectSeen then [] else r.value.decisions
  {
    var w := s.workflows[b.scope];
    RowsSplit(s, w.id, b, b.scope, b.chunk);
    TallyOneMore(w, Listed(s.decisions, b.scope, b.chunk), Decision(s.nextVote, w.id, b));
    ClearedRows(Insert(s, w.id, b).decisions, b.scope, b.chunk, b.scope, b.chunk);
  }

  /** A vote leaves the votes of every other chunk alone. */
  lemma VoteFrame(s: Store, b: Ballot, scope': Scope, chunk': string)
    requires !On(b, scope', chunk')
    ensures Listed(Vote(s, b).0.decisions, scope', chunk') == Listed(s.decisions, scope', chunk')
  {
    match Admission(s, b)
    case Err(_) =>
    case Ok(w) =>
      RowsSplit(s, w.id, b, scope', chunk');
      ClearedRows(Insert(s, w.id, b).decisions, b.scope, b.chunk, scope', chunk');
  }

  /** Somebody of this name has a vote on the chunk. */
  predicate HasVoted(s: Store, b: Ballot)
  {
    exists i :: 0 <= i < |s.decisions| && s.decisions[i].ballot.scope == b.scope
                && s.decisions[i].ballot.chunk == b.chunk && s.decisions[i].ballot.actor == b.actor
  }

  /**
   Who is refused, and with which error: the checks in order, and a vote that
   passes all of them is admitted under the workflow of its sandbox.
   */
  lemma RefusedExactly(s: Store, b: Ballot)
    ensures var known := b.decision == "approve" || b.decision == "reject";
      var found := known && b.scope in s.workflows;
      var allowed := found
        && (s.workflows[b.scope].requiredRoles == [] || b.role in s.workflows[b.scope].requiredRoles);
      var first := allowed && !(s.workflows[b.scope].distinctActors && HasVoted(s, b));
      && (Admission(s, b) == Err(InvalidDecision) <==> !known)
      && (Admission(s, b) == Err(NoWorkflow) <==> known && !found)
      && (Admission(s, b) == Err(RoleNotPermitted) <==> found && !allowed)
      && (Admission(s, b) == Err(AlreadyVoted) <==> allowed && !first)
      && (first ==> Admission(s, b) == Ok(s.workflows[b.scope]))
      && (Opening(s, b).Ok? <==> allowed)
  {
    VotedExactly(s, b);
  }

  /** The actor check is made against the votes stored now, and under the workflow as it was read. */
  lemma AdmittedExactly(s: System, call: nat)
    requires Enabled(s, Admit(call))
    ensures var c, t := s.calls[call], Next(s, Admit(call));
      && t.store == s.store
      && (call in t.calls <==> !(c.workflow.distinctActors && HasVoted(s.store, c.ballot)))
      && (call in t.calls ==> t.calls[call] == c.(stage := Admitted))
  {
    VotedExactly(s.store, s.calls[call].ballot);
  }

  lemma VotedExactly(s: Store, b: Ballot)
    ensures HasActor(Listed(s.decisions, b.scope, b.chunk), b.actor) <==> HasVoted(s, b)
  {
    FilterMembers(s.decisions, OnChunk(b.scope, b.chunk));
    var rows := Listed(s.decisions, b.scope, b.chunk);
    if HasActor(rows, b.actor) {
      var i :| 0 <= i < |rows| && rows[i].ballot.actor == b.actor;
      assert rows[i] in s.decisions;
      var j :| 0 <= j < |s.decisions| && s.decisions[j] == rows[i];
    }
    if HasVoted(s, b) {
      var j :| 0 <= j < |s.decisions| && s.decisions[j].ballot.scope == b.scope
               && s.decisions[j].ballot.chunk == b.chunk && s.decisions[j].ballot.actor == b.actor;
      assert s.decisions[j] in rows;
      var i :| 0 <= i < |rows| && rows[i] == s.decisions[j];
    }
  }

  /** A saved workflow has the new settings and, if there was one, its key; no other workflow changes. */
  lemma UpsertSets(s: Store, scope: Scope, n: int, roles: seq<string>, distinct: bool, other: Scope)
    ensures Upsert(s, scope, n, roles, distinct).Err? <==> n < 1
    ensures 1 <= n ==>
      var t := Upsert(s, scope, n, roles, distinct).value;
      && scope in t.workflows
      && t.workflows[scope]
         == Workflow(if scope in s.workflows then s.workflows[scope].id else s.nextId, n, roles, distinct)
      && t.nextId == (if scope in s.workflows then s.nextId else s.nextId + 1)
      && t.decisions == s.decisions && t.nextVote == s.nextVote
      && (other != scope ==> (other in t.workflows <==> other in s.workflows)
                             && (other in s.workflows ==> t.workflows[other] == s.workflows[other]))
  {
  }

  /** A stored reject ends the chunk at the next undisturbed vote, even an approval, and takes that vote with it. */
  lemma RejectSpoilsNextVote(s: Store, b: Ballot)
    requires Admission(s, b).Ok? && HasReject(Listed(s.decisions, b.scope, b.chunk))
    ensures var (t, r) := Vote(s, b);
      r.Ok? && r.value.rejectSeen && !r.value.quorumMet && Listed(t.decisions, b.scope, b.chunk) == []
  {
    var w, rows := s.workflows[b.scope], Listed(s.decisions, b.scope, b.chunk);
    var i :| 0 <= i < |rows| && rows[i].ballot.decision == REJECT;
    RowsSplit(s, w.id, b, b.scope, b.chunk);
    assert (rows + [Decision(s.nextVote, w.id, b)])[i] == rows[i];
    ClearedRows(Insert(s, w.id, b).decisions, b.scope, b.chunk, b.scope, b.chunk);
  }

  /** Deleting a workflow removes it, and exactly the decisions of its sandbox. */
  lemma DeleteCascades(s: Store, scope: Scope, scope': Scope, chunk: string)
    requires WellKept(s)
    ensures scope' in Delete(s, scope).workflows <==> scope' in s.workflows && scope' != scope
    ensures scope' in Delete(s, scope).workflows ==> Delete(s, scope).workflows[scope'] == s.workflows[scope']
    ensures Listed(Delete(s, scope).decisions, scope', chunk)
         == if scope' == scope then [] else Listed(s.decisions, scope', chunk)
  {
    assert forall i :: 0 <= i < |s.decisions| ==> s.decisions[i] in s.decisions;
    if scope in s.workflows {
      var other := OtherWorkflow(s.workflows[scope].id);
      if scope' == scope {
        FilterTwice(s.decisions, other, OnChunk(scope', chunk), (d: Decision) => false);
        FilterNone(s.decisions, (d: Decision) => false);
      } else {
        FilterTwice(s.decisions, other, OnChunk(scope', chunk), OnChunk(scope', chunk));
      }
    } else if scope' == scope {
      FilterNone(s.decisions, OnChunk(scope', chunk));
    }
  }

  lemma DeleteKeepsWellKept(s: Store, scope: Scope)
    requires WellKept(s)
    ensures WellKept(Delete(s, scope))
  {
    if scope in s.workflows {
      FilterMembers(s.decisions, OtherWorkflow(s.workflows[scope].id));
    }
  }

  /**
   Changing a workflow never fires by itself and keeps every stored vote; the
   next undisturbed approval is judged by the new quorum, counting the old votes.
   */
  lemma ChangeWaitsForNextVote(s: Store, b: Ballot, n: int, roles: seq<string>, distinct: bool)
    requires 1 <= n && b.decision == APPROVE && AllApprove(Listed(s.decisions, b.scope, b.chunk))
    requires Admission(Upsert(s, b.scope, n, roles, distinct).value, b).Ok?
    ensures var t := Upsert(s, b.scope, n, roles, distinct).value;
      && t.decisions == s.decisions
      && (Vote(t, b).1.value.quorumMet <==> Stored(s, b.scope, b.chunk) + 1 >= n)
  {
    VoteOutcome(Upsert(s, b.scope, n, roles, distinct).value, b);
  }
}
