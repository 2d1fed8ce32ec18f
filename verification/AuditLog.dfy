/**
 The audit service over its table: `log`, `cleanup`, gateway deletion and
 `verify_chain` (shoreguard/services/audit.py).

 `log` is two steps under the chain lock, reading the newest hash and
 inserting the row, because `cleanup` and gateway deletion take no lock and
 may run in between.
 */
module AuditLog {
  import opened Wrappers
  import opened Seqs
  import opened AuditHash
  import opened AuditChain
  import Json

  const VERIFY_BATCH: nat := 1000

  // ----- verify_chain ----------------------------------------------------

  datatype Report = Report(ok: bool, checked: nat, legacy: nat, firstBadId: Option<nat>)

  /**
   The one-pass meaning of a report: the rows before the first bad one, and no
   more, are legacy rows followed by a linked chain, counted exactly.
   */
  ghost predicate Explains(digest: Digest, rows: seq<Row>, rep: Report)
  {
    var b := rep.checked + rep.legacy;
    && b <= |rows|
    && ChainFrom(digest, rows[..b], rep.legacy)
    && (b < |rows| ==> !WellChained(digest, rows[..b + 1]))
    && rep.ok == (b == |rows|)
    && rep.firstBadId == (if b < |rows| then Some(rows[b].id) else None)
  }

  lemma OkMeansWellChained(digest: Digest, rows: seq<Row>, rep: Report)
    requires Explains(digest, rows, rep)
    ensures rep.ok <==> WellChained(digest, rows)
  {
    var b := rep.checked + rep.legacy;
    if b == |rows| {
      assert rows[..b] == rows;
    } else if WellChained(digest, rows) {
      var k: nat :| ChainFrom(digest, rows, k);
      NewRowsMayGo(digest, rows, k, b + 1);
    }
  }

  lemma PrefixesOfChain(digest: Digest, rows: seq<Row>, n: nat, m: nat)
    requires n <= m <= |rows| && WellChained(digest, rows[..m])
    ensures WellChained(digest, rows[..n])
  {
    var k: nat :| ChainFrom(digest, rows[..m], k);
    NewRowsMayGo(digest, rows[..m], k, n);
    assert rows[..m][..n] == rows[..n];
  }

  /** Only one report is right for a table. */
  lemma ReportUnique(digest: Digest, rows: seq<Row>, p: Report, q: Report)
    requires Explains(digest, rows, p) && Explains(digest, rows, q)
    ensures p == q
  {
    var a, b := p.checked + p.legacy, q.checked + q.legacy;
    if a < b {
      PrefixesOfChain(digest, rows, a + 1, b);
    } else if b < a {
      PrefixesOfChain(digest, rows, b + 1, a);
    }
    ChainStartUnique(digest, rows[..a], p.legacy, q.legacy);
  }

  function Newer(lastId: nat): Row -> bool
  {
    (r: Row) => r.id > lastId
  }

  /** `WHERE id > lastId ORDER BY id LIMIT limit`. */
  function Page(rows: seq<Row>, lastId: nat, limit: nat): seq<Row>
  {
    var after := Filter(rows, Newer(lastId));
    if |after| <= limit then after else after[..limit]
  }

  function IdBefore(rows: seq<Row>, n: nat): nat
    requires n <= |rows|
  {
    if n == 0 then 0 else rows[n - 1].id
  }

  lemma PageContinues(rows: seq<Row>, n: nat, limit: nat)
    requires Ordered(rows) && n <= |rows|
    ensures Page(rows, IdBefore(rows, n), limit)
         == rows[n..if |rows| - n <= limit then |rows| else n + limit]
  {
    FilterTail(rows, 0, n, Newer(IdBefore(rows, n)));
  }

  // ----- State and steps -------------------------------------------------

  /** A row that `log` is about to insert, with the newest hash it has read. */
  datatype Pending = Pending(prev: string, entry: Entry, gatewayId: Option<nat>)

  datatype State = State(rows: seq<Row>, pending: Option<Pending>)

  /** Hash of the newest row, or the empty string. */
  function TailHash(rows: seq<Row>): string
  {
    if rows == [] then "" else OrEmpty(rows[|rows| - 1].entryHash)
  }

  function NewRow(sha: string -> string, id: nat, p: Pending): Row
  {
    Row(id, p.entry, p.gatewayId, OrNone(p.prev), Some(ComputeEntryHash(sha, p.prev, p.entry)))
  }

  /** Absent text is hashed as empty text. */
  function TextOf(s: Option<string>): string
  {
    match s
    case None => ""
    case Some(text) => text
  }

  /**
   What `log` writes: the entry as given, a back-link unless the chain starts
   here, and the SHA-256 of the documented ten-element array.
   */
  lemma RowWritten(sha: string -> string, id: nat, p: Pending)
    ensures var r, e := NewRow(sha, id, p), p.entry;
      && r.id == id && r.entry == e && r.gatewayId == p.gatewayId
      && r.prevHash == (if p.prev == "" then None else Some(p.prev))
      && r.entryHash == Some(sha(Json.EncodeArray([
           p.prev, IsoFormat(e.timestamp.utc), e.actor, e.actorRole, e.action, e.resourceType, e.resourceId,
           TextOf(e.gatewayName), TextOf(e.detail), TextOf(e.clientIp)])))
  {
  }

  function Recent(cutoff: int): Row -> bool
  {
    (r: Row) => Instant(r.entry.timestamp) >= cutoff
  }

  function Stale(cutoff: int): Row -> bool
  {
    (r: Row) => Instant(r.entry.timestamp) < cutoff
  }

  function Purge(rows: seq<Row>, cutoff: int): seq<Row>
  {
    Filter(rows, Recent(cutoff))
  }

  /** The rows whose stamp is not earlier than the cutoff are there, and no others. */
  ghost predicate KeptFrom(rows: seq<Row>, cutoff: Stamp, kept: seq<Row>)
  {
    forall r :: r in kept <==> r in rows && !Earlier(r.entry.timestamp.utc, cutoff.utc)
  }

  lemma CleanupKeepsExactly(rows: seq<Row>, cutoff: Stamp)
    ensures KeptFrom(rows, cutoff, Purge(rows, Instant(cutoff)))
  {
    FilterMembers(rows, Recent(Instant(cutoff)));
    forall r: Row
      ensures Instant(r.entry.timestamp) >= Instant(cutoff) <==> !Earlier(r.entry.timestamp.utc, cutoff.utc)
    {
      InstantOrders(r.entry.timestamp, cutoff);
    }
  }

  function WithoutGateway(r: Row, gateway: nat): Row
  {
    if r.gatewayId == Some(gateway) then r.(gatewayId := None) else r
  }

  function ForgetGateway(rows: seq<Row>, gateway: nat): seq<Row>
  {
    seq(|rows|, i requires 0 <= i < |rows| => WithoutGateway(rows[i], gateway))
  }

  /** Deleting a gateway clears its key in the rows that have it, and changes nothing else. */
  lemma GatewayForgotten(rows: seq<Row>, gateway: nat, i: nat)
    requires i < |rows|
    ensures |ForgetGateway(rows, gateway)| == |rows|
    ensures var r, r' := rows[i], ForgetGateway(rows, gateway)[i];
      && (r'.id, r'.entry, r'.prevHash, r'.entryHash) == (r.id, r.entry, r.prevHash, r.entryHash)
      && r'.gatewayId == if r.gatewayId.Some? && r.gatewayId.value == gateway then None else r.gatewayId
  {
  }

  datatype Event =
    | Read(entry: Entry, gatewayId: Option<nat>)
    | Insert(id: nat)
    | Abort
    | Cleanup(cutoff: int)
    | GatewayDeleted(gateway: nat)

  /** The chain lock admits one pending insert; new keys are larger than all stored ones. */
  predicate Enabled(s: State, e: Event)
  {
    match e
    case Read(_, _) => s.pending.None?
    case Insert(id) => s.pending.Some? && 1 <= id && forall i :: 0 <= i < |s.rows| ==> s.rows[i].id < id
    case Abort => s.pending.Some?
    case Cleanup(_) => true
    case GatewayDeleted(_) => true
  }

  function Step(sha: string -> string, s: State, e: Event): State
    requires Enabled(s, e)
  {
    match e
    case Read(entry, gatewayId) => s.(pending := Some(Pending(TailHash(s.rows), entry, gatewayId)))
    case Insert(id) => State(s.rows + [NewRow(sha, id, s.pending.value)], None)
    case Abort => s.(pending := None)
    case Cleanup(cutoff) => s.(rows := Purge(s.rows, cutoff))
    case GatewayDeleted(gateway) => s.(rows := ForgetGateway(s.rows, gateway))
  }

  // ----- The service -----------------------------------------------------

  class AuditService {
    const sha: string -> string
    var rows: seq<Row>
    var pending: Option<Pending>

    constructor (sha: string -> string, rows: seq<Row>)
      ensures this.sha == sha && View() == State(rows, None)
    {
      this.sha := sha;
      this.rows := rows;
      pending := None;
    }

    ghost function View(): State
      reads this
    {
      State(rows, pending)
    }

    /** First half of `log`: under the lock, read the newest hash and the clock. */
    method BeginLog(entry: Entry, gatewayId: Option<nat>)
      requires Enabled(View(), Read(entry, gatewayId))
      modifies this`pending
      ensures View() == Step(sha, old(View()), Read(entry, gatewayId))
    {
      var prev := "";
      if rows != [] && rows[|rows| - 1].entryHash.Some? {
        prev := rows[|rows| - 1].entryHash.value;
      }
      pending := Some(Pending(prev, entry, gatewayId));
    }

    /** Second half of `log`: insert the row under a fresh key. */
    method CommitLog(id: nat)
      requires Enabled(View(), Insert(id))
      modifies this
      ensures View() == Step(sha, old(View()), Insert(id))
    {
      var p := pending.value;
      var hash := ComputeEntryHash(sha, p.prev, p.entry);
      rows := rows + [Row(id, p.entry, p.gatewayId, OrNone(p.prev), Some(hash))];
      pending := None;
    }

    /** Deletes the rows stamped before the cutoff. */
    method CleanupOlder(cutoff: Stamp) returns (count: nat)
      requires Ordered(rows)
      modifies this`rows
      ensures View() == Step(sha, old(View()), Cleanup(Instant(cutoff)))
      ensures KeptFrom(old(rows), cutoff, rows)
      ensures count == |old(rows)| - |rows|
    {
      CleanupKeepsExactly(rows, cutoff);
      count := DeleteStale(Instant(cutoff));
    }

    /** Selects the stale rows, then deletes them one by one. */
    method DeleteStale(cutoff: int) returns (count: nat)
      requires Ordered(rows)
      modifies this`rows
      ensures View() == Step(sha, old(View()), Cleanup(cutoff))
      ensures count == |old(rows)| - |rows|
    {
      ghost var all := rows;
      var stale := Filter(rows, Stale(cutoff));
      var i := 0;
      NothingDeleted(all, stale);
      while i < |stale|
        invariant 0 <= i <= |stale|
        invariant Deleted(all, stale, i, rows)
      {
        DeletedNext(all, cutoff, stale, i, rows);
        rows := Filter(rows, OtherKey(stale[i].id));
        i := i + 1;
      }
      AllDeleted(all, cutoff, stale, rows);
      return |stale|;
    }

    /** Recomputes the chain in batches of 1000 rows. */
    method VerifyChain() returns (rep: Report)
      requires Ordered(rows)
      ensures Explains(DigestOf(sha), rows, rep)
    {
      rep := Scan(DigestOf(sha), rows, VERIFY_BATCH);
    }
  }

  function NotIn(rows: seq<Row>): Row -> bool
  {
    (r: Row) => r !in rows
  }

  function OtherKey(id: nat): Row -> bool
  {
    (r: Row) => r.id != id
  }

  /** What is left of a table after the first `i` stale rows are gone. */
  ghost predicate Deleted(all: seq<Row>, stale: seq<Row>, i: nat, rows: seq<Row>)
    requires i <= |stale|
  {
    rows == Filter(all, NotIn(stale[..i]))
  }

  lemma NothingDeleted(all: seq<Row>, stale: seq<Row>)
    ensures Deleted(all, stale, 0, all)
  {
    FilterAll(all, NotIn(stale[..0]));
  }

  lemma DeletedNext(all: seq<Row>, cutoff: int, stale: seq<Row>, i: nat, rows: seq<Row>)
    requires Ordered(all) && stale == Filter(all, Stale(cutoff)) && i < |stale| && Deleted(all, stale, i, rows)
    ensures Deleted(all, stale, i + 1, Filter(rows, OtherKey(stale[i].id)))
  {
    FilterMembers(all, Stale(cutoff));
    assert stale[i] in all;
    DeleteOne(all, stale, i);
  }

  lemma AllDeleted(all: seq<Row>, cutoff: int, stale: seq<Row>, rows: seq<Row>)
    requires stale == Filter(all, Stale(cutoff)) && Deleted(all, stale, |stale|, rows)
    ensures rows == Purge(all, cutoff) && |stale| == |all| - |rows|
  {
    assert stale[..|stale|] == stale;
    StaleGone(all, cutoff);
  }

  lemma DeleteOne(all: seq<Row>, stale: seq<Row>, i: nat)
    requires Ordered(all) && i < |stale| && stale[i] in all
    ensures Filter(Filter(all, NotIn(stale[..i])), OtherKey(stale[i].id)) == Filter(all, NotIn(stale[..i + 1]))
  {
    var r := stale[i];
    assert stale[..i + 1] == stale[..i] + [r];
    forall j | 0 <= j < |all|
      ensures NotIn(stale[..i + 1])(all[j]) == (NotIn(stale[..i])(all[j]) && OtherKey(r.id)(all[j]))
    {
      SameKey(all, all[j], r);
    }
    FilterTwice(all, NotIn(stale[..i]), OtherKey(r.id), NotIn(stale[..i + 1]));
  }

  lemma SameKey(all: seq<Row>, r: Row, t: Row)
    requires Ordered(all) && r in all && t in all
    ensures r.id == t.id <==> r == t
  {
  }

  lemma StaleGone(all: seq<Row>, cutoff: int)
    ensures Filter(all, NotIn(Filter(all, Stale(cutoff)))) == Purge(all, cutoff)
    ensures |Filter(all, Stale(cutoff))| + |Purge(all, cutoff)| == |all|
  {
    FilterMembers(all, Stale(cutoff));
    FilterAgree(all, NotIn(Filter(all, Stale(cutoff))), Recent(cutoff));
    FilterSplits(all, Stale(cutoff), Recent(cutoff));
  }

  /** The locals of `verify_chain`. */
  datatype Progress = Progress(
    checked: nat,
    legacy: nat,
    lastId: nat,
    prevEntryHash: Option<string>,
    firstBadId: Option<nat>)

  /** `checked` and `legacy` count good rows; the next row, if a bad one was met, breaks the chain. */
  ghost predicate Tracks(digest: Digest, rows: seq<Row>, p: Progress)
  {
    var n := p.checked + p.legacy;
    && n <= |rows|
    && ChainFrom(digest, rows[..n], p.legacy)
    && p.prevEntryHash == (if p.checked == 0 then None else rows[n - 1].entryHash)
    && (p.firstBadId.None? ==> p.lastId == IdBefore(rows, n))
    && (p.firstBadId.Some? ==>
          n < |rows| && p.firstBadId.value == rows[n].id && !WellChained(digest, rows[..n + 1]))
  }

  /** One iteration of the inner loop of `verify_chain`. */
  method CheckRow(digest: Digest, ghost rows: seq<Row>, row: Row, p: Progress) returns (q: Progress)
    requires Tracks(digest, rows, p) && p.firstBadId.None?
    requires p.checked + p.legacy < |rows| && row == rows[p.checked + p.legacy]
    ensures Tracks(digest, rows, q)
    ensures q.checked + q.legacy == p.checked + p.legacy + (if q.firstBadId.None? then 1 else 0)
  {
    ghost var n := p.checked + p.legacy;
    assert rows[..n] + [row] == rows[..n + 1];
    ChainAppend(digest, rows[..n], p.legacy, row);
    q := p.(lastId := row.id);
    if row.entryHash.None? {
      if p.checked > 0 {
        return q.(firstBadId := Some(row.id));
      }
      return q.(legacy := p.legacy + 1);
    }
    var recomputed := digest(row);
    if recomputed != row.entryHash.value || (p.prevEntryHash.Some? && row.prevHash != p.prevEntryHash) {
      return q.(firstBadId := Some(row.id));
    }
    q := q.(prevEntryHash := row.entryHash, checked := p.checked + 1);
  }

  /** The inner loop of `verify_chain`, over one batch. */
  method CheckPage(digest: Digest, ghost rows: seq<Row>, page: seq<Row>, start: Progress) returns (p: Progress)
    requires Tracks(digest, rows, start) && start.firstBadId.None?
    requires var n := start.checked + start.legacy; n + |page| <= |rows| && page == rows[n..n + |page|]
    ensures Tracks(digest, rows, p)
    ensures p.firstBadId.None? ==> p.checked + p.legacy == start.checked + start.legacy + |page|
    ensures p.checked + p.legacy >= start.checked + start.legacy
  {
    p := start;
    ghost var n := start.checked + start.legacy;
    var i := 0;
    while i < |page| && p.firstBadId.None?
      invariant 0 <= i <= |page| && Tracks(digest, rows, p)
      invariant p.checked + p.legacy == n + i - (if p.firstBadId.None? then 0 else 1)
      invariant p.firstBadId.Some? ==> i > 0
    {
      p := CheckRow(digest, rows, page[i], p);
      i := i + 1;
    }
  }

  /** `verify_chain` for any batch size: rows with a larger key than the last one remain. */
  method Scan(digest: Digest, rows: seq<Row>, batch: nat) returns (rep: Report)
    requires Ordered(rows) && 1 <= batch
    ensures Explains(digest, rows, rep)
  {
    var p := Progress(0, 0, 0, None, None);
    while p.firstBadId.None?
      invariant Tracks(digest, rows, p)
      decreases |rows| - (p.checked + p.legacy), p.firstBadId.None?
    {
      var page := Page(rows, p.lastId, batch);
      PageContinues(rows, p.checked + p.legacy, batch);
      if page == [] {
        break;
      }
      p := CheckPage(digest, rows, page, p);
    }
    rep := Report(p.firstBadId.None?, p.checked, p.legacy, p.firstBadId);
  }
}
