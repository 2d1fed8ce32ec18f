/**
 Whole runs of the audit service: every interleaving of `log`, `cleanup` and
 gateway deletion leaves a table that `verify_chain` accepts, as long as the
 clock does not go backwards; and exactly when a cleanup breaks a table.
 */
module AuditRuns {
  import opened Wrappers
  import opened Seqs
  import opened AuditHash
  import opened AuditChain
  import opened AuditLog

  function Time(r: Row): int
  {
    Instant(r.entry.timestamp)
  }

  // ----- Runs ------------------------------------------------------------

  predicate IsRun(sha: string -> string, s: State, es: seq<Event>)
    decreases |es|
  {
    es == [] || (Enabled(s, es[0]) && IsRun(sha, Step(sha, s, es[0]), es[1..]))
  }

  function Run(sha: string -> string, s: State, es: seq<Event>): State
    requires IsRun(sha, s, es)
    decreases |es|
  {
    if es == [] then s else Run(sha, Step(sha, s, es[0]), es[1..])
  }

  /** `log` never reads an earlier time than before. */
  predicate InOrder(clock: int, es: seq<Event>)
    decreases |es|
  {
    es == [] || ((es[0].Read? ==> clock <= Instant(es[0].entry.timestamp)) && InOrder(Advance(clock, es[0]), es[1..]))
  }

  function Advance(clock: int, e: Event): int
  {
    if e.Read? then Instant(e.entry.timestamp) else clock
  }

  predicate Rising(rows: seq<Row>, k: nat)
  {
    forall i, j :: k <= i < j < |rows| ==> Time(rows[i]) <= Time(rows[j])
  }

  predicate NotAfter(rows: seq<Row>, k: nat, t: int)
  {
    forall i :: k <= i < |rows| ==> Time(rows[i]) <= t
  }

  /** The pending insert continues the chain that starts at `k`. */
  predicate Continues(rows: seq<Row>, k: nat, p: Pending)
  {
    && NotAfter(rows, k, Instant(p.entry.timestamp))
    && (k < |rows| ==> rows[|rows| - 1].entryHash == Some(p.prev))
  }

  predicate Good(digest: Digest, s: State, clock: int, k: nat)
  {
    && Ordered(s.rows)
    && ChainFrom(digest, s.rows, k)
    && Rising(s.rows, k)
    && NotAfter(s.rows, k, clock)
    && (s.pending.Some? ==> Continues(s.rows, k, s.pending.value) && Instant(s.pending.value.entry.timestamp) <= clock)
  }

  ghost predicate StaysGood(digest: Digest, s: State, clock: int)
  {
    exists k: nat :: Good(digest, s, clock, k)
  }

  lemma NewRowHashed(sha: string -> string, id: nat, p: Pending)
    ensures SelfHashed(DigestOf(sha), NewRow(sha, id, p))
  {
  }

  lemma AppendKeepsGood(digest: Digest, rows: seq<Row>, clock: int, k: nat, r: Row)
    requires Good(digest, State(rows, None), clock, k)
    requires Extends(digest, rows, k, r) && !Legacy(r)
    requires 1 <= r.id && forall i :: 0 <= i < |rows| ==> rows[i].id < r.id
    requires NotAfter(rows, k, Time(r)) && Time(r) <= clock
    ensures Good(digest, State(rows + [r], None), clock, k)
  {
    ChainAppend(digest, rows, k, r);
  }

  lemma InsertKeepsGood(sha: string -> string, s: State, clock: int, k: nat, id: nat)
    requires HexDigest(sha) && Good(DigestOf(sha), s, clock, k) && Enabled(s, Insert(id))
    ensures Good(DigestOf(sha), Step(sha, s, Insert(id)), clock, k)
  {
    var digest, p := DigestOf(sha), s.pending.value;
    NewRowHashed(sha, id, p);
    if k < |s.rows| {
      assert SelfHashed(digest, s.rows[|s.rows| - 1]);
      HashNotEmpty(sha, s.rows[|s.rows| - 1]);
    }
    AppendKeepsGood(digest, s.rows, clock, k, NewRow(sha, id, p));
  }

  lemma HashNotEmpty(sha: string -> string, r: Row)
    requires HexDigest(sha)
    ensures DigestOf(sha)(r) != ""
  {
  }

  /** With rising stamps, a cleanup removes some legacy rows and then the oldest chained ones. */
  lemma PurgeShape(rows: seq<Row>, k: nat, cutoff: int) returns (c: nat)
    requires k <= |rows| && Rising(rows, k)
    ensures k <= c <= |rows|
    ensures Purge(rows, cutoff) == Purge(rows[..k], cutoff) + rows[c..]
  {
    c := k;
    while c < |rows| && Time(rows[c]) < cutoff
      invariant k <= c <= |rows|
      invariant forall i :: k <= i < c ==> Time(rows[i]) < cutoff
    {
      c := c + 1;
    }
    FilterTail(rows, k, c, Recent(cutoff));
  }

  lemma {:induction false} PurgeKeepsOrder(rows: seq<Row>, cutoff: int)
    requires Ordered(rows)
    ensures Ordered(Purge(rows, cutoff))
  {
    if rows != [] {
      var n := |rows| - 1;
      PurgeKeepsOrder(rows[..n], cutoff);
      FilterMembers(rows[..n], Recent(cutoff));
      var front := Purge(rows[..n], cutoff);
      forall i | 0 <= i < |front|
        ensures front[i].id < rows[n].id
      {
        assert front[i] in rows[..n];
      }
    }
  }

  lemma PurgeKeepsLegacy(rows: seq<Row>, cutoff: int)
    requires forall i :: 0 <= i < |rows| ==> Legacy(rows[i])
    ensures forall i :: 0 <= i < |Purge(rows, cutoff)| ==> Legacy(Purge(rows, cutoff)[i])
  {
    FilterMembers(rows, Recent(cutoff));
    forall i | 0 <= i < |Purge(rows, cutoff)|
      ensures Legacy(Purge(rows, cutoff)[i])
    {
      assert Purge(rows, cutoff)[i] in rows;
    }
  }

  /** Legacy rows in front do not affect the chain behind them. */
  lemma LegacyInFront(digest: Digest, old': seq<Row>, chain: seq<Row>)
    requires forall i :: 0 <= i < |old'| ==> Legacy(old'[i])
    requires ChainFrom(digest, chain, 0)
    ensures ChainFrom(digest, old' + chain, |old'|)
  {
  }

  /** Fewer legacy rows in front and fewer old chained rows behind them. */
  lemma ShortenedStamps(rows: seq<Row>, k: nat, t: int, front: seq<Row>, c: nat)
    requires k <= c <= |rows|
    ensures Rising(rows, k) ==> Rising(front + rows[c..], |front|)
    ensures NotAfter(rows, k, t) ==> NotAfter(front + rows[c..], |front|, t)
  {
  }

  lemma ShortenedKeepsGood(digest: Digest, s: State, clock: int, k: nat, front: seq<Row>, c: nat)
    requires Good(digest, s, clock, k) && k <= c <= |s.rows|
    requires forall i :: 0 <= i < |front| ==> Legacy(front[i])
    requires Ordered(front + s.rows[c..])
    ensures Good(digest, s.(rows := front + s.rows[c..]), clock, |front|)
  {
    OldRowsMayGo(digest, s.rows, k, c);
    LegacyInFront(digest, front, s.rows[c..]);
    ShortenedStamps(s.rows, k, clock, front, c);
    if s.pending.Some? {
      ShortenedStamps(s.rows, k, Instant(s.pending.value.entry.timestamp), front, c);
    }
  }

  lemma CleanupKeepsGood(sha: string -> string, s: State, clock: int, k: nat, cutoff: int)
    requires Good(DigestOf(sha), s, clock, k)
    ensures StaysGood(DigestOf(sha), Step(sha, s, Cleanup(cutoff)), clock)
  {
    var c := PurgeShape(s.rows, k, cutoff);
    var front := Purge(s.rows[..k], cutoff);
    PurgeKeepsLegacy(s.rows[..k], cutoff);
    PurgeKeepsOrder(s.rows, cutoff);
    ShortenedKeepsGood(DigestOf(sha), s, clock, k, front, c);
    assert Good(DigestOf(sha), Step(sha, s, Cleanup(cutoff)), clock, |front|);
  }

  /** Equal keys, stamps, links and digests: equal for the chain. */
  predicate SameLinks(digest: Digest, r: Row, t: Row)
  {
    && r.id == t.id && Time(r) == Time(t) && r.prevHash == t.prevHash && r.entryHash == t.entryHash
    && digest(r) == digest(t)
  }

  lemma RelabelledChain(digest: Digest, rows: seq<Row>, rows': seq<Row>, k: nat)
    requires ChainFrom(digest, rows, k) && |rows'| == |rows|
    requires forall i :: 0 <= i < |rows| ==> SameLinks(digest, rows[i], rows'[i])
    ensures ChainFrom(digest, rows', k)
  {
  }

  lemma RelabelledOrder(digest: Digest, rows: seq<Row>, rows': seq<Row>, k: nat, t: int)
    requires Ordered(rows) && |rows'| == |rows|
    requires forall i :: 0 <= i < |rows| ==> SameLinks(digest, rows[i], rows'[i])
    ensures Ordered(rows')
    ensures Rising(rows, k) ==> Rising(rows', k)
    ensures NotAfter(rows, k, t) ==> NotAfter(rows', k, t)
  {
  }

  lemma RelabelledKeepsGood(digest: Digest, s: State, clock: int, k: nat, rows: seq<Row>)
    requires Good(digest, s, clock, k) && |rows| == |s.rows|
    requires forall i :: 0 <= i < |rows| ==> SameLinks(digest, s.rows[i], rows[i])
    ensures Good(digest, s.(rows := rows), clock, k)
  {
    RelabelledChain(digest, s.rows, rows, k);
    RelabelledOrder(digest, s.rows, rows, k, clock);
    if s.pending.Some? {
      RelabelledOrder(digest, s.rows, rows, k, Instant(s.pending.value.entry.timestamp));
      assert k < |rows| ==> SameLinks(digest, s.rows[|rows| - 1], rows[|rows| - 1]);
    }
  }

  lemma ForgettingSameLinks(sha: string -> string, r: Row, gateway: nat)
    ensures SameLinks(DigestOf(sha), r, WithoutGateway(r, gateway))
  {
  }

  /** `gateway_id` is not hashed, so nulling it changes nothing the chain sees. */
  lemma ForgettingKeepsGood(sha: string -> string, s: State, clock: int, k: nat, gateway: nat)
    requires Good(DigestOf(sha), s, clock, k)
    ensures Good(DigestOf(sha), Step(sha, s, GatewayDeleted(gateway)), clock, k)
  {
    var rows := ForgetGateway(s.rows, gateway);
    forall i | 0 <= i < |rows|
      ensures SameLinks(DigestOf(sha), s.rows[i], rows[i])
    {
      ForgettingSameLinks(sha, s.rows[i], gateway);
    }
    RelabelledKeepsGood(DigestOf(sha), s, clock, k, rows);
  }

  lemma ReadKeepsGood(digest: Digest, s: State, clock: int, k: nat, entry: Entry, gatewayId: Option<nat>)
    requires Good(digest, s, clock, k) && s.pending.None?
    requires clock <= Instant(entry.timestamp)
    ensures Good(digest, s.(pending := Some(Pending(TailHash(s.rows), entry, gatewayId))), Instant(entry.timestamp), k)
  {
  }

  lemma StepKeepsGood(sha: string -> string, s: State, clock: int, k: nat, e: Event)
    requires HexDigest(sha) && Good(DigestOf(sha), s, clock, k) && Enabled(s, e)
    requires e.Read? ==> clock <= Instant(e.entry.timestamp)
    ensures StaysGood(DigestOf(sha), Step(sha, s, e), Advance(clock, e))
  {
    match e
    case Read(entry, gatewayId) => ReadKeepsGood(DigestOf(sha), s, clock, k, entry, gatewayId);
    case Insert(id) => InsertKeepsGood(sha, s, clock, k, id);
    case Abort => assert Good(DigestOf(sha), Step(sha, s, e), clock, k);
    case Cleanup(cutoff) => CleanupKeepsGood(sha, s, clock, k, cutoff);
    case GatewayDeleted(gateway) => ForgettingKeepsGood(sha, s, clock, k, gateway);
  }

  lemma {:induction false} RunKeepsGood(sha: string -> string, s: State, clock: int, k: nat, es: seq<Event>)
    requires HexDigest(sha) && Good(DigestOf(sha), s, clock, k) && IsRun(sha, s, es) && InOrder(clock, es)
    ensures WellChained(DigestOf(sha), Run(sha, s, es).rows)
    decreases |es|
  {
    if es != [] {
      StepKeepsGood(sha, s, clock, k, es[0]);
      var m: nat :| Good(DigestOf(sha), Step(sha, s, es[0]), Advance(clock, es[0]), m);
      RunKeepsGood(sha, Step(sha, s, es[0]), Advance(clock, es[0]), m, es[1..]);
    }
  }

  /**
   Safety over whole runs. From any table of legacy rows, whatever `log`,
   `cleanup` (also between `log`'s read and its insert), failed inserts and
   gateway deletions do, `verify_chain` reports ok.
   */
  lemma EveryRunVerifies(sha: string -> string, rows: seq<Row>, clock: int, es: seq<Event>, rep: Report)
    requires HexDigest(sha) && Ordered(rows) && forall i :: 0 <= i < |rows| ==> Legacy(rows[i])
    requires IsRun(sha, State(rows, None), es) && InOrder(clock, es)
    requires Explains(DigestOf(sha), Run(sha, State(rows, None), es).rows, rep)
    ensures rep.ok && rep.firstBadId == None
  {
    assert Good(DigestOf(sha), State(rows, None), clock, |rows|);
    RunKeepsGood(sha, State(rows, None), clock, |rows|, es);
    OkMeansWellChained(DigestOf(sha), Run(sha, State(rows, None), es).rows, rep);
  }

  // ----- Exactly when a deletion is noticed ------------------------------

  predicate DistinctHashes(rows: seq<Row>, k: nat)
  {
    forall i, j :: k <= i < j < |rows| ==> rows[i].entryHash != rows[j].entryHash
  }

  /** No chained row is dropped between two that are kept. */
  ghost predicate NoGap(rows: seq<Row>, k: nat, keep: Row -> bool)
  {
    forall i, j, m :: k <= i < j < m < |rows| && keep(rows[i]) && keep(rows[m]) ==> keep(rows[j])
  }

  /** Index of the last kept row, or -1. */
  function LastKept(rows: seq<Row>, keep: Row -> bool): (x: int)
    ensures -1 <= x < |rows| && (0 <= x ==> keep(rows[x]))
    ensures forall i :: x < i < |rows| ==> !keep(rows[i])
  {
    var n := |rows| - 1;
    if n < 0 then -1 else if keep(rows[n]) then n else LastKept(rows[..n], keep)
  }

  lemma {:induction false} LastOfFilter(rows: seq<Row>, keep: Row -> bool)
    ensures var f, x := Filter(rows, keep), LastKept(rows, keep);
      if x < 0 then f == [] else f != [] && f[|f| - 1] == rows[x]
  {
    if rows != [] {
      LastOfFilter(rows[..|rows| - 1], keep);
    }
  }

  lemma FilterOfLegacy(digest: Digest, rows: seq<Row>, keep: Row -> bool)
    requires forall i :: 0 <= i < |rows| ==> Legacy(rows[i])
    ensures ChainFrom(digest, Filter(rows, keep), |Filter(rows, keep)|)
  {
  }

  /** When keeping one more chained row leaves no gap: its predecessor, or no chained row, is kept. */
  predicate Adjacent(rows: seq<Row>, k: nat, keep: Row -> bool)
  {
    LastKept(rows, keep) < k || LastKept(rows, keep) == |rows| - 1
  }

  lemma GapAppears(rows: seq<Row>, k: nat, r: Row, keep: Row -> bool)
    requires k <= |rows| && keep(r) && !Adjacent(rows, k, keep)
    ensures !NoGap(rows + [r], k, keep)
  {
    var more, x, n := rows + [r], LastKept(rows, keep), |rows|;
    assert keep(more[x]) && !keep(more[n - 1]) && keep(more[n]);
  }

  lemma GapStaysAway(rows: seq<Row>, k: nat, r: Row, keep: Row -> bool)
    requires k <= |rows| && NoGap(rows, k, keep)
    requires keep(r) ==> Adjacent(rows, k, keep)
    ensures NoGap(rows + [r], k, keep)
  {
  }

  lemma GapRemains(rows: seq<Row>, k: nat, r: Row, keep: Row -> bool)
    requires NoGap(rows + [r], k, keep)
    ensures NoGap(rows, k, keep)
  {
    assert forall i :: 0 <= i < |rows| ==> (rows + [r])[i] == rows[i];
  }

  /** The kept rows end in a chained row exactly if the last kept row is one. */
  lemma KeptTail(digest: Digest, rows: seq<Row>, k: nat, f: seq<Row>, kf: nat, x: int)
    requires ChainFrom(digest, rows, k) && ChainFrom(digest, f, kf)
    requires -1 <= x < |rows|
    requires if x < 0 then f == [] else f != [] && f[|f| - 1] == rows[x]
    ensures kf < |f| <==> k <= x
  {
  }

  lemma PrefixOfAppend(digest: Digest, f: seq<Row>, r: Row)
    requires WellChained(digest, f + [r])
    ensures WellChained(digest, f)
  {
    var m: nat :| ChainFrom(digest, f + [r], m);
    NewRowsMayGo(digest, f + [r], m, |f|);
    assert (f + [r])[..|f|] == f;
  }

  /** Distinct hashes: a chained row names the last kept row only if that is its predecessor. */
  lemma ExtendsIfAdjacent(digest: Digest, front: seq<Row>, k: nat, r: Row, f: seq<Row>, kf: nat, x: int)
    requires k <= |front| && DistinctHashes(front, k) && kf <= |f|
    requires SelfHashed(digest, r) && (k < |front| ==> r.prevHash == front[|front| - 1].entryHash)
    requires -1 <= x < |front| && (kf < |f| <==> k <= x)
    requires 0 <= x ==> f != [] && f[|f| - 1] == front[x]
    ensures Extends(digest, f, kf, r) <==> x < k || x == |front| - 1
  {
  }

  /** A chained row links to the kept rows exactly if they end in its predecessor. */
  lemma LinksIfAdjacent(digest: Digest, front: seq<Row>, k: nat, r: Row, keep: Row -> bool)
    requires k <= |front| && ChainFrom(digest, front, k)
    requires SelfHashed(digest, r) && (k < |front| ==> r.prevHash == front[|front| - 1].entryHash)
    requires DistinctHashes(front, k) && WellChained(digest, Filter(front, keep))
    ensures WellChained(digest, Filter(front, keep) + [r]) <==> Adjacent(front, k, keep)
  {
    var f, x := Filter(front, keep), LastKept(front, keep);
    var kf: nat :| ChainFrom(digest, f, kf);
    ChainAppend(digest, f, kf, r);
    LastOfFilter(front, keep);
    KeptTail(digest, front, k, f, kf, x);
    ExtendsIfAdjacent(digest, front, k, r, f, kf, x);
  }

  /**
   Deleting any set of rows from a verified table is noticed exactly if it
   leaves a gap in the chain; what it takes off the old or the new end is not.
   */
  lemma {:induction false} DeletionExact(digest: Digest, rows: seq<Row>, k: nat, keep: Row -> bool)
    requires ChainFrom(digest, rows, k) && DistinctHashes(rows, k)
    ensures WellChained(digest, Filter(rows, keep)) <==> NoGap(rows, k, keep)
  {
    var n := |rows| - 1;
    if n < k {
      FilterOfLegacy(digest, rows, keep);
    } else {
      var front, r := rows[..n], rows[n];
      assert rows == front + [r];
      NewRowsMayGo(digest, rows, k, n);
      DeletionExact(digest, front, k, keep);
      DeletionExactStep(digest, front, k, r, keep);
    }
  }

  lemma DeletionExactStep(digest: Digest, front: seq<Row>, k: nat, r: Row, keep: Row -> bool)
    requires k <= |front| && ChainFrom(digest, front, k)
    requires SelfHashed(digest, r) && (k < |front| ==> r.prevHash == front[|front| - 1].entryHash)
    requires DistinctHashes(front, k)
    requires WellChained(digest, Filter(front, keep)) <==> NoGap(front, k, keep)
    ensures WellChained(digest, Filter(front + [r], keep)) <==> NoGap(front + [r], k, keep)
  {
    var f := Filter(front, keep);
    FilterSnoc(front, r, keep);
    if NoGap(front + [r], k, keep) {
      GapRemains(front, k, r, keep);
    }
    if NoGap(front, k, keep) {
      LinksIfAdjacent(digest, front, k, r, keep);
      if keep(r) && !Adjacent(front, k, keep) {
        GapAppears(front, k, r, keep);
      } else {
        GapStaysAway(front, k, r, keep);
      }
    } else if keep(r) && WellChained(digest, f + [r]) {
      PrefixOfAppend(digest, f, r);
    }
  }

  predicate Sooner(r: Row, t: Row)
  {
    Earlier(r.entry.timestamp.utc, t.entry.timestamp.utc)
  }

  /** A chained row stamped earlier than a row on either side of it, as after a clock step backwards. */
  predicate Dip(rows: seq<Row>, k: nat, i: nat, j: nat, m: nat)
  {
    && k <= i < j < m < |rows|
    && Sooner(rows[j], rows[i]) && Sooner(rows[j], rows[m])
  }

  ghost predicate HasDip(rows: seq<Row>, k: nat)
  {
    exists i: nat, j: nat, m: nat :: Dip(rows, k, i, j, m)
  }

  /** Whatever the cutoff, a cleanup leaves the table intact. */
  ghost predicate CleanupSafe(digest: Digest, rows: seq<Row>)
  {
    forall cutoff :: WellChained(digest, Purge(rows, cutoff))
  }

  lemma DipLeavesGap(rows: seq<Row>, k: nat, i: nat, j: nat, m: nat) returns (cutoff: int)
    requires Dip(rows, k, i, j, m)
    ensures !NoGap(rows, k, Recent(cutoff))
  {
    cutoff := if Time(rows[i]) < Time(rows[m]) then Time(rows[i]) else Time(rows[m]);
    var keep := Recent(cutoff);
    InstantOrders(rows[j].entry.timestamp, rows[i].entry.timestamp);
    InstantOrders(rows[j].entry.timestamp, rows[m].entry.timestamp);
    assert keep(rows[i]) && !keep(rows[j]) && keep(rows[m]);
  }

  lemma NoDipNoGap(rows: seq<Row>, k: nat, cutoff: int)
    requires !HasDip(rows, k)
    ensures NoGap(rows, k, Recent(cutoff))
  {
    var keep := Recent(cutoff);
    forall i: nat, j: nat, m: nat | k <= i < j < m < |rows| && keep(rows[i]) && keep(rows[m])
      ensures keep(rows[j])
    {
      InstantOrders(rows[j].entry.timestamp, rows[i].entry.timestamp);
      InstantOrders(rows[j].entry.timestamp, rows[m].entry.timestamp);
      assert !Dip(rows, k, i, j, m);
    }
  }

  /**
   Retention by timestamp is safe for a chain ordered by key exactly if no
   stamp dips: this is what a clock that never goes backwards guarantees.
   */
  lemma CleanupSafeExactly(digest: Digest, rows: seq<Row>, k: nat)
    requires ChainFrom(digest, rows, k) && DistinctHashes(rows, k)
    ensures CleanupSafe(digest, rows) <==> !HasDip(rows, k)
  {
    if i: nat, j: nat, m: nat :| Dip(rows, k, i, j, m) {
      var cutoff := DipLeavesGap(rows, k, i, j, m);
      DeletionExact(digest, rows, k, Recent(cutoff));
      assert !WellChained(digest, Purge(rows, cutoff));
    } else {
      forall cutoff
        ensures WellChained(digest, Purge(rows, cutoff))
      {
        NoDipNoGap(rows, k, cutoff);
        DeletionExact(digest, rows, k, Recent(cutoff));
      }
    }
  }

  // ----- Two writers -----------------------------------------------------

  /**
   Two processes that each hold their own lock can read the same newest hash;
   the second row then never names the first one's hash, so the fork is
   reported (unless the digest is its own input hash).
   */
  lemma ForkReported(sha: string -> string, rows: seq<Row>, k: nat, p: Pending, q: Pending, id: nat, id': nat)
    requires HexDigest(sha) && ChainFrom(DigestOf(sha), rows, k)
    requires p.prev == q.prev == TailHash(rows)
    ensures WellChained(DigestOf(sha), rows + [NewRow(sha, id, p)])
    ensures WellChained(DigestOf(sha), rows + [NewRow(sha, id, p)] + [NewRow(sha, id', q)])
        <==> NewRow(sha, id, p).entryHash == Some(p.prev)
  {
    var digest, first, second := DigestOf(sha), NewRow(sha, id, p), NewRow(sha, id', q);
    NewRowHashed(sha, id, p);
    NewRowHashed(sha, id', q);
    HashNotEmpty(sha, first);
    if k < |rows| {
      assert SelfHashed(digest, rows[|rows| - 1]);
      HashNotEmpty(sha, rows[|rows| - 1]);
    }
    ChainAppend(digest, rows, k, first);
    ChainAppend(digest, rows + [first], k, second);
  }
}
