/**
 The rows a run has logged, including those deleted since. Whatever the clock
 did and whatever was cleaned up, the entry hashes of a reachable table are
 distinct unless two logged rows collide, so the exact conditions on deletions
 apply to every reachable table.
 */
module AuditHistory {
  import opened Wrappers
  import opened Seqs
  import opened AuditHash
  import opened AuditChain
  import opened AuditLog
  import opened AuditRuns

  /** The rows inserted in a run, in order. */
  function Logged(sha: string -> string, s: State, es: seq<Event>): seq<Row>
    requires IsRun(sha, s, es)
    decreases |es|
  {
    if es == [] then [] else Inserted(sha, s, es[0]) + Logged(sha, Step(sha, s, es[0]), es[1..])
  }

  function Inserted(sha: string -> string, s: State, e: Event): seq<Row>
    requires Enabled(s, e)
  {
    match e
    case Insert(id) => [NewRow(sha, id, s.pending.value)]
    case _ => []
  }

  // ----- How deep a hash lies --------------------------------------------

  /**
   The number of rows a hash continues, itself included. Rows form a tree, since
   a row may continue one whose later rows have been deleted.
   */
  type Depths = map<string, nat>

  /** The depth of a row that continues the given hash. */
  function Below(depths: Depths, prev: string): nat
  {
    if prev != "" && prev in depths then depths[prev] + 1 else 1
  }

  /** The hash is one of a logged row, one deeper than the row it continues. */
  predicate Placed(digest: Digest, depths: Depths, h: string, r: Row)
    requires h in depths
  {
    && digest(r) == h
    && (OrEmpty(r.prevHash) == "" || OrEmpty(r.prevHash) in depths)
    && depths[h] == Below(depths, OrEmpty(r.prevHash))
  }

  predicate HasPlace(digest: Digest, depths: Depths, logged: seq<Row>, h: string)
    requires h in depths
  {
    exists m :: 0 <= m < |logged| && Placed(digest, depths, h, logged[m])
  }

  function Depth(depths: Depths, r: Row): nat
  {
    if r.entryHash.Some? && r.entryHash.value in depths then depths[r.entryHash.value] else 0
  }

  predicate Known(depths: Depths, r: Row)
  {
    r.entryHash.Some? ==> r.entryHash.value in depths && 1 <= depths[r.entryHash.value]
  }

  predicate Deeper(depths: Depths, r: Row, t: Row)
  {
    Depth(depths, r) < Depth(depths, t) || Depth(depths, t) == Depth(depths, r) == 0
  }

  predicate AllKnown(depths: Depths, rows: seq<Row>)
  {
    forall i :: 0 <= i < |rows| ==> Known(depths, rows[i])
  }

  predicate Deepening(depths: Depths, rows: seq<Row>)
  {
    forall i, j :: 0 <= i < j < |rows| ==> Deeper(depths, rows[i], rows[j])
  }

  /** No row is deeper than the one the pending insert continues. */
  predicate Tops(depths: Depths, rows: seq<Row>, p: Pending)
  {
    && (p.prev == "" || p.prev in depths)
    && forall i :: 0 <= i < |rows| ==> Depth(depths, rows[i]) < Below(depths, p.prev)
  }

  ghost predicate Traced(digest: Digest, s: State, logged: seq<Row>, depths: Depths)
  {
    && (forall h :: h in depths ==> h != "" && HasPlace(digest, depths, logged, h))
    && AllKnown(depths, s.rows) && Deepening(depths, s.rows)
    && (s.pending.Some? ==> Tops(depths, s.rows, s.pending.value))
  }

  lemma {:induction false} PurgeKeepsDeepening(depths: Depths, rows: seq<Row>, keep: Row -> bool)
    requires Deepening(depths, rows)
    ensures Deepening(depths, Filter(rows, keep))
  {
    if rows != [] {
      var n := |rows| - 1;
      var front := Filter(rows[..n], keep);
      PurgeKeepsDeepening(depths, rows[..n], keep);
      FilterMembers(rows[..n], keep);
      forall i | 0 <= i < |front|
        ensures Deeper(depths, front[i], rows[n])
      {
        assert front[i] in rows[..n];
      }
    }
  }

  /** Deleting rows, whichever they are. */
  lemma FewerTraced(digest: Digest, s: State, logged: seq<Row>, depths: Depths, keep: Row -> bool)
    requires Traced(digest, s, logged, depths)
    ensures Traced(digest, s.(rows := Filter(s.rows, keep)), logged, depths)
  {
    var kept := Filter(s.rows, keep);
    PurgeKeepsDeepening(depths, s.rows, keep);
    FilterMembers(s.rows, keep);
    forall i | 0 <= i < |kept|
      ensures Known(depths, kept[i])
      ensures s.pending.Some? ==> Depth(depths, kept[i]) < Below(depths, s.pending.value.prev)
    {
      assert kept[i] in s.rows;
    }
  }

  /** The newest row is the deepest. */
  lemma NewestTops(depths: Depths, rows: seq<Row>, p: Pending)
    requires "" !in depths && AllKnown(depths, rows) && Deepening(depths, rows) && p.prev == TailHash(rows)
    ensures Tops(depths, rows, p)
  {
    if rows != [] {
      var last := rows[|rows| - 1];
      assert Known(depths, last);
      forall i | 0 <= i < |rows|
        ensures Depth(depths, rows[i]) < Below(depths, p.prev)
      {
        assert i < |rows| - 1 ==> Deeper(depths, rows[i], last);
      }
    }
  }

  lemma ReadTraced(
    sha: string -> string, s: State, logged: seq<Row>, depths: Depths, entry: Entry, gatewayId: Option<nat>)
    requires Traced(DigestOf(sha), s, logged, depths) && s.pending.None?
    ensures Traced(DigestOf(sha), Step(sha, s, Read(entry, gatewayId)), logged, depths)
  {
    NewestTops(depths, s.rows, Pending(TailHash(s.rows), entry, gatewayId));
  }

  /** Depths depend on nothing but the hashes. */
  lemma SameHashesTraced(depths: Depths, rows: seq<Row>, rows': seq<Row>)
    requires AllKnown(depths, rows) && Deepening(depths, rows) && |rows'| == |rows|
    requires forall i :: 0 <= i < |rows| ==> rows'[i].entryHash == rows[i].entryHash
    ensures AllKnown(depths, rows') && Deepening(depths, rows')
    ensures forall p :: Tops(depths, rows, p) ==> Tops(depths, rows', p)
  {
    forall i, j | 0 <= i < j < |rows|
      ensures Deeper(depths, rows'[i], rows'[j])
    {
      assert Deeper(depths, rows[i], rows[j]);
    }
    forall i | 0 <= i < |rows|
      ensures Known(depths, rows'[i])
    {
      assert Known(depths, rows[i]);
    }
  }

  lemma GatewayTraced(sha: string -> string, s: State, logged: seq<Row>, depths: Depths, gateway: nat)
    requires Traced(DigestOf(sha), s, logged, depths)
    ensures Traced(DigestOf(sha), Step(sha, s, GatewayDeleted(gateway)), logged, depths)
  {
    SameHashesTraced(depths, s.rows, ForgetGateway(s.rows, gateway));
  }

  /** A hash that has a place already gets the same one again, unless two rows collide. */
  lemma SamePlace(sha: string -> string, logged: seq<Row>, depths: Depths, r: Row)
    requires DigestOf(sha)(r) in depths && HasPlace(DigestOf(sha), depths, logged, DigestOf(sha)(r))
    ensures Collides(sha, logged + [r], logged + [r])
         || depths[DigestOf(sha)(r)] == Below(depths, OrEmpty(r.prevHash))
  {
    var more := logged + [r];
    var m :| 0 <= m < |logged| && Placed(DigestOf(sha), depths, DigestOf(sha)(r), logged[m]);
    NoCollisionMeansFaithful(sha, more, more);
    assert more[m] == logged[m] && more[|logged|] == r;
    if !Collides(sha, more, more) {
      assert RowView(more[m]) == RowView(more[|logged|]);
    }
  }

  /** The depths after an insert. */
  function Deepened(depths: Depths, h: string, prev: string): Depths
  {
    if h in depths then depths else depths[h := Below(depths, prev)]
  }

  /** A new hash changes no depth, since every hash is placed by known ones. */
  lemma DeepenedPlaces(digest: Digest, logged: seq<Row>, depths: Depths, r: Row)
    requires forall h :: h in depths ==> h != "" && HasPlace(digest, depths, logged, h)
    requires digest(r) != "" && (OrEmpty(r.prevHash) == "" || OrEmpty(r.prevHash) in depths)
    ensures var more := Deepened(depths, digest(r), OrEmpty(r.prevHash));
      forall h :: h in more ==> h != "" && HasPlace(digest, more, logged + [r], h)
  {
    var more := Deepened(depths, digest(r), OrEmpty(r.prevHash));
    forall h | h in more
      ensures HasPlace(digest, more, logged + [r], h)
    {
      if h in depths {
        var m :| 0 <= m < |logged| && Placed(digest, depths, h, logged[m]);
        assert Placed(digest, more, h, (logged + [r])[m]);
      } else {
        assert Placed(digest, more, h, (logged + [r])[|logged|]);
      }
    }
  }

  /** The new row is deeper than all others. */
  lemma NewRowTraced(depths: Depths, rows: seq<Row>, p: Pending, r: Row, depths': Depths)
    requires AllKnown(depths, rows) && Deepening(depths, rows) && Tops(depths, rows, p)
    requires r.entryHash.Some? && depths' == Deepened(depths, r.entryHash.value, p.prev)
    requires depths'[r.entryHash.value] == Below(depths, p.prev)
    ensures AllKnown(depths', rows + [r]) && Deepening(depths', rows + [r])
  {
    forall i | 0 <= i < |rows|
      ensures Depth(depths', rows[i]) == Depth(depths, rows[i]) && Known(depths', rows[i])
    {
      assert Known(depths, rows[i]);
    }
    forall i, j | 0 <= i < j < |rows| + 1
      ensures Deeper(depths', (rows + [r])[i], (rows + [r])[j])
    {
      assert j < |rows| ==> Deeper(depths, rows[i], rows[j]);
    }
  }

  /** Appending the row of the pending insert. */
  lemma AppendTraced(digest: Digest, s: State, logged: seq<Row>, depths: Depths, r: Row, depths': Depths)
    requires Traced(digest, s, logged, depths) && s.pending.Some?
    requires r.entryHash == Some(digest(r)) && digest(r) != "" && OrEmpty(r.prevHash) == s.pending.value.prev
    requires depths' == Deepened(depths, digest(r), s.pending.value.prev)
    requires depths'[digest(r)] == Below(depths, s.pending.value.prev)
    ensures Traced(digest, State(s.rows + [r], None), logged + [r], depths')
  {
    DeepenedPlaces(digest, logged, depths, r);
    NewRowTraced(depths, s.rows, s.pending.value, r, depths');
  }

  lemma NewRowLinks(sha: string -> string, id: nat, p: Pending)
    requires HexDigest(sha)
    ensures var r := NewRow(sha, id, p);
      r.entryHash == Some(DigestOf(sha)(r)) && DigestOf(sha)(r) != "" && OrEmpty(r.prevHash) == p.prev
  {
    NewRowHashed(sha, id, p);
    HashNotEmpty(sha, NewRow(sha, id, p));
  }

  lemma InsertTraced(sha: string -> string, s: State, logged: seq<Row>, depths: Depths, id: nat)
    returns (depths': Depths)
    requires HexDigest(sha) && Traced(DigestOf(sha), s, logged, depths) && Enabled(s, Insert(id))
    ensures var more := logged + [NewRow(sha, id, s.pending.value)];
      Collides(sha, more, more) || Traced(DigestOf(sha), Step(sha, s, Insert(id)), more, depths')
  {
    var p, r := s.pending.value, NewRow(sha, id, s.pending.value);
    NewRowLinks(sha, id, p);
    var h := DigestOf(sha)(r);
    depths' := Deepened(depths, h, p.prev);
    if h in depths {
      SamePlace(sha, logged, depths, r);
    }
    if depths'[h] == Below(depths, p.prev) {
      AppendTraced(DigestOf(sha), s, logged, depths, r, depths');
    }
  }

  lemma StepTraced(sha: string -> string, s: State, logged: seq<Row>, depths: Depths, e: Event)
    returns (depths': Depths)
    requires HexDigest(sha) && Traced(DigestOf(sha), s, logged, depths) && Enabled(s, e)
    ensures var more := logged + Inserted(sha, s, e);
      Collides(sha, more, more) || Traced(DigestOf(sha), Step(sha, s, e), more, depths')
  {
    depths' := depths;
    assert !e.Insert? ==> logged + Inserted(sha, s, e) == logged;
    match e
    case Read(entry, gatewayId) => ReadTraced(sha, s, logged, depths, entry, gatewayId);
    case Insert(id) => depths' := InsertTraced(sha, s, logged, depths, id);
    case Abort =>
    case Cleanup(cutoff) => FewerTraced(DigestOf(sha), s, logged, depths, Recent(cutoff));
    case GatewayDeleted(gateway) => GatewayTraced(sha, s, logged, depths, gateway);
  }

  lemma CollisionStays(sha: string -> string, logged: seq<Row>, more: seq<Row>)
    requires Collides(sha, logged, logged)
    ensures Collides(sha, logged + more, logged + more)
  {
    var i, j :| 0 <= i < |logged| && 0 <= j < |logged| && CollidingPair(sha, logged[i], logged[j]);
    assert CollidingPair(sha, (logged + more)[i], (logged + more)[j]);
  }

  lemma {:induction false} RunTraced(
    sha: string -> string, s: State, logged: seq<Row>, depths: Depths, es: seq<Event>) returns (depths': Depths)
    requires HexDigest(sha) && Traced(DigestOf(sha), s, logged, depths) && IsRun(sha, s, es)
    ensures var all := logged + Logged(sha, s, es);
      Collides(sha, all, all) || Traced(DigestOf(sha), Run(sha, s, es), all, depths')
    decreases |es|
  {
    if es == [] {
      depths' := depths;
      assert logged + [] == logged;
    } else {
      var more, rest := logged + Inserted(sha, s, es[0]), Logged(sha, Step(sha, s, es[0]), es[1..]);
      assert more + rest == logged + Logged(sha, s, es);
      depths' := StepTraced(sha, s, logged, depths, es[0]);
      if Collides(sha, more, more) {
        CollisionStays(sha, more, rest);
      } else {
        depths' := RunTraced(sha, Step(sha, s, es[0]), more, depths', es[1..]);
      }
    }
  }

  // ----- Distinct hashes -------------------------------------------------

  /** No two chained rows of the table have the same hash. */
  predicate AllDistinct(rows: seq<Row>)
  {
    forall i, j :: 0 <= i < j < |rows| && rows[i].entryHash.Some? ==> rows[i].entryHash != rows[j].entryHash
  }

  lemma TracedDistinct(digest: Digest, s: State, logged: seq<Row>, depths: Depths)
    requires Traced(digest, s, logged, depths)
    ensures AllDistinct(s.rows)
  {
    forall i, j | 0 <= i < j < |s.rows| && s.rows[i].entryHash.Some?
      ensures s.rows[i].entryHash != s.rows[j].entryHash
    {
      assert Deeper(depths, s.rows[i], s.rows[j]) && Known(depths, s.rows[i]);
    }
  }

  /**
   After every run from a table of legacy rows, under any clock, the entry
   hashes of the table are distinct, or two of the rows logged in the run collide.
   */
  lemma ReachableHashesDistinct(sha: string -> string, rows: seq<Row>, es: seq<Event>)
    requires HexDigest(sha) && (forall i :: 0 <= i < |rows| ==> Legacy(rows[i]))
    requires IsRun(sha, State(rows, None), es)
    ensures var logged := Logged(sha, State(rows, None), es);
      Collides(sha, logged, logged) || AllDistinct(Run(sha, State(rows, None), es).rows)
  {
    var s := State(rows, None);
    var depths := RunTraced(sha, s, [], map[], es);
    assert [] + Logged(sha, s, es) == Logged(sha, s, es);
    if !Collides(sha, Logged(sha, s, es), Logged(sha, s, es)) {
      TracedDistinct(DigestOf(sha), Run(sha, s, es), Logged(sha, s, es), depths);
    }
  }

  lemma DistinctFrom(digest: Digest, rows: seq<Row>, k: nat)
    requires ChainFrom(digest, rows, k) && AllDistinct(rows)
    ensures DistinctHashes(rows, k)
  {
    forall i, j | k <= i < j < |rows|
      ensures rows[i].entryHash != rows[j].entryHash
    {
      assert SelfHashed(digest, rows[i]);
    }
  }

  /**
   For every reachable table that is intact, under any clock, and any set of
   rows to keep: the deletion is noticed exactly if it leaves a gap, or two
   logged rows collide.
   */
  lemma ReachableDeletionExact(sha: string -> string, rows: seq<Row>, es: seq<Event>, keep: Row -> bool, k: nat)
    requires HexDigest(sha) && (forall i :: 0 <= i < |rows| ==> Legacy(rows[i]))
    requires IsRun(sha, State(rows, None), es)
    requires ChainFrom(DigestOf(sha), Run(sha, State(rows, None), es).rows, k)
    ensures var table, logged := Run(sha, State(rows, None), es).rows, Logged(sha, State(rows, None), es);
      Collides(sha, logged, logged) || (WellChained(DigestOf(sha), Filter(table, keep)) <==> NoGap(table, k, keep))
  {
    ReachableHashesDistinct(sha, rows, es);
    var table := Run(sha, State(rows, None), es).rows;
    if AllDistinct(table) {
      DistinctFrom(DigestOf(sha), table, k);
      DeletionExact(DigestOf(sha), table, k, keep);
    }
  }

  /**
   For every reachable table that is intact, under any clock: every cleanup
   leaves it intact exactly if no stamp dips, or two logged rows collide.
   */
  lemma ReachableCleanupExact(sha: string -> string, rows: seq<Row>, es: seq<Event>, k: nat)
    requires HexDigest(sha) && (forall i :: 0 <= i < |rows| ==> Legacy(rows[i]))
    requires IsRun(sha, State(rows, None), es)
    requires ChainFrom(DigestOf(sha), Run(sha, State(rows, None), es).rows, k)
    ensures var table, logged := Run(sha, State(rows, None), es).rows, Logged(sha, State(rows, None), es);
      Collides(sha, logged, logged) || (CleanupSafe(DigestOf(sha), table) <==> !HasDip(table, k))
  {
    ReachableHashesDistinct(sha, rows, es);
    var table := Run(sha, State(rows, None), es).rows;
    if AllDistinct(table) {
      DistinctFrom(DigestOf(sha), table, k);
      CleanupSafeExactly(DigestOf(sha), table, k);
    }
  }

  // ----- A clock that steps back -----------------------------------------

  /** `log` with nothing in between. */
  function LogOne(entry: Entry, id: nat): seq<Event>
  {
    [Read(entry, None), Insert(id)]
  }

  function LogThree(a: Entry, b: Entry, c: Entry): seq<Event>
  {
    LogOne(a, 1) + (LogOne(b, 2) + (LogOne(c, 3) + []))
  }

  lemma RunTwo(sha: string -> string, s: State, e: Event, f: Event, es: seq<Event>)
    requires Enabled(s, e) && Enabled(Step(sha, s, e), f) && IsRun(sha, Step(sha, Step(sha, s, e), f), es)
    ensures IsRun(sha, s, [e, f] + es)
    ensures Run(sha, s, [e, f] + es) == Run(sha, Step(sha, Step(sha, s, e), f), es)
  {
    assert ([e, f] + es)[1..] == [f] + es;
    assert ([f] + es)[1..] == es;
  }

  /** Logging one entry after another. */
  lemma LogNext(sha: string -> string, rows: seq<Row>, entry: Entry, id: nat, es: seq<Event>) returns (rows': seq<Row>)
    requires HexDigest(sha) && ChainFrom(DigestOf(sha), rows, 0)
    requires 1 <= id && forall i :: 0 <= i < |rows| ==> rows[i].id < id
    ensures |rows'| == |rows| + 1 && rows == rows'[..|rows|] && rows'[|rows|].entry == entry && rows'[|rows|].id == id
    ensures ChainFrom(DigestOf(sha), rows', 0)
    ensures IsRun(sha, State(rows', None), es) ==>
      && IsRun(sha, State(rows, None), LogOne(entry, id) + es)
      && Run(sha, State(rows, None), LogOne(entry, id) + es) == Run(sha, State(rows', None), es)
  {
    var digest, p := DigestOf(sha), Pending(TailHash(rows), entry, None);
    var r := NewRow(sha, id, p);
    rows' := rows + [r];
    NewRowLinks(sha, id, p);
    if rows != [] {
      assert SelfHashed(digest, rows[|rows| - 1]);
      HashNotEmpty(sha, rows[|rows| - 1]);
    }
    ChainAppend(digest, rows, 0, r);
    if IsRun(sha, State(rows', None), es) {
      RunTwo(sha, State(rows, None), Read(entry, None), Insert(id), es);
    }
  }

  lemma ThreeLogged(sha: string -> string, a: Entry, b: Entry, c: Entry) returns (table: seq<Row>)
    requires HexDigest(sha)
    ensures IsRun(sha, State([], None), LogThree(a, b, c))
    ensures Run(sha, State([], None), LogThree(a, b, c)) == State(table, None)
    ensures ChainFrom(DigestOf(sha), table, 0)
    ensures |table| == 3 && table[0].entry == a && table[1].entry == b && table[2].entry == c
  {
    var last := LogOne(c, 3) + [];
    var rest := LogOne(b, 2) + last;
    var one := LogNext(sha, [], a, 1, rest);
    var two := LogNext(sha, one, b, 2, last);
    table := LogNext(sha, two, c, 3, []);
    assert table[1] == two[1] && table[0] == two[0] == one[0];
  }

  /**
   Three entries logged into an empty table while the clock steps back for the
   second one: the table is intact, and some cleanup breaks it.
   */
  lemma ClockBackBreaksCleanup(sha: string -> string, a: Entry, b: Entry, c: Entry)
    requires HexDigest(sha) && Earlier(b.timestamp.utc, a.timestamp.utc) && Earlier(b.timestamp.utc, c.timestamp.utc)
    ensures IsRun(sha, State([], None), LogThree(a, b, c))
    ensures var table, logged :=
        Run(sha, State([], None), LogThree(a, b, c)).rows, Logged(sha, State([], None), LogThree(a, b, c));
      ChainFrom(DigestOf(sha), table, 0) && (Collides(sha, logged, logged) || !CleanupSafe(DigestOf(sha), table))
  {
    var table := ThreeLogged(sha, a, b, c);
    assert Dip(table, 0, 0, 1, 2);
    ReachableCleanupExact(sha, [], LogThree(a, b, c), 0);
  }
}
