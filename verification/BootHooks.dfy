/**
 Boot hooks of a sandbox (shoreguard/services/boot_hooks.py): the table they
 are kept in, their order, and runs over them.
 */
module BootHooks {
  import opened Seqs
  import opened Text
  import opened Wrappers

  const PHASE_PRE := "pre_create"
  const PHASE_POST := "post_create"
  const MAX_TIMEOUT := 600
  const MAX_NAME := 128
  const OUTPUT_LIMIT := 4096

  datatype Status = Success | Failure

  /** The hooks of one sandbox in one phase. */
  datatype Group = Group(gateway: string, sandbox: string, phase: string)

  datatype Hook = Hook(
    id: nat,
    group: Group,
    name: string,
    command: string,
    timeout: int,
    order: int,
    enabled: bool,
    continueOnFailure: bool,
    lastStatus: Option<Status>)

  datatype HookError = InvalidName | InvalidPhase | InvalidCommand | InvalidTimeout | DuplicateName | WrongIds

  // ----- The listing -----------------------------------------------------

  function InGroup(g: Group): Hook -> bool
  {
    (h: Hook) => h.group == g
  }

  /** The sort key of listings inside a phase. */
  predicate Before(a: Hook, b: Hook)
  {
    a.order < b.order || (a.order == b.order && a.id < b.id)
  }

  function Insert(sorted: seq<Hook>, h: Hook): seq<Hook>
  {
    if sorted == [] || Before(sorted[|sorted| - 1], h) then sorted + [h]
    else Insert(sorted[..|sorted| - 1], h) + [sorted[|sorted| - 1]]
  }

  function Sorted(s: seq<Hook>): seq<Hook>
  {
    if s == [] then [] else Insert(Sorted(s[..|s| - 1]), s[|s| - 1])
  }

  /** `list` for one phase. */
  function Listing(rows: seq<Hook>, g: Group): seq<Hook>
  {
    Sorted(Filter(rows, InGroup(g)))
  }

  function IsEnabled(): Hook -> bool
  {
    (h: Hook) => h.enabled
  }

  /** `_enabled_for`. */
  function Enabled(rows: seq<Hook>, g: Group): seq<Hook>
  {
    Filter(Listing(rows, g), IsEnabled())
  }

  predicate Apart(rows: seq<Hook>, i: nat, j: nat)
    requires i < |rows| && j < |rows|
  {
    rows[i].id != rows[j].id
  }

  predicate UniqueIds(rows: seq<Hook>)
  {
    forall i, j :: 0 <= i < j < |rows| ==> Apart(rows, i, j)
  }

  predicate Follows(s: seq<Hook>, i: nat, j: nat)
    requires i < |s| && j < |s|
  {
    Before(s[i], s[j])
  }

  predicate Ascending(s: seq<Hook>)
  {
    forall i, j :: 0 <= i < j < |s| ==> Follows(s, i, j)
  }

  /** Inserting puts the hook between the hooks before it and the others. */
  lemma {:induction false} InsertAt(sorted: seq<Hook>, h: Hook) returns (p: nat)
    ensures p <= |sorted| && Insert(sorted, h) == sorted[..p] + [h] + sorted[p..]
    ensures p > 0 ==> Before(sorted[p - 1], h)
    ensures forall i :: p <= i < |sorted| ==> !Before(sorted[i], h)
  {
    var n := |sorted| - 1;
    if sorted == [] || Before(sorted[n], h) {
      p := |sorted|;
      assert sorted[..p] == sorted && sorted[p..] == [];
    } else {
      p := InsertAt(sorted[..n], h);
      assert sorted[..n][..p] == sorted[..p];
      assert sorted[..n][p..] + [sorted[n]] == sorted[p..];
      assert forall i :: p <= i < n ==> sorted[..n][i] == sorted[i];
    }
  }

  lemma InsertAscends(sorted: seq<Hook>, h: Hook)
    requires Ascending(sorted) && forall i :: 0 <= i < |sorted| ==> sorted[i].id != h.id
    ensures Ascending(Insert(sorted, h))
  {
    var p := InsertAt(sorted, h);
    var all := Insert(sorted, h);
    forall i, j | 0 <= i < j < |all|
      ensures Follows(all, i, j)
    {
      var i', j' := if i < p then i else i - 1, if j < p then j else j - 1;
      if i == p {
        assert !Before(sorted[j'], h);
      } else if j == p {
        assert i' < p - 1 ==> Follows(sorted, i', p - 1);
      } else {
        assert Follows(sorted, i', j');
      }
    }
  }

  lemma InsertMembers(sorted: seq<Hook>, h: Hook)
    ensures forall x :: x in Insert(sorted, h) <==> x in sorted || x == h
  {
  }

  /** The listing order is right: all hooks of the group and no others, in ascending order. */
  lemma {:induction false} SortedIsSorted(s: seq<Hook>)
    requires UniqueIds(s)
    ensures Ascending(Sorted(s)) && forall x :: x in Sorted(s) <==> x in s
  {
    if s != [] {
      var n := |s| - 1;
      assert UniqueIds(s[..n]) by {
        forall i, j | 0 <= i < j < n
          ensures Apart(s[..n], i, j)
        {
          assert Apart(s, i, j);
        }
      }
      SortedIsSorted(s[..n]);
      var front := Sorted(s[..n]);
      forall i | 0 <= i < |front|
        ensures front[i].id != s[n].id
      {
        assert front[i] in s[..n];
        var j :| 0 <= j < n && s[j] == front[i];
        assert Apart(s, j, n);
      }
      InsertAscends(front, s[n]);
      InsertMembers(front, s[n]);
      assert s == s[..n] + [s[n]];
    }
  }

  lemma {:induction false} FilterUnique(rows: seq<Hook>, keep: Hook -> bool)
    requires UniqueIds(rows)
    ensures UniqueIds(Filter(rows, keep))
  {
    if rows != [] {
      var n := |rows| - 1;
      var front := Filter(rows[..n], keep);
      assert UniqueIds(rows[..n]) by {
        forall i, j | 0 <= i < j < n
          ensures Apart(rows[..n], i, j)
        {
          assert Apart(rows, i, j);
        }
      }
      FilterUnique(rows[..n], keep);
      FilterMembers(rows[..n], keep);
      if keep(rows[n]) {
        forall i, j | 0 <= i < j < |front| + 1
          ensures Apart(front + [rows[n]], i, j)
        {
          if j < |front| {
            assert Apart(front, i, j);
          } else {
            assert front[i] in rows[..n];
            var k :| 0 <= k < n && rows[k] == front[i];
            assert Apart(rows, k, n);
          }
        }
      }
    }
  }

  lemma ListingIsSorted(rows: seq<Hook>, g: Group)
    requires UniqueIds(rows)
    ensures Ascending(Listing(rows, g))
    ensures forall h :: h in Listing(rows, g) <==> h in rows && h.group == g
  {
    FilterUnique(rows, InGroup(g));
    FilterMembers(rows, InGroup(g));
    SortedIsSorted(Filter(rows, InGroup(g)));
  }

  /** Listings go by order, and by id where the orders are equal. */
  lemma ListingOrder(rows: seq<Hook>, g: Group, i: nat, j: nat)
    requires UniqueIds(rows) && i < j < |Listing(rows, g)|
    ensures var a, b := Listing(rows, g)[i], Listing(rows, g)[j];
      a.order < b.order || (a.order == b.order && a.id < b.id)
  {
    ListingIsSorted(rows, g);
    FollowsAt(Listing(rows, g), i, j);
  }

  lemma FollowsAt(s: seq<Hook>, i: nat, j: nat)
    requires Ascending(s) && i < j < |s|
    ensures Before(s[i], s[j])
  {
    assert Follows(s, i, j);
  }

  lemma HeadIn(s: seq<Hook>)
    requires s != []
    ensures s[0] in s
  {
  }

  /** The greatest hook comes last. */
  lemma SameLast(a: seq<Hook>, b: seq<Hook>)
    requires a != [] && b != [] && Ascending(a) && Ascending(b) && forall x :: x in a <==> x in b
    ensures a[|a| - 1] == b[|b| - 1]
  {
    var n, m := |a| - 1, |b| - 1;
    assert a[n] in b && b[m] in a;
    var j :| 0 <= j < |b| && b[j] == a[n];
    var i :| 0 <= i < |a| && a[i] == b[m];
    if j < m {
      FollowsAt(b, j, m);
      if i < n {
        FollowsAt(a, i, n);
      }
    }
  }

  /** An ascending listing is determined by what it contains. */
  lemma {:induction false} AscendingUnique(a: seq<Hook>, b: seq<Hook>)
    requires Ascending(a) && Ascending(b) && forall x :: x in a <==> x in b
    ensures a == b
  {
    if a != [] && b != [] {
      SameLast(a, b);
      FrontMembers(a);
      FrontMembers(b);
      AscendingUnique(a[..|a| - 1], b[..|b| - 1]);
      assert a == a[..|a| - 1] + [a[|a| - 1]] && b == b[..|b| - 1] + [b[|b| - 1]];
    } else if a != [] {
      HeadIn(a);
    } else if b != [] {
      HeadIn(b);
    }
  }

  lemma FrontMembers(s: seq<Hook>)
    requires s != [] && Ascending(s)
    ensures var n := |s| - 1; Ascending(s[..n]) && forall x :: x in s[..n] <==> x in s && x != s[n]
  {
    var n := |s| - 1;
    forall i, j | 0 <= i < j < n
      ensures Follows(s[..n], i, j)
    {
      assert Follows(s, i, j);
    }
    forall i | 0 <= i < n
      ensures s[i] != s[n]
    {
      assert Follows(s, i, n);
    }
    assert s == s[..n] + [s[n]];
  }

  // ----- Creating --------------------------------------------------------

  function MaxOrder(s: seq<Hook>): int
    requires s != []
  {
    var n := |s| - 1;
    if n == 0 then s[0].order
    else if MaxOrder(s[..n]) < s[n].order then s[n].order else MaxOrder(s[..n])
  }

  /** `_next_order`. */
  function NextOrder(rows: seq<Hook>, g: Group): int
  {
    var existing := Filter(rows, InGroup(g));
    if existing == [] then 0 else MaxOrder(existing) + 1
  }

  predicate Blank(s: string)
  {
    Strip(s) == ""
  }

  predicate NameTaken(rows: seq<Hook>, g: Group, name: string)
  {
    exists i :: 0 <= i < |rows| && rows[i].group == g && rows[i].name == name
  }

  /** What `create` refuses, in the order it checks; the last one is the table's unique constraint. */
  function CreateError(rows: seq<Hook>, g: Group, name: string, command: string, timeout: int): Option<HookError>
  {
    if Blank(name) || |name| > MAX_NAME then Some(InvalidName)
    else if g.phase != PHASE_PRE && g.phase != PHASE_POST then Some(InvalidPhase)
    else if Blank(command) then Some(InvalidCommand)
    else if timeout < 1 || timeout > MAX_TIMEOUT then Some(InvalidTimeout)
    else if NameTaken(rows, g, name) then Some(DuplicateName)
    else None
  }

  /** What `create` refuses: of several faults the first in this order is reported. */
  lemma CreateRefusedExactly(rows: seq<Hook>, g: Group, name: string, command: string, timeout: int)
    ensures var e := CreateError(rows, g, name, command, timeout);
      var nameOk := !(forall i :: 0 <= i < |name| ==> IsSpace(name[i])) && |name| <= 128;
      var phaseOk := g.phase == "pre_create" || g.phase == "post_create";
      var commandOk := !(forall i :: 0 <= i < |command| ==> IsSpace(command[i]));
      var timeoutOk := 1 <= timeout <= 600;
      var unused := forall h :: h in rows ==> !(h.group == g && h.name == name);
      && (e == Some(InvalidName) <==> !nameOk)
      && (e == Some(InvalidPhase) <==> nameOk && !phaseOk)
      && (e == Some(InvalidCommand) <==> nameOk && phaseOk && !commandOk)
      && (e == Some(InvalidTimeout) <==> nameOk && phaseOk && commandOk && !timeoutOk)
      && (e == Some(DuplicateName) <==> nameOk && phaseOk && commandOk && timeoutOk && !unused)
      && (e == None <==> nameOk && phaseOk && commandOk && timeoutOk && unused)
  {
    BlankExactly(name);
    BlankExactly(command);
  }

  lemma BlankExactly(s: string)
    ensures Blank(s) <==> forall i :: 0 <= i < |s| ==> IsSpace(s[i])
  {
    var head, tail := StripExactly(s);
    if Strip(s) != "" {
      assert s[|head|] == Strip(s)[0];
    } else {
      assert s == head + tail;
    }
  }

  /** The next order is 0 in an empty listing, and otherwise one above the largest. */
  lemma NextOrderExactly(rows: seq<Hook>, g: Group)
    ensures var n := NextOrder(rows, g);
      && (forall h :: h in rows && h.group == g ==> h.order < n)
      && ((forall h :: h in rows ==> h.group != g) ==> n == 0)
      && ((exists h :: h in rows && h.group == g) ==> exists h :: h in rows && h.group == g && h.order == n - 1)
  {
    var existing := Filter(rows, InGroup(g));
    FilterMembers(rows, InGroup(g));
    if existing == [] {
      forall h | h in rows
        ensures h.group != g
      {
        assert h.group == g ==> h in existing;
      }
    } else {
      assert existing[0] in existing;
      MaxOrderIsMax(existing);
      MaxOrderIsOne(existing);
    }
  }

  lemma {:induction false} MaxOrderIsOne(s: seq<Hook>)
    requires s != []
    ensures exists h :: h in s && h.order == MaxOrder(s)
  {
    var n := |s| - 1;
    if n > 0 && MaxOrder(s[..n]) >= s[n].order {
      MaxOrderIsOne(s[..n]);
      var h :| h in s[..n] && h.order == MaxOrder(s[..n]);
      assert h in s;
    } else {
      assert s[n] in s;
    }
  }

  lemma {:induction false} MaxOrderIsMax(s: seq<Hook>)
    requires s != []
    ensures forall x :: x in s ==> x.order <= MaxOrder(s)
  {
    var n := |s| - 1;
    if n > 0 {
      MaxOrderIsMax(s[..n]);
      assert forall x :: x in s ==> x in s[..n] || x == s[n];
    }
  }

  lemma InsertLast(sorted: seq<Hook>, h: Hook)
    requires forall x :: x in sorted ==> x.order < h.order
    ensures Insert(sorted, h) == sorted + [h]
  {
  }

  lemma ListingSnoc(rows: seq<Hook>, h: Hook, g: Group)
    ensures Listing(rows + [h], g) == if h.group == g then Insert(Listing(rows, g), h) else Listing(rows, g)
  {
  }

  /** A hook created without an order goes to the end of its listing, and no other listing changes. */
  lemma CreateAppends(rows: seq<Hook>, h: Hook, g: Group)
    requires UniqueIds(rows) && h.order == NextOrder(rows, h.group)
    ensures Listing(rows + [h], g) == if h.group == g then Listing(rows, g) + [h] else Listing(rows, g)
  {
    ListingSnoc(rows, h, g);
    if h.group == g {
      var existing := Filter(rows, InGroup(g));
      FilterUnique(rows, InGroup(g));
      SortedIsSorted(existing);
      if existing != [] {
        MaxOrderIsMax(existing);
      }
      InsertLast(Listing(rows, g), h);
    }
  }

  /** A hook created with an order goes after every hook of that order or a smaller one, and before the rest. */
  lemma CreatePlaces(rows: seq<Hook>, h: Hook) returns (p: nat)
    requires UniqueIds(rows) && forall i :: 0 <= i < |rows| ==> rows[i].id < h.id
    ensures var before := Listing(rows, h.group);
      && p <= |before| && Listing(rows + [h], h.group) == before[..p] + [h] + before[p..]
      && (forall i :: 0 <= i < p ==> before[i].order <= h.order)
      && (forall i :: p <= i < |before| ==> before[i].order > h.order)
  {
    var before := Listing(rows, h.group);
    ListingSnoc(rows, h, h.group);
    ListingIsSorted(rows, h.group);
    p := InsertAt(before, h);
    forall i | 0 <= i < p
      ensures before[i].order <= h.order
    {
      assert i < p - 1 ==> Follows(before, i, p - 1);
    }
    forall i | p <= i < |before|
      ensures before[i].order > h.order
    {
      assert before[i] in rows;
    }
  }

  // ----- Reordering ------------------------------------------------------

  function LastIndex(ids: seq<nat>, id: nat): nat
    requires id in ids
    ensures LastIndex(ids, id) < |ids| && ids[LastIndex(ids, id)] == id
  {
    if ids[|ids| - 1] == id then |ids| - 1 else LastIndex(ids[..|ids| - 1], id)
  }

  function Reindexed(h: Hook, ids: seq<nat>): Hook
  {
    if h.id in ids then h.(order := LastIndex(ids, h.id)) else h
  }

  function Reordered(rows: seq<Hook>, ids: seq<nat>): seq<Hook>
  {
    seq(|rows|, i requires 0 <= i < |rows| => Reindexed(rows[i], ids))
  }

  /** `set(hook_ids) == existing_ids`. */
  predicate MatchesGroup(rows: seq<Hook>, g: Group, ids: seq<nat>)
  {
    && (forall i :: 0 <= i < |ids| ==> exists k :: 0 <= k < |rows| && rows[k].id == ids[i] && rows[k].group == g)
    && (forall k :: 0 <= k < |rows| && rows[k].group == g ==> rows[k].id in ids)
  }

  function Ids(s: seq<Hook>): seq<nat>
  {
    seq(|s|, i requires 0 <= i < |s| => s[i].id)
  }

  /** Only the last occurrence of each id. */
  function KeepLast(ids: seq<nat>): seq<nat>
  {
    if ids == [] then []
    else if ids[0] in ids[1..] then KeepLast(ids[1..])
    else [ids[0]] + KeepLast(ids[1..])
  }

  lemma {:induction false} KeepLastMembers(ids: seq<nat>)
    ensures forall x :: x in KeepLast(ids) <==> x in ids
  {
    if ids != [] {
      KeepLastMembers(ids[1..]);
      assert ids == [ids[0]] + ids[1..];
    }
  }

  lemma {:induction false} LastIndexShift(ids: seq<nat>, x: nat)
    requires ids != [] && x in ids[1..]
    ensures LastIndex(ids, x) == LastIndex(ids[1..], x) + 1
  {
    var n := |ids| - 1;
    if ids[n] != x {
      assert ids[1..][..n - 1] == ids[..n][1..];
      LastIndexShift(ids[..n], x);
    }
  }

  lemma {:induction false} LastIndexOfHead(ids: seq<nat>)
    requires ids != [] && ids[0] !in ids[1..]
    ensures LastIndex(ids, ids[0]) == 0
  {
  }

  predicate Later(ids: seq<nat>, s: seq<nat>, i: nat, j: nat)
    requires i < |s| && j < |s|
  {
    s[i] in ids && s[j] in ids && LastIndex(ids, s[i]) < LastIndex(ids, s[j])
  }

  lemma {:induction false} KeepLastAscends(ids: seq<nat>)
    ensures forall i, j :: 0 <= i < j < |KeepLast(ids)| ==> Later(ids, KeepLast(ids), i, j)
  {
    if ids != [] {
      var all, rest, tail := KeepLast(ids), KeepLast(ids[1..]), ids[1..];
      var d := |all| - |rest|;
      KeepLastAscends(tail);
      KeepLastMembers(tail);
      forall i, j | 0 <= i < j < |all|
        ensures Later(ids, all, i, j)
      {
        assert all[j] == rest[j - d] && rest[j - d] in tail;
        LastIndexShift(ids, all[j]);
        if i >= d {
          assert Later(tail, rest, i - d, j - d);
          LastIndexShift(ids, all[i]);
        } else {
          LastIndexOfHead(ids);
        }
      }
    }
  }

  /** Distinct hooks have distinct ids. */
  lemma SameId(rows: seq<Hook>, a: Hook, b: Hook)
    requires UniqueIds(rows) && a in rows && b in rows && a.id == b.id
    ensures a == b
  {
    var i :| 0 <= i < |rows| && rows[i] == a;
    var j :| 0 <= j < |rows| && rows[j] == b;
    assert i < j ==> Apart(rows, i, j);
    assert j < i ==> Apart(rows, j, i);
  }

  lemma ReorderedUnique(rows: seq<Hook>, ids: seq<nat>)
    requires UniqueIds(rows)
    ensures UniqueIds(Reordered(rows, ids))
  {
    var after := Reordered(rows, ids);
    forall i, j | 0 <= i < j < |after|
      ensures Apart(after, i, j)
    {
      assert Apart(rows, i, j);
    }
  }

  /** The hooks with the given ids, in that order. */
  predicate Realises(rows: seq<Hook>, ids: seq<nat>, s: seq<Hook>)
  {
    |s| == |ids| && forall i :: 0 <= i < |s| ==> s[i] in rows && s[i].id == ids[i]
  }

  lemma {:induction false} Realise(rows: seq<Hook>, ids: seq<nat>) returns (s: seq<Hook>)
    requires forall i :: 0 <= i < |ids| ==> ids[i] in Ids(rows)
    ensures Realises(rows, ids, s)
  {
    if ids == [] {
      s := [];
    } else {
      var n := |ids| - 1;
      s := Realise(rows, ids[..n]);
      assert ids[n] in Ids(rows);
      var k :| 0 <= k < |rows| && Ids(rows)[k] == ids[n];
      s := s + [rows[k]];
    }
  }

  /** After `reorder`, the listing is the requested ids with only the last occurrence of each kept. */
  lemma ReorderedListing(rows: seq<Hook>, g: Group, ids: seq<nat>)
    requires UniqueIds(rows) && MatchesGroup(rows, g, ids)
    ensures Ids(Listing(Reordered(rows, ids), g)) == KeepLast(ids)
  {
    var after := Reordered(rows, ids);
    ReorderedUnique(rows, ids);
    ListingIsSorted(after, g);
    KeepLastMembers(ids);
    KeepLastAscends(ids);
    forall i | 0 <= i < |KeepLast(ids)|
      ensures KeepLast(ids)[i] in Ids(after)
    {
      assert KeepLast(ids)[i] in ids;
      var k :| 0 <= k < |rows| && rows[k].id == KeepLast(ids)[i];
      assert Ids(after)[k] == rows[k].id;
    }
    var s := Realise(after, KeepLast(ids));
    RealisedIsListing(rows, g, ids, s);
    AscendingUnique(s, Listing(after, g));
  }

  lemma RealisedIsListing(rows: seq<Hook>, g: Group, ids: seq<nat>, s: seq<Hook>)
    requires UniqueIds(rows) && MatchesGroup(rows, g, ids) && Realises(Reordered(rows, ids), KeepLast(ids), s)
    ensures Ascending(s) && forall h :: h in s <==> h in Reordered(rows, ids) && h.group == g
  {
    var after, kept := Reordered(rows, ids), KeepLast(ids);
    ReorderedUnique(rows, ids);
    KeepLastMembers(ids);
    KeepLastAscends(ids);
    forall i | 0 <= i < |s|
      ensures s[i].group == g && s[i].id in ids && s[i].order == LastIndex(ids, s[i].id)
    {
      assert kept[i] in ids;
      RequestedRow(rows, g, ids, s[i]);
    }
    forall i, j | 0 <= i < j < |s|
      ensures Follows(s, i, j)
    {
      assert Later(ids, kept, i, j);
    }
    forall h | h in after && h.group == g
      ensures h in s
    {
      var k :| 0 <= k < |after| && after[k] == h;
      assert rows[k].group == g;
      assert h.id in kept;
      var i :| 0 <= i < |kept| && kept[i] == h.id;
      SameId(after, s[i], h);
    }
  }

  lemma RequestedRow(rows: seq<Hook>, g: Group, ids: seq<nat>, h: Hook)
    requires UniqueIds(rows) && MatchesGroup(rows, g, ids) && h in Reordered(rows, ids) && h.id in ids
    ensures h.group == g && h.order == LastIndex(ids, h.id)
  {
    var k :| 0 <= k < |rows| && Reordered(rows, ids)[k] == h;
    var i :| 0 <= i < |ids| && ids[i] == h.id;
    var m :| 0 <= m < |rows| && rows[m].id == ids[i] && rows[m].group == g;
    SameId(rows, rows[k], rows[m]);
  }

  /** Reordering one phase leaves every other listing as it was. */
  lemma {:induction false} ReorderFrame(rows: seq<Hook>, ids: seq<nat>, g': Group)
    requires forall k :: 0 <= k < |rows| && rows[k].group == g' ==> rows[k].id !in ids
    ensures Listing(Reordered(rows, ids), g') == Listing(rows, g')
  {
    FilterReordered(rows, ids, g');
  }

  lemma {:induction false} FilterReordered(rows: seq<Hook>, ids: seq<nat>, g': Group)
    requires forall k :: 0 <= k < |rows| && rows[k].group == g' ==> rows[k].id !in ids
    ensures Filter(Reordered(rows, ids), InGroup(g')) == Filter(rows, InGroup(g'))
  {
    if rows != [] {
      var n := |rows| - 1;
      FilterReordered(rows[..n], ids, g');
      assert Reordered(rows, ids)[..n] == Reordered(rows[..n], ids);
    }
  }
}
