/** The policy drift detector (shoreguard/services/drift_detection.py). */
module Drift {
  import opened Wrappers

  datatype Key = Key(gateway: string, sandbox: string)

  /** A sandbox as listed; the policy hash read for it is empty if there is none, absent if the read failed. */
  datatype SandboxScan = SandboxScan(name: string, read: Option<string>)

  /** A gateway as listed; its sandboxes are absent if it cannot be reached. */
  datatype GatewayScan = GatewayScan(name: string, sandboxes: Option<seq<SandboxScan>>)

  /** A non-empty policy hash seen for a sandbox. */
  datatype Sighting = Sighting(key: Key, hash: string)

  datatype Event = Event(key: Key, previous: string, current: string)

  type Snapshot = map<Key, string>

  // ----- What a pass sees ------------------------------------------------

  predicate Seen(s: SandboxScan)
  {
    s.name != "" && s.read.Some? && s.read.value != ""
  }

  function SandboxSightings(gateway: string, scans: seq<SandboxScan>): seq<Sighting>
  {
    if scans == [] then []
    else
      var front, s := SandboxSightings(gateway, scans[..|scans| - 1]), scans[|scans| - 1];
      if Seen(s) then front + [Sighting(Key(gateway, s.name), s.read.value)] else front
  }

  function Sightings(gateways: seq<GatewayScan>): seq<Sighting>
  {
    if gateways == [] then []
    else
      var front, g := Sightings(gateways[..|gateways| - 1]), gateways[|gateways| - 1];
      if g.name != "" && g.sandboxes.Some? then front + SandboxSightings(g.name, g.sandboxes.value) else front
  }

  /** A non-empty hash is seen exactly for a named sandbox of a named gateway that could be listed and read. */
  lemma {:induction false} SightingsExactly(gateways: seq<GatewayScan>, s: Sighting)
    ensures s in Sightings(gateways) <==>
      s.key.gateway != "" && exists i :: 0 <= i < |gateways| && SeenOn(gateways[i], s)
  {
    if gateways != [] {
      var n := |gateways| - 1;
      var front := gateways[..n];
      SightingsExactly(front, s);
      if gateways[n].sandboxes.Some? {
        SandboxSightingsExactly(gateways[n].name, gateways[n].sandboxes.value, s);
      }
      assert (exists i :: 0 <= i < |gateways| && SeenOn(gateways[i], s))
        <==> SeenOn(gateways[n], s) || exists i :: 0 <= i < n && SeenOn(front[i], s);
    }
  }

  predicate SeenOn(g: GatewayScan, s: Sighting)
  {
    g.name == s.key.gateway && g.sandboxes.Some?
    && SandboxScan(s.key.sandbox, Some(s.hash)) in g.sandboxes.value && s.key.sandbox != "" && s.hash != ""
  }

  lemma {:induction false} SandboxSightingsExactly(gateway: string, scans: seq<SandboxScan>, s: Sighting)
    ensures s in SandboxSightings(gateway, scans) <==>
      && s.key.gateway == gateway && s.key.sandbox != "" && s.hash != ""
      && SandboxScan(s.key.sandbox, Some(s.hash)) in scans
  {
    if scans != [] {
      var n := |scans| - 1;
      SandboxSightingsExactly(gateway, scans[..n], s);
      assert scans == scans[..n] + [scans[n]];
    }
  }

  /** Gateways are scanned in the order of the listing, and so are the sandboxes of each. */
  lemma {:induction false} SightingsInOrder(a: seq<GatewayScan>, b: seq<GatewayScan>)
    ensures Sightings(a + b) == Sightings(a) + Sightings(b)
  {
    if b == [] {
      assert a + b == a;
    } else {
      var front, g := b[..|b| - 1], b[|b| - 1];
      SightingsInOrder(a, front);
      assert b == front + [g] && a + b == (a + front) + [g];
      SightingsSnoc(a + front, g);
      SightingsSnoc(front, g);
      var more := if g.sandboxes.Some? then SandboxSightings(g.name, g.sandboxes.value) else [];
      Join(Sightings(a), Sightings(front), more);
    }
  }

  lemma Join<T>(a: seq<T>, b: seq<T>, c: seq<T>)
    ensures (a + b) + c == a + (b + c)
  {
  }

  lemma SightingsSnoc(a: seq<GatewayScan>, g: GatewayScan)
    ensures Sightings(a + [g])
         == if g.name != "" && g.sandboxes.Some? then Sightings(a) + SandboxSightings(g.name, g.sandboxes.value)
            else Sightings(a)
  {
    assert (a + [g])[..|a|] == a;
  }

  lemma {:induction false} SandboxesInOrder(gateway: string, a: seq<SandboxScan>, b: seq<SandboxScan>)
    ensures SandboxSightings(gateway, a + b) == SandboxSightings(gateway, a) + SandboxSightings(gateway, b)
    ensures |SandboxSightings(gateway, a)| <= |a|
  {
    if b == [] {
      assert a + b == a;
      if a != [] {
        SandboxesInOrder(gateway, a[..|a| - 1], []);
      }
    } else {
      var n := |b| - 1;
      SandboxesInOrder(gateway, a, b[..n]);
      assert (a + b)[..|a + b| - 1] == a + b[..n];
    }
  }

  // ----- What it makes of it ---------------------------------------------

  function Snap(snapshot: Snapshot, seen: seq<Sighting>): Snapshot
  {
    if seen == [] then snapshot
    else Snap(snapshot, seen[..|seen| - 1])[seen[|seen| - 1].key := seen[|seen| - 1].hash]
  }

  function EventOf(snapshot: Snapshot, s: Sighting): seq<Event>
  {
    if s.key in snapshot && snapshot[s.key] != s.hash then [Event(s.key, snapshot[s.key], s.hash)] else []
  }

  function Events(snapshot: Snapshot, seen: seq<Sighting>): seq<Event>
  {
    if seen == [] then []
    else
      var n := |seen| - 1;
      Events(snapshot, seen[..n]) + EventOf(Snap(snapshot, seen[..n]), seen[n])
  }

  lemma Snoc(snapshot: Snapshot, seen: seq<Sighting>, s: Sighting)
    ensures Snap(snapshot, seen + [s]) == Snap(snapshot, seen)[s.key := s.hash]
    ensures Events(snapshot, seen + [s]) == Events(snapshot, seen) + EventOf(Snap(snapshot, seen), s)
  {
  }

  class DriftDetectionService {
    var snapshot: Snapshot

    constructor ()
      ensures snapshot == map[]
    {
      snapshot := map[];
    }

    method RunOnce(gateways: Option<seq<GatewayScan>>) returns (events: seq<Event>)
      modifies this
      ensures gateways.None? ==> snapshot == old(snapshot) && events == []
      ensures gateways.Some? ==> snapshot == Snap(old(snapshot), Sightings(gateways.value))
      ensures gateways.Some? ==> events == Events(old(snapshot), Sightings(gateways.value))
    {
      events := [];
      if gateways.None? {
        return;
      }
      var gs := gateways.value;
      for i := 0 to |gs|
        invariant snapshot == Snap(old(snapshot), Sightings(gs[..i]))
        invariant events == Events(old(snapshot), Sightings(gs[..i]))
      {
        assert gs[..i + 1][..i] == gs[..i];
        if gs[i].name != "" && gs[i].sandboxes.Some? {
          Concat(old(snapshot), Sightings(gs[..i]), SandboxSightings(gs[i].name, gs[i].sandboxes.value));
          var more := ScanSandboxes(gs[i].name, gs[i].sandboxes.value);
          events := events + more;
        }
      }
      assert gs[..|gs|] == gs;
    }

    /** The inner loop of `run_once`. */
    method ScanSandboxes(gateway: string, scans: seq<SandboxScan>) returns (events: seq<Event>)
      modifies this
      ensures snapshot == Snap(old(snapshot), SandboxSightings(gateway, scans))
      ensures events == Events(old(snapshot), SandboxSightings(gateway, scans))
    {
      events := [];
      for j := 0 to |scans|
        invariant snapshot == Snap(old(snapshot), SandboxSightings(gateway, scans[..j]))
        invariant events == Events(old(snapshot), SandboxSightings(gateway, scans[..j]))
      {
        assert scans[..j + 1][..j] == scans[..j];
        if scans[j].name != "" {
          if Seen(scans[j]) {
            ghost var s := Sighting(Key(gateway, scans[j].name), scans[j].read.value);
            Snoc(old(snapshot), SandboxSightings(gateway, scans[..j]), s);
          }
          var event := ScanSandbox(gateway, scans[j]);
          if event.Some? {
            events := events + [event.value];
          }
        }
      }
      assert scans[..|scans|] == scans;
    }

    method ScanSandbox(gateway: string, scan: SandboxScan) returns (event: Option<Event>)
      requires scan.name != ""
      modifies this
      ensures !Seen(scan) ==> snapshot == old(snapshot) && event == None
      ensures Seen(scan) ==>
        var s := Sighting(Key(gateway, scan.name), scan.read.value);
        && snapshot == old(snapshot)[s.key := s.hash]
        && EventOf(old(snapshot), s) == (if event.Some? then [event.value] else [])
    {
      if scan.read.None? {
        return None;
      }
      var currentHash := scan.read.value;
      if currentHash == "" {
        return None;
      }
      var key := Key(gateway, scan.name);
      var previousHash := if key in snapshot then Some(snapshot[key]) else None;
      snapshot := snapshot[key := currentHash];
      if previousHash.None? || previousHash.value == currentHash {
        return None;
      }
      event := Some(Event(key, previousHash.value, currentHash));
    }
  }

  // ----- Runs ------------------------------------------------------------

  /** Everything seen over several passes. */
  function AllSightings(passes: seq<Option<seq<GatewayScan>>>): seq<Sighting>
  {
    if passes == [] then []
    else
      var last := passes[|passes| - 1];
      AllSightings(passes[..|passes| - 1]) + if last.Some? then Sightings(last.value) else []
  }

  function RunSnapshot(passes: seq<Option<seq<GatewayScan>>>): Snapshot
  {
    if passes == [] then map[]
    else
      var before, last := RunSnapshot(passes[..|passes| - 1]), passes[|passes| - 1];
      if last.Some? then Snap(before, Sightings(last.value)) else before
  }

  function RunEvents(passes: seq<Option<seq<GatewayScan>>>): seq<Event>
  {
    if passes == [] then []
    else
      var front, last := passes[..|passes| - 1], passes[|passes| - 1];
      RunEvents(front) + if last.Some? then Events(RunSnapshot(front), Sightings(last.value)) else []
  }

  lemma Regroup<T>(a: seq<T>, b: seq<T>, x: T)
    ensures a + (b + [x]) == (a + b) + [x]
  {
  }

  lemma {:induction false} Concat(snapshot: Snapshot, a: seq<Sighting>, b: seq<Sighting>)
    ensures Snap(snapshot, a + b) == Snap(Snap(snapshot, a), b)
    ensures Events(snapshot, a + b) == Events(snapshot, a) + Events(Snap(snapshot, a), b)
  {
    if b == [] {
      assert a + b == a;
      assert Events(Snap(snapshot, a), b) == [];
    } else {
      var front, s := b[..|b| - 1], b[|b| - 1];
      assert b == front + [s];
      Concat(snapshot, a, front);
      ConcatNext(snapshot, a, front, s);
    }
  }

  lemma ConcatNext(snapshot: Snapshot, a: seq<Sighting>, b: seq<Sighting>, s: Sighting)
    requires Snap(snapshot, a + b) == Snap(Snap(snapshot, a), b)
    requires Events(snapshot, a + b) == Events(snapshot, a) + Events(Snap(snapshot, a), b)
    ensures Snap(snapshot, a + (b + [s])) == Snap(Snap(snapshot, a), b + [s])
    ensures Events(snapshot, a + (b + [s])) == Events(snapshot, a) + Events(Snap(snapshot, a), b + [s])
  {
    Regroup(a, b, s);
    Snoc(snapshot, a + b, s);
    Snoc(Snap(snapshot, a), b, s);
  }

  lemma {:induction false} PassesConcat(passes: seq<Option<seq<GatewayScan>>>)
    ensures RunSnapshot(passes) == Snap(map[], AllSightings(passes))
    ensures RunEvents(passes) == Events(map[], AllSightings(passes))
  {
    if passes != [] {
      var front, last := passes[..|passes| - 1], passes[|passes| - 1];
      PassesConcat(front);
      Concat(map[], AllSightings(front), if last.Some? then Sightings(last.value) else []);
    }
  }

  /** The hashes seen for one sandbox. */
  function HashesOf(seen: seq<Sighting>, key: Key): seq<string>
  {
    if seen == [] then []
    else
      var n := |seen| - 1;
      HashesOf(seen[..n], key) + if seen[n].key == key then [seen[n].hash] else []
  }

  function EventsOf(events: seq<Event>, key: Key): seq<Event>
  {
    if events == [] then []
    else
      var n := |events| - 1;
      EventsOf(events[..n], key) + if events[n].key == key then [events[n]] else []
  }

  /** The adjacent unequal pairs. */
  function Changes(hashes: seq<string>, key: Key): seq<Event>
  {
    if |hashes| <= 1 then []
    else
      var n := |hashes| - 1;
      Changes(hashes[..n], key) + if hashes[n - 1] != hashes[n] then [Event(key, hashes[n - 1], hashes[n])] else []
  }

  lemma EventsOfSnoc(events: seq<Event>, e: Event, key: Key)
    ensures EventsOf(events + [e], key) == EventsOf(events, key) + if e.key == key then [e] else []
  {
  }

  lemma ChangesSnoc(hashes: seq<string>, hash: string, key: Key)
    ensures Changes(hashes + [hash], key)
         == if hashes != [] && hashes[|hashes| - 1] != hash
            then Changes(hashes, key) + [Event(key, hashes[|hashes| - 1], hash)]
            else Changes(hashes, key)
  {
  }

  /** The snapshot holds the last hash seen. */
  lemma {:induction false} SnapIsLast(seen: seq<Sighting>, key: Key)
    ensures var hashes := HashesOf(seen, key);
      && (key in Snap(map[], seen) <==> hashes != [])
      && (hashes != [] ==> Snap(map[], seen)[key] == hashes[|hashes| - 1])
  {
    if seen != [] {
      SnapIsLast(seen[..|seen| - 1], key);
    }
  }

  /** One more sighting. */
  lemma EventsNext(snapshot: Snapshot, events: seq<Event>, hashes: seq<string>, s: Sighting, key: Key)
    requires s.key in snapshot && s.key == key ==> hashes != [] && snapshot[s.key] == hashes[|hashes| - 1]
    requires s.key !in snapshot && s.key == key ==> hashes == []
    requires EventsOf(events, key) == Changes(hashes, key)
    ensures EventsOf(events + EventOf(snapshot, s), key)
         == Changes(hashes + (if s.key == key then [s.hash] else []), key)
  {
    if EventOf(snapshot, s) == [] {
      assert events + EventOf(snapshot, s) == events;
    } else {
      EventsOfSnoc(events, EventOf(snapshot, s)[0], key);
    }
    if s.key == key {
      ChangesSnoc(hashes, s.hash, key);
    } else {
      assert hashes + [] == hashes;
    }
  }

  lemma {:induction false} SeenExactly(seen: seq<Sighting>, key: Key)
    ensures EventsOf(Events(map[], seen), key) == Changes(HashesOf(seen, key), key)
  {
    if seen != [] {
      var front, s := seen[..|seen| - 1], seen[|seen| - 1];
      SeenExactly(front, key);
      SnapIsLast(front, key);
      EventsNext(Snap(map[], front), Events(map[], front), HashesOf(front, key), s, key);
    }
  }

  /**
   Over any passes, with failed and empty reads anywhere, the events of a
   sandbox are exactly the adjacent unequal pairs of the hashes seen for it,
   and the snapshot holds the last one.
   */
  lemma DriftExactly(passes: seq<Option<seq<GatewayScan>>>, key: Key)
    ensures var hashes := HashesOf(AllSightings(passes), key);
      && EventsOf(RunEvents(passes), key) == Changes(hashes, key)
      && (key in RunSnapshot(passes) <==> hashes != [])
      && (hashes != [] ==> RunSnapshot(passes)[key] == hashes[|hashes| - 1])
  {
    PassesConcat(passes);
    SnapIsLast(AllSightings(passes), key);
    SeenExactly(AllSightings(passes), key);
  }

  predicate Linked(events: seq<Event>, i: nat)
    requires 0 < i < |events|
  {
    events[i - 1].current == events[i].previous
  }

  /** The events of a sandbox telescope from the first hash seen to the last. */
  lemma {:induction false} ChangesTelescope(hashes: seq<string>, key: Key)
    requires hashes != []
    ensures var events := Changes(hashes, key);
      && (forall i :: 0 < i < |events| ==> Linked(events, i))
      && (events == [] ==> forall i :: 0 <= i < |hashes| ==> hashes[i] == hashes[0])
      && (events != [] ==> events[0].previous == hashes[0] && events[|events| - 1].current == hashes[|hashes| - 1])
  {
    if |hashes| > 1 {
      var n := |hashes| - 1;
      var before, events := Changes(hashes[..n], key), Changes(hashes, key);
      ChangesTelescope(hashes[..n], key);
      forall i | 0 < i < |events|
        ensures Linked(events, i)
      {
        assert i < |before| ==> Linked(before, i);
        assert hashes[..n][n - 1] == hashes[n - 1];
      }
      assert before == [] ==> hashes[n - 1] == hashes[..n][n - 1] == hashes[0];
    }
  }

  /** For a sandbox: its events link up and lead from its first hash to the snapshot. */
  lemma DriftTelescopes(passes: seq<Option<seq<GatewayScan>>>, key: Key)
    requires key in RunSnapshot(passes)
    ensures var events, hashes := EventsOf(RunEvents(passes), key), HashesOf(AllSightings(passes), key);
      && hashes != [] && (forall i :: 0 < i < |events| ==> Linked(events, i))
      && (if events == [] then RunSnapshot(passes)[key] == hashes[0]
          else events[0].previous == hashes[0] && events[|events| - 1].current == RunSnapshot(passes)[key])
  {
    DriftExactly(passes, key);
    ChangesTelescope(HashesOf(AllSightings(passes), key), key);
  }
}
