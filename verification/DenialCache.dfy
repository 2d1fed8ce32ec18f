/**
 The denial context cache (shoreguard/services/denial_context.py): per sandbox
 an ordered dictionary that drops its oldest entries beyond a limit.
 */
module DenialCache {
  import opened Seqs
  import opened Text
  import opened Wrappers

  datatype Key = Key(binary: string, host: string, port: int)

  datatype L7Sample = L7Sample(httpMethod: string, path: string, decision: string, count: int)

  /** The parsed fields of a summary that enrich a chunk. */
  datatype Facts = Facts(
    ancestors: seq<string>,
    binarySha256: string,
    persistent: bool,
    l7Samples: seq<L7Sample>,
    l7InspectionActive: bool,
    denyReason: string,
    sampleCmdlines: seq<string>,
    denialStage: string,
    count: int,
    totalCount: int)

  datatype Record = Record(facts: Facts, cachedAtMs: int)

  /** A raw summary; the port, or some other field, is absent if reading it as a number raises. */
  datatype Summary = Summary(binary: string, host: string, port: Option<int>, facts: Option<Facts>)

  /** An entry of the ordered dictionary. */
  datatype Slot = Slot(key: Key, record: Record)

  datatype Endpoint = Endpoint(host: string, port: int)

  /** A chunk; the rule is absent unless it is a dictionary. */
  datatype Chunk = Chunk(binary: string, endpoints: Option<seq<Option<Endpoint>>>)

  datatype IngestError = KeyError | ValueError

  // ----- Normalisation ---------------------------------------------------

  function NormalHost(lower: string -> string, host: string): string
  {
    RightStrip(lower(Strip(host)), (c: char) => c == '.')
  }

  function NormalKey(lower: string -> string, binary: string, host: string, port: int): Key
  {
    Key(Strip(binary), NormalHost(lower, host), port)
  }

  /** The host of a key is the stripped, lower-cased one without its trailing dots. */
  lemma HostExactly(lower: string -> string, host: string) returns (dots: string)
    ensures lower(Strip(host)) == NormalHost(lower, host) + dots
    ensures forall i :: 0 <= i < |dots| ==> dots[i] == '.'
    ensures var h := NormalHost(lower, host); h != "" ==> h[|h| - 1] != '.'
  {
    dots := RightStripExactly(lower(Strip(host)), (c: char) => c == '.');
  }

  // ----- The ordered dictionary ------------------------------------------

  function OtherThan(key: Key): Slot -> bool
  {
    (s: Slot) => s.key != key
  }

  predicate Differ(cache: seq<Slot>, i: nat, j: nat)
    requires i < |cache| && j < |cache|
  {
    cache[i].key != cache[j].key
  }

  predicate DistinctKeys(cache: seq<Slot>)
  {
    forall i, j :: 0 <= i < j < |cache| ==> Differ(cache, i, j)
  }

  predicate Lacks(cache: seq<Slot>, key: Key)
  {
    forall j :: 0 <= j < |cache| ==> cache[j].key != key
  }

  function Find(cache: seq<Slot>, key: Key): Option<Record>
  {
    if cache == [] then None
    else if cache[|cache| - 1].key == key then Some(cache[|cache| - 1].record)
    else Find(cache[..|cache| - 1], key)
  }

  /** Storing under a key and making it the youngest. */
  function Touch(cache: seq<Slot>, slot: Slot): seq<Slot>
  {
    Filter(cache, OtherThan(slot.key)) + [slot]
  }

  /** The youngest entries, at most `max` of them. */
  function Youngest(cache: seq<Slot>, max: nat): seq<Slot>
  {
    if |cache| <= max then cache else cache[|cache| - max..]
  }

  function Stored(cache: seq<Slot>, slots: seq<Slot>, max: nat): seq<Slot>
  {
    if slots == [] then cache
    else Youngest(Touch(Stored(cache, slots[..|slots| - 1], max), slots[|slots| - 1]), max)
  }

  /** Whether parsing a summary raises: the port is read before the host is looked at, the rest after. */
  predicate Raises(lower: string -> string, s: Summary)
  {
    s.port.None? || (NormalHost(lower, s.host) != "" && s.facts.None?)
  }

  /** Whether parsing a summary gives an entry. */
  predicate Gives(lower: string -> string, s: Summary)
  {
    NormalHost(lower, s.host) != "" && s.port.Some? && s.facts.Some?
  }

  function SlotOf(lower: string -> string, s: Summary, nowMs: int): Slot
    requires Gives(lower, s)
  {
    Slot(NormalKey(lower, s.binary, s.host, s.port.value), Record(s.facts.value, nowMs))
  }

  /** The summaries before the first one that raises. */
  function Readable(lower: string -> string, summaries: seq<Summary>): (r: seq<Summary>)
    ensures |r| <= |summaries|
  {
    if summaries == [] || Raises(lower, summaries[0]) then [] else [summaries[0]] + Readable(lower, summaries[1..])
  }

  /** The entries of a batch; summaries without a host are skipped. */
  function Parsed(lower: string -> string, summaries: seq<Summary>, nowMs: int): seq<Slot>
  {
    if summaries == [] then []
    else
      var s, front := summaries[|summaries| - 1], Parsed(lower, summaries[..|summaries| - 1], nowMs);
      if Gives(lower, s) then front + [SlotOf(lower, s, nowMs)] else front
  }

  /** What a batch stores before it is done or raises. */
  function Batch(lower: string -> string, summaries: seq<Summary>, nowMs: int): seq<Slot>
  {
    Parsed(lower, Readable(lower, summaries), nowMs)
  }

  /** A summary that can be read: its port is a number, and so is everything else unless the host is blank. */
  predicate CanRead(lower: string -> string, s: Summary)
  {
    s.port.Some? && (s.facts.Some? || NormalHost(lower, s.host) == "")
  }

  /** The entry of a summary: its facts, with the time of the batch, under binary, host and port. */
  predicate IsEntry(lower: string -> string, s: Summary, nowMs: int, slot: Slot)
  {
    && s.port.Some? && s.facts.Some? && NormalHost(lower, s.host) != ""
    && slot.key.binary == Strip(s.binary) && slot.key.host == NormalHost(lower, s.host) && slot.key.port == s.port.value
    && slot.record.facts == s.facts.value && slot.record.cachedAtMs == nowMs
  }

  lemma {:induction false} ParsedExactly(lower: string -> string, summaries: seq<Summary>, nowMs: int, slot: Slot)
    ensures slot in Parsed(lower, summaries, nowMs)
       <==> exists i :: 0 <= i < |summaries| && IsEntry(lower, summaries[i], nowMs, slot)
  {
    if summaries != [] {
      var n := |summaries| - 1;
      var front, s := summaries[..n], summaries[n];
      ParsedExactly(lower, front, nowMs, slot);
      EntryExactly(lower, s, nowMs, slot);
      assert (exists i :: 0 <= i < |summaries| && IsEntry(lower, summaries[i], nowMs, slot))
        <==> IsEntry(lower, s, nowMs, slot) || exists i :: 0 <= i < n && IsEntry(lower, front[i], nowMs, slot);
    }
  }

  /** Entries come in the order of their summaries, at most one each. */
  lemma {:induction false} ParsedInOrder(lower: string -> string, a: seq<Summary>, b: seq<Summary>, nowMs: int)
    ensures Parsed(lower, a + b, nowMs) == Parsed(lower, a, nowMs) + Parsed(lower, b, nowMs)
    ensures |Parsed(lower, b, nowMs)| <= |b|
  {
    if b == [] {
      assert a + b == a;
    } else {
      var front, s := b[..|b| - 1], b[|b| - 1];
      ParsedInOrder(lower, a, front, nowMs);
      assert b == front + [s] && a + b == (a + front) + [s];
      ParsedSnoc(lower, a + front, s, nowMs);
      ParsedSnoc(lower, front, s, nowMs);
    }
  }

  lemma ParsedSnoc(lower: string -> string, a: seq<Summary>, s: Summary, nowMs: int)
    ensures Parsed(lower, a + [s], nowMs)
         == Parsed(lower, a, nowMs) + if Gives(lower, s) then [SlotOf(lower, s, nowMs)] else []
  {
    assert (a + [s])[..|a|] == a;
  }

  lemma EntryExactly(lower: string -> string, s: Summary, nowMs: int, slot: Slot)
    ensures IsEntry(lower, s, nowMs, slot) <==> Gives(lower, s) && slot == SlotOf(lower, s, nowMs)
  {
  }

  /** A batch gives the entries of its summaries that have a host, up to the first that cannot be read. */
  lemma BatchExactly(lower: string -> string, summaries: seq<Summary>, nowMs: int, n: nat, slot: Slot)
    requires n <= |summaries| && forall i :: 0 <= i < n ==> CanRead(lower, summaries[i])
    requires n == |summaries| || !CanRead(lower, summaries[n])
    ensures slot in Batch(lower, summaries, nowMs)
       <==> exists i :: 0 <= i < n && IsEntry(lower, summaries[i], nowMs, slot)
  {
    var read := summaries[..n];
    forall i | 0 <= i < |summaries|
      ensures CanRead(lower, summaries[i]) <==> !Raises(lower, summaries[i])
    {
    }
    ReadableUpTo(lower, summaries, n);
    ParsedExactly(lower, read, nowMs, slot);
    assert (exists i :: 0 <= i < n && IsEntry(lower, summaries[i], nowMs, slot))
      <==> exists i :: 0 <= i < n && IsEntry(lower, read[i], nowMs, slot);
  }

  function CacheOf(caches: map<string, seq<Slot>>, name: string): seq<Slot>
  {
    if name in caches then caches[name] else []
  }

  function Ingested(
    lower: string -> string, max: nat, caches: map<string, seq<Slot>>, name: string, nowMs: int,
    summaries: seq<Summary>)
    : map<string, seq<Slot>>
  {
    if summaries == [] then caches
    else caches[name := Stored(CacheOf(caches, name), Batch(lower, summaries, nowMs), max)]
  }

  function Cleared(caches: map<string, seq<Slot>>, name: string): map<string, seq<Slot>>
  {
    map n | n in caches && n != Strip(name) :: caches[n]
  }

  function LookedUp(
    lower: string -> string, caches: map<string, seq<Slot>>, name: string, binary: string, host: string, port: int)
    : Option<Record>
  {
    Find(CacheOf(caches, Strip(name)), NormalKey(lower, binary, host, port))
  }

  /** The first endpoint with a host and a cached record decides. */
  function Matched(
    lower: string -> string, caches: map<string, seq<Slot>>, name: string, binary: string,
    endpoints: seq<Option<Endpoint>>)
    : Option<Record>
  {
    if endpoints == [] then None
    else
      var rest := Matched(lower, caches, name, binary, endpoints[1..]);
      match endpoints[0]
      case None => rest
      case Some(ep) =>
        if ep.host == "" then rest
        else
          var found := LookedUp(lower, caches, name, binary, ep.host, ep.port);
          if found.Some? then found else rest
  }

  lemma {:induction false} FindNone(cache: seq<Slot>, key: Key)
    requires Lacks(cache, key)
    ensures Find(cache, key) == None
  {
    if cache != [] {
      FindNone(cache[..|cache| - 1], key);
    }
  }

  lemma {:induction false} FindAfter(before: seq<Slot>, slot: Slot, after: seq<Slot>)
    requires Lacks(after, slot.key)
    ensures Find(before + [slot] + after, slot.key) == Some(slot.record)
  {
    var all := before + [slot] + after;
    if after == [] {
      assert all[|all| - 1] == slot;
    } else {
      assert all[..|all| - 1] == before + [slot] + after[..|after| - 1];
      FindAfter(before, slot, after[..|after| - 1]);
    }
  }

  lemma LacksAllBut(cache: seq<Slot>, key: Key, i: nat)
    requires DistinctKeys(cache) && i < |cache| && cache[i].key == key
    ensures Lacks(cache[..i], key) && Lacks(cache[i + 1..], key)
  {
    forall j | 0 <= j < i
      ensures cache[..i][j].key != key
    {
      assert Differ(cache, j, i);
    }
    var after := cache[i + 1..];
    forall j | 0 <= j < |after|
      ensures after[j].key != key
    {
      assert Differ(cache, i, i + 1 + j);
    }
  }

  lemma WithoutKey(cache: seq<Slot>, key: Key, i: nat)
    requires DistinctKeys(cache) && i < |cache| && cache[i].key == key
    ensures Filter(cache, OtherThan(key)) == cache[..i] + cache[i + 1..]
  {
    LacksAllBut(cache, key, i);
    FilterOut(cache[..i], cache[i], cache[i + 1..], OtherThan(key));
    SplitAt(cache, i);
  }

  lemma FilterLacks(cache: seq<Slot>, key: Key)
    ensures Lacks(Filter(cache, OtherThan(key)), key)
  {
  }

  lemma DropKeepsDistinct(cache: seq<Slot>, i: nat)
    requires DistinctKeys(cache) && i < |cache|
    ensures DistinctKeys(cache[..i] + cache[i + 1..])
  {
    var rest := cache[..i] + cache[i + 1..];
    forall j, k | 0 <= j < k < |rest|
      ensures Differ(rest, j, k)
    {
      var j', k' := if j < i then j else j + 1, if k < i then k else k + 1;
      assert Differ(cache, j', k');
    }
  }

  lemma FilterKeepsDistinct(cache: seq<Slot>, key: Key)
    requires DistinctKeys(cache)
    ensures DistinctKeys(Filter(cache, OtherThan(key)))
  {
    if i :| 0 <= i < |cache| && cache[i].key == key {
      WithoutKey(cache, key, i);
      DropKeepsDistinct(cache, i);
    } else {
      FilterAll(cache, OtherThan(key));
    }
  }

  lemma SnocKeepsDistinct(cache: seq<Slot>, slot: Slot)
    requires DistinctKeys(cache) && Lacks(cache, slot.key)
    ensures DistinctKeys(cache + [slot])
  {
    var all := cache + [slot];
    forall i, j | 0 <= i < j < |all|
      ensures Differ(all, i, j)
    {
      assert j < |cache| ==> Differ(cache, i, j);
    }
  }

  lemma TouchKeepsDistinct(cache: seq<Slot>, slot: Slot)
    requires DistinctKeys(cache)
    ensures DistinctKeys(Touch(cache, slot))
  {
    FilterKeepsDistinct(cache, slot.key);
    FilterLacks(cache, slot.key);
    SnocKeepsDistinct(Filter(cache, OtherThan(slot.key)), slot);
  }

  lemma YoungestKeepsDistinct(cache: seq<Slot>, max: nat)
    requires DistinctKeys(cache)
    ensures DistinctKeys(Youngest(cache, max))
  {
    var young := Youngest(cache, max);
    var d := |cache| - |young|;
    forall i, j | 0 <= i < j < |young|
      ensures Differ(young, i, j)
    {
      assert Differ(cache, d + i, d + j);
    }
  }

  /** The entries a batch has left behind after its first `i` summaries. */
  ghost predicate Filled(
    lower: string -> string, max: int, first: seq<Slot>, summaries: seq<Summary>, nowMs: int,
    i: nat, cache: seq<Slot>, stored: nat)
    requires i <= |summaries|
  {
    var slots := Parsed(lower, summaries[..i], nowMs);
    && DistinctKeys(cache)
    && stored == |slots|
    && (max < 0 ==> stored == 0 && cache == first)
    && (max >= 0 ==> cache == Stored(first, slots, max))
  }

  lemma FilledNext(
    lower: string -> string, max: int, first: seq<Slot>, summaries: seq<Summary>, nowMs: int,
    i: nat, cache: seq<Slot>, stored: nat)
    requires i < |summaries| && Filled(lower, max, first, summaries, nowMs, i, cache, stored)
    ensures var s := summaries[i];
      if !Gives(lower, s) then Filled(lower, max, first, summaries, nowMs, i + 1, cache, stored)
      else if max < 0 then Parsed(lower, summaries[..i + 1], nowMs) != []
      else
        var cache' := Youngest(Touch(cache, SlotOf(lower, s, nowMs)), max);
        Filled(lower, max, first, summaries, nowMs, i + 1, cache', stored + 1)
  {
    assert summaries[..i + 1][..i] == summaries[..i];
    var s := summaries[i];
    if Gives(lower, s) && max >= 0 {
      var slots, slot := Parsed(lower, summaries[..i], nowMs), SlotOf(lower, s, nowMs);
      StoredSnoc(first, slots, slot, max);
      TouchKeepsDistinct(cache, slot);
      YoungestKeepsDistinct(Touch(cache, slot), max);
    }
  }

  predicate NoneRaises(lower: string -> string, summaries: seq<Summary>, i: nat)
    requires i <= |summaries|
  {
    forall j :: 0 <= j < i ==> !Raises(lower, summaries[j])
  }

  /** The loop runs through exactly the readable summaries. */
  lemma {:induction false} ReadableUpTo(lower: string -> string, summaries: seq<Summary>, i: nat)
    requires i <= |summaries| && NoneRaises(lower, summaries, i)
    ensures i <= |Readable(lower, summaries)| && Readable(lower, summaries)[..i] == summaries[..i]
    ensures i == |summaries| || Raises(lower, summaries[i]) ==> Readable(lower, summaries) == summaries[..i]
    ensures i == |summaries| ==> Readable(lower, summaries) == summaries
  {
    if i > 0 {
      var rest := summaries[1..];
      assert forall j :: 0 <= j < i - 1 ==> rest[j] == summaries[j + 1];
      ReadableUpTo(lower, rest, i - 1);
      assert summaries[..i] == [summaries[0]] + rest[..i - 1];
      assert summaries == [summaries[0]] + rest;
    }
  }

  lemma StoredSnoc(cache: seq<Slot>, slots: seq<Slot>, slot: Slot, max: nat)
    ensures Stored(cache, slots + [slot], max) == Youngest(Touch(Stored(cache, slots, max), slot), max)
  {
  }

  // ----- The service -----------------------------------------------------

  class DenialContextService {
    const lower: string -> string
    const maxEntries: int
    var caches: map<string, seq<Slot>>

    constructor (lower: string -> string, maxEntries: int)
      ensures this.lower == lower && this.maxEntries == maxEntries && caches == map[] && Valid()
    {
      this.lower, this.maxEntries := lower, maxEntries;
      caches := map[];
    }

    ghost predicate Valid()
      reads this
    {
      forall n :: n in caches ==> DistinctKeys(caches[n])
    }

    method IngestSummaries(name: string, nowMs: int, summaries: seq<Summary>) returns (r: Result<nat, IngestError>)
      requires Valid()
      modifies this`caches
      ensures Valid()
      ensures var slots := Batch(lower, summaries, nowMs);
        r == if maxEntries < 0 && slots != [] then Err(KeyError)
             else if |Readable(lower, summaries)| < |summaries| then Err(ValueError)
             else Ok(|slots|)
      ensures maxEntries >= 0 ==> caches == Ingested(lower, maxEntries, old(caches), name, nowMs, summaries)
      ensures maxEntries < 0 && summaries != [] ==>
        caches == old(caches)[name := if r == Err(KeyError) then [] else CacheOf(old(caches), name)]
      ensures summaries == [] ==> caches == old(caches)
    {
      if summaries == [] {
        assert Batch(lower, [], nowMs) == Parsed(lower, [], nowMs) == [];
        return Ok(0);
      }
      var cache, stored, error := StoreAll(CacheOf(caches, name), nowMs, summaries);
      caches := caches[name := cache];
      assert error.Some? ==> error.value == KeyError || error.value == ValueError;
      r := if error.Some? then Err(error.value) else Ok(stored);
    }

    /** The loop of `ingest_summaries`, with the dictionary it leaves behind. */
    method StoreAll(first: seq<Slot>, nowMs: int, summaries: seq<Summary>)
      returns (cache: seq<Slot>, stored: nat, error: Option<IngestError>)
      requires DistinctKeys(first)
      ensures DistinctKeys(cache)
      ensures var slots := Batch(lower, summaries, nowMs);
        && (error == Some(KeyError) <==> maxEntries < 0 && slots != [])
        && (error == None <==> !(maxEntries < 0 && slots != []) && |Readable(lower, summaries)| == |summaries|)
        && (error == None ==> stored == |slots|)
        && (maxEntries >= 0 ==> cache == Stored(first, slots, maxEntries))
      ensures error == Some(KeyError) ==> cache == []
      ensures maxEntries < 0 && error != Some(KeyError) ==> cache == first
    {
      cache, stored := first, 0;
      for i := 0 to |summaries|
        invariant NoneRaises(lower, summaries, i)
        invariant Filled(lower, maxEntries, first, summaries, nowMs, i, cache, stored)
      {
        ReadableUpTo(lower, summaries, i);
        var s := summaries[i];
        if s.port.None? {
          return cache, stored, Some(ValueError);
        }
        var host := NormalHost(lower, s.host);
        if host != "" && s.facts.None? {
          return cache, stored, Some(ValueError);
        }
        FilledNext(lower, maxEntries, first, summaries, nowMs, i, cache, stored);
        if host != "" {
          var raised;
          cache, raised := Put(cache, Slot(Key(Strip(s.binary), host, s.port.value), Record(s.facts.value, nowMs)));
          if raised {
            BatchGrows(lower, summaries, i + 1, nowMs);
            return cache, stored, Some(KeyError);
          }
          stored := stored + 1;
        }
      }
      ReadableUpTo(lower, summaries, |summaries|);
      error := None;
    }

    /** Stores one entry and evicts the oldest beyond the limit. */
    method Put(cache: seq<Slot>, slot: Slot) returns (after: seq<Slot>, raised: bool)
      requires DistinctKeys(cache)
      ensures raised <==> maxEntries < 0
      ensures after == if raised then [] else Youngest(Touch(cache, slot), maxEntries)
    {
      var full := Store(cache, slot);
      after, raised := Trim(full, maxEntries);
    }

    /** `move_to_end` for a key that is present, then the assignment. */
    method Store(cache: seq<Slot>, slot: Slot) returns (r: seq<Slot>)
      requires DistinctKeys(cache)
      ensures r == Touch(cache, slot)
    {
      var i := 0;
      while i < |cache| && cache[i].key != slot.key
        invariant 0 <= i <= |cache|
        invariant forall j :: 0 <= j < i ==> cache[j].key != slot.key
      {
        i := i + 1;
      }
      if i == |cache| {
        FilterAll(cache, OtherThan(slot.key));
        return cache + [slot];
      }
      WithoutKey(cache, slot.key, i);
      r := cache[..i] + cache[i + 1..] + [cache[i]];
      r := r[|r| - 1 := slot];
    }

    /** `popitem(last=False)` while there are too many; popping an empty dictionary raises. */
    method Trim(full: seq<Slot>, max: int) returns (cache: seq<Slot>, raised: bool)
      ensures raised <==> max < 0
      ensures cache == Youngest(full, if max < 0 then 0 else max)
    {
      cache := full;
      while |cache| > max
        invariant |cache| <= |full| && cache == full[|full| - |cache|..]
        invariant max >= 0 && |full| >= max ==> |cache| >= max
        invariant max >= 0 && |full| < max ==> cache == full
      {
        if cache == [] {
          return cache, true;
        }
        cache := cache[1..];
      }
      raised := false;
    }

    method Lookup(name: string, binary: string, host: string, port: int) returns (r: Option<Record>)
      ensures r == LookedUp(lower, caches, name, binary, host, port)
    {
      var key := NormalKey(lower, binary, host, port);
      if Strip(name) !in caches {
        return None;
      }
      r := Find(caches[Strip(name)], key);
    }

    method MatchChunk(name: string, chunk: Chunk) returns (r: Option<Record>)
      ensures r == if chunk.endpoints.None? then None
                   else Matched(lower, caches, name, chunk.binary, chunk.endpoints.value)
    {
      if chunk.endpoints.None? {
        return None;
      }
      var endpoints := chunk.endpoints.value;
      var i := 0;
      while i < |endpoints|
        invariant 0 <= i <= |endpoints|
        invariant Matched(lower, caches, name, chunk.binary, endpoints)
               == Matched(lower, caches, name, chunk.binary, endpoints[i..])
      {
        assert endpoints[i..][1..] == endpoints[i + 1..];
        if endpoints[i].Some? && endpoints[i].value.host != "" {
          r := Lookup(name, chunk.binary, endpoints[i].value.host, endpoints[i].value.port);
          if r.Some? {
            return;
          }
        }
        i := i + 1;
      }
      r := None;
    }

    method Clear(name: string)
      requires Valid()
      modifies this`caches
      ensures Valid() && caches == Cleared(old(caches), name)
    {
      caches := map n | n in caches && n != Strip(name) :: caches[n];
    }
  }

  lemma {:induction false} ParsedGrows(lower: string -> string, summaries: seq<Summary>, i: nat, nowMs: int)
    requires i <= |summaries| && Parsed(lower, summaries[..i], nowMs) != []
    ensures Parsed(lower, summaries, nowMs) != []
  {
    if i == |summaries| {
      assert summaries[..i] == summaries;
    } else {
      assert summaries[..|summaries| - 1][..i] == summaries[..i];
      ParsedGrows(lower, summaries[..|summaries| - 1], i, nowMs);
    }
  }

  lemma BatchGrows(lower: string -> string, summaries: seq<Summary>, i: nat, nowMs: int)
    requires i <= |summaries| && NoneRaises(lower, summaries, i) && Parsed(lower, summaries[..i], nowMs) != []
    ensures Batch(lower, summaries, nowMs) != []
  {
    ReadableUpTo(lower, summaries, i);
    ParsedGrows(lower, Readable(lower, summaries), i, nowMs);
  }

  // ----- Runs and their history ------------------------------------------

  datatype Event =
    | Ingest(name: string, nowMs: int, summaries: seq<Summary>)
    | Clear(name: string)

  function Run(lower: string -> string, max: nat, es: seq<Event>): map<string, seq<Slot>>
  {
    if es == [] then map[]
    else
      var before := Run(lower, max, es[..|es| - 1]);
      match es[|es| - 1]
      case Ingest(name, nowMs, summaries) => Ingested(lower, max, before, name, nowMs, summaries)
      case Clear(name) => Cleared(before, name)
  }

  /** Everything ever ingested for a sandbox since it was last cleared. */
  function History(lower: string -> string, es: seq<Event>, name: string): seq<Slot>
  {
    if es == [] then []
    else
      var before := History(lower, es[..|es| - 1], name);
      match es[|es| - 1]
      case Ingest(n, nowMs, summaries) => if n == name then before + Batch(lower, summaries, nowMs) else before
      case Clear(n) => if Strip(n) == name then [] else before
  }

  /** The latest entry of each key, oldest first. */
  function Latest(history: seq<Slot>): seq<Slot>
  {
    if history == [] then []
    else Touch(Latest(history[..|history| - 1]), history[|history| - 1])
  }

  lemma LatestSnoc(history: seq<Slot>, slot: Slot)
    ensures Latest(history + [slot]) == Touch(Latest(history), slot)
  {
  }

  lemma {:induction false} LatestDistinct(history: seq<Slot>)
    ensures DistinctKeys(Latest(history))
  {
    if history != [] {
      LatestDistinct(history[..|history| - 1]);
      TouchKeepsDistinct(Latest(history[..|history| - 1]), history[|history| - 1]);
    }
  }

  /** Dropping the oldest early never changes which entries are the youngest later. */
  lemma TouchYoungest(all: seq<Slot>, slot: Slot, max: nat)
    requires DistinctKeys(all)
    ensures Youngest(Touch(Youngest(all, max), slot), max) == Youngest(Touch(all, slot), max)
  {
    if |all| > max {
      TouchTail(all, slot, |all| - max);
    }
  }

  lemma TouchTail(all: seq<Slot>, slot: Slot, d: nat)
    requires DistinctKeys(all) && d <= |all|
    ensures Youngest(Touch(all[d..], slot), |all| - d) == Youngest(Touch(all, slot), |all| - d)
  {
    var evicted, young, keep := all[..d], all[d..], OtherThan(slot.key);
    assert all == evicted + young;
    FilterConcat(evicted, young, keep);
    JoinTouch(Filter(evicted, keep), Filter(young, keep), slot);
    if i :| 0 <= i < |young| && young[i].key == slot.key {
      YoungestKeepsDistinct(all, |young|);
      WithoutKey(young, slot.key, i);
      LacksBefore(all, slot.key, d + i, d);
      FilterAll(evicted, keep);
    } else {
      FilterAll(young, keep);
    }
    JoinTail(Filter(evicted, keep), Touch(young, slot), |young|);
  }

  lemma JoinTouch(a: seq<Slot>, b: seq<Slot>, slot: Slot)
    ensures (a + b) + [slot] == a + (b + [slot])
  {
  }

  lemma LacksBefore(cache: seq<Slot>, key: Key, i: nat, d: nat)
    requires DistinctKeys(cache) && d <= i < |cache| && cache[i].key == key
    ensures Lacks(cache[..d], key)
  {
    forall j | 0 <= j < d
      ensures cache[..d][j].key != key
    {
      assert Differ(cache, j, i);
    }
  }

  lemma JoinTail(a: seq<Slot>, b: seq<Slot>, max: nat)
    requires max <= |b|
    ensures Youngest(a + b, max) == Youngest(b, max)
  {
  }

  lemma StoredYoungestNext(history: seq<Slot>, slots: seq<Slot>, slot: Slot, max: nat)
    requires Stored(Youngest(Latest(history), max), slots, max) == Youngest(Latest(history + slots), max)
    ensures Stored(Youngest(Latest(history), max), slots + [slot], max)
         == Youngest(Latest(history + slots + [slot]), max)
  {
    StoredSnoc(Youngest(Latest(history), max), slots, slot, max);
    LatestSnoc(history + slots, slot);
    LatestDistinct(history + slots);
    TouchYoungest(Latest(history + slots), slot, max);
  }

  lemma {:induction false} StoredYoungest(history: seq<Slot>, slots: seq<Slot>, max: nat)
    ensures Stored(Youngest(Latest(history), max), slots, max) == Youngest(Latest(history + slots), max)
  {
    if slots == [] {
      assert history + slots == history;
    } else {
      var front, slot := slots[..|slots| - 1], slots[|slots| - 1];
      assert slots == front + [slot];
      assert history + slots == history + front + [slot];
      StoredYoungest(history, front, max);
      StoredYoungestNext(history, front, slot, max);
    }
  }

  lemma IngestedAt(
    lower: string -> string, max: nat, caches: map<string, seq<Slot>>, n: string, nowMs: int, summaries: seq<Summary>,
    name: string)
    ensures CacheOf(Ingested(lower, max, caches, n, nowMs, summaries), name)
         == if n == name then Stored(CacheOf(caches, name), Batch(lower, summaries, nowMs), max)
            else CacheOf(caches, name)
  {
  }

  /**
   After any run a sandbox's cache is exactly the latest entries of the last
   `max` distinct keys ingested for it, in the order of their latest ingest.
   */
  lemma {:induction false} CacheIsRecent(lower: string -> string, max: nat, es: seq<Event>, name: string)
    ensures CacheOf(Run(lower, max, es), name) == Youngest(Latest(History(lower, es, name)), max)
  {
    if es != [] {
      var front := es[..|es| - 1];
      CacheIsRecent(lower, max, front, name);
      var before, h := Run(lower, max, front), History(lower, front, name);
      match es[|es| - 1]
      case Ingest(n, nowMs, summaries) =>
        IngestedAt(lower, max, before, n, nowMs, summaries, name);
        StoredYoungest(h, Batch(lower, summaries, nowMs), max);
      case Clear(n) =>
        if Strip(n) == name {
          assert CacheOf(Cleared(before, n), name) == [];
          assert History(lower, es, name) == [];
        } else {
          assert CacheOf(Cleared(before, n), name) == CacheOf(before, name);
          assert History(lower, es, name) == h;
        }
    }
  }

  // ----- What a lookup returns -------------------------------------------

  function Keys(history: seq<Slot>): set<Key>
  {
    set i | 0 <= i < |history| :: history[i].key
  }

  lemma KeysConcat(a: seq<Slot>, b: seq<Slot>)
    ensures Keys(a + b) == Keys(a) + Keys(b)
  {
    var all := a + b;
    assert forall i :: 0 <= i < |a| ==> all[i] == a[i];
    assert forall i :: 0 <= i < |b| ==> all[|a| + i] == b[i];
  }

  lemma KeysOfKept(cache: seq<Slot>, key: Key)
    ensures Keys(Filter(cache, OtherThan(key))) == Keys(cache) - {key}
  {
    FilterMembers(cache, OtherThan(key));
    var kept := Filter(cache, OtherThan(key));
    forall i | 0 <= i < |cache| && cache[i].key != key
      ensures cache[i].key in Keys(kept)
    {
      assert cache[i] in kept;
    }
    forall i | 0 <= i < |kept|
      ensures kept[i].key in Keys(cache) && kept[i].key != key
    {
      assert kept[i] in kept;
    }
  }

  lemma {:induction false} LatestKeys(history: seq<Slot>)
    ensures Keys(Latest(history)) == Keys(history)
  {
    if history != [] {
      var n := |history| - 1;
      var slot := history[n];
      LatestKeys(history[..n]);
      KeysOfKept(Latest(history[..n]), slot.key);
      KeysConcat(Filter(Latest(history[..n]), OtherThan(slot.key)), [slot]);
      assert history == history[..n] + [slot];
      KeysConcat(history[..n], [slot]);
      assert Keys([slot]) == {slot.key} by {
        assert [slot][0] == slot;
      }
    }
  }

  lemma {:induction false} DistinctCount(cache: seq<Slot>)
    requires DistinctKeys(cache)
    ensures |Keys(cache)| == |cache|
  {
    if cache != [] {
      var n := |cache| - 1;
      assert DistinctKeys(cache[..n]) by {
        forall i, j | 0 <= i < j < n
          ensures Differ(cache[..n], i, j)
        {
          assert Differ(cache, i, j);
        }
      }
      DistinctCount(cache[..n]);
      LacksAllBut(cache, cache[n].key, n);
      LacksIffNoKey(cache[..n], cache[n].key);
      assert Keys(cache) == Keys(cache[..n]) + {cache[n].key};
    }
  }

  lemma LacksIffNoKey(cache: seq<Slot>, key: Key)
    ensures Lacks(cache, key) <==> key !in Keys(cache)
  {
  }

  lemma LatestAfterNext(before: seq<Slot>, slot: Slot, after: seq<Slot>, last: Slot, front: seq<Slot>)
    requires last.key != slot.key
    requires Latest(before + [slot] + after) == front + [slot] + Latest(after)
    ensures Latest(before + [slot] + after + [last])
         == Filter(front, OtherThan(last.key)) + [slot] + Latest(after + [last])
  {
    var keep := OtherThan(last.key);
    LatestSnoc(before + [slot] + after, last);
    LatestSnoc(after, last);
    FilterConcat(front + [slot], Latest(after), keep);
    FilterSnoc(front, slot, keep);
    JoinTouch(Filter(front, keep) + [slot], Filter(Latest(after), keep), last);
  }

  /** An entry whose key is not ingested again sits just before the later ones. */
  lemma {:induction false} LatestAfter(before: seq<Slot>, slot: Slot, after: seq<Slot>) returns (front: seq<Slot>)
    requires Lacks(after, slot.key)
    ensures Latest(before + [slot] + after) == front + [slot] + Latest(after)
  {
    if after == [] {
      assert before + [slot] + after == before + [slot];
      LatestSnoc(before, slot);
      front := Filter(Latest(before), OtherThan(slot.key));
    } else {
      var rest, last := after[..|after| - 1], after[|after| - 1];
      assert after == rest + [last];
      assert before + [slot] + after == before + [slot] + rest + [last];
      var front' := LatestAfter(before, slot, rest);
      LatestAfterNext(before, slot, rest, last, front');
      front := Filter(front', OtherThan(last.key));
    }
  }

  lemma YoungestOfJoin(front: seq<Slot>, slot: Slot, later: seq<Slot>, max: nat) returns (rest: seq<Slot>)
    ensures var young := Youngest(front + [slot] + later, max);
      if |later| < max then young == rest + [slot] + later else |rest| <= |later| && young == later[|rest|..]
  {
    var all := front + [slot] + later;
    if |later| < max {
      rest := if |all| <= max then front else front[|all| - max..];
    } else {
      rest := later[..|later| - max];
      assert all[|all| - max..] == later[|later| - max..];
    }
  }

  /**
   A cache holds the latest record of a key exactly if fewer than `max` other
   keys have been ingested since, and nothing otherwise.
   */
  lemma FindExactly(before: seq<Slot>, slot: Slot, after: seq<Slot>, max: nat)
    requires Lacks(after, slot.key)
    ensures Find(Youngest(Latest(before + [slot] + after), max), slot.key)
         == if |Keys(after)| < max then Some(slot.record) else None
  {
    var later := Latest(after);
    var front := LatestAfter(before, slot, after);
    LatestKeys(after);
    LatestDistinct(after);
    DistinctCount(later);
    LacksIffNoKey(after, slot.key);
    LacksIffNoKey(later, slot.key);
    var rest := YoungestOfJoin(front, slot, later, max);
    if |later| < max {
      FindAfter(rest, slot, later);
    } else {
      FindNone(later[|rest|..], slot.key);
    }
  }

  /** Everything together: what a lookup finds after a run, in terms of the run's history alone. */
  lemma LookupExactly(
    lower: string -> string, max: nat, es: seq<Event>, name: string, binary: string, host: string, port: int, i: nat)
    requires var h, key := History(lower, es, Strip(name)), NormalKey(lower, binary, host, port);
      i < |h| && h[i].key == key && Lacks(h[i + 1..], key)
    ensures var h := History(lower, es, Strip(name));
      LookedUp(lower, Run(lower, max, es), name, binary, host, port)
      == if |Keys(h[i + 1..])| < max then Some(h[i].record) else None
  {
    var h := History(lower, es, Strip(name));
    CacheIsRecent(lower, max, es, Strip(name));
    FindAt(h, i, max);
  }

  lemma FindAt(h: seq<Slot>, i: nat, max: nat)
    requires i < |h| && Lacks(h[i + 1..], h[i].key)
    ensures Find(Youngest(Latest(h), max), h[i].key) == if |Keys(h[i + 1..])| < max then Some(h[i].record) else None
  {
    var before, slot, after := h[..i], h[i], h[i + 1..];
    FindExactly(before, slot, after, max);
    SplitAt(h, i);
  }

  lemma YoungestLacks(cache: seq<Slot>, key: Key, max: nat)
    requires Lacks(cache, key)
    ensures Lacks(Youngest(cache, max), key)
  {
  }

  /** A key never ingested since the last clear is not found. */
  lemma LookupMisses(
    lower: string -> string, max: nat, es: seq<Event>, name: string, binary: string, host: string, port: int)
    requires Lacks(History(lower, es, Strip(name)), NormalKey(lower, binary, host, port))
    ensures LookedUp(lower, Run(lower, max, es), name, binary, host, port) == None
  {
    var h, key := History(lower, es, Strip(name)), NormalKey(lower, binary, host, port);
    CacheIsRecent(lower, max, es, Strip(name));
    LatestKeys(h);
    LacksIffNoKey(h, key);
    LacksIffNoKey(Latest(h), key);
    YoungestLacks(Latest(h), key, max);
    FindNone(Youngest(Latest(h), max), key);
  }

  // ----- Matching chunks -------------------------------------------------

  /** What an endpoint of a chunk finds. */
  function FoundBy(
    lower: string -> string, caches: map<string, seq<Slot>>, name: string, binary: string, ep: Option<Endpoint>)
    : Option<Record>
  {
    if ep.None? || ep.value.host == "" then None
    else LookedUp(lower, caches, name, binary, ep.value.host, ep.value.port)
  }

  /** A chunk gets the record of its first endpoint that has one, and none only if no endpoint has. */
  lemma {:induction false} MatchedIsFirst(
    lower: string -> string, caches: map<string, seq<Slot>>, name: string, binary: string,
    endpoints: seq<Option<Endpoint>>)
    returns (n: nat)
    ensures n <= |endpoints| && forall i :: 0 <= i < n ==> FoundBy(lower, caches, name, binary, endpoints[i]).None?
    ensures var r := Matched(lower, caches, name, binary, endpoints);
      if n == |endpoints| then r.None? else r.Some? && r == FoundBy(lower, caches, name, binary, endpoints[n])
  {
    n := 0;
    if endpoints != [] && FoundBy(lower, caches, name, binary, endpoints[0]).None? {
      var m := MatchedIsFirst(lower, caches, name, binary, endpoints[1..]);
      assert forall i :: 1 <= i < m + 1 ==> endpoints[i] == endpoints[1..][i - 1];
      n := m + 1;
    }
  }

  // ----- Raw and stripped sandbox names ----------------------------------

  lemma SplitBehind(h: seq<Slot>, slots: seq<Slot>, i: nat)
    requires i < |slots|
    ensures h + slots == h + slots[..i] + [slots[i]] + slots[i + 1..]
  {
    assert slots == slots[..i] + [slots[i]] + slots[i + 1..];
  }

  lemma AfterIngest(
    lower: string -> string, max: nat, es: seq<Event>, name: string, nowMs: int, summaries: seq<Summary>)
    ensures var more := es + [Ingest(name, nowMs, summaries)];
      && Run(lower, max, more) == Ingested(lower, max, Run(lower, max, es), name, nowMs, summaries)
      && History(lower, more, name) == History(lower, es, name) + Batch(lower, summaries, nowMs)
  {
    assert (es + [Ingest(name, nowMs, summaries)])[..|es|] == es;
  }

  lemma FoundInLast(
    lower: string -> string, max: nat, es: seq<Event>, name: string, h: seq<Slot>, slots: seq<Slot>,
    binary: string, host: string, port: int, i: nat)
    requires Strip(name) == name && History(lower, es, name) == h + slots
    requires i < |slots| && slots[i].key == NormalKey(lower, binary, host, port) && Lacks(slots[i + 1..], slots[i].key)
    ensures LookedUp(lower, Run(lower, max, es), name, binary, host, port)
         == if |Keys(slots[i + 1..])| < max then Some(slots[i].record) else None
  {
    SplitBehind(h, slots, i);
    CacheIsRecent(lower, max, es, name);
    FindExactly(h + slots[..i], slots[i], slots[i + 1..], max);
  }

  /** The batch's entry is found under a stripped name. */
  lemma FoundIfStripped(
    lower: string -> string, max: nat, es: seq<Event>, name: string, nowMs: int, summaries: seq<Summary>,
    binary: string, host: string, port: int, i: nat)
    requires var slots, key := Batch(lower, summaries, nowMs), NormalKey(lower, binary, host, port);
      i < |slots| && slots[i].key == key && Lacks(slots[i + 1..], key)
    requires Strip(name) == name
    ensures var slots, more := Batch(lower, summaries, nowMs), es + [Ingest(name, nowMs, summaries)];
      LookedUp(lower, Run(lower, max, more), name, binary, host, port)
      == if |Keys(slots[i + 1..])| < max then Some(slots[i].record) else None
  {
    var more := es + [Ingest(name, nowMs, summaries)];
    AfterIngest(lower, max, es, name, nowMs, summaries);
    FoundInLast(lower, max, more, name, History(lower, es, name), Batch(lower, summaries, nowMs),
                binary, host, port, i);
  }

  /** Under any other name the batch changes no lookup. */
  lemma UnseenUnlessStripped(
    lower: string -> string, max: nat, es: seq<Event>, name: string, nowMs: int, summaries: seq<Summary>,
    binary: string, host: string, port: int)
    requires Strip(name) != name
    ensures LookedUp(lower, Run(lower, max, es + [Ingest(name, nowMs, summaries)]), name, binary, host, port)
         == LookedUp(lower, Run(lower, max, es), name, binary, host, port)
  {
    AfterIngest(lower, max, es, name, nowMs, summaries);
    IngestedAt(lower, max, Run(lower, max, es), name, nowMs, summaries, Strip(name));
  }

  /**
   Ingesting uses the sandbox name as given while looking up strips it. After
   any run and any batch, looking up an entry of the batch under the name it was
   ingested with gives that entry (if fewer than `max` other keys follow it in
   the batch) when the name has no surrounding white space, and otherwise what
   the lookup gave before.
   */
  lemma FoundUnderSameName(
    lower: string -> string, max: nat, es: seq<Event>, name: string, nowMs: int, summaries: seq<Summary>,
    binary: string, host: string, port: int, i: nat)
    requires var slots, key := Batch(lower, summaries, nowMs), NormalKey(lower, binary, host, port);
      i < |slots| && slots[i].key == key && Lacks(slots[i + 1..], key)
    ensures var slots, before := Batch(lower, summaries, nowMs), Run(lower, max, es);
      LookedUp(lower, Run(lower, max, es + [Ingest(name, nowMs, summaries)]), name, binary, host, port)
      == if Strip(name) != name then LookedUp(lower, before, name, binary, host, port)
         else if |Keys(slots[i + 1..])| < max then Some(slots[i].record)
         else None
  {
    if Strip(name) == name {
      FoundIfStripped(lower, max, es, name, nowMs, summaries, binary, host, port, i);
    } else {
      UnseenUnlessStripped(lower, max, es, name, nowMs, summaries, binary, host, port);
    }
  }
}
