/**
 Usage metering (`_poll_sandbox` and `_window_usage` in
 shoreguard/services/budgets.py) for one sandbox: a persisted cursor over the
 gateway's log and one usage row per day.
 */
module Metering {
  import opened Seqs
  import opened Wrappers

  /** A log line; `id` tells equal-looking lines of the gateway's log apart. */
  datatype Line = Line(id: nat, timestamp: int, source: string, target: string)

  datatype UsageRow = UsageRow(day: int, requests: nat)

  datatype Meter = Meter(cursor: Option<int>, usage: seq<UsageRow>)

  /** One poll: the clock, the day it is booked on, and the reply unless the gateway call raised. */
  datatype Poll = Poll(nowMs: int, day: int, reply: Option<seq<Line>>)

  // ----- Classification --------------------------------------------------

  /** Python's `part in text`. */
  predicate Contains(text: string, part: string)
  {
    part <= text || (text != [] && Contains(text[1..], part))
  }

  /** `_is_inference_line` on lower-cased fields. */
  predicate IsInference(sources: seq<string>, line: Line)
  {
    (exists i :: 0 <= i < |sources| && Contains(line.source, sources[i])) || Contains(line.target, "inference")
  }

  /** The part stands somewhere in the text. */
  ghost predicate Occurs(part: string, text: string)
  {
    exists i :: 0 <= i <= |text| - |part| && StandsAt(part, text, i)
  }

  predicate StandsAt(part: string, text: string, i: nat)
    requires i + |part| <= |text|
  {
    text[i..i + |part|] == part
  }

  lemma {:induction false} ContainsExactly(text: string, part: string)
    ensures Contains(text, part) <==> Occurs(part, text)
  {
    if part <= text {
      assert StandsAt(part, text, 0);
    } else if text != [] {
      var rest := text[1..];
      ContainsExactly(rest, part);
      if i :| 0 <= i <= |rest| - |part| && StandsAt(part, rest, i) {
        assert text[i + 1..i + 1 + |part|] == rest[i..i + |part|];
        assert StandsAt(part, text, i + 1);
      }
      if i :| 0 <= i <= |text| - |part| && StandsAt(part, text, i) {
        assert i > 0 by {
          assert text[..|part|] == part || i != 0;
        }
        assert rest[i - 1..i - 1 + |part|] == text[i..i + |part|];
        assert StandsAt(part, rest, i - 1);
      }
    }
  }

  /** A configured source stands in the line's source, or "inference" in its target. */
  ghost predicate Billable(sources: seq<string>, line: Line)
  {
    (exists i :: 0 <= i < |sources| && Occurs(sources[i], line.source)) || Occurs("inference", line.target)
  }

  lemma InferenceExactly(sources: seq<string>, line: Line)
    ensures IsInference(sources, line) <==> Billable(sources, line)
  {
    forall i | 0 <= i < |sources|
      ensures Contains(line.source, sources[i]) <==> Occurs(sources[i], line.source)
    {
      ContainsExactly(line.source, sources[i]);
    }
    ContainsExactly(line.target, "inference");
  }

  function Inference(sources: seq<string>, lines: seq<Line>): seq<Line>
  {
    if lines == [] then []
    else
      var front := Inference(sources, lines[..|lines| - 1]);
      if IsInference(sources, lines[|lines| - 1]) then front + [lines[|lines| - 1]] else front
  }

  // ----- Cursor and usage rows -------------------------------------------

  function Max(x: int, y: int): int
  {
    if x < y then y else x
  }

  /** `line.get("timestamp_ms") or since_ms`. */
  function Stamp(line: Line, since: int): int
  {
    if line.timestamp == 0 then since else line.timestamp
  }

  function MaxStamp(lines: seq<Line>, since: int): int
    requires lines != []
  {
    var last := Stamp(lines[|lines| - 1], since);
    if |lines| == 1 then last else Max(MaxStamp(lines[..|lines| - 1], since), last)
  }

  /** Adds to the day's row, or appends one. */
  function Book(usage: seq<UsageRow>, day: int, count: nat): seq<UsageRow>
  {
    if usage == [] then [UsageRow(day, count)]
    else if usage[0].day == day then [UsageRow(day, usage[0].requests + count)] + usage[1..]
    else [usage[0]] + Book(usage[1..], day, count)
  }

  /** `_window_usage`: the rows on or after the start day, or all of them. */
  function WindowUsage(usage: seq<UsageRow>, start: Option<int>): nat
  {
    if usage == [] then 0
    else (if start.None? || start.value <= usage[0].day then usage[0].requests else 0) + WindowUsage(usage[1..], start)
  }

  /** The lines a poll counts. */
  function PollLines(sources: seq<string>, m: Meter, p: Poll): seq<Line>
  {
    if m.cursor.None? || p.reply.None? then [] else Inference(sources, p.reply.value)
  }

  function PollNext(sources: seq<string>, m: Meter, p: Poll): Meter
  {
    if m.cursor.None? then m.(cursor := Some(p.nowMs))
    else if p.reply.None? || p.reply.value == [] then m
    else
      var since, count := m.cursor.value, |Inference(sources, p.reply.value)|;
      Meter(Some(Max(MaxStamp(p.reply.value, since), since) + 1),
            if count == 0 then m.usage else Book(m.usage, p.day, count))
  }

  function OnOrAfter(day: int): UsageRow -> bool
  {
    (r: UsageRow) => day <= r.day
  }

  function Requests(usage: seq<UsageRow>): nat
  {
    if usage == [] then 0 else Requests(usage[..|usage| - 1]) + usage[|usage| - 1].requests
  }

  lemma {:induction false} RequestsCons(row: UsageRow, usage: seq<UsageRow>)
    ensures Requests([row] + usage) == row.requests + Requests(usage)
  {
    var all := [row] + usage;
    if usage == [] {
      assert all[..0] == [] && Requests([]) == 0;
    } else {
      var n := |usage| - 1;
      RequestsCons(row, usage[..n]);
      assert all[..|all| - 1] == [row] + usage[..n];
    }
  }

  /** The requests of the rows on or after a day, or of all rows. */
  lemma {:induction false} WindowUsageSums(usage: seq<UsageRow>, day: int)
    ensures WindowUsage(usage, None) == Requests(usage)
    ensures WindowUsage(usage, Some(day)) == Requests(Filter(usage, OnOrAfter(day)))
  {
    if usage != [] {
      var row, rest := usage[0], usage[1..];
      assert usage == [row] + rest;
      WindowUsageSums(rest, day);
      FilterConcat([row], rest, OnOrAfter(day));
      assert [row][..0] == [] && Filter([row], OnOrAfter(day)) == if day <= row.day then [row] else [];
      RequestsCons(row, rest);
      RequestsCons(row, Filter(rest, OnOrAfter(day)));
      assert day > row.day ==> [] + Filter(rest, OnOrAfter(day)) == Filter(rest, OnOrAfter(day));
    }
  }

  // ----- The service -----------------------------------------------------

  class SandboxMeter {
    const sources: seq<string>
    var cursor: Option<int>
    var usage: seq<UsageRow>

    constructor (sources: seq<string>)
      ensures this.sources == sources && View() == Meter(None, [])
    {
      this.sources := sources;
      cursor, usage := None, [];
    }

    function View(): Meter
      reads this
    {
      Meter(cursor, usage)
    }

    method PollSandbox(p: Poll) returns (count: nat)
      modifies this`cursor, this`usage
      ensures View() == PollNext(sources, old(View()), p)
      ensures count == |PollLines(sources, old(View()), p)|
    {
      if cursor.None? {
        cursor := Some(p.nowMs);
        return 0;
      }
      var since := cursor.value;
      if p.reply.None? || p.reply.value == [] {
        return 0;
      }
      var maxTs;
      count, maxTs := CountLines(p.reply.value, since);
      cursor := Some(Max(maxTs, since) + 1);
      if count > 0 {
        BookUsage(p.day, count);
      }
    }

    /** The sum and the maximum over the reply. */
    method CountLines(logs: seq<Line>, since: int) returns (count: nat, maxTs: int)
      requires logs != []
      ensures count == |Inference(sources, logs)| && maxTs == MaxStamp(logs, since)
    {
      count, maxTs := 0, Stamp(logs[0], since);
      for i := 0 to |logs|
        invariant count == |Inference(sources, logs[..i])|
        invariant maxTs == if i == 0 then Stamp(logs[0], since) else MaxStamp(logs[..i], since)
      {
        assert logs[..i + 1][..i] == logs[..i];
        if IsInference(sources, logs[i]) {
          count := count + 1;
        }
        maxTs := Max(maxTs, Stamp(logs[i], since));
      }
      assert logs[..|logs|] == logs;
    }

    /** Finds the day's row and updates it, or inserts one. */
    method BookUsage(day: int, count: nat)
      modifies this`usage
      ensures usage == Book(old(usage), day, count)
    {
      var n := 0;
      while n < |usage| && usage[n].day != day
        invariant 0 <= n <= |usage|
        invariant forall i :: 0 <= i < n ==> usage[i].day != day
      {
        n := n + 1;
      }
      BookAt(usage, day, count, n);
      if n == |usage| {
        usage := usage + [UsageRow(day, count)];
      } else {
        usage := usage[n := UsageRow(day, usage[n].requests + count)];
      }
    }
  }

  /** Booking changes the first row of the day, or appends one. */
  lemma {:induction false} BookAt(usage: seq<UsageRow>, day: int, count: nat, n: nat)
    requires n <= |usage| && forall i :: 0 <= i < n ==> usage[i].day != day
    requires n < |usage| ==> usage[n].day == day
    ensures Book(usage, day, count)
         == if n == |usage| then usage + [UsageRow(day, count)]
            else usage[n := UsageRow(day, usage[n].requests + count)]
  {
    if n > 0 {
      BookAt(usage[1..], day, count, n - 1);
    }
  }

  // ----- Runs ------------------------------------------------------------

  function Run(sources: seq<string>, m: Meter, polls: seq<Poll>): Meter
    decreases |polls|
  {
    if polls == [] then m else Run(sources, PollNext(sources, m, polls[0]), polls[1..])
  }

  /** A counted line and the day it was booked on. */
  datatype Count = Count(line: Line, day: int)

  function Tag(lines: seq<Line>, day: int): seq<Count>
  {
    seq(|lines|, i requires 0 <= i < |lines| => Count(lines[i], day))
  }

  /** Every line counted in a run, in order. */
  function Counted(sources: seq<string>, m: Meter, polls: seq<Poll>): seq<Count>
    decreases |polls|
  {
    if polls == [] then []
    else
      Tag(PollLines(sources, m, polls[0]), polls[0].day)
      + Counted(sources, PollNext(sources, m, polls[0]), polls[1..])
  }

  /** What `get_logs` promises: different lines, stamped positively and at or after the cursor. */
  predicate Fair(m: Meter, p: Poll)
  {
    m.cursor.Some? && p.reply.Some? ==>
      && (forall i :: 0 <= i < |p.reply.value| ==> 0 < p.reply.value[i].timestamp)
      && (forall i :: 0 <= i < |p.reply.value| ==> m.cursor.value <= p.reply.value[i].timestamp)
      && (forall i, j :: 0 <= i < j < |p.reply.value| ==> p.reply.value[i] != p.reply.value[j])
  }

  predicate FairRun(sources: seq<string>, m: Meter, polls: seq<Poll>)
    decreases |polls|
  {
    polls == [] || (Fair(m, polls[0]) && FairRun(sources, PollNext(sources, m, polls[0]), polls[1..]))
  }

  lemma {:induction false} MaxStampIsMax(lines: seq<Line>, since: int)
    requires lines != []
    ensures forall i :: 0 <= i < |lines| ==> Stamp(lines[i], since) <= MaxStamp(lines, since)
  {
    if |lines| > 1 {
      MaxStampIsMax(lines[..|lines| - 1], since);
    }
  }

  lemma {:induction false} InferenceMembers(sources: seq<string>, lines: seq<Line>)
    ensures forall l :: l in Inference(sources, lines) <==> l in lines && IsInference(sources, l)
  {
    if lines != [] {
      InferenceMembers(sources, lines[..|lines| - 1]);
      assert lines == lines[..|lines| - 1] + [lines[|lines| - 1]];
    }
  }

  predicate Distinct(lines: seq<Line>)
  {
    forall i, j :: 0 <= i < j < |lines| ==> lines[i] != lines[j]
  }

  lemma {:induction false} InferenceDistinct(sources: seq<string>, lines: seq<Line>)
    requires Distinct(lines)
    ensures Distinct(Inference(sources, lines))
  {
    if lines != [] {
      var n := |lines| - 1;
      var front := Inference(sources, lines[..n]);
      InferenceDistinct(sources, lines[..n]);
      InferenceMembers(sources, lines[..n]);
      forall i | 0 <= i < |front|
        ensures front[i] != lines[n]
      {
        assert front[i] in lines[..n];
      }
    }
  }

  /** The cursor never moves back, and passes every line of a non-empty reply. */
  lemma CursorPasses(sources: seq<string>, m: Meter, p: Poll)
    requires m.cursor.Some? && Fair(m, p)
    ensures var c := PollNext(sources, m, p).cursor;
      && c.Some? && m.cursor.value <= c.value
      && (p.reply.Some? && p.reply.value != [] ==> m.cursor.value < c.value)
      && (p.reply.Some? ==> forall i :: 0 <= i < |p.reply.value| ==> p.reply.value[i].timestamp < c.value)
  {
    if p.reply.Some? && p.reply.value != [] {
      MaxStampIsMax(p.reply.value, m.cursor.value);
    }
  }

  lemma {:induction false} MaxStampIsOne(lines: seq<Line>, since: int)
    requires lines != []
    ensures exists i :: 0 <= i < |lines| && MaxStamp(lines, since) == Stamp(lines[i], since)
  {
    var n := |lines| - 1;
    if n > 0 && Stamp(lines[n], since) < MaxStamp(lines[..n], since) {
      MaxStampIsOne(lines[..n], since);
      var i :| 0 <= i < n && MaxStamp(lines[..n], since) == Stamp(lines[..n][i], since);
      assert MaxStamp(lines, since) == Stamp(lines[i], since);
    } else {
      assert MaxStamp(lines, since) == Stamp(lines[n], since);
    }
  }

  /**
   Where a poll leaves the cursor: at the clock on first sight, where it was
   without a reply, and otherwise right after the newest line (a line without
   stamp counts as being at the cursor).
   */
  lemma CursorExactly(sources: seq<string>, m: Meter, p: Poll)
    ensures var t := PollNext(sources, m, p);
      && (m.cursor.None? ==> t == Meter(Some(p.nowMs), m.usage))
      && (m.cursor.Some? && (p.reply.None? || p.reply.value == []) ==> t == m)
      && (m.cursor.Some? && p.reply.Some? && p.reply.value != [] ==>
            && t.cursor.Some? && m.cursor.value < t.cursor.value
            && (forall i :: 0 <= i < |p.reply.value| && p.reply.value[i].timestamp != 0 ==>
                  p.reply.value[i].timestamp < t.cursor.value)
            && (t.cursor.value == m.cursor.value + 1
                || exists i :: 0 <= i < |p.reply.value| && p.reply.value[i].timestamp + 1 == t.cursor.value))
  {
    if m.cursor.Some? && p.reply.Some? && p.reply.value != [] {
      MaxStampIsMax(p.reply.value, m.cursor.value);
      MaxStampIsOne(p.reply.value, m.cursor.value);
      var i :| 0 <= i < |p.reply.value|
               && MaxStamp(p.reply.value, m.cursor.value) == Stamp(p.reply.value[i], m.cursor.value);
    }
  }

  lemma PolledLines(sources: seq<string>, m: Meter, p: Poll)
    requires Fair(m, p)
    ensures Distinct(PollLines(sources, m, p))
    ensures m.cursor.Some? ==> forall i :: 0 <= i < |PollLines(sources, m, p)| ==>
      m.cursor.value <= PollLines(sources, m, p)[i].timestamp < PollNext(sources, m, p).cursor.value
  {
    var lines := PollLines(sources, m, p);
    if m.cursor.Some? && p.reply.Some? {
      InferenceDistinct(sources, p.reply.value);
      InferenceMembers(sources, p.reply.value);
      CursorPasses(sources, m, p);
      forall i | 0 <= i < |lines|
        ensures m.cursor.value <= lines[i].timestamp < PollNext(sources, m, p).cursor.value
      {
        assert lines[i] in p.reply.value;
      }
    }
  }

  /** Nothing stamped before the cursor is ever counted again. */
  lemma {:induction false} CountedAfterCursor(sources: seq<string>, m: Meter, polls: seq<Poll>)
    requires m.cursor.Some? && FairRun(sources, m, polls)
    ensures forall i :: 0 <= i < |Counted(sources, m, polls)| ==>
      m.cursor.value <= Counted(sources, m, polls)[i].line.timestamp
    decreases |polls|
  {
    if polls != [] {
      CursorPasses(sources, m, polls[0]);
      PolledLines(sources, m, polls[0]);
      CountedAfterCursor(sources, PollNext(sources, m, polls[0]), polls[1..]);
    }
  }

  /** Never bill history: nothing older than the first sight of the sandbox is counted. */
  lemma CountingStartsAtFirstSight(sources: seq<string>, m: Meter, polls: seq<Poll>)
    requires m.cursor.None? && polls != [] && FairRun(sources, m, polls)
    ensures forall i :: 0 <= i < |Counted(sources, m, polls)| ==>
      polls[0].nowMs <= Counted(sources, m, polls)[i].line.timestamp
  {
    CountedAfterCursor(sources, PollNext(sources, m, polls[0]), polls[1..]);
  }

  predicate NoneTwice(counts: seq<Count>)
  {
    forall i, j :: 0 <= i < j < |counts| ==> counts[i].line != counts[j].line
  }

  lemma JoinCounts(lines: seq<Line>, day: int, rest: seq<Count>, cursor: int)
    requires Distinct(lines) && NoneTwice(rest)
    requires forall i :: 0 <= i < |lines| ==> lines[i].timestamp < cursor
    requires forall i :: 0 <= i < |rest| ==> cursor <= rest[i].line.timestamp
    ensures NoneTwice(Tag(lines, day) + rest)
  {
  }

  /** No line is counted twice, whatever the replies overlap or leave out. */
  lemma {:induction false} CountedAtMostOnce(sources: seq<string>, m: Meter, polls: seq<Poll>)
    requires FairRun(sources, m, polls)
    ensures NoneTwice(Counted(sources, m, polls))
    decreases |polls|
  {
    if polls != [] {
      var next := PollNext(sources, m, polls[0]);
      CountedAtMostOnce(sources, next, polls[1..]);
      if m.cursor.Some? {
        CursorPasses(sources, m, polls[0]);
        PolledLines(sources, m, polls[0]);
        CountedAfterCursor(sources, next, polls[1..]);
        var lines, rest := PollLines(sources, m, polls[0]), Counted(sources, next, polls[1..]);
        JoinCounts(lines, polls[0].day, rest, next.cursor.value);
      }
    }
  }

  // ----- Usage rows add up -----------------------------------------------

  /** Counted lines booked on or after a day. */
  function InWindow(counts: seq<Count>, start: Option<int>): nat
  {
    if counts == [] then 0
    else (if start.None? || start.value <= counts[0].day then 1 else 0) + InWindow(counts[1..], start)
  }

  lemma {:induction false} InWindowConcat(a: seq<Count>, b: seq<Count>, start: Option<int>)
    ensures InWindow(a + b, start) == InWindow(a, start) + InWindow(b, start)
  {
    if a == [] {
      assert a + b == b;
    } else {
      InWindowConcat(a[1..], b, start);
      assert (a + b)[1..] == a[1..] + b;
    }
  }

  lemma {:induction false} InWindowOfTag(lines: seq<Line>, day: int, start: Option<int>)
    ensures InWindow(Tag(lines, day), start) == if start.None? || start.value <= day then |lines| else 0
  {
    if lines != [] {
      InWindowOfTag(lines[1..], day, start);
      assert Tag(lines, day)[1..] == Tag(lines[1..], day);
    }
  }

  lemma {:induction false} BookAdds(usage: seq<UsageRow>, day: int, count: nat, start: Option<int>)
    ensures WindowUsage(Book(usage, day, count), start)
         == WindowUsage(usage, start) + if start.None? || start.value <= day then count else 0
  {
    if usage != [] {
      BookAdds(usage[1..], day, count, start);
      var booked := Book(usage, day, count);
      if usage[0].day == day {
        assert booked[1..] == usage[1..];
      } else {
        assert booked[1..] == Book(usage[1..], day, count);
      }
    }
  }

  /** For every window, the usage rows sum to exactly the lines counted in it. */
  lemma {:induction false} UsageMatchesCounted(sources: seq<string>, m: Meter, polls: seq<Poll>, start: Option<int>)
    ensures WindowUsage(Run(sources, m, polls).usage, start)
         == WindowUsage(m.usage, start) + InWindow(Counted(sources, m, polls), start)
    decreases |polls|
  {
    if polls != [] {
      var lines := PollLines(sources, m, polls[0]);
      UsageMatchesCounted(sources, PollNext(sources, m, polls[0]), polls[1..], start);
      InWindowConcat(Tag(lines, polls[0].day), Counted(sources, PollNext(sources, m, polls[0]), polls[1..]), start);
      InWindowOfTag(lines, polls[0].day, start);
      BookAdds(m.usage, polls[0].day, |lines|, start);
    }
  }

  function BookedFrom(day: int): Count -> bool
  {
    (c: Count) => day <= c.day
  }

  lemma {:induction false} InWindowCounts(counts: seq<Count>, day: int)
    ensures InWindow(counts, None) == |counts|
    ensures InWindow(counts, Some(day)) == |Filter(counts, BookedFrom(day))|
  {
    if counts != [] {
      var first, rest := counts[0], counts[1..];
      assert counts == [first] + rest;
      InWindowCounts(rest, day);
      FilterConcat([first], rest, BookedFrom(day));
      assert [first][..0] == [] && |Filter([first], BookedFrom(day))| == if day <= first.day then 1 else 0;
    }
  }

  /** The usage of a sandbox from a day on is the number of lines booked since then; without a day, of all. */
  lemma UsageCountsLines(sources: seq<string>, polls: seq<Poll>, day: int)
    ensures var usage, counts := Run(sources, Meter(None, []), polls).usage, Counted(sources, Meter(None, []), polls);
      && Requests(usage) == |counts|
      && Requests(Filter(usage, OnOrAfter(day))) == |Filter(counts, BookedFrom(day))|
  {
    var m := Meter(None, []);
    UsageMatchesCounted(sources, m, polls, None);
    UsageMatchesCounted(sources, m, polls, Some(day));
    WindowUsageSums(Run(sources, m, polls).usage, day);
    InWindowCounts(Counted(sources, m, polls), day);
  }

  // ----- Exactly once ----------------------------------------------------

  /**
   Complete replies over a growing log: each poll sees every line at or after
   the cursor, and no line shows up behind the cursor afterwards.
   */
  ghost predicate CompleteRun(sources: seq<string>, m: Meter, log: set<Line>, polls: seq<Poll>, logs: seq<set<Line>>)
    requires m.cursor.Some? && |logs| == |polls|
    decreases |polls|
  {
    polls == [] ||
    (&& log <= logs[0]
     && (forall l :: l in logs[0] && l !in log ==> m.cursor.value <= l.timestamp)
     && polls[0].reply.Some?
     && (forall l :: l in polls[0].reply.value <==> l in logs[0] && m.cursor.value <= l.timestamp)
     && PollNext(sources, m, polls[0]).cursor.Some?
     && CompleteRun(sources, PollNext(sources, m, polls[0]), logs[0], polls[1..], logs[1..]))
  }

  function FinalLog(log: set<Line>, logs: seq<set<Line>>): set<Line>
  {
    if logs == [] then log else logs[|logs| - 1]
  }

  ghost predicate WasCounted(counts: seq<Count>, l: Line)
  {
    exists i :: 0 <= i < |counts| && counts[i].line == l
  }

  lemma CountedSplits(lines: seq<Line>, day: int, rest: seq<Count>, l: Line)
    ensures WasCounted(Tag(lines, day) + rest, l) <==> l in lines || WasCounted(rest, l)
  {
    var all := Tag(lines, day) + rest;
    if l in lines {
      var i :| 0 <= i < |lines| && lines[i] == l;
      assert all[i].line == l;
    }
    if WasCounted(rest, l) {
      var i :| 0 <= i < |rest| && rest[i].line == l;
      assert all[|lines| + i].line == l;
    }
    if WasCounted(all, l) {
      var i :| 0 <= i < |all| && all[i].line == l;
      assert i < |lines| ==> lines[i] == l;
      assert i >= |lines| ==> rest[i - |lines|].line == l;
    }
  }

  /**
   If no reply is truncated and no line arrives behind the cursor, then exactly
   the inference lines stamped at or after the starting cursor are counted
   (each once, by `CountedAtMostOnce`).
   */
  lemma {:induction false} CountedExactly(
    sources: seq<string>, m: Meter, log: set<Line>, polls: seq<Poll>, logs: seq<set<Line>>, l: Line)
    requires m.cursor.Some? && |logs| == |polls| && FairRun(sources, m, polls)
    requires CompleteRun(sources, m, log, polls, logs)
    requires polls == [] ==> forall x :: x in log ==> x.timestamp < m.cursor.value
    ensures WasCounted(Counted(sources, m, polls), l)
       <==> l in FinalLog(log, logs) && Billable(sources, l) && m.cursor.value <= l.timestamp
    decreases |polls|
  {
    InferenceExactly(sources, l);
    if polls == [] {
      assert !WasCounted([], l);
    } else {
      var p, next := polls[0], PollNext(sources, m, polls[0]);
      CursorPasses(sources, m, p);
      InferenceMembers(sources, p.reply.value);
      CountedSplits(PollLines(sources, m, p), p.day, Counted(sources, next, polls[1..]), l);
      BehindNewCursor(m, log, p.reply.value, logs[0], next.cursor.value);
      CountedExactly(sources, next, logs[0], polls[1..], logs[1..], l);
      LogGrows(sources, next, logs[0], polls[1..], logs[1..]);
    }
  }

  lemma BehindNewCursor(m: Meter, log: set<Line>, reply: seq<Line>, log': set<Line>, cursor': int)
    requires m.cursor.Some? && m.cursor.value <= cursor'
    requires forall l :: l in reply <==> l in log' && m.cursor.value <= l.timestamp
    requires forall i :: 0 <= i < |reply| ==> reply[i].timestamp < cursor'
    ensures forall l :: l in log' ==> l.timestamp < cursor'
  {
  }

  /** Lines that appear later are stamped at or after the cursor of the time. */
  lemma {:induction false} LogGrows(
    sources: seq<string>, m: Meter, log: set<Line>, polls: seq<Poll>, logs: seq<set<Line>>)
    requires m.cursor.Some? && |logs| == |polls| && FairRun(sources, m, polls)
    requires CompleteRun(sources, m, log, polls, logs)
    ensures log <= FinalLog(log, logs)
    ensures forall l :: l in FinalLog(log, logs) && l !in log ==> m.cursor.value <= l.timestamp
    decreases |polls|
  {
    if polls != [] {
      CursorPasses(sources, m, polls[0]);
      LogGrows(sources, PollNext(sources, m, polls[0]), logs[0], polls[1..], logs[1..]);
      assert FinalLog(log, logs) == FinalLog(logs[0], logs[1..]);
    }
  }
}
