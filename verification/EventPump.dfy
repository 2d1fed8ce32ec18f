/**
 The live event stream of one WebSocket client (`sandbox_events` in
 shoreguard/api/websocket.py): a producer task and a consumer loop that share a
 bounded queue. Each step is what runs between two awaits, so any order of
 enabled steps is a possible run.
 */
module EventPump {
  import opened Wrappers

  datatype Config = Config(maxsize: int, dropLimit: int)

  /** What is sent to the browser: an upstream event or the final error message. */
  datatype Frame<E> = Upstream(event: E) | StreamError(detail: string)

  /** A queued frame, or the sentinel that ends the stream. */
  type Item<E> = Option<Frame<E>>

  /** An upstream event and whether it fitted into the queue. */
  datatype Arrival<E> = Arrival(event: E, accepted: bool)

  datatype Producer = Streaming | Done

  /**
   `Waiting` is inside `queue.get()`, which suspends only if it found the queue
   empty: only then can the wait time out. `Closed` is the normal end; `Broken`
   is a send that raised, with the frame it lost.
   */
  datatype Consumer<E> = Waiting(suspended: bool) | Sending(frame: Frame<E>) | Closed | Broken(lost: Option<Frame<E>>)

  /** `seen`, `error` and `sent` record the history: arrivals, the queued error, deliveries. */
  datatype Pump<E> = Pump(
    queue: seq<Item<E>>,
    dropCount: nat,
    consecutiveDrops: nat,
    producer: Producer,
    consumer: Consumer<E>,
    seen: seq<Arrival<E>>,
    error: Option<Frame<E>>,
    sent: seq<Frame<E>>)

  datatype Beat = Quiet | Delivered | Failed

  datatype Step<E> =
    | Produce(event: E)
    | EndOfStream
    | StreamFails(detail: string)
    | Take
    | Sent
    | SendFails
    | Timeout(beat: Beat)
    | Cancel

  function Start<E>(): Pump<E>
  {
    Pump([], 0, 0, Streaming, Waiting(true), [], None, [])
  }

  /** `asyncio.Queue.full`: a size of zero or less is unbounded. */
  predicate Full<E>(cfg: Config, queue: seq<Item<E>>)
  {
    0 < cfg.maxsize <= |queue|
  }

  /** `put_nowait` under `suppress(QueueFull)`. */
  function TryPut<E>(cfg: Config, queue: seq<Item<E>>, item: Item<E>): seq<Item<E>>
  {
    if Full(cfg, queue) then queue else queue + [item]
  }

  /** The producer's `finally`: offer the sentinel, which may not fit. */
  function Finish<E>(cfg: Config, s: Pump<E>): Pump<E>
  {
    s.(queue := TryPut(cfg, s.queue, None), producer := Done)
  }

  predicate Ended<E>(s: Pump<E>)
  {
    s.consumer.Closed? || s.consumer.Broken?
  }

  predicate Enabled<E>(s: Pump<E>, step: Step<E>)
  {
    match step
    case Produce(_) => s.producer == Streaming
    case EndOfStream => s.producer == Streaming
    case StreamFails(_) => s.producer == Streaming
    case Take => s.consumer.Waiting? && s.queue != []
    case Sent => s.consumer.Sending?
    case SendFails => s.consumer.Sending?
    case Timeout(_) => s.consumer.Waiting? && s.consumer.suspended
    case Cancel => Ended(s) && s.producer == Streaming
  }

  function Next<E>(cfg: Config, s: Pump<E>, step: Step<E>): Pump<E>
    requires Enabled(s, step)
  {
    match step
    case Produce(event) =>
      if Full(cfg, s.queue) then
        var dropped := s.(dropCount := s.dropCount + 1,
                          consecutiveDrops := s.consecutiveDrops + 1,
                          seen := s.seen + [Arrival(event, false)]);
        if dropped.consecutiveDrops >= cfg.dropLimit then Finish(cfg, dropped) else dropped
      else
        s.(queue := s.queue + [Some(Upstream(event))],
           consecutiveDrops := 0,
           seen := s.seen + [Arrival(event, true)])
    case EndOfStream => Finish(cfg, s)
    case StreamFails(detail) =>
      var frame := StreamError(detail);
      Finish(cfg, s.(queue := TryPut(cfg, s.queue, Some(frame)),
                     error := if Full(cfg, s.queue) then None else Some(frame)))
    case Take =>
      var rest := s.(queue := s.queue[1..]);
      if s.queue[0].None? then rest.(consumer := Closed) else rest.(consumer := Sending(s.queue[0].value))
    case Sent => s.(consumer := Waiting(s.queue == []), sent := s.sent + [s.consumer.frame])
    case SendFails => s.(consumer := Broken(Some(s.consumer.frame)))
    case Timeout(beat) =>
      if s.producer == Done && s.queue == [] then s.(consumer := Closed)
      else if beat == Failed then s.(consumer := Broken(None))
      else s.(consumer := Waiting(s.queue == []))
    case Cancel => Finish(cfg, s)
  }

  // ----- The producer and the consumer -----------------------------------

  class SandboxEvents<E(==)> {
    const cfg: Config
    var queue: seq<Item<E>>
    var dropCount: nat
    var consecutiveDrops: nat
    var producer: Producer
    var consumer: Consumer<E>
    ghost var seen: seq<Arrival<E>>
    ghost var error: Option<Frame<E>>
    ghost var sent: seq<Frame<E>>

    constructor (cfg: Config)
      ensures this.cfg == cfg && View() == Start()
    {
      this.cfg := cfg;
      queue, dropCount, consecutiveDrops, producer, consumer := [], 0, 0, Streaming, Waiting(true);
      seen, error, sent := [], None, [];
    }

    ghost function View(): Pump<E>
      reads this
    {
      Pump(queue, dropCount, consecutiveDrops, producer, consumer, seen, error, sent)
    }

    predicate IsFull()
      reads this
    {
      0 < cfg.maxsize <= |queue|
    }

    /** The `finally` block of the producer. */
    method OfferSentinel()
      modifies this
      ensures View() == Finish(cfg, old(View()))
    {
      if !IsFull() {
        queue := queue + [None];
      }
      producer := Done;
    }

    /** One iteration of the producer's `async for`. */
    method OnEvent(event: E)
      requires Enabled(View(), Produce(event))
      modifies this
      ensures View() == Next(cfg, old(View()), Produce(event))
    {
      if IsFull() {
        dropCount := dropCount + 1;
        consecutiveDrops := consecutiveDrops + 1;
        seen := seen + [Arrival(event, false)];
        if consecutiveDrops >= cfg.dropLimit {
          OfferSentinel();
        }
      } else {
        queue := queue + [Some(Upstream(event))];
        consecutiveDrops := 0;
        seen := seen + [Arrival(event, true)];
      }
    }

    /** The producer's `except grpc.RpcError`. */
    method OnStreamError(detail: string)
      requires Enabled(View(), StreamFails(detail))
      modifies this
      ensures View() == Next(cfg, old(View()), StreamFails(detail))
    {
      error := None;
      if !IsFull() {
        queue := queue + [Some(StreamError(detail))];
        error := Some(StreamError(detail));
      }
      OfferSentinel();
    }

    /** The consumer's `queue.get()` returns. */
    method OnItem()
      requires Enabled(View(), Take)
      modifies this
      ensures View() == Next(cfg, old(View()), Take)
    {
      var item := queue[0];
      queue := queue[1..];
      if item.None? {
        consumer := Closed;
      } else {
        consumer := Sending(item.value);
      }
    }

    /** The consumer's `wait_for` times out. */
    method OnTimeout(beat: Beat)
      requires Enabled(View(), Timeout(beat))
      modifies this
      ensures View() == Next(cfg, old(View()), Timeout(beat))
    {
      if producer == Done && queue == [] {
        consumer := Closed;
      } else if beat == Failed {
        consumer := Broken(None);
      } else {
        consumer := Waiting(queue == []);
      }
    }

    /** `send_json` returns or raises. */
    method OnSendResult(ok: bool)
      requires Enabled(View(), Sent)
      modifies this
      ensures View() == Next(cfg, old(View()), if ok then Sent else SendFails)
    {
      if ok {
        sent := sent + [consumer.frame];
        consumer := Waiting(queue == []);
      } else {
        consumer := Broken(Some(consumer.frame));
      }
    }
  }

  // ----- Invariant -------------------------------------------------------

  function Accepted<E>(seen: seq<Arrival<E>>): seq<Frame<E>>
  {
    if seen == [] then []
    else
      var last := seen[|seen| - 1];
      Accepted(seen[..|seen| - 1]) + (if last.accepted then [Upstream(last.event)] else [])
  }

  lemma AcceptedSnoc<E>(seen: seq<Arrival<E>>, a: Arrival<E>)
    ensures Accepted(seen + [a]) == Accepted(seen) + (if a.accepted then [Upstream(a.event)] else [])
  {
  }

  function Frames<E>(queue: seq<Item<E>>): seq<Frame<E>>
  {
    if queue == [] then []
    else (if queue[0].Some? then [queue[0].value] else []) + Frames(queue[1..])
  }

  lemma {:induction false} FramesSnoc<E>(queue: seq<Item<E>>, item: Item<E>)
    ensures Frames(queue + [item]) == Frames(queue) + (if item.Some? then [item.value] else [])
  {
    if queue == [] {
      assert queue + [item] == [item];
    } else {
      FramesSnoc(queue[1..], item);
      assert (queue + [item])[1..] == queue[1..] + [item];
    }
  }

  /** Taken from the queue but not delivered. */
  function InHand<E>(c: Consumer<E>): seq<Frame<E>>
  {
    match c
    case Sending(frame) => [frame]
    case Broken(Some(frame)) => [frame]
    case _ => []
  }

  function AsSeq<T>(o: Option<T>): seq<T>
  {
    if o.Some? then [o.value] else []
  }

  /** Drops at the end of the history. */
  function TrailingDrops<E>(seen: seq<Arrival<E>>): nat
  {
    if seen == [] || seen[|seen| - 1].accepted then 0 else 1 + TrailingDrops(seen[..|seen| - 1])
  }

  /** A limit below one still lets the first drop happen. */
  function DropBound(cfg: Config): nat
  {
    if cfg.dropLimit < 1 then 1 else cfg.dropLimit
  }

  /** At no point of the history have more than `bound` events in a row been dropped. */
  ghost predicate DropsBounded<E>(seen: seq<Arrival<E>>, bound: nat)
  {
    forall n :: 0 <= n <= |seen| ==> TrailingDrops(seen[..n]) <= bound
  }

  /** Delivered, in hand, and still queued. */
  function Outgoing<E>(s: Pump<E>): seq<Frame<E>>
  {
    s.sent + InHand(s.consumer) + Frames(s.queue)
  }

  lemma QueueingExtends<E>(s: Pump<E>, frame: Frame<E>)
    ensures Outgoing(s.(queue := s.queue + [Some(frame)])) == Outgoing(s) + [frame]
  {
    FramesSnoc(s.queue, Some(frame));
  }

  /** Nothing is lost, invented or reordered between upstream and browser. */
  ghost predicate Conserved<E>(s: Pump<E>)
  {
    && Outgoing(s) == Accepted(s.seen) + AsSeq(s.error)
    && |s.seen| == |Accepted(s.seen)| + s.dropCount
  }

  /** The sentinel is the queue's last item, offered once by a producer that is done. */
  predicate SentinelLast<E>(s: Pump<E>)
  {
    forall i :: 0 <= i < |s.queue| && s.queue[i].None? ==> i == |s.queue| - 1 && s.producer == Done
  }

  ghost predicate Inv<E>(cfg: Config, s: Pump<E>)
  {
    && Conserved(s)
    && SentinelLast(s)
    && (0 < cfg.maxsize ==> |s.queue| <= cfg.maxsize)
    && s.consecutiveDrops == TrailingDrops(s.seen)
    && DropsBounded(s.seen, DropBound(cfg))
    && (s.producer == Streaming ==> s.error.None? && s.consecutiveDrops < DropBound(cfg))
    && (s.consumer.Closed? ==> s.producer == Done && s.queue == [])
    && (s.consumer.Waiting? && s.queue == [] ==> s.consumer.suspended)
    && (s.error.Some? ==> s.error.value.StreamError?)
  }

  lemma TrailingSnoc<E>(seen: seq<Arrival<E>>, a: Arrival<E>, bound: nat)
    requires DropsBounded(seen, bound)
    requires !a.accepted ==> TrailingDrops(seen) < bound
    ensures TrailingDrops(seen + [a]) == if a.accepted then 0 else 1 + TrailingDrops(seen)
    ensures DropsBounded(seen + [a], bound)
  {
    var more := seen + [a];
    assert more[..|seen|] == seen;
    forall n | 0 <= n <= |more|
      ensures TrailingDrops(more[..n]) <= bound
    {
      if n <= |seen| {
        assert more[..n] == seen[..n];
      } else {
        assert more[..n] == more;
      }
    }
  }

  lemma FinishKeepsInv<E>(cfg: Config, s: Pump<E>)
    requires s.producer == Streaming ==> !s.consumer.Closed?
    requires Inv(cfg, s.(producer := Done))
    requires forall i :: 0 <= i < |s.queue| ==> s.queue[i].Some?
    requires !s.consumer.Closed?
    ensures Inv(cfg, Finish(cfg, s))
  {
    FramesSnoc(s.queue, None);
  }

  lemma DropKeepsInv<E>(cfg: Config, s: Pump<E>, event: E)
    requires Inv(cfg, s) && s.producer == Streaming
    ensures Inv(cfg, s.(dropCount := s.dropCount + 1,
                        consecutiveDrops := s.consecutiveDrops + 1,
                        seen := s.seen + [Arrival(event, false)],
                        producer := Done))
  {
    AcceptedSnoc(s.seen, Arrival(event, false));
    TrailingSnoc(s.seen, Arrival(event, false), DropBound(cfg));
  }

  lemma AcceptKeepsInv<E>(cfg: Config, s: Pump<E>, event: E)
    requires Inv(cfg, s) && s.producer == Streaming && !Full(cfg, s.queue)
    ensures Inv(cfg, s.(queue := s.queue + [Some(Upstream(event))],
                        consecutiveDrops := 0,
                        seen := s.seen + [Arrival(event, true)]))
  {
    var t := s.(queue := s.queue + [Some(Upstream(event))],
                consecutiveDrops := 0,
                seen := s.seen + [Arrival(event, true)]);
    AcceptedSnoc(s.seen, Arrival(event, true));
    TrailingSnoc(s.seen, Arrival(event, true), DropBound(cfg));
    QueueingExtends(s, Upstream(event));
    assert Outgoing(t) == Outgoing(s) + [Upstream(event)];
    assert Conserved(t);
  }

  lemma ProduceKeepsInv<E>(cfg: Config, s: Pump<E>, event: E)
    requires Inv(cfg, s) && s.producer == Streaming
    ensures Inv(cfg, Next(cfg, s, Produce(event)))
  {
    if Full(cfg, s.queue) {
      DropKeepsInv(cfg, s, event);
      var dropped := s.(dropCount := s.dropCount + 1,
                        consecutiveDrops := s.consecutiveDrops + 1,
                        seen := s.seen + [Arrival(event, false)]);
      if dropped.consecutiveDrops >= cfg.dropLimit {
        FinishKeepsInv(cfg, dropped);
      }
    } else {
      AcceptKeepsInv(cfg, s, event);
    }
  }

  lemma FailureKeepsInv<E>(cfg: Config, s: Pump<E>, detail: string)
    requires Inv(cfg, s) && s.producer == Streaming
    ensures Inv(cfg, Next(cfg, s, StreamFails(detail)))
  {
    var frame := StreamError(detail);
    QueueingExtends(s, frame);
    FinishKeepsInv(cfg, s.(queue := TryPut(cfg, s.queue, Some(frame)),
                           error := if Full(cfg, s.queue) then None else Some(frame)));
  }

  lemma ConsumerKeepsInv<E>(cfg: Config, s: Pump<E>, step: Step<E>)
    requires Inv(cfg, s) && Enabled(s, step)
    requires step.Take? || step.Sent? || step.SendFails? || step.Timeout?
    ensures Inv(cfg, Next(cfg, s, step))
  {
    ConsumerKeepsOutgoing(cfg, s, step);
  }

  lemma ConsumerKeepsOutgoing<E>(cfg: Config, s: Pump<E>, step: Step<E>)
    requires SentinelLast(s) && Enabled(s, step)
    requires step.Take? || step.Sent? || step.SendFails? || step.Timeout?
    ensures Outgoing(Next(cfg, s, step)) == Outgoing(s)
    ensures SentinelLast(Next(cfg, s, step))
  {
    if step.Take? {
      TakingKeepsOutgoing(s.sent, s.queue);
    }
  }

  /** The head of the queue moves into the consumer's hand. */
  lemma TakingKeepsOutgoing<E>(sent: seq<Frame<E>>, queue: seq<Item<E>>)
    requires queue != []
    ensures var held := if queue[0].None? then [] else [queue[0].value];
      sent + held + Frames(queue[1..]) == sent + Frames(queue)
  {
  }

  lemma StepKeepsInv<E>(cfg: Config, s: Pump<E>, step: Step<E>)
    requires Inv(cfg, s) && Enabled(s, step)
    ensures Inv(cfg, Next(cfg, s, step))
  {
    match step
    case Produce(event) => ProduceKeepsInv(cfg, s, event);
    case StreamFails(detail) => FailureKeepsInv(cfg, s, detail);
    case EndOfStream => FinishKeepsInv(cfg, s);
    case Cancel => FinishKeepsInv(cfg, s);
    case _ => ConsumerKeepsInv(cfg, s, step);
  }

  // ----- Runs ------------------------------------------------------------

  predicate IsRun<E>(cfg: Config, s: Pump<E>, steps: seq<Step<E>>)
    decreases |steps|
  {
    steps == [] || (Enabled(s, steps[0]) && IsRun(cfg, Next(cfg, s, steps[0]), steps[1..]))
  }

  function Run<E>(cfg: Config, s: Pump<E>, steps: seq<Step<E>>): Pump<E>
    requires IsRun(cfg, s, steps)
    decreases |steps|
  {
    if steps == [] then s else Run(cfg, Next(cfg, s, steps[0]), steps[1..])
  }

  lemma {:induction false} RunKeepsInv<E>(cfg: Config, s: Pump<E>, steps: seq<Step<E>>)
    requires Inv(cfg, s) && IsRun(cfg, s, steps)
    ensures Inv(cfg, Run(cfg, s, steps))
    decreases |steps|
  {
    if steps != [] {
      StepKeepsInv(cfg, s, steps[0]);
      RunKeepsInv(cfg, Next(cfg, s, steps[0]), steps[1..]);
    }
  }

  function Events<E>(seen: seq<Arrival<E>>): seq<E>
  {
    seq(|seen|, i requires 0 <= i < |seen| => seen[i].event)
  }

  /** What the upstream delivered in a run, in order. */
  function Produced<E>(steps: seq<Step<E>>): seq<E>
  {
    if steps == [] then []
    else (if steps[0].Produce? then [steps[0].event] else []) + Produced(steps[1..])
  }

  /** The history holds every upstream event of the run, in order, accepted or not. */
  lemma {:induction false} HistoryIsUpstream<E>(cfg: Config, s: Pump<E>, steps: seq<Step<E>>)
    requires IsRun(cfg, s, steps)
    ensures Events(Run(cfg, s, steps).seen) == Events(s.seen) + Produced(steps)
    decreases |steps|
  {
    if steps != [] {
      HistoryIsUpstream(cfg, Next(cfg, s, steps[0]), steps[1..]);
    }
  }

  /**
   Over every interleaving: what was sent is a prefix of the accepted events in
   upstream order followed by at most one error frame, every upstream event was
   accepted or counted as dropped, and drops in a row stay within the limit.
   */
  lemma DeliveryInOrder<E>(cfg: Config, steps: seq<Step<E>>)
    requires IsRun(cfg, Start(), steps)
    ensures var s := Run(cfg, Start(), steps);
      && s.sent <= Accepted(s.seen) + AsSeq(s.error)
      && Events(s.seen) == Produced(steps)
      && |s.seen| == |Accepted(s.seen)| + s.dropCount
      && DropsBounded(s.seen, DropBound(cfg))
      && SentinelLast(s)
  {
    RunKeepsInv(cfg, Start(), steps);
    HistoryIsUpstream(cfg, Start(), steps);
    SentIsPrefix(Run(cfg, Start(), steps));
  }

  lemma SentIsPrefix<E>(s: Pump<E>)
    requires Conserved(s)
    ensures s.sent <= Accepted(s.seen) + AsSeq(s.error)
  {
  }

  /** A consumer that ended normally has sent every accepted event and the queued error. */
  lemma NormalExitIsComplete<E>(cfg: Config, steps: seq<Step<E>>)
    requires IsRun(cfg, Start(), steps) && Run(cfg, Start(), steps).consumer.Closed?
    ensures var s := Run(cfg, Start(), steps);
      s.sent == Accepted(s.seen) + AsSeq(s.error) && s.producer == Done
  {
    RunKeepsInv(cfg, Start(), steps);
    var s := Run(cfg, Start(), steps);
    assert s.sent + InHand(s.consumer) + Frames(s.queue) == s.sent;
  }

  // ----- When the two ends stop ------------------------------------------

  /** Room for so many more items. */
  predicate HasRoom<E>(cfg: Config, queue: seq<Item<E>>, more: nat)
  {
    cfg.maxsize <= 0 || |queue| + more <= cfg.maxsize
  }

  /** An event is dropped, and an error or the sentinel left out, exactly if there is no room for it. */
  lemma RoomDecides<E>(cfg: Config, s: Pump<E>, step: Step<E>)
    requires Enabled(s, step) && (0 < cfg.maxsize ==> |s.queue| <= cfg.maxsize)
    ensures var t, one, two := Next(cfg, s, step), HasRoom(cfg, s.queue, 1), HasRoom(cfg, s.queue, 2);
      match step
      case Produce(event) => t.seen == s.seen + [Arrival(event, one)]
      case StreamFails(detail) =>
        && t.error == (if one then Some(StreamError(detail)) else None)
        && t.queue == s.queue + (if one then [Some(StreamError(detail))] else []) + (if two then [None] else [])
      case EndOfStream => t.queue == s.queue + if one then [None] else []
      case Cancel => t.queue == s.queue + if one then [None] else []
      case _ => t.seen == s.seen && t.error == s.error
  {
  }

  /** The stream ends, fails, or is cancelled. */
  predicate Stops<E>(step: Step<E>)
  {
    step.EndOfStream? || step.StreamFails? || step.Cancel?
  }

  predicate Stopped<E>(steps: seq<Step<E>>)
  {
    exists i :: 0 <= i < |steps| && Stops(steps[i])
  }

  /** The history ends in at least one drop, and in as many as the limit. */
  predicate LimitReached<E>(cfg: Config, seen: seq<Arrival<E>>)
  {
    1 <= TrailingDrops(seen) && cfg.dropLimit <= TrailingDrops(seen)
  }

  /** At some point of the history the limit of drops in a row was reached. */
  ghost predicate LimitHit<E>(cfg: Config, seen: seq<Arrival<E>>)
  {
    exists n :: 0 <= n <= |seen| && LimitReached(cfg, seen[..n])
  }

  lemma LimitHitSnoc<E>(cfg: Config, seen: seq<Arrival<E>>, a: Arrival<E>)
    ensures LimitHit(cfg, seen + [a])
       <==> LimitHit(cfg, seen) || (!a.accepted && cfg.dropLimit <= 1 + TrailingDrops(seen))
  {
    var more := seen + [a];
    assert more[..|more|] == more;
    assert LimitReached(cfg, more) <==> !a.accepted && cfg.dropLimit <= 1 + TrailingDrops(seen) by {
      assert more[..|more| - 1] == seen;
    }
    forall n | 0 <= n <= |seen|
      ensures more[..n] == seen[..n]
    {
    }
    if n :| 0 <= n <= |seen| && LimitReached(cfg, seen[..n]) {
      assert LimitReached(cfg, more[..n]);
    }
    if LimitReached(cfg, more) {
      assert LimitReached(cfg, more[..|more|]);
    }
    if n :| 0 <= n <= |more| && LimitReached(cfg, more[..n]) {
      assert n <= |seen| ==> LimitReached(cfg, seen[..n]);
    }
  }

  lemma {:induction false} DoneExactly<E>(cfg: Config, s: Pump<E>, steps: seq<Step<E>>, stopped: bool)
    requires Inv(cfg, s) && IsRun(cfg, s, steps)
    requires s.producer == Done <==> stopped || LimitHit(cfg, s.seen)
    ensures Run(cfg, s, steps).producer == Done
       <==> stopped || Stopped(steps) || LimitHit(cfg, Run(cfg, s, steps).seen)
    decreases |steps|
  {
    if steps != [] {
      var t := Next(cfg, s, steps[0]);
      StepKeepsInv(cfg, s, steps[0]);
      if steps[0].Produce? {
        LimitHitSnoc(cfg, s.seen, t.seen[|s.seen|]);
      }
      DoneExactly(cfg, t, steps[1..], stopped || Stops(steps[0]));
      StoppedCons(steps);
    }
  }

  lemma StoppedCons<E>(steps: seq<Step<E>>)
    requires steps != []
    ensures Stopped(steps) <==> Stops(steps[0]) || Stopped(steps[1..])
  {
    if i :| 0 <= i < |steps| && Stops(steps[i]) {
      assert i > 0 ==> Stops(steps[1..][i - 1]);
    }
    if i :| 0 <= i < |steps[1..]| && Stops(steps[1..][i]) {
      assert Stops(steps[i + 1]);
    }
  }

  /**
   When the producer is done: exactly if the stream has ended or failed, it was
   cancelled, or the limit of drops in a row was reached. Below the limit a slow
   client stays connected.
   */
  lemma ProducerDoneExactly<E>(cfg: Config, steps: seq<Step<E>>)
    requires IsRun(cfg, Start(), steps)
    ensures Run(cfg, Start(), steps).producer == Done
       <==> Stopped(steps) || LimitHit(cfg, Run(cfg, Start(), steps).seen)
  {
    DoneExactly(cfg, Start(), steps, false);
  }

  /** The step ends the consumer's loop: the sentinel, a failed send, or a timeout with nothing left to wait for. */
  predicate Leaves<E>(s: Pump<E>, step: Step<E>)
    requires Enabled(s, step)
  {
    || step.SendFails?
    || (step.Take? && s.queue[0] == None)
    || (step.Timeout? && (step.beat == Failed || (s.producer == Done && s.queue == [])))
  }

  predicate LeavesIn<E>(cfg: Config, s: Pump<E>, steps: seq<Step<E>>)
    requires IsRun(cfg, s, steps)
    decreases |steps|
  {
    steps != [] && (Leaves(s, steps[0]) || LeavesIn(cfg, Next(cfg, s, steps[0]), steps[1..]))
  }

  /** The consumer has ended exactly if some step of the run made it leave. */
  lemma {:induction false} ConsumerEndsExactly<E>(cfg: Config, s: Pump<E>, steps: seq<Step<E>>)
    requires IsRun(cfg, s, steps)
    ensures Ended(Run(cfg, s, steps)) <==> Ended(s) || LeavesIn(cfg, s, steps)
    decreases |steps|
  {
    if steps != [] {
      ConsumerEndsExactly(cfg, Next(cfg, s, steps[0]), steps[1..]);
    }
  }

  // ----- The consumer leaves ---------------------------------------------

  /** Loop iterations of the consumer. */
  function Iterations<E>(cfg: Config, s: Pump<E>, steps: seq<Step<E>>): nat
    requires IsRun(cfg, s, steps)
    decreases |steps|
  {
    if steps == [] then 0
    else (if steps[0].Take? || steps[0].Timeout? then 1 else 0) + Iterations(cfg, Next(cfg, s, steps[0]), steps[1..])
  }

  /** An item has arrived during the current wait, whose timeout may still win. */
  predicate Racing<E>(s: Pump<E>)
  {
    s.consumer.Waiting? && s.consumer.suspended && s.queue != []
  }

  function Budget<E>(s: Pump<E>): nat
  {
    if Ended(s) then 0 else |s.queue| + 1 + if Racing(s) then 1 else 0
  }

  /** One of the consumer's own steps is possible. */
  predicate ConsumerCanStep<E>(s: Pump<E>)
  {
    Enabled(s, Sent) || Enabled(s, Take) || Enabled(s, Timeout(Quiet))
  }

  /** Every iteration spends the budget, and no step adds to it. */
  lemma BudgetShrinks<E>(cfg: Config, s: Pump<E>, step: Step<E>)
    requires Inv(cfg, s) && s.producer == Done && Enabled(s, step)
    ensures var t := Next(cfg, s, step);
      t.producer == Done && Budget(t) + (if step.Take? || step.Timeout? then 1 else 0) <= Budget(s)
  {
  }

  lemma ConsumerNeverStuck<E>(cfg: Config, s: Pump<E>)
    requires Inv(cfg, s)
    ensures Ended(s) || ConsumerCanStep(s)
  {
  }

  /**
   Once the producer is done, the consumer ends within queue length + 1 loop
   iterations, whether or not the sentinel fitted into the queue; one more if
   the wait it is in can still time out although an item has arrived. Until it
   has ended, it can always take a step.
   */
  lemma {:induction false} ConsumerLeaves<E>(cfg: Config, s: Pump<E>, steps: seq<Step<E>>)
    requires Inv(cfg, s) && s.producer == Done && IsRun(cfg, s, steps)
    ensures Iterations(cfg, s, steps) + Budget(Run(cfg, s, steps)) <= Budget(s)
    ensures Iterations(cfg, s, steps) == Budget(s) ==> Ended(Run(cfg, s, steps))
    ensures Ended(Run(cfg, s, steps)) || ConsumerCanStep(Run(cfg, s, steps))
    decreases |steps|
  {
    if steps == [] {
      ConsumerNeverStuck(cfg, s);
    } else {
      var t := Next(cfg, s, steps[0]);
      StepKeepsInv(cfg, s, steps[0]);
      BudgetShrinks(cfg, s, steps[0]);
      ConsumerLeaves(cfg, t, steps[1..]);
    }
  }
}
