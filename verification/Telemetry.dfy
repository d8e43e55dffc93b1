/**
 The edge's telemetry: a bounded queue that requests never wait for, and a shipper that drains it in batches.
 Which select case runs next, and how each POST ends, is given as a script of signals.
 */
module Telemetry {
  import opened Decimal
  import opened Subsequences

  /** A security event; its contents do not matter to the pipeline. */
  type Event = string

  /** How one POST ends: whether the request reached the other side, and whether a 2xx reply came back. */
  datatype Outcome = Outcome(reached: bool, acked: bool)

  datatype Shipment = Shipment(events: seq<Event>, outcome: Outcome)

  datatype Signal =
    | Recorded(event: Event)        // a request reports an event
    | Received(outcome: Outcome)    // the shipper takes one event; a full batch is shipped with this outcome
    | Ticked(outcome: Outcome)
    | Shutdown(outcome: Outcome)

  /** The pipeline with its past: what was reported, what entered the queue, how many did not. */
  datatype Pipe = Pipe(queue: seq<Event>, pending: seq<Event>, shipments: seq<Shipment>,
                       recorded: seq<Event>, accepted: seq<Event>, lost: nat)

  function Started(queue: seq<Event>): Pipe {
    Pipe(queue, [], [], queue, queue, 0)
  }

  /** The pending batch is shipped, whatever becomes of it. */
  function Flushed(p: Pipe, outcome: Outcome): Pipe {
    if p.pending == [] then p
    else p.(shipments := p.shipments + [Shipment(p.pending, outcome)], pending := [])
  }

  function Step(p: Pipe, s: Signal, capacity: nat, maxBatch: nat): Pipe {
    match s
    case Recorded(e) =>
      if |p.queue| < capacity
      then p.(queue := p.queue + [e], recorded := p.recorded + [e], accepted := p.accepted + [e])
      else p.(recorded := p.recorded + [e], lost := p.lost + 1)
    case Received(outcome) =>
      if p.queue == [] then p
      else
        var taken := p.(queue := p.queue[1..], pending := p.pending + [p.queue[0]]);
        if |taken.pending| >= maxBatch then Flushed(taken, outcome) else taken
    case Ticked(outcome) => Flushed(p, outcome)
    case Shutdown(outcome) => Flushed(p, outcome)
  }

  /** The shipper's whole life: it stops at a shutdown. */
  function Run(p: Pipe, script: seq<Signal>, capacity: nat, maxBatch: nat): Pipe
    decreases |script|
  {
    if script == [] then p
    else if script[0].Shutdown? then Step(p, script[0], capacity, maxBatch)
    else Run(Step(p, script[0], capacity, maxBatch), script[1..], capacity, maxBatch)
  }

  /** All events shipped, batch by batch. */
  function Shipped(shipments: seq<Shipment>): seq<Event> {
    if shipments == [] then [] else Shipped(shipments[..|shipments| - 1]) + shipments[|shipments| - 1].events
  }

  function CountAcked(shipments: seq<Shipment>): nat {
    if shipments == [] then 0
    else
      var last := shipments[|shipments| - 1];
      CountAcked(shipments[..|shipments| - 1]) + (if last.outcome.acked then |last.events| else 0)
  }

  function CountFailed(shipments: seq<Shipment>): nat {
    if shipments == [] then 0
    else
      var last := shipments[|shipments| - 1];
      CountFailed(shipments[..|shipments| - 1]) + (if last.outcome.acked then 0 else |last.events|)
  }

  function BatchLimit(maxBatch: nat): nat {
    if maxBatch == 0 then 1 else maxBatch
  }

  // ---------------------------------------------------------------- what every run keeps

  /**
   Whatever entered the queue is, in order and once each, in the shipped batches, then in the pending batch,
   then still in the queue; the rest was lost at the door.
   */
  ghost predicate Accounted(p: Pipe, capacity: nat, maxBatch: nat) {
    && p.accepted == Shipped(p.shipments) + p.pending + p.queue
    && Subsequence(p.accepted, p.recorded)
    && |p.recorded| == |p.accepted| + p.lost
    && |p.queue| <= capacity
    && |p.pending| < BatchLimit(maxBatch)
    && forall i :: 0 <= i < |p.shipments| ==> 1 <= |p.shipments[i].events| <= BatchLimit(maxBatch)
  }

  lemma OneMoreShipment(shipments: seq<Shipment>, s: Shipment)
    ensures Shipped(shipments + [s]) == Shipped(shipments) + s.events
    ensures CountAcked(shipments + [s]) == CountAcked(shipments) + (if s.outcome.acked then |s.events| else 0)
    ensures CountFailed(shipments + [s]) == CountFailed(shipments) + (if s.outcome.acked then 0 else |s.events|)
  {
    assert (shipments + [s])[..|shipments|] == shipments;
  }

  lemma RecordingAccounted(p: Pipe, e: Event, capacity: nat, maxBatch: nat)
    requires Accounted(p, capacity, maxBatch)
    ensures Accounted(Step(p, Recorded(e), capacity, maxBatch), capacity, maxBatch)
  {
    if |p.queue| < capacity {
      SelfIsSubsequence([e]);
      SubsequenceParts(p.accepted, p.recorded, [e], [e]);
      assert Shipped(p.shipments) + p.pending + (p.queue + [e]) == Shipped(p.shipments) + p.pending + p.queue + [e];
    } else {
      SubsequenceOfPrefix(p.accepted, p.recorded, [e]);
    }
  }

  lemma FlushAccounted(p: Pipe, outcome: Outcome)
    ensures var q := Flushed(p, outcome);
      Shipped(q.shipments) + q.pending + q.queue == Shipped(p.shipments) + p.pending + p.queue
  {
    OneMoreShipment(p.shipments, Shipment(p.pending, outcome));
  }

  lemma FlushedBatch(p: Pipe, outcome: Outcome, capacity: nat, maxBatch: nat)
    requires p.accepted == Shipped(p.shipments) + p.pending + p.queue && Subsequence(p.accepted, p.recorded)
    requires |p.recorded| == |p.accepted| + p.lost && |p.queue| <= capacity && |p.pending| <= BatchLimit(maxBatch)
    requires forall i :: 0 <= i < |p.shipments| ==> 1 <= |p.shipments[i].events| <= BatchLimit(maxBatch)
    ensures Accounted(Flushed(p, outcome), capacity, maxBatch)
  {
    FlushAccounted(p, outcome);
  }

  lemma ReceivingAccounted(p: Pipe, outcome: Outcome, capacity: nat, maxBatch: nat)
    requires Accounted(p, capacity, maxBatch) && p.queue != []
    ensures Accounted(Step(p, Received(outcome), capacity, maxBatch), capacity, maxBatch)
  {
    var taken := p.(queue := p.queue[1..], pending := p.pending + [p.queue[0]]);
    assert Shipped(p.shipments) + taken.pending + taken.queue == Shipped(p.shipments) + p.pending + p.queue;
    if |taken.pending| >= maxBatch {
      FlushedBatch(taken, outcome, capacity, maxBatch);
    }
  }

  lemma StepAccounted(p: Pipe, s: Signal, capacity: nat, maxBatch: nat)
    requires Accounted(p, capacity, maxBatch)
    ensures Accounted(Step(p, s, capacity, maxBatch), capacity, maxBatch)
  {
    match s
    case Recorded(e) => RecordingAccounted(p, e, capacity, maxBatch);
    case Received(outcome) =>
      if p.queue != [] {
        ReceivingAccounted(p, outcome, capacity, maxBatch);
      }
    case Ticked(outcome) => FlushedBatch(p, outcome, capacity, maxBatch);
    case Shutdown(outcome) => FlushedBatch(p, outcome, capacity, maxBatch);
  }

  /** At every moment of every run the books are in order. */
  lemma {:induction false} RunAccounted(p: Pipe, script: seq<Signal>, capacity: nat, maxBatch: nat)
    requires Accounted(p, capacity, maxBatch)
    ensures Accounted(Run(p, script, capacity, maxBatch), capacity, maxBatch)
    decreases |script|
  {
    if script != [] {
      StepAccounted(p, script[0], capacity, maxBatch);
      if !script[0].Shutdown? {
        RunAccounted(Step(p, script[0], capacity, maxBatch), script[1..], capacity, maxBatch);
      }
    }
  }

  /** Nothing counts as sent that was not acknowledged, and nothing as failed that was, reached or not. */
  lemma {:induction false} RepliesDecide(shipments: seq<Shipment>)
    requires forall i :: 0 <= i < |shipments| ==> shipments[i].events != []
    ensures CountAcked(shipments) == 0 <==> forall i :: 0 <= i < |shipments| ==> !shipments[i].outcome.acked
    ensures CountFailed(shipments) == 0 <==> forall i :: 0 <= i < |shipments| ==> shipments[i].outcome.acked
  {
    if shipments != [] {
      var n := |shipments| - 1;
      RepliesDecide(shipments[..n]);
      assert forall i :: 0 <= i < n ==> shipments[..n][i] == shipments[i];
    }
  }

  lemma {:induction false} ShippedIsAckedOrFailed(shipments: seq<Shipment>)
    ensures |Shipped(shipments)| == CountAcked(shipments) + CountFailed(shipments)
  {
    if shipments != [] {
      ShippedIsAckedOrFailed(shipments[..|shipments| - 1]);
    }
  }

  lemma AccountedAddsUp(p: Pipe, capacity: nat, maxBatch: nat)
    requires Accounted(p, capacity, maxBatch)
    ensures |p.recorded| == p.lost + |p.queue| + |p.pending| + CountAcked(p.shipments) + CountFailed(p.shipments)
  {
    ShippedIsAckedOrFailed(p.shipments);
    assert |p.accepted| == |Shipped(p.shipments)| + |p.pending| + |p.queue|;
  }

  lemma StartsAccounted(queue: seq<Event>, capacity: nat, maxBatch: nat)
    requires |queue| <= capacity
    ensures Accounted(Started(queue), capacity, maxBatch)
  {
    SelfIsSubsequence(queue);
    NothingShipped(Started(queue));
  }

  lemma NothingShipped(p: Pipe)
    requires p.shipments == [] && p.pending == []
    ensures Shipped(p.shipments) + p.pending + p.queue == p.queue
  {
  }

  /** recorded = lost + queued + pending + acknowledged + failed, after any run from start-up. */
  lemma Conservation(queue: seq<Event>, script: seq<Signal>, capacity: nat, maxBatch: nat)
    requires |queue| <= capacity
    ensures var p := Run(Started(queue), script, capacity, maxBatch);
      |p.recorded| == p.lost + |p.queue| + |p.pending| + CountAcked(p.shipments) + CountFailed(p.shipments)
  {
    var start := Started(queue);
    StartsAccounted(queue, capacity, maxBatch);
    RunAccounted(start, script, capacity, maxBatch);
    AccountedAddsUp(Run(start, script, capacity, maxBatch), capacity, maxBatch);
  }

  /** What the requests reported while the shipper lived. */
  function Reported(script: seq<Signal>): seq<Event> {
    if script == [] || script[0].Shutdown? then []
    else (if script[0].Recorded? then [script[0].event] else []) + Reported(script[1..])
  }

  lemma {:induction false} RunRecordsWhatIsReported(p: Pipe, script: seq<Signal>, capacity: nat, maxBatch: nat)
    ensures Run(p, script, capacity, maxBatch).recorded == p.recorded + Reported(script)
    decreases |script|
  {
    if script != [] && !script[0].Shutdown? {
      RunRecordsWhatIsReported(Step(p, script[0], capacity, maxBatch), script[1..], capacity, maxBatch);
    }
  }

  // ---------------------------------------------------------------- when events leave

  predicate Flushes(s: Signal) {
    s.Ticked? || s.Shutdown?
  }

  /** The script comes to a tick last, or to a shutdown anywhere. */
  predicate EndsFlushed(script: seq<Signal>) {
    script != [] && (Flushes(script[|script| - 1]) || exists i | 0 <= i < |script| :: script[i].Shutdown?)
  }

  /** A tick or a shutdown leaves nothing pending. */
  lemma {:induction false} NothingLeftPending(p: Pipe, script: seq<Signal>, capacity: nat, maxBatch: nat)
    requires EndsFlushed(script)
    ensures Run(p, script, capacity, maxBatch).pending == []
    decreases |script|
  {
    if !script[0].Shutdown? && |script| > 1 {
      var rest := script[1..];
      assert rest[|rest| - 1] == script[|script| - 1];
      assert forall i :: 0 < i < |script| ==> script[i] == rest[i - 1];
      NothingLeftPending(Step(p, script[0], capacity, maxBatch), rest, capacity, maxBatch);
    }
  }

  /** So after a tick or a shutdown everything that was received has been shipped. */
  lemma EverythingReceivedIsShipped(queue: seq<Event>, script: seq<Signal>, capacity: nat, maxBatch: nat)
    requires |queue| <= capacity && EndsFlushed(script)
    ensures var p := Run(Started(queue), script, capacity, maxBatch); p.accepted == Shipped(p.shipments) + p.queue
  {
    var p := Run(Started(queue), script, capacity, maxBatch);
    StartsAccounted(queue, capacity, maxBatch);
    RunAccounted(Started(queue), script, capacity, maxBatch);
    NothingLeftPending(Started(queue), script, capacity, maxBatch);
    assert Shipped(p.shipments) + [] == Shipped(p.shipments);
  }

  /** Between ticks only full batches leave. */
  lemma {:induction false} OnlyFullBatchesBetweenTicks(p: Pipe, script: seq<Signal>, capacity: nat, maxBatch: nat)
    requires Accounted(p, capacity, maxBatch) && forall i :: 0 <= i < |script| ==> !Flushes(script[i])
    ensures p.shipments <= Run(p, script, capacity, maxBatch).shipments
    ensures forall i :: |p.shipments| <= i < |Run(p, script, capacity, maxBatch).shipments| ==>
      |Run(p, script, capacity, maxBatch).shipments[i].events| == BatchLimit(maxBatch)
    decreases |script|
  {
    if script != [] {
      var q := Step(p, script[0], capacity, maxBatch);
      StepAccounted(p, script[0], capacity, maxBatch);
      assert q.shipments == p.shipments || (q.shipments == p.shipments + [q.shipments[|p.shipments|]]
        && |q.shipments[|p.shipments|].events| == BatchLimit(maxBatch));
      OnlyFullBatchesBetweenTicks(q, script[1..], capacity, maxBatch);
    }
  }

  /** With room for all that is reported nothing is lost. */
  lemma {:induction false} NothingLostWithRoom(p: Pipe, script: seq<Signal>, capacity: nat, maxBatch: nat)
    requires |p.queue| + |Reported(script)| <= capacity
    ensures Run(p, script, capacity, maxBatch).lost == p.lost
    decreases |script|
  {
    if script != [] && !script[0].Shutdown? {
      NothingLostWithRoom(Step(p, script[0], capacity, maxBatch), script[1..], capacity, maxBatch);
    }
  }

  // ---------------------------------------------------------------- the object

  /** A wrapping counter holds the true count modulo 2^64. */
  lemma CounterWraps(start: nat, total: nat, n: nat)
    ensures ((start + total) % UINT64_LIMIT + n) % UINT64_LIMIT == (start + (total + n)) % UINT64_LIMIT
  {
  }

  class Telemetry {
    const capacity: nat
    var queue: seq<Event>
    var dropped: nat      // uint64
    var sent: nat         // uint64

    constructor (capacity: nat)
      requires capacity > 0
      ensures this.capacity == capacity && queue == [] && dropped == sent == 0
    {
      this.capacity := capacity;
      queue, dropped, sent := [], 0, 0;
    }

    /** Never blocks: with the queue full the event is dropped and counted. */
    method Record(event: Event)
      modifies this
      ensures sent == old(sent)
      ensures |old(queue)| < capacity ==> queue == old(queue) + [event] && dropped == old(dropped)
      ensures |old(queue)| >= capacity ==> queue == old(queue) && dropped == (old(dropped) + 1) % UINT64_LIMIT
    {
      if |queue| < capacity {
        queue := queue + [event];
      } else {
        dropped := (dropped + 1) % UINT64_LIMIT;
      }
    }

    /** One POST; a batch that is not acknowledged is gone. */
    method Ship(events: seq<Event>, outcome: Outcome)
      modifies `sent
      ensures sent == if outcome.acked then (old(sent) + |events|) % UINT64_LIMIT else old(sent)
    {
      if outcome.acked {
        sent := (sent + |events|) % UINT64_LIMIT;
      }
    }

    /** The object is at `p`, having started with the counters `d` and `s`. */
    ghost predicate IsAt(p: Pipe, d: nat, s: nat)
      reads this
    {
      queue == p.queue && dropped == (d + p.lost) % UINT64_LIMIT && sent == (s + CountAcked(p.shipments)) % UINT64_LIMIT
    }

    /** Ships the pending batch, if there is one. */
    method Flush(pending: seq<Event>, outcome: Outcome, ghost p: Pipe, ghost d: nat, ghost s: nat)
      requires IsAt(p, d, s) && pending == p.pending
      modifies `sent
      ensures IsAt(Flushed(p, outcome), d, s)
    {
      if |pending| > 0 {
        OneMoreShipment(p.shipments, Shipment(pending, outcome));
        CounterWraps(s, CountAcked(p.shipments), |pending|);
        Ship(pending, outcome);
      }
    }

    /** One turn of the loop that is not the shutdown. */
    method Turn(pending: seq<Event>, signal: Signal, maxBatch: nat, ghost p: Pipe, ghost d: nat, ghost s: nat) returns (left: seq<Event>)
      requires IsAt(p, d, s) && pending == p.pending && !signal.Shutdown?
      modifies this
      ensures IsAt(Step(p, signal, capacity, maxBatch), d, s) && left == Step(p, signal, capacity, maxBatch).pending
    {
      left := pending;
      match signal {
        case Recorded(event) =>
          CounterWraps(d, p.lost, 1);
          Record(event);
        case Received(outcome) =>
          if |queue| > 0 {
            left := pending + [queue[0]];
            queue := queue[1..];
            if |left| >= maxBatch {
              Flush(left, outcome, p.(queue := p.queue[1..], pending := left), d, s);
              left := [];
            }
          }
        case Ticked(outcome) =>
          Flush(pending, outcome, p, d, s);
          left := [];
      }
    }

    method RunShipper(maxBatch: nat, script: seq<Signal>) returns (pending: seq<Event>)
      requires dropped < UINT64_LIMIT && sent < UINT64_LIMIT
      modifies this
      ensures pending == Run(Started(old(queue)), script, capacity, maxBatch).pending
      ensures IsAt(Run(Started(old(queue)), script, capacity, maxBatch), old(dropped), old(sent))
      ensures EndsFlushed(script) ==> pending == []
    {
      if EndsFlushed(script) {
        NothingLeftPending(Started(queue), script, capacity, maxBatch);
      }
      pending := [];
      ghost var p := Started(queue);
      for i := 0 to |script|
        invariant IsAt(p, old(dropped), old(sent)) && pending == p.pending
        invariant Run(p, script[i..], capacity, maxBatch) == Run(Started(old(queue)), script, capacity, maxBatch)
      {
        assert script[i..][1..] == script[i + 1..];
        if script[i].Shutdown? {
          Flush(pending, script[i].outcome, p, old(dropped), old(sent));
          return [];
        }
        ghost var next := Step(p, script[i], capacity, maxBatch);
        pending := Turn(pending, script[i], maxBatch, p, old(dropped), old(sent));
        p := next;
      }
    }
  }
}
