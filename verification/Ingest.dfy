/**
 The control-plane's end of the telemetry: requests from many edges put events into one bounded buffer, and
 a writer drains it towards the data-plane. Handlers run concurrently with each other and with the writer; a
 non-blocking send or receive is one step.
 */
module Ingest {
  import opened Wrappers
  import opened Subsequences
  import opened Telemetry

  /** An event with the edge it came from. */
  datatype Tagged = Tagged(edge: string, event: Event)

  /** The buffer with its past: what entered it and what the writer took. */
  datatype State = State(queue: seq<Tagged>, admitted: seq<Tagged>, taken: seq<Tagged>) {
    predicate Balanced(capacity: nat) {
      admitted == taken + queue && |queue| <= capacity
    }
  }

  /** A non-blocking send: into the buffer if there is room. */
  function Sent(s: State, e: Tagged, capacity: nat): State {
    if |s.queue| < capacity then s.(queue := s.queue + [e], admitted := s.admitted + [e]) else s
  }

  function SentAll(s: State, es: seq<Tagged>, capacity: nat): State
    decreases |es|
  {
    if es == [] then s else SentAll(Sent(s, es[0], capacity), es[1..], capacity)
  }

  /** A non-blocking receive of the oldest event. */
  function Took(s: State): State {
    if s.queue == [] then s else s.(queue := s.queue[1..], taken := s.taken + [s.queue[0]])
  }

  /** What others do to the buffer: another handler sends, or the writer receives. */
  datatype Move = Put(e: Tagged) | Take

  function Moved(s: State, m: Move, capacity: nat): State {
    if m.Put? then Sent(s, m.e, capacity) else Took(s)
  }

  function MovedAll(s: State, ms: seq<Move>, capacity: nat): State
    decreases |ms|
  {
    if ms == [] then s else MovedAll(Moved(s, ms[0], capacity), ms[1..], capacity)
  }

  /** Sends leave alone what the writer took. */
  lemma {:induction false} SendsTakeNothing(s: State, es: seq<Tagged>, capacity: nat)
    ensures SentAll(s, es, capacity).taken == s.taken
    decreases |es|
  {
    if es != [] {
      SendsTakeNothing(Sent(s, es[0], capacity), es[1..], capacity);
    }
  }

  /** Nothing that was admitted is forgotten or overtaken. */
  lemma {:induction false} AdmittedGrows(s: State, ms: seq<Move>, capacity: nat)
    ensures s.admitted <= MovedAll(s, ms, capacity).admitted
    decreases |ms|
  {
    if ms != [] {
      AdmittedGrows(Moved(s, ms[0], capacity), ms[1..], capacity);
    }
  }

  // ---------------------------------------------------------------- requests

  datatype Status = Accepted | Unauthorized | BadRequest | TooLarge

  /** A request: the token it presents, and its body if it parses. */
  datatype Request = Request(edge: string, token: string, body: Option<seq<Event>>)

  /** The state once the first `n` events were offered; before the k-th, others make the moves `meanwhile(k)`. */
  function Offered(s: State, edge: string, events: seq<Event>, meanwhile: nat -> seq<Move>, n: nat, capacity: nat): State
    requires n <= |events|
    decreases n, 0
  {
    if n == 0 then s
    else Sent(BeforeSend(s, edge, events, meanwhile, n - 1, capacity), Tagged(edge, events[n - 1]), capacity)
  }

  /** The state in which the `n`-th event finds the buffer. */
  function BeforeSend(s: State, edge: string, events: seq<Event>, meanwhile: nat -> seq<Move>, n: nat, capacity: nat): State
    requires n <= |events|
    decreases n, 1
  {
    MovedAll(Offered(s, edge, events, meanwhile, n, capacity), meanwhile(n), capacity)
  }

  /** Which of the first `n` events found room. */
  function Kept(s: State, edge: string, events: seq<Event>, meanwhile: nat -> seq<Move>, n: nat, capacity: nat): seq<Event>
    requires n <= |events|
  {
    if n == 0 then []
    else
      Kept(s, edge, events, meanwhile, n - 1, capacity)
      + (if |BeforeSend(s, edge, events, meanwhile, n - 1, capacity).queue| < capacity then [events[n - 1]] else [])
  }

  function TagAll(edge: string, events: seq<Event>): seq<Tagged> {
    seq(|events|, i requires 0 <= i < |events| => Tagged(edge, events[i]))
  }

  lemma TagOneMore(edge: string, kept: seq<Event>, e: Event)
    ensures TagAll(edge, kept + [e]) == TagAll(edge, kept) + [Tagged(edge, e)]
    ensures TagAll(edge, []) == []
  {
  }

  lemma OneMoreKept<T(!new)>(kept: seq<T>, offered: seq<T>, e: T, room: bool)
    requires Subsequence(kept, offered)
    ensures Subsequence(kept + (if room then [e] else []), offered + [e])
  {
    if room {
      SelfIsSubsequence([e]);
      SubsequenceParts(kept, offered, [e], [e]);
    } else {
      SubsequenceOfPrefix(kept, offered, [e]);
      assert kept + [] == kept;
    }
  }

  /** What is kept of a request is a selection of it, and enters the buffer in its order, whatever comes in between. */
  lemma {:induction false} KeptEnterInOrder(s: State, edge: string, events: seq<Event>, meanwhile: nat -> seq<Move>, n: nat, capacity: nat)
    requires n <= |events|
    ensures Subsequence(Kept(s, edge, events, meanwhile, n, capacity), events[..n])
    ensures s.admitted <= Offered(s, edge, events, meanwhile, n, capacity).admitted
    ensures Subsequence(TagAll(edge, Kept(s, edge, events, meanwhile, n, capacity)),
                        Offered(s, edge, events, meanwhile, n, capacity).admitted[|s.admitted|..])
  {
    if n == 0 {
      EmptyIsSubsequence(events[..0]);
      TagOneMore(edge, [], "");
      EmptyIsSubsequence<Tagged>([]);
      assert s.admitted[|s.admitted|..] == [];
    } else {
      KeptEnterInOrder(s, edge, events, meanwhile, n - 1, capacity);
      var before, met := Offered(s, edge, events, meanwhile, n - 1, capacity), BeforeSend(s, edge, events, meanwhile, n - 1, capacity);
      AdmittedGrows(before, meanwhile(n - 1), capacity);
      var kept, e, k := Kept(s, edge, events, meanwhile, n - 1, capacity), events[n - 1], |s.admitted|;
      assert events[..n] == events[..n - 1] + [e];
      OneMoreKept(kept, events[..n - 1], e, |met.queue| < capacity);
      TagOneMore(edge, kept, e);
      assert kept + [] == kept;
      var more := met.admitted[|before.admitted|..];
      assert met.admitted[k..] == before.admitted[k..] + more;
      SubsequenceOfPrefix(TagAll(edge, kept), before.admitted[k..], more);
      if |met.queue| < capacity {
        OneMoreKept(TagAll(edge, kept), met.admitted[k..], Tagged(edge, e), true);
        assert (met.admitted + [Tagged(edge, e)])[k..] == met.admitted[k..] + [Tagged(edge, e)];
      }
    }
  }

  // ---------------------------------------------------------------- the writer

  /** The opportunistic part of a round: up to `room` more events, until the buffer is found empty. */
  function Gathered(s: State, room: nat, arrivals: nat -> seq<Tagged>, k: nat, capacity: nat): (State, nat)
    decreases room
  {
    if room == 0 then (s, k)
    else
      var offered := SentAll(s, arrivals(k), capacity);
      if offered.queue == [] then (offered, k + 1)
      else Gathered(Took(offered), room - 1, arrivals, k + 1, capacity)
  }

  /** One round: a receive, and with an event in hand the rest of the batch. */
  function Round(s: State, maxBatch: int, arrivals: nat -> seq<Tagged>, k: nat, capacity: nat): (State, nat) {
    var offered := SentAll(s, arrivals(k), capacity);
    if offered.queue == [] then (offered, k + 1)
    else Gathered(Took(offered), if maxBatch < 1 then 0 else maxBatch - 1, arrivals, k + 1, capacity)
  }

  function Rounds(s: State, maxBatch: int, passes: nat, arrivals: nat -> seq<Tagged>, k: nat, capacity: nat): (State, nat)
    decreases passes
  {
    if passes == 0 then (s, k)
    else
      var before := Rounds(s, maxBatch, passes - 1, arrivals, k, capacity);
      Round(before.0, maxBatch, arrivals, before.1, capacity)
  }

  lemma OneMoreRound(s: State, maxBatch: int, passes: nat, arrivals: nat -> seq<Tagged>, k: nat, capacity: nat)
    ensures var before := Rounds(s, maxBatch, passes, arrivals, k, capacity);
      Rounds(s, maxBatch, passes + 1, arrivals, k, capacity) == Round(before.0, maxBatch, arrivals, before.1, capacity)
  {
  }

  lemma {:induction false} GatheringIsBounded(s: State, room: nat, arrivals: nat -> seq<Tagged>, k: nat, capacity: nat)
    ensures s.taken <= Gathered(s, room, arrivals, k, capacity).0.taken
    ensures |Gathered(s, room, arrivals, k, capacity).0.taken| <= |s.taken| + room
    decreases room
  {
    if room > 0 {
      var offered := SentAll(s, arrivals(k), capacity);
      SendsTakeNothing(s, arrivals(k), capacity);
      if offered.queue != [] {
        GatheringIsBounded(Took(offered), room - 1, arrivals, k + 1, capacity);
      }
    }
  }

  /** A round takes at most max(1, maxBatch) events, and none exactly when the buffer is found empty. */
  lemma BatchesAreBounded(s: State, maxBatch: int, arrivals: nat -> seq<Tagged>, k: nat, capacity: nat)
    ensures s.taken <= Round(s, maxBatch, arrivals, k, capacity).0.taken
    ensures |Round(s, maxBatch, arrivals, k, capacity).0.taken| - |s.taken| <= (if maxBatch < 1 then 1 else maxBatch)
    ensures Round(s, maxBatch, arrivals, k, capacity).0.taken == s.taken <==> SentAll(s, arrivals(k), capacity).queue == []
  {
    var offered := SentAll(s, arrivals(k), capacity);
    SendsTakeNothing(s, arrivals(k), capacity);
    if offered.queue != [] {
      GatheringIsBounded(Took(offered), if maxBatch < 1 then 0 else maxBatch - 1, arrivals, k + 1, capacity);
    }
  }

  /** When nobody else sends meanwhile, a round takes as many events as there are, up to max(1, maxBatch). */
  lemma {:induction false} GatheringTakesAll(s: State, room: nat, arrivals: nat -> seq<Tagged>, k: nat, capacity: nat)
    requires forall i :: arrivals(i) == []
    ensures var t := Gathered(s, room, arrivals, k, capacity).0;
      |t.taken| == |s.taken| + (if |s.queue| < room then |s.queue| else room)
    decreases room
  {
    if room > 0 && s.queue != [] {
      GatheringTakesAll(Took(s), room - 1, arrivals, k + 1, capacity);
    }
  }

  lemma RoundTakesAll(s: State, maxBatch: int, arrivals: nat -> seq<Tagged>, k: nat, capacity: nat)
    requires forall i :: arrivals(i) == []
    ensures var t, limit := Round(s, maxBatch, arrivals, k, capacity).0, if maxBatch < 1 then 1 else maxBatch;
      |t.taken| == |s.taken| + (if |s.queue| < limit then |s.queue| else limit)
  {
    if s.queue != [] {
      GatheringTakesAll(Took(s), if maxBatch < 1 then 0 else maxBatch - 1, arrivals, k + 1, capacity);
    }
  }

  /** When every write succeeds, everything attempted is written. */
  lemma {:induction false} AllAreWritten(attempted: seq<Tagged>, writes: nat -> bool, from: nat)
    requires forall i: nat :: from <= i < from + |attempted| ==> writes(i)
    ensures Written(attempted, writes, from) == attempted
  {
    if attempted != [] {
      var n := |attempted| - 1;
      AllAreWritten(attempted[..n], writes, from);
      assert attempted == attempted[..n] + [attempted[n]];
    }
  }

  /** The writes that succeed, out of a run of attempts numbered from `from`. */
  function Written(attempted: seq<Tagged>, writes: nat -> bool, from: nat): seq<Tagged> {
    if attempted == [] then []
    else
      var n := |attempted| - 1;
      Written(attempted[..n], writes, from) + (if writes(from + n) then [attempted[n]] else [])
  }

  lemma {:induction false} WrittenInOrder(attempted: seq<Tagged>, writes: nat -> bool, from: nat)
    ensures Subsequence(Written(attempted, writes, from), attempted)
  {
    if attempted == [] {
      EmptyIsSubsequence<Tagged>([]);
    } else {
      var n := |attempted| - 1;
      WrittenInOrder(attempted[..n], writes, from);
      assert attempted == attempted[..n] + [attempted[n]];
      EmptyIsSubsequence([attempted[n]]);
      SelfIsSubsequence([attempted[n]]);
      SubsequenceParts(Written(attempted[..n], writes, from), attempted[..n],
                       if writes(from + n) then [attempted[n]] else [], [attempted[n]]);
    }
  }

  lemma {:induction false} WrittenParts(a: seq<Tagged>, b: seq<Tagged>, writes: nat -> bool, from: nat)
    ensures Written(a + b, writes, from) == Written(a, writes, from) + Written(b, writes, from + |a|)
  {
    if b == [] {
      assert a + b == a;
    } else {
      var n := |b| - 1;
      assert (a + b)[..|a + b| - 1] == a + b[..n];
      WrittenParts(a, b[..n], writes, from);
    }
  }

  // ---------------------------------------------------------------- the object

  class Buffer {
    const capacity: nat
    const maxRequestEvents: int
    const ingestToken: Option<string>
    var queue: seq<Tagged>
    ghost var past: State

    ghost predicate Valid()
      reads this
    {
      past.queue == queue && past.Balanced(capacity)
    }

    constructor (capacity: nat, maxRequestEvents: int, ingestToken: Option<string>)
      requires capacity > 0
      ensures Valid() && past == State([], [], [])
      ensures this.capacity == capacity && this.maxRequestEvents == maxRequestEvents && this.ingestToken == ingestToken
    {
      this.capacity, this.maxRequestEvents, this.ingestToken := capacity, maxRequestEvents, ingestToken;
      queue, past := [], State([], [], []);
    }

    method Send(e: Tagged) returns (ok: bool)
      requires Valid()
      modifies this
      ensures Valid() && past == Sent(old(past), e, capacity)
      ensures ok <==> |old(queue)| < capacity
    {
      past := Sent(past, e, capacity);
      ok := |queue| < capacity;
      if ok {
        queue := queue + [e];
      }
    }

    method SendAll(es: seq<Tagged>)
      requires Valid()
      modifies this
      ensures Valid() && past == SentAll(old(past), es, capacity)
      ensures past.taken == old(past).taken
    {
      for i := 0 to |es|
        invariant Valid() && SentAll(past, es[i..], capacity) == SentAll(old(past), es, capacity)
        invariant past.taken == old(past).taken
      {
        assert es[i..][1..] == es[i + 1..];
        var ok := Send(es[i]);
      }
    }

    method Receive() returns (e: Option<Tagged>)
      requires Valid()
      modifies this
      ensures Valid() && past == Took(old(past))
      ensures e == if old(queue) == [] then None else Some(old(queue)[0])
      ensures past.taken == old(past).taken + (if e.Some? then [e.value] else [])
    {
      past := Took(past);
      if |queue| == 0 {
        return None;
      }
      e := Some(queue[0]);
      queue := queue[1..];
    }

    method Play(ms: seq<Move>)
      requires Valid()
      modifies this
      ensures Valid() && past == MovedAll(old(past), ms, capacity)
    {
      for i := 0 to |ms|
        invariant Valid() && MovedAll(past, ms[i..], capacity) == MovedAll(old(past), ms, capacity)
      {
        assert ms[i..][1..] == ms[i + 1..];
        match ms[i] {
          case Put(e) => var ok := Send(e);
          case Take => var e := Receive();
        }
      }
    }

    /** Whether a request is let in. */
    function StatusOf(r: Request): Status {
      if ingestToken.Some? && (r.token == "" || r.token != ingestToken.value) then Unauthorized
      else if r.body.None? then BadRequest
      else if |r.body.value| > maxRequestEvents then TooLarge
      else Accepted
    }

    /**
     One request, with other handlers and the writer at work between its sends. An admitted one accounts for
     every event; a refused one changes nothing.
     */
    method Handle(r: Request, meanwhile: nat -> seq<Move>) returns (status: Status, accepted: nat, dropped: nat)
      requires Valid()
      modifies this
      ensures Valid()
      ensures status == StatusOf(r)
      ensures status.Unauthorized? <==> ingestToken.Some? && !(r.token != "" && r.token == ingestToken.value)
      ensures status.BadRequest? <==> !status.Unauthorized? && r.body.None?
      ensures status.TooLarge? <==> !status.Unauthorized? && r.body.Some? && |r.body.value| > maxRequestEvents
      ensures status.Accepted? ==> r.body.Some? && |r.body.value| <= maxRequestEvents
      ensures status.Accepted? && ingestToken.Some? ==> r.token == ingestToken.value && r.token != ""
      ensures !status.Accepted? ==> unchanged(this) && accepted == dropped == 0
      ensures status.Accepted? ==> past == Offered(old(past), r.edge, r.body.value, meanwhile, |r.body.value|, capacity)
      ensures status.Accepted? ==> accepted == |Kept(old(past), r.edge, r.body.value, meanwhile, |r.body.value|, capacity)|
      ensures status.Accepted? ==> accepted + dropped == |r.body.value|
    {
      accepted, dropped := 0, 0;
      if ingestToken.Some? {
        if r.token == "" || r.token != ingestToken.value {
          return Unauthorized, 0, 0;
        }
      }
      if r.body.None? {
        return BadRequest, 0, 0;
      }
      var events := r.body.value;
      if |events| > maxRequestEvents {
        return TooLarge, 0, 0;
      }
      for i := 0 to |events|
        invariant Valid()
        invariant accepted + dropped == i
        invariant past == Offered(old(past), r.edge, events, meanwhile, i, capacity)
        invariant accepted == |Kept(old(past), r.edge, events, meanwhile, i, capacity)|
      {
        Play(meanwhile(i));
        var ok := Send(Tagged(r.edge, events[i]));
        if ok {
          accepted := accepted + 1;
        } else {
          dropped := dropped + 1;
        }
      }
      return Accepted, accepted, dropped;
    }

    /** A round: waits for one event, then takes more while it finds them and the batch has room. */
    method GatherBatch(maxBatch: int, arrivals: nat -> seq<Tagged>, k: nat) returns (batch: seq<Tagged>, next: nat)
      requires Valid()
      modifies this
      ensures Valid()
      ensures (past, next) == Round(old(past), maxBatch, arrivals, k, capacity)
      ensures past.taken == old(past).taken + batch
    {
      SendAll(arrivals(k));
      next := k + 1;
      var first := Receive();
      if first.None? {
        return [], next;
      }
      batch := [first.value];
      ghost var room := if maxBatch < 1 then 0 else maxBatch - 1;
      ghost var start := past;
      while |batch| < maxBatch
        invariant Valid() && 1 <= |batch| <= room + 1
        invariant past.taken == old(past).taken + batch
        invariant Gathered(past, room + 1 - |batch|, arrivals, next, capacity) == Gathered(start, room, arrivals, k + 1, capacity)
        decreases maxBatch - |batch|
      {
        SendAll(arrivals(next));
        next := next + 1;
        var more := Receive();
        if more.None? {
          break;
        }
        batch := batch + [more.value];
      }
    }

    /** Every event of a batch goes to the data-plane once; a failed write is not retried. */
    method WriteBatch(batch: seq<Tagged>, writes: nat -> bool, ghost attempted: seq<Tagged>, attempts: nat) returns (written: seq<Tagged>)
      requires attempts == |attempted|
      ensures Written(attempted + batch, writes, 0) == Written(attempted, writes, 0) + written
    {
      written := [];
      for i := 0 to |batch|
        invariant written == Written(batch[..i], writes, attempts)
      {
        assert batch[..i + 1][..i] == batch[..i];
        if writes(attempts + i) {
          written := written + [batch[i]];
        }
      }
      assert batch[..|batch|] == batch;
      WrittenParts(attempted, batch, writes, 0);
    }

    /** One round of the writer: what it took is attempted, once each. */
    method WriteRound(maxBatch: int, arrivals: nat -> seq<Tagged>, k: nat, writes: nat -> bool,
                      ghost start: seq<Tagged>, ghost attempted: seq<Tagged>, attempts: nat)
      returns (batch: seq<Tagged>, written: seq<Tagged>, next: nat)
      requires Valid() && attempts == |attempted| && past.taken == start + attempted
      modifies this
      ensures Valid() && (past, next) == Round(old(past), maxBatch, arrivals, k, capacity)
      ensures past.taken == start + (attempted + batch)
      ensures Written(attempted + batch, writes, 0) == Written(attempted, writes, 0) + written
    {
      batch, next := GatherBatch(maxBatch, arrivals, k);
      written := WriteBatch(batch, writes, attempted, attempts);
    }

    /**
     The writer, for `passes` rounds. Before its k-th receive the handlers send `arrivals(k)`; its k-th write
     succeeds if `writes(k)`. Every event it takes is attempted once, in the buffer's order.
     */
    method RunWriter(maxBatch: int, passes: nat, arrivals: nat -> seq<Tagged>, writes: nat -> bool)
      returns (attempted: seq<Tagged>, written: seq<Tagged>)
      requires Valid()
      modifies this
      ensures Valid() && past == Rounds(old(past), maxBatch, passes, arrivals, 0, capacity).0
      ensures past.taken == old(past).taken + attempted
      ensures written == Written(attempted, writes, 0)
    {
      attempted, written := [], [];
      var k := 0;
      for pass := 0 to passes
        invariant Valid()
        invariant (past, k) == Rounds(old(past), maxBatch, pass, arrivals, 0, capacity)
        invariant past.taken == old(past).taken + attempted
        invariant written == Written(attempted, writes, 0)
      {
        OneMoreRound(old(past), maxBatch, pass, arrivals, 0, capacity);
        var batch, done;
        batch, done, k := WriteRound(maxBatch, arrivals, k, writes, old(past).taken, attempted, |attempted|);
        attempted, written := attempted + batch, written + done;
      }
    }
  }

  // ---------------------------------------------------------------- one edge, end to end

  /** The events of one edge, in order. */
  function From(edge: string, log: seq<Tagged>): seq<Event> {
    if log == [] then []
    else
      var last := log[|log| - 1];
      From(edge, log[..|log| - 1]) + (if last.edge == edge then [last.event] else [])
  }

  lemma {:induction false} FromParts(edge: string, a: seq<Tagged>, b: seq<Tagged>)
    ensures From(edge, a + b) == From(edge, a) + From(edge, b)
  {
    if b == [] {
      assert a + b == a;
    } else {
      var n := |b| - 1;
      assert (a + b)[..|a + b| - 1] == a + b[..n];
      FromParts(edge, a, b[..n]);
    }
  }

  /** The bodies of an edge's admissible requests, one after the other. */
  function Bodies(edge: string, requests: seq<Request>): seq<Event> {
    if requests == [] then []
    else
      var last := requests[|requests| - 1];
      Bodies(edge, requests[..|requests| - 1]) + (if last.edge == edge then last.body.GetOr([]) else [])
  }

  // ---------------------------------------------------------------- many handlers at once

  /** A handler offers the next event of request `i`, or the writer receives. */
  datatype Turn = Offer(i: nat) | Drain

  /** The buffer, and for each request how far its handler is and what it got in. */
  datatype Floor = Floor(state: State, cursor: seq<nat>, kept: seq<seq<Event>>)

  predicate Sound(f: Floor, requests: seq<Request>) {
    && |f.cursor| == |f.kept| == |requests|
    && forall i :: 0 <= i < |requests| ==> f.cursor[i] <= |requests[i].body.GetOr([])|
  }

  function Opened(requests: seq<Request>): (f: Floor)
    ensures Sound(f, requests)
  {
    Floor(State([], [], []), seq(|requests|, i => 0), seq(|requests|, i => []))
  }

  function Turned(f: Floor, requests: seq<Request>, t: Turn, capacity: nat): (g: Floor)
    requires Sound(f, requests)
    ensures Sound(g, requests)
  {
    match t
    case Drain => f.(state := Took(f.state))
    case Offer(i) =>
      if i >= |requests| || f.cursor[i] == |requests[i].body.GetOr([])| then f
      else
        var e := requests[i].body.GetOr([])[f.cursor[i]];
        Floor(Sent(f.state, Tagged(requests[i].edge, e), capacity),
              f.cursor[i := f.cursor[i] + 1],
              if |f.state.queue| < capacity then f.kept[i := f.kept[i] + [e]] else f.kept)
  }

  function Played(requests: seq<Request>, script: seq<Turn>, capacity: nat): (f: Floor)
    ensures Sound(f, requests)
  {
    if script == [] then Opened(requests)
    else Turned(Played(requests, script[..|script| - 1], capacity), requests, script[|script| - 1], capacity)
  }

  /** How far the handlers are; the buffer has no say in it. */
  function Progress(requests: seq<Request>, script: seq<Turn>): (cursor: seq<nat>)
    ensures |cursor| == |requests|
  {
    if script == [] then seq(|requests|, i => 0)
    else
      var before, t := Progress(requests, script[..|script| - 1]), script[|script| - 1];
      if t.Offer? && t.i < |requests| && before[t.i] < |requests[t.i].body.GetOr([])| then before[t.i := before[t.i] + 1]
      else before
  }

  lemma {:induction false} ProgressIsPlayed(requests: seq<Request>, script: seq<Turn>, capacity: nat)
    ensures Played(requests, script, capacity).cursor == Progress(requests, script)
  {
    if script != [] {
      ProgressIsPlayed(requests, script[..|script| - 1], capacity);
    }
  }

  /** At turn `p` a handler of the edge has an event to offer. */
  predicate Offers(requests: seq<Request>, script: seq<Turn>, edge: string, p: nat) {
    && p < |script| && script[p].Offer? && script[p].i < |requests| && requests[script[p].i].edge == edge
    && Progress(requests, script[..p])[script[p].i] < |requests[script[p].i].body.GetOr([])|
  }

  /** No event of a later request of the edge is offered before one of an earlier request. */
  predicate InTurn(requests: seq<Request>, script: seq<Turn>, edge: string) {
    forall p, q | 0 <= p < q < |script| :: Offers(requests, script, edge, p) && Offers(requests, script, edge, q)
      ==> script[p].i <= script[q].i
  }

  lemma OffersBefore(requests: seq<Request>, script: seq<Turn>, edge: string, n: nat, p: nat)
    requires p < n <= |script|
    ensures Offers(requests, script[..n], edge, p) <==> Offers(requests, script, edge, p)
  {
    assert script[..n][..p] == script[..p] && script[..n][p] == script[p];
  }

  lemma InTurnBefore(requests: seq<Request>, script: seq<Turn>, edge: string)
    requires script != [] && InTurn(requests, script, edge)
    ensures InTurn(requests, script[..|script| - 1], edge)
  {
    var n := |script| - 1;
    forall p, q | 0 <= p < q < n && Offers(requests, script[..n], edge, p) && Offers(requests, script[..n], edge, q)
      ensures script[..n][p].i <= script[..n][q].i
    {
      OffersBefore(requests, script, edge, n, p);
      OffersBefore(requests, script, edge, n, q);
    }
  }

  /** A handler that is under way has offered something. */
  lemma {:induction false} HasOffered(requests: seq<Request>, script: seq<Turn>, j: nat) returns (p: nat)
    requires j < |requests| && Progress(requests, script)[j] > 0
    ensures Offers(requests, script, requests[j].edge, p) && script[p] == Offer(j)
  {
    var n := |script| - 1;
    if Progress(requests, script[..n])[j] > 0 {
      p := HasOffered(requests, script[..n], j);
      OffersBefore(requests, script, requests[j].edge, n, p);
    } else {
      p := n;
    }
  }

  /** What the requests of one edge got in, request by request. */
  function Got(edge: string, requests: seq<Request>, kept: seq<seq<Event>>): seq<Event>
    requires |kept| == |requests|
  {
    if requests == [] then []
    else
      var n := |requests| - 1;
      Got(edge, requests[..n], kept[..n]) + (if requests[n].edge == edge then kept[n] else [])
  }

  /** Nothing of the edge is in after request `i`. */
  predicate Last(edge: string, requests: seq<Request>, kept: seq<seq<Event>>, i: nat)
    requires |kept| == |requests|
  {
    forall j :: i < j < |requests| && requests[j].edge == edge ==> kept[j] == []
  }

  lemma {:induction false} GotOneMore(edge: string, requests: seq<Request>, kept: seq<seq<Event>>, i: nat, e: Event)
    requires |kept| == |requests| && i < |requests|
    requires requests[i].edge == edge ==> Last(edge, requests, kept, i)
    ensures Got(edge, requests, kept[i := kept[i] + [e]])
      == Got(edge, requests, kept) + (if requests[i].edge == edge then [e] else [])
  {
    var n, more := |requests| - 1, kept[i := kept[i] + [e]];
    if i == n {
      assert more[..n] == kept[..n];
    } else {
      assert more[..n] == kept[..n][i := kept[..n][i] + [e]];
      GotOneMore(edge, requests[..n], kept[..n], i, e);
    }
  }

  /** What a handler got in is a selection of what it has offered. */
  ghost predicate Selected(f: Floor, requests: seq<Request>)
    requires Sound(f, requests)
  {
    forall i :: 0 <= i < |requests| ==> Subsequence(f.kept[i], requests[i].body.GetOr([])[..f.cursor[i]])
  }

  lemma KeptOneMore(f: Floor, requests: seq<Request>, i: nat, capacity: nat)
    requires Sound(f, requests) && Selected(f, requests) && i < |requests| && f.cursor[i] < |requests[i].body.GetOr([])|
    ensures Selected(Turned(f, requests, Offer(i), capacity), requests)
  {
    var events, c := requests[i].body.GetOr([]), f.cursor[i];
    assert events[..c + 1] == events[..c] + [events[c]];
    OneMoreKept(f.kept[i], events[..c], events[c], |f.state.queue| < capacity);
    assert f.kept[i] + [] == f.kept[i];
  }

  /** However handlers and writer interleave, every request gets in a selection of its events. */
  lemma {:induction false} EachIsSelected(requests: seq<Request>, script: seq<Turn>, capacity: nat)
    ensures Selected(Played(requests, script, capacity), requests)
  {
    if script == [] {
      forall i | 0 <= i < |requests| ensures Subsequence<Event>([], requests[i].body.GetOr([])[..0]) {
        EmptyIsSubsequence(requests[i].body.GetOr([])[..0]);
      }
    } else {
      var before, t := Played(requests, script[..|script| - 1], capacity), script[|script| - 1];
      EachIsSelected(requests, script[..|script| - 1], capacity);
      if t.Offer? && t.i < |requests| && before.cursor[t.i] < |requests[t.i].body.GetOr([])| {
        KeptOneMore(before, requests, t.i, capacity);
      }
    }
  }

  /** An edge's events are in the buffer's log request by request. */
  ghost predicate ByRequest(f: Floor, requests: seq<Request>, edge: string)
    requires Sound(f, requests)
  {
    From(edge, f.state.admitted) == Got(edge, requests, f.kept)
  }

  lemma OfferKeepsOrder(f: Floor, requests: seq<Request>, i: nat, capacity: nat, edge: string)
    requires Sound(f, requests) && ByRequest(f, requests, edge) && i < |requests| && f.cursor[i] < |requests[i].body.GetOr([])|
    requires requests[i].edge == edge ==> Last(edge, requests, f.kept, i)
    ensures ByRequest(Turned(f, requests, Offer(i), capacity), requests, edge)
  {
    var e := requests[i].body.GetOr([])[f.cursor[i]];
    if |f.state.queue| < capacity {
      FromOneMore(edge, f.state.admitted, Tagged(requests[i].edge, e));
      GotOneMore(edge, requests, f.kept, i, e);
    }
  }

  lemma FromOneMore(edge: string, log: seq<Tagged>, e: Tagged)
    ensures From(edge, log + [e]) == From(edge, log) + (if e.edge == edge then [e.event] else [])
  {
    assert (log + [e])[..|log|] == log;
  }

  lemma NothingGot(edge: string, requests: seq<Request>, kept: seq<seq<Event>>)
    requires |kept| == |requests| && forall i :: 0 <= i < |kept| ==> kept[i] == []
    ensures Got(edge, requests, kept) == []
  {
  }

  /** Only handlers under way have got anything in. */
  lemma {:induction false} UntouchedSoFar(requests: seq<Request>, script: seq<Turn>, capacity: nat, j: nat)
    requires j < |requests| && Progress(requests, script)[j] == 0
    ensures Played(requests, script, capacity).kept[j] == []
  {
    if script != [] {
      UntouchedSoFar(requests, script[..|script| - 1], capacity, j);
      ProgressIsPlayed(requests, script[..|script| - 1], capacity);
    }
  }

  /** When the last turn is an offer of the edge in turn, nothing of its later requests is in yet. */
  lemma NothingLaterYet(requests: seq<Request>, script: seq<Turn>, capacity: nat, edge: string)
    requires script != [] && InTurn(requests, script, edge) && Offers(requests, script, edge, |script| - 1)
    ensures Last(edge, requests, Played(requests, script[..|script| - 1], capacity).kept, script[|script| - 1].i)
  {
    var n, i := |script| - 1, script[|script| - 1].i;
    forall j | i < j < |requests| && requests[j].edge == edge
      ensures Played(requests, script[..n], capacity).kept[j] == []
    {
      if Progress(requests, script[..n])[j] > 0 {
        var p := HasOffered(requests, script[..n], j);
        OffersBefore(requests, script, edge, n, p);
      }
      UntouchedSoFar(requests, script[..n], capacity, j);
    }
  }

  /** While an edge's offers are in turn, its events get in request by request. */
  lemma {:induction false} ScriptKeepsOrder(requests: seq<Request>, script: seq<Turn>, capacity: nat, edge: string)
    requires InTurn(requests, script, edge)
    ensures ByRequest(Played(requests, script, capacity), requests, edge)
  {
    if script == [] {
      NothingGot(edge, requests, Played(requests, script, capacity).kept);
    } else {
      var n, t := |script| - 1, script[|script| - 1];
      InTurnBefore(requests, script, edge);
      ScriptKeepsOrder(requests, script[..n], capacity, edge);
      ProgressIsPlayed(requests, script[..n], capacity);
      var before := Played(requests, script[..n], capacity);
      if t.Offer? && t.i < |requests| && before.cursor[t.i] < |requests[t.i].body.GetOr([])| {
        if requests[t.i].edge == edge {
          NothingLaterYet(requests, script, capacity, edge);
        }
        OfferKeepsOrder(before, requests, t.i, capacity, edge);
      }
    }
  }

  lemma {:induction false} GotIsSelection(edge: string, requests: seq<Request>, kept: seq<seq<Event>>)
    requires |kept| == |requests|
    requires forall i :: 0 <= i < |requests| ==> Subsequence(kept[i], requests[i].body.GetOr([]))
    ensures Subsequence(Got(edge, requests, kept), Bodies(edge, requests))
  {
    if requests == [] {
      EmptyIsSubsequence<Event>([]);
    } else {
      var n := |requests| - 1;
      assert forall i :: 0 <= i < n ==> requests[..n][i] == requests[i] && kept[..n][i] == kept[i];
      GotIsSelection(edge, requests[..n], kept[..n]);
      EmptyIsSubsequence<Event>([]);
      SubsequenceParts(Got(edge, requests[..n], kept[..n]), Bodies(edge, requests[..n]),
                       if requests[n].edge == edge then kept[n] else [],
                       if requests[n].edge == edge then requests[n].body.GetOr([]) else []);
    }
  }

  /** What an edge's requests got in, put together in their order, is a selection of what it sent. */
  lemma GotFromScript(requests: seq<Request>, script: seq<Turn>, capacity: nat, edge: string)
    ensures Subsequence(Got(edge, requests, Played(requests, script, capacity).kept), Bodies(edge, requests))
  {
    var f := Played(requests, script, capacity);
    EachIsSelected(requests, script, capacity);
    forall i | 0 <= i < |requests| ensures Subsequence(f.kept[i], requests[i].body.GetOr([])) {
      var body, c := requests[i].body.GetOr([]), f.cursor[i];
      SubsequenceOfPrefix(f.kept[i], body[..c], body[c..]);
      assert body[..c] + body[c..] == body;
    }
    GotIsSelection(edge, requests, f.kept);
  }

  /**
   However the handlers of all edges interleave with each other and with the writer, what one edge got in is a
   selection, in order, of what it sent, if its offers are in turn.
   */
  lemma AdmittedInOrder(requests: seq<Request>, script: seq<Turn>, capacity: nat, edge: string)
    requires InTurn(requests, script, edge)
    ensures Subsequence(From(edge, Played(requests, script, capacity).state.admitted), Bodies(edge, requests))
  {
    ScriptKeepsOrder(requests, script, capacity, edge);
    GotFromScript(requests, script, capacity, edge);
  }

  /** The event takes some place among what the edge got in. */
  lemma {:induction false} GotInserted(edge: string, requests: seq<Request>, kept: seq<seq<Event>>, i: nat, e: Event) returns (k: nat)
    requires |kept| == |requests| && i < |requests| && requests[i].edge == edge
    ensures var got := Got(edge, requests, kept);
      k <= |got| && Got(edge, requests, kept[i := kept[i] + [e]]) == got[..k] + [e] + got[k..]
  {
    var n, more, got := |requests| - 1, kept[i := kept[i] + [e]], Got(edge, requests, kept);
    if i == n {
      assert more[..n] == kept[..n];
      k := |got|;
    } else {
      assert more[..n] == kept[..n][i := kept[..n][i] + [e]];
      k := GotInserted(edge, requests[..n], kept[..n], i, e);
      var before := Got(edge, requests[..n], kept[..n]);
      assert got[..k] == before[..k];
    }
  }

  lemma GotBag(edge: string, requests: seq<Request>, kept: seq<seq<Event>>, i: nat, e: Event)
    requires |kept| == |requests| && i < |requests|
    ensures multiset(Got(edge, requests, kept[i := kept[i] + [e]]))
      == multiset(Got(edge, requests, kept)) + (if requests[i].edge == edge then multiset{e} else multiset{})
  {
    if requests[i].edge == edge {
      var k := GotInserted(edge, requests, kept, i, e);
      var got := Got(edge, requests, kept);
      assert got == got[..k] + got[k..];
    } else {
      GotOneMore(edge, requests, kept, i, e);
      assert Got(edge, requests, kept) + [] == Got(edge, requests, kept);
    }
  }

  lemma SameBag(f: Floor, requests: seq<Request>, i: nat, capacity: nat, edge: string)
    requires Sound(f, requests) && i < |requests| && f.cursor[i] < |requests[i].body.GetOr([])|
    requires multiset(From(edge, f.state.admitted)) == multiset(Got(edge, requests, f.kept))
    ensures var g := Turned(f, requests, Offer(i), capacity); multiset(From(edge, g.state.admitted)) == multiset(Got(edge, requests, g.kept))
  {
    if |f.state.queue| < capacity {
      var e := requests[i].body.GetOr([])[f.cursor[i]];
      FromOneMore(edge, f.state.admitted, Tagged(requests[i].edge, e));
      GotBag(edge, requests, f.kept, i, e);
      if requests[i].edge != edge {
        assert From(edge, f.state.admitted) + [] == From(edge, f.state.admitted);
      }
    }
  }

  lemma {:induction false} FromIsGotBag(requests: seq<Request>, script: seq<Turn>, capacity: nat, edge: string)
    ensures var f := Played(requests, script, capacity); multiset(From(edge, f.state.admitted)) == multiset(Got(edge, requests, f.kept))
  {
    if script == [] {
      NothingGot(edge, requests, Played(requests, script, capacity).kept);
    } else {
      var before, t := Played(requests, script[..|script| - 1], capacity), script[|script| - 1];
      FromIsGotBag(requests, script[..|script| - 1], capacity, edge);
      if t.Offer? && t.i < |requests| && before.cursor[t.i] < |requests[t.i].body.GetOr([])| {
        SameBag(before, requests, t.i, capacity, edge);
      }
    }
  }

  /** Whatever the order, no event of an edge gets in more often than it was sent. */
  lemma NothingIsDuplicated(requests: seq<Request>, script: seq<Turn>, capacity: nat, edge: string)
    ensures multiset(From(edge, Played(requests, script, capacity).state.admitted)) <= multiset(Bodies(edge, requests))
  {
    FromIsGotBag(requests, script, capacity, edge);
    GotFromScript(requests, script, capacity, edge);
    SubsequenceCounts(Got(edge, requests, Played(requests, script, capacity).kept), Bodies(edge, requests));
  }

  // ---------------------------------------------------------------- overtaking requests

  /** Where a request's body begins among the edge's. */
  function StartOf(edge: string, requests: seq<Request>, i: nat): nat
    requires i <= |requests|
  {
    |Bodies(edge, requests[..i])|
  }

  lemma {:induction false} BodiesGrow(edge: string, requests: seq<Request>, i: nat)
    requires i <= |requests|
    ensures Bodies(edge, requests[..i]) <= Bodies(edge, requests)
    decreases |requests|
  {
    if i < |requests| {
      var n := |requests| - 1;
      BodiesGrow(edge, requests[..n], i);
      assert requests[..n][..i] == requests[..i];
    } else {
      assert requests[..i] == requests;
    }
  }

  lemma OneMoreBody(edge: string, requests: seq<Request>, i: nat)
    requires i < |requests| && requests[i].edge == edge
    ensures Bodies(edge, requests[..i + 1]) == Bodies(edge, requests[..i]) + requests[i].body.GetOr([])
  {
    var some := requests[..i + 1];
    assert some[..|some| - 1] == requests[..i] && some[|some| - 1] == requests[i];
  }

  lemma PlaceOf(edge: string, requests: seq<Request>, i: nat, c: nat)
    requires i < |requests| && requests[i].edge == edge && c < |requests[i].body.GetOr([])|
    ensures StartOf(edge, requests, i) + c < StartOf(edge, requests, i + 1) <= |Bodies(edge, requests)|
    ensures Bodies(edge, requests)[StartOf(edge, requests, i) + c] == requests[i].body.GetOr([])[c]
  {
    OneMoreBody(edge, requests, i);
    BodiesGrow(edge, requests, i + 1);
    InBeginning(Bodies(edge, requests[..i]), requests[i].body.GetOr([]), Bodies(edge, requests), c);
  }

  lemma InBeginning(a: seq<Event>, b: seq<Event>, whole: seq<Event>, c: nat)
    requires a + b <= whole && c < |b|
    ensures |a| + c < |whole| && whole[|a| + c] == b[c]
  {
    assert (a + b)[|a| + c] == b[c];
  }

  lemma PlacesInOrder(edge: string, requests: seq<Request>, j: nat, i: nat)
    requires j < i <= |requests|
    ensures StartOf(edge, requests, j + 1) <= StartOf(edge, requests, i)
  {
    BodiesGrow(edge, requests[..i], j + 1);
    assert requests[..i][..j + 1] == requests[..j + 1];
  }

  lemma {:induction false} QueueIsShort(requests: seq<Request>, script: seq<Turn>, capacity: nat)
    ensures |Played(requests, script, capacity).state.queue| <= |script|
  {
    if script != [] {
      QueueIsShort(requests, script[..|script| - 1], capacity);
    }
  }

  function EventAt(requests: seq<Request>, script: seq<Turn>, edge: string, p: nat): Event
    requires Offers(requests, script, edge, p)
  {
    requests[script[p].i].body.GetOr([])[Progress(requests, script[..p])[script[p].i]]
  }

  /** With room for everything an offered event is the next of its edge's to get in. */
  lemma OfferedGetsIn(requests: seq<Request>, script: seq<Turn>, edge: string, p: nat)
    requires Offers(requests, script, edge, p)
    ensures From(edge, Played(requests, script[..p + 1], |script|).state.admitted)
      == From(edge, Played(requests, script[..p], |script|).state.admitted) + [EventAt(requests, script, edge, p)]
  {
    var before := Played(requests, script[..p], |script|);
    assert script[..p + 1][..p] == script[..p] && script[..p + 1][p] == script[p];
    QueueIsShort(requests, script[..p], |script|);
    ProgressIsPlayed(requests, script[..p], |script|);
    FromOneMore(edge, before.state.admitted, Tagged(edge, EventAt(requests, script, edge, p)));
  }

  lemma {:induction false} LogGrows(requests: seq<Request>, script: seq<Turn>, capacity: nat, edge: string, k: nat)
    requires k <= |script|
    ensures From(edge, Played(requests, script[..k], capacity).state.admitted)
      <= From(edge, Played(requests, script, capacity).state.admitted)
    decreases |script|
  {
    if k < |script| {
      var n := |script| - 1;
      LogGrows(requests, script[..n], capacity, edge, k);
      assert script[..n][..k] == script[..k];
      var before, after := Played(requests, script[..n], capacity).state.admitted, Played(requests, script, capacity).state.admitted;
      assert after == before + after[|before|..];
      FromParts(edge, before, after[|before|..]);
    } else {
      assert script[..k] == script;
    }
  }

  /** In which place of the edge's log an offered event ends up. */
  lemma LoggedAt(requests: seq<Request>, script: seq<Turn>, edge: string, p: nat) returns (u: nat)
    requires Offers(requests, script, edge, p)
    ensures var log := From(edge, Played(requests, script, |script|).state.admitted);
      u < |log| && log[u] == EventAt(requests, script, edge, p)
    ensures u == |From(edge, Played(requests, script[..p], |script|).state.admitted)|
    ensures u + 1 == |From(edge, Played(requests, script[..p + 1], |script|).state.admitted)|
  {
    u := |From(edge, Played(requests, script[..p], |script|).state.admitted)|;
    OfferedGetsIn(requests, script, edge, p);
    LogGrows(requests, script, |script|, edge, p + 1);
  }

  predicate NoTwice(events: seq<Event>) {
    forall a, b | 0 <= a < b < |events| :: events[a] != events[b]
  }

  /** A selection keeps the order of any two events. */
  lemma SelectionKeepsPlaces(log: seq<Event>, sent: seq<Event>, u: nat, v: nat, a: nat, b: nat)
    requires Subsequence(log, sent) && NoTwice(sent) && u < v < |log| && a < |sent| && b < |sent|
    requires log[u] == sent[a] && log[v] == sent[b]
    ensures a < b
  {
    var f :| Picks(f, log, sent);
    assert f[u] == a && f[v] == b;
  }

  /** Two events that were offered one after the other are in the log one after the other. */
  lemma LoggedInOrder(requests: seq<Request>, script: seq<Turn>, edge: string, p: nat, q: nat) returns (u: nat, v: nat)
    requires p < q && Offers(requests, script, edge, p) && Offers(requests, script, edge, q)
    ensures var log := From(edge, Played(requests, script, |script|).state.admitted);
      u < v < |log| && log[u] == EventAt(requests, script, edge, p) && log[v] == EventAt(requests, script, edge, q)
  {
    u := LoggedAt(requests, script, edge, p);
    v := LoggedAt(requests, script, edge, q);
    LogGrows(requests, script[..q], |script|, edge, p + 1);
    assert script[..q][..p + 1] == script[..p + 1];
  }

  /** The places of two events among what the edge sent. */
  lemma SentInOrder(requests: seq<Request>, script: seq<Turn>, edge: string, p: nat, q: nat) returns (a: nat, b: nat)
    requires Offers(requests, script, edge, p) && Offers(requests, script, edge, q) && script[p].i > script[q].i
    ensures var sent := Bodies(edge, requests);
      b < a < |sent| && sent[a] == EventAt(requests, script, edge, p) && sent[b] == EventAt(requests, script, edge, q)
  {
    var i, j := script[p].i, script[q].i;
    var c, d := Progress(requests, script[..p])[i], Progress(requests, script[..q])[j];
    PlaceOf(edge, requests, i, c);
    PlaceOf(edge, requests, j, d);
    PlacesInOrder(edge, requests, j, i);
    a, b := StartOf(edge, requests, i) + c, StartOf(edge, requests, j) + d;
  }

  /** An offer out of turn: with room for everything, the order is lost. */
  lemma OvertakingReorders(requests: seq<Request>, script: seq<Turn>, edge: string)
    requires !InTurn(requests, script, edge) && NoTwice(Bodies(edge, requests))
    ensures !Subsequence(From(edge, Played(requests, script, |script|).state.admitted), Bodies(edge, requests))
  {
    var p, q :| 0 <= p < q < |script| && Offers(requests, script, edge, p) && Offers(requests, script, edge, q) && script[p].i > script[q].i;
    var u, v := LoggedInOrder(requests, script, edge, p, q);
    var a, b := SentInOrder(requests, script, edge, p, q);
    if Subsequence(From(edge, Played(requests, script, |script|).state.admitted), Bodies(edge, requests)) {
      SelectionKeepsPlaces(From(edge, Played(requests, script, |script|).state.admitted), Bodies(edge, requests), u, v, a, b);
    }
  }

  /** For every capacity what the edge got in is a selection, in order, of what it sent. */
  ghost predicate AlwaysInOrder(requests: seq<Request>, script: seq<Turn>, edge: string) {
    forall capacity :: Subsequence(From(edge, Played(requests, script, capacity).state.admitted), Bodies(edge, requests))
  }

  /** When no event was sent twice, the order is kept, for every capacity, if and only if the edge's offers are in turn. */
  lemma AdmittedInOrderExactly(requests: seq<Request>, script: seq<Turn>, edge: string)
    requires NoTwice(Bodies(edge, requests))
    ensures AlwaysInOrder(requests, script, edge) <==> InTurn(requests, script, edge)
  {
    if InTurn(requests, script, edge) {
      forall capacity ensures Subsequence(From(edge, Played(requests, script, capacity).state.admitted), Bodies(edge, requests)) {
        AdmittedInOrder(requests, script, capacity, edge);
      }
    } else {
      OvertakingReorders(requests, script, edge);
    }
  }

  /**
   A POST that timed out at the edge goes on in its handler, and the next one can overtake it: two requests of
   one edge, and the later one's event gets in first.
   */
  lemma TimedOutPostIsOvertaken(edge: string, x: Event, y: Event)
    requires x != y
    ensures var requests := [Request(edge, "", Some([x])), Request(edge, "", Some([y]))];
      !Subsequence(From(edge, Played(requests, [Offer(1), Offer(0)], 2).state.admitted), Bodies(edge, requests))
  {
    var first, second := Request(edge, "", Some([x])), Request(edge, "", Some([y]));
    var requests, script := [first, second], [Offer(1), Offer(0)];
    assert script[..0] == [] && script[..1] == [Offer(1)] && [Offer(1)][..0] == [];
    assert Offers(requests, script, edge, 0) && Offers(requests, script, edge, 1);
    assert requests[..1] == [first] && [first][..0] == [];
    assert Bodies(edge, [first]) == [x];
    assert Bodies(edge, requests) == [x, y];
    OvertakingReorders(requests, script, edge);
  }

  lemma {:induction false} PlayedIsBalanced(requests: seq<Request>, script: seq<Turn>, capacity: nat)
    ensures Played(requests, script, capacity).state.Balanced(capacity)
  {
    if script != [] {
      PlayedIsBalanced(requests, script[..|script| - 1], capacity);
    }
  }

  /** What the handlers have counted so far. */
  predicate Counted(f: Floor, requests: seq<Request>, cursor: seq<nat>, accepted: seq<nat>, dropped: seq<nat>)
    requires Sound(f, requests)
  {
    && cursor == f.cursor && |accepted| == |dropped| == |requests|
    && forall i :: 0 <= i < |requests| ==> accepted[i] == |f.kept[i]| && accepted[i] + dropped[i] == f.cursor[i]
  }

  /** One turn of a handler or of the writer. */
  method ServeTurn(buffer: Buffer, requests: seq<Request>, t: Turn, ghost f: Floor, cursor: seq<nat>, accepted: seq<nat>, dropped: seq<nat>)
    returns (cursor': seq<nat>, accepted': seq<nat>, dropped': seq<nat>)
    requires buffer.Valid() && Sound(f, requests) && buffer.past == f.state && Counted(f, requests, cursor, accepted, dropped)
    requires forall i :: 0 <= i < |requests| ==> buffer.StatusOf(requests[i]).Accepted?
    modifies buffer
    ensures buffer.Valid() && buffer.past == Turned(f, requests, t, buffer.capacity).state
    ensures Counted(Turned(f, requests, t, buffer.capacity), requests, cursor', accepted', dropped')
  {
    cursor', accepted', dropped' := cursor, accepted, dropped;
    match t {
      case Drain => var e := buffer.Receive();
      case Offer(i) =>
        if i < |requests| && cursor[i] < |requests[i].body.value| {
          var ok := buffer.Send(Tagged(requests[i].edge, requests[i].body.value[cursor[i]]));
          cursor' := cursor[i := cursor[i] + 1];
          if ok {
            accepted' := accepted[i := accepted[i] + 1];
          } else {
            dropped' := dropped[i := dropped[i] + 1];
          }
        }
    }
  }

  /** The admitted requests' handlers and the writer at work on one buffer; what each handler has counted. */
  method ServeScript(buffer: Buffer, requests: seq<Request>, script: seq<Turn>) returns (accepted: seq<nat>, dropped: seq<nat>)
    requires buffer.Valid() && buffer.past == State([], [], [])
    requires forall i :: 0 <= i < |requests| ==> buffer.StatusOf(requests[i]).Accepted?
    modifies buffer
    ensures buffer.Valid() && buffer.past == Played(requests, script, buffer.capacity).state
    ensures var f := Played(requests, script, buffer.capacity); Counted(f, requests, f.cursor, accepted, dropped)
  {
    accepted, dropped := seq(|requests|, i => 0), seq(|requests|, i => 0);
    var cursor := seq(|requests|, i => 0);
    for p := 0 to |script|
      invariant buffer.Valid() && buffer.past == Played(requests, script[..p], buffer.capacity).state
      invariant Counted(Played(requests, script[..p], buffer.capacity), requests, cursor, accepted, dropped)
    {
      assert script[..p + 1][..p] == script[..p];
      cursor, accepted, dropped :=
        ServeTurn(buffer, requests, script[p], Played(requests, script[..p], buffer.capacity), cursor, accepted, dropped);
    }
    assert script[..|script|] == script;
  }

  /** The shipments that reached the control-plane. */
  function Reached(shipments: seq<Shipment>): seq<Event> {
    if shipments == [] then []
    else
      var last := shipments[|shipments| - 1];
      Reached(shipments[..|shipments| - 1]) + (if last.outcome.reached then last.events else [])
  }

  lemma {:induction false} ReachedAreShipped(shipments: seq<Shipment>)
    ensures Subsequence(Reached(shipments), Shipped(shipments))
  {
    if shipments == [] {
      EmptyIsSubsequence<Event>([]);
    } else {
      var n := |shipments| - 1;
      ReachedAreShipped(shipments[..n]);
      EmptyIsSubsequence(shipments[n].events);
      SelfIsSubsequence(shipments[n].events);
      SubsequenceParts(Reached(shipments[..n]), Shipped(shipments[..n]),
                       if shipments[n].outcome.reached then shipments[n].events else [], shipments[n].events);
    }
  }

  lemma {:induction false} FromSelection(edge: string, a: seq<Tagged>, b: seq<Tagged>)
    requires Subsequence(a, b)
    ensures Subsequence(From(edge, a), From(edge, b))
    decreases |a|
  {
    if a == [] {
      EmptyIsSubsequence(From(edge, b));
    } else {
      var f :| Picks(f, a, b);
      var n, k := |a| - 1, f[|a| - 1];
      assert Picks(f[..n], a[..n], b[..k]);
      FromSelection(edge, a[..n], b[..k]);
      assert b == (b[..k] + [b[k]]) + b[k + 1..];
      FromParts(edge, b[..k] + [b[k]], b[k + 1..]);
      FromParts(edge, b[..k], [b[k]]);
      assert [b[k]][..0] == [] && From(edge, []) == [];
      var x := if a[n].edge == edge then [a[n].event] else [];
      assert From(edge, [b[k]]) == x;
      SelfIsSubsequence(x);
      SubsequenceParts(From(edge, a[..n]), From(edge, b[..k]), x, From(edge, [b[k]]));
      SubsequenceOfPrefix(From(edge, a), From(edge, b[..k] + [b[k]]), From(edge, b[k + 1..]));
    }
  }

  /** What is written of an edge's events is a selection of what it got in. */
  lemma WrittenIsAdmitted(edge: string, s: State, capacity: nat, writes: nat -> bool)
    requires s.Balanced(capacity)
    ensures Subsequence(From(edge, Written(s.taken, writes, 0)), From(edge, s.admitted))
  {
    WrittenInOrder(s.taken, writes, 0);
    FromSelection(edge, Written(s.taken, writes, 0), s.taken);
    FromParts(edge, s.taken, s.queue);
    SelfIsSubsequence(From(edge, s.taken));
    SubsequenceOfPrefix(From(edge, s.taken), From(edge, s.taken), From(edge, s.queue));
    SubsequenceTransitive(From(edge, Written(s.taken, writes, 0)), From(edge, s.taken), From(edge, s.admitted));
  }

  lemma ShippedIsAccepted(accepted: seq<Event>, shipments: seq<Shipment>, rest: seq<Event>)
    requires accepted == Shipped(shipments) + rest
    ensures Subsequence(Reached(shipments), accepted)
  {
    ReachedAreShipped(shipments);
    SubsequenceOfPrefix(Reached(shipments), Shipped(shipments), rest);
  }

  /**
   From one edge's queue to the data-plane, when the edge's requests carry the shipments that reached the
   control-plane: nothing is written more often than it entered the queue, however batches are lost, handlers
   overtake each other and writes fail.
   */
  lemma EvidenceIsNotDuplicated(edge: string, accepted: seq<Event>, shipments: seq<Shipment>, rest: seq<Event>, requests: seq<Request>,
                                script: seq<Turn>, capacity: nat, writes: nat -> bool)
    requires accepted == Shipped(shipments) + rest && Bodies(edge, requests) == Reached(shipments)
    ensures multiset(From(edge, Written(Played(requests, script, capacity).state.taken, writes, 0))) <= multiset(accepted)
  {
    var s := Played(requests, script, capacity).state;
    PlayedIsBalanced(requests, script, capacity);
    WrittenIsAdmitted(edge, s, capacity, writes);
    SubsequenceCounts(From(edge, Written(s.taken, writes, 0)), From(edge, s.admitted));
    NothingIsDuplicated(requests, script, capacity, edge);
    ShippedIsAccepted(accepted, shipments, rest);
    SubsequenceCounts(Reached(shipments), accepted);
  }

  /** And while the edge's offers are in turn, what is written is a selection, in order, of what entered the queue. */
  lemma EvidenceStaysInOrder(edge: string, accepted: seq<Event>, shipments: seq<Shipment>, rest: seq<Event>, requests: seq<Request>,
                             script: seq<Turn>, capacity: nat, writes: nat -> bool)
    requires accepted == Shipped(shipments) + rest && Bodies(edge, requests) == Reached(shipments)
    requires InTurn(requests, script, edge)
    ensures Subsequence(From(edge, Written(Played(requests, script, capacity).state.taken, writes, 0)), accepted)
  {
    var s := Played(requests, script, capacity).state;
    PlayedIsBalanced(requests, script, capacity);
    WrittenIsAdmitted(edge, s, capacity, writes);
    AdmittedInOrder(requests, script, capacity, edge);
    SubsequenceTransitive(From(edge, Written(s.taken, writes, 0)), From(edge, s.admitted), Reached(shipments));
    ShippedIsAccepted(accepted, shipments, rest);
    SubsequenceTransitive(From(edge, Written(s.taken, writes, 0)), Reached(shipments), accepted);
  }
}
