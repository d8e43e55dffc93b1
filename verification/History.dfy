/**
 A reference for whole runs of the edge that keeps no table: every decision is recomputed from the
 requests that came before. The mutable limiter, pruned at any moments, must decide the same.
 */
module History {
  import opened Wrappers
  import opened Decimal
  import opened Library
  import opened Ruleset
  import opened Matching
  import opened Limiter
  import opened Stages
  import opened Decide
  
  datatype Arrival = Arrival(req: Request, now: int)

  datatype EdgeEvent = Arrive(arrival: Arrival) | Sweep(now: int) {
    function Now(): int {
      if Arrive? then arrival.now else now
    }
  }

  // ---------------------------------------------------------------- the reference

  /** A fixed window over past hits: it opens at a hit, and at the first hit at least `window` later again. */
  datatype Span = Span(start: int, count: nat)

  function SpanOf(times: seq<int>, window: int): (r: Span)
    requires times != []
    ensures r.count <= |times|
  {
    var last := times[|times| - 1];
    if |times| == 1 then Span(last, 1)
    else
      var before := SpanOf(times[..|times| - 1], window);
      if last - before.start >= window then Span(last, 1) else Span(before.start, before.count + 1)
  }

  datatype Setting = Setting(lib: Lib, zone: CompiledZone, arrivals: seq<Arrival>) {
    function StageAt(n: nat, s: nat): Stage
      requires n < |arrivals| && s < Size()
    {
      StagesOf(lib, zone, arrivals[n].req)[s]
    }

    function Size(): nat {
      |zone.rules| + |zone.ddos|
    }

    /** When, among the first `n` requests, this client's requests reached the stage and matched it. */
    ghost function HitTimes(n: nat, s: nat, ip: string): seq<int>
      requires n <= |arrivals| && s < Size()
      decreases n, 0
    {
      if n == 0 then []
      else if arrivals[n - 1].req.clientIpText == ip && StageAt(n - 1, s).applies && s <= Decided(n - 1, 0)
      then HitTimes(n - 1, s, ip) + [arrivals[n - 1].now]
      else HitTimes(n - 1, s, ip)
    }

    /** How many of them fall in the window that is open when request `n` is counted, itself included. */
    ghost function CountInWindow(n: nat, s: nat): nat
      requires n < |arrivals| && s < Size() && StageAt(n, s).budget.Some?
      decreases n, 1
    {
      var times := HitTimes(n, s, arrivals[n].req.clientIpText) + [arrivals[n].now];
      SpanOf(times, StageAt(n, s).Window()).count
    }

    /** A stage decides when it applies and more than its threshold were counted, in 32 bits, in the open window. */
    ghost predicate Exceeds(n: nat, s: nat)
      requires n < |arrivals| && s < Size()
      decreases n, 2
    {
      && StageAt(n, s).applies
      && (StageAt(n, s).budget.Some? ==> CountInWindow(n, s) % UINT32_LIMIT > StageAt(n, s).budget.value.threshold)
    }

    /** The first stage from `s` on that decides request `n`. */
    ghost function Decided(n: nat, s: nat): (d: nat)
      requires n < |arrivals| && s <= Size()
      ensures s <= d <= Size()
      decreases n, 3, Size() - s
    {
      if s == Size() || Exceeds(n, s) then s else Decided(n, s + 1)
    }

    /** No window of any budget counts as many as 2^32 requests. */
    ghost predicate NoWrap() {
      forall n, s :: 0 <= n < |arrivals| && 0 <= s < Size() && StageAt(n, s).budget.Some? ==> CountInWindow(n, s) < UINT32_LIMIT
    }

    predicate WindowsWithin() {
      forall s | 0 <= s < Size() && BudgetOf(zone, s).Some? :: BudgetOf(zone, s).value.windowSeconds * SECOND <= IDLE_EVICTION
    }
  }

  // ---------------------------------------------------------------- the table follows the history

  /**
   The counter of one budget is the open window over its hit times, in 32 bits, unless it was idle long enough
   to be pruned and its window is over by then.
   */
  predicate Tracks(t: Table, key: string, times: seq<int>, window: int, now: int) {
    if times == [] then key !in t
    else
      var last, span := times[|times| - 1], SpanOf(times, window);
      && span.start <= last <= now
      && (key in t ==> t[key] == Counter(span.start, span.count % UINT32_LIMIT, last))
      && (key !in t ==> now - last >= IDLE_EVICTION && window <= IDLE_EVICTION)
  }

  lemma CountWraps(n: nat)
    ensures (n % UINT32_LIMIT + 1) % UINT32_LIMIT == (n + 1) % UINT32_LIMIT
  {
  }

  lemma TracksHit(t: Table, key: string, times: seq<int>, window: int, now: int)
    requires Tracks(t, key, times, window, now)
    ensures Hit(t, key, window, now).hits == SpanOf(times + [now], window).count % UINT32_LIMIT
    ensures Tracks(Checked(t, key, window, now), key, times + [now], window, now)
  {
    assert (times + [now])[..|times|] == times;
    if times != [] {
      CountWraps(SpanOf(times, window).count);
    }
  }

  lemma TracksLater(t: Table, key: string, times: seq<int>, window: int, now: int, later: int)
    requires Tracks(t, key, times, window, now) && now <= later
    ensures Tracks(t, key, times, window, later)
  {
  }

  lemma TracksSweep(t: Table, key: string, times: seq<int>, window: int, now: int)
    requires Tracks(t, key, times, window, now) && window <= IDLE_EVICTION
    ensures Tracks(Pruned(t, now), key, times, window, now)
  {
  }

  lemma TracksSame(t: Table, u: Table, key: string, times: seq<int>, window: int, now: int)
    requires Tracks(t, key, times, window, now)
    requires (key in u <==> key in t) && (key in t ==> u[key] == t[key])
    ensures Tracks(u, key, times, window, now)
  {
  }

  ghost predicate TracksAll(x: Setting, t: Table, n: nat, now: int)
    requires n <= |x.arrivals|
  {
    forall s: nat, ip :: s < x.Size() && BudgetOf(x.zone, s).Some? ==>
      Tracks(t, KeyOf(x.zone, s, ip), x.HitTimes(n, s, ip), BudgetOf(x.zone, s).value.windowSeconds * SECOND, now)
  }

  /** On a table that tracks the history, a stage fires exactly when the history says it does. */
  lemma FiresAsHistorySays(x: Setting, t: Table, n: nat, s: nat)
    requires n < |x.arrivals| && s < x.Size()
    requires TracksAll(x, t, n, x.arrivals[n].now)
    ensures x.StageAt(n, s).Fires(t, x.arrivals[n].now) <==> x.Exceeds(n, s)
  {
    StageParts(x.lib, x.zone, x.arrivals[n].req, s);
    if BudgetOf(x.zone, s).Some? {
      var ip, now := x.arrivals[n].req.clientIpText, x.arrivals[n].now;
      TracksHit(t, KeyOf(x.zone, s, ip), x.HitTimes(n, s, ip), BudgetOf(x.zone, s).value.windowSeconds * SECOND, now);
    }
  }

  lemma {:induction false} SameStageDecides(x: Setting, t: Table, n: nat, s: nat, d: nat)
    requires n < |x.arrivals| && s <= d <= x.Size()
    requires TracksAll(x, t, n, x.arrivals[n].now)
    requires forall i :: s <= i < d ==> !x.StageAt(n, i).Fires(t, x.arrivals[n].now)
    requires d < x.Size() ==> x.StageAt(n, d).Fires(t, x.arrivals[n].now)
    ensures x.Decided(n, s) == d
    decreases d - s
  {
    if s < x.Size() {
      FiresAsHistorySays(x, t, n, s);
      if s < d {
        SameStageDecides(x, t, n, s + 1, d);
      }
    }
  }

  /** The next request keeps the table in step with the history. */
  lemma TracksNext(x: Setting, t: Table, u: Table, n: nat, d: nat)
    requires n < |x.arrivals| && SeparateScopes(x.zone)
    requires TracksAll(x, t, n, x.arrivals[n].now)
    requires d == x.Decided(n, 0)
    requires SpentOnce(StagesOf(x.lib, x.zone, x.arrivals[n].req), t, u, x.arrivals[n].now, 0, d)
    ensures TracksAll(x, u, n + 1, x.arrivals[n].now)
  {
    var now := x.arrivals[n].now;
    forall s: nat, ip | s < x.Size() && BudgetOf(x.zone, s).Some?
      ensures Tracks(u, KeyOf(x.zone, s, ip), x.HitTimes(n + 1, s, ip), BudgetOf(x.zone, s).value.windowSeconds * SECOND, now)
    {
      TracksNextOne(x, t, u, n, d, s, ip);
    }
  }

  lemma TracksNextOne(x: Setting, t: Table, u: Table, n: nat, d: nat, s: nat, ip: string)
    requires n < |x.arrivals| && SeparateScopes(x.zone)
    requires TracksAll(x, t, n, x.arrivals[n].now)
    requires d == x.Decided(n, 0)
    requires SpentOnce(StagesOf(x.lib, x.zone, x.arrivals[n].req), t, u, x.arrivals[n].now, 0, d)
    requires s < x.Size() && BudgetOf(x.zone, s).Some?
    ensures Tracks(u, KeyOf(x.zone, s, ip), x.HitTimes(n + 1, s, ip), BudgetOf(x.zone, s).value.windowSeconds * SECOND, x.arrivals[n].now)
  {
    var now, client := x.arrivals[n].now, x.arrivals[n].req.clientIpText;
    var stages := StagesOf(x.lib, x.zone, x.arrivals[n].req);
    var key, times, window := KeyOf(x.zone, s, ip), x.HitTimes(n, s, ip), BudgetOf(x.zone, s).value.windowSeconds * SECOND;
    StageParts(x.lib, x.zone, x.arrivals[n].req, s);
    if ip == client && x.StageAt(n, s).applies && s <= d {
      assert Reached(stages, 0, d, s);
      TracksHit(t, key, times, window, now);
      TracksSame(Checked(t, key, window, now), u, key, times + [now], window, now);
    } else {
      if Touches(stages, 0, d, key) {
        var i :| 0 <= i < |stages| && Reached(stages, 0, d, i) && stages[i].key == key;
        StageParts(x.lib, x.zone, x.arrivals[n].req, i);
        SameBudget(x.zone, i, client, s, ip);
      }
      TracksSame(t, u, key, times, window, now);
    }
  }

  // ---------------------------------------------------------------- whole runs

  function Arrivals(es: seq<EdgeEvent>): seq<Arrival> {
    if es == [] then []
    else if es[0].Arrive? then [es[0].arrival] + Arrivals(es[1..])
    else Arrivals(es[1..])
  }

  predicate Ordered(es: seq<EdgeEvent>, now: int) {
    es == [] || (now <= es[0].Now() && Ordered(es[1..], es[0].Now()))
  }

  predicate NoSweeps(es: seq<EdgeEvent>) {
    forall i :: 0 <= i < |es| ==> es[i].Arrive?
  }

  /** The deciding stages of a run on a table. */
  function RunOn(lib: Lib, zone: CompiledZone, t: Table, es: seq<EdgeEvent>): seq<nat>
    decreases |es|
  {
    if es == [] then []
    else
      match es[0]
      case Arrive(a) =>
        var (d, u) := DecideFrom(StagesOf(lib, zone, a.req), t, a.now, 0);
        [d] + RunOn(lib, zone, u, es[1..])
      case Sweep(now) => RunOn(lib, zone, Pruned(t, now), es[1..])
  }

  lemma {:induction false} RunFollowsHistory(x: Setting, t: Table, es: seq<EdgeEvent>, n: nat, now: int)
    requires SeparateScopes(x.zone) && (x.WindowsWithin() || NoSweeps(es))
    requires n <= |x.arrivals| && x.arrivals[n..] == Arrivals(es) && Ordered(es, now)
    requires TracksAll(x, t, n, now)
    ensures |RunOn(x.lib, x.zone, t, es)| == |x.arrivals| - n
    ensures forall i :: n <= i < |x.arrivals| ==> RunOn(x.lib, x.zone, t, es)[i - n] == x.Decided(i, 0)
    decreases |es|
  {
    if es != [] {
      var later := es[0].Now();
      forall s: nat, ip | s < x.Size() && BudgetOf(x.zone, s).Some?
        ensures Tracks(t, KeyOf(x.zone, s, ip), x.HitTimes(n, s, ip), BudgetOf(x.zone, s).value.windowSeconds * SECOND, later)
      {
        TracksLater(t, KeyOf(x.zone, s, ip), x.HitTimes(n, s, ip), BudgetOf(x.zone, s).value.windowSeconds * SECOND, now, later);
      }
      if es[0].Arrive? {
        RunRequest(x, t, es, n);
      } else {
        assert x.WindowsWithin();
        forall s: nat, ip | s < x.Size() && BudgetOf(x.zone, s).Some?
          ensures Tracks(Pruned(t, later), KeyOf(x.zone, s, ip), x.HitTimes(n, s, ip), BudgetOf(x.zone, s).value.windowSeconds * SECOND, later)
        {
          TracksSweep(t, KeyOf(x.zone, s, ip), x.HitTimes(n, s, ip), BudgetOf(x.zone, s).value.windowSeconds * SECOND, later);
        }
        RunFollowsHistory(x, Pruned(t, later), es[1..], n, later);
      }
    }
  }

  lemma {:induction false} RunRequest(x: Setting, t: Table, es: seq<EdgeEvent>, n: nat)
    requires SeparateScopes(x.zone) && (x.WindowsWithin() || NoSweeps(es))
    requires es != [] && es[0].Arrive?
    requires n <= |x.arrivals| && x.arrivals[n..] == Arrivals(es) && Ordered(es, es[0].Now())
    requires TracksAll(x, t, n, es[0].Now())
    ensures |RunOn(x.lib, x.zone, t, es)| == |x.arrivals| - n
    ensures forall i :: n <= i < |x.arrivals| ==> RunOn(x.lib, x.zone, t, es)[i - n] == x.Decided(i, 0)
    decreases |es|, 0
  {
    var a := es[0].arrival;
    assert x.arrivals[n] == x.arrivals[n..][0] == a;
    var stages := StagesOf(x.lib, x.zone, a.req);
    SeparateScopesAreDistinct(x.zone);
    StageKeysApart(x.lib, x.zone, a.req);
    FirstFiringStageDecides(stages, t, a.now, 0);
    var (d, u) := DecideFrom(stages, t, a.now, 0);
    forall i | 0 <= i < d ensures !x.StageAt(n, i).Fires(t, a.now) {
    }
    SameStageDecides(x, t, n, 0, d);
    TracksNext(x, t, u, n, d);
    assert x.arrivals[n + 1..] == x.arrivals[n..][1..] == Arrivals(es[1..]);
    RunFollowsHistory(x, u, es[1..], n + 1, a.now);
    Prepended(x, n, d, RunOn(x.lib, x.zone, u, es[1..]), RunOn(x.lib, x.zone, t, es));
  }

  lemma Prepended(x: Setting, n: nat, d: nat, rest: seq<nat>, all: seq<nat>)
    requires n < |x.arrivals| && all == [d] + rest && d == x.Decided(n, 0)
    requires |rest| == |x.arrivals| - (n + 1) && forall i :: n + 1 <= i < |x.arrivals| ==> rest[i - (n + 1)] == x.Decided(i, 0)
    ensures forall i :: n <= i < |x.arrivals| ==> all[i - n] == x.Decided(i, 0)
  {
  }

  /** Fewer than 2^32 requests in all are enough for no window to wrap. */
  lemma ShortHistoriesNeverWrap(x: Setting)
    requires |x.arrivals| < UINT32_LIMIT
    ensures x.NoWrap()
  {
    forall n, s | 0 <= n < |x.arrivals| && 0 <= s < x.Size() && x.StageAt(n, s).budget.Some?
      ensures x.CountInWindow(n, s) < UINT32_LIMIT
    {
      FewHits(x, n, s, x.arrivals[n].req.clientIpText);
    }
  }

  lemma {:induction false} FewHits(x: Setting, n: nat, s: nat, ip: string)
    requires n <= |x.arrivals| && s < x.Size()
    ensures |x.HitTimes(n, s, ip)| <= n
  {
    if n > 0 {
      FewHits(x, n - 1, s, ip);
    }
  }

  /** For every run, the stages that decide are the ones the history calls for. */
  lemma HistoryDecides(lib: Lib, zone: CompiledZone, es: seq<EdgeEvent>, start: int)
    requires SeparateScopes(zone) && Ordered(es, start)
    requires Setting(lib, zone, Arrivals(es)).WindowsWithin() || NoSweeps(es)
    ensures var x := Setting(lib, zone, Arrivals(es));
      RunOn(lib, zone, map[], es) == seq(|x.arrivals|, i requires 0 <= i < |x.arrivals| => x.Decided(i, 0))
  {
    var x := Setting(lib, zone, Arrivals(es));
    assert x.arrivals[0..] == x.arrivals;
    RunFollowsHistory(x, map[], es, 0, start);
  }

  lemma RunHere(lib: Lib, zone: CompiledZone, t: Table, es: seq<EdgeEvent>, i: nat)
    requires i < |es|
    ensures es[i].Arrive? ==>
      var r := DecideFrom(StagesOf(lib, zone, es[i].arrival.req), t, es[i].arrival.now, 0);
      RunOn(lib, zone, t, es[i..]) == [r.0] + RunOn(lib, zone, r.1, es[i + 1..])
    ensures es[i].Sweep? ==> RunOn(lib, zone, t, es[i..]) == RunOn(lib, zone, Pruned(t, es[i].now), es[i + 1..])
  {
    assert es[i..][1..] == es[i + 1..];
  }

  /** The edge serving one zone: requests through `Evaluate` and, at any moments, the pruning timer, on one limiter. */
  method Replay(lib: Lib, zone: CompiledZone, hash: string -> nat, es: seq<EdgeEvent>)
    returns (decisions: seq<Option<Decision>>)
    ensures |decisions| == |RunOn(lib, zone, map[], es)|
    ensures forall k :: 0 <= k < |decisions| ==> decisions[k] == DecisionOf(zone, RunOn(lib, zone, map[], es)[k])
  {
    var limiter := new RateLimiter(hash);
    decisions := [];
    ghost var stages: seq<nat>, all := [], RunOn(lib, zone, map[], es);
    assert es[0..] == es;
    for i := 0 to |es|
      invariant limiter.Valid() && fresh(limiter.shards)
      invariant |stages| == |decisions| && forall k :: 0 <= k < |stages| ==> decisions[k] == DecisionOf(zone, stages[k])
      invariant stages + RunOn(lib, zone, limiter.Contents(), es[i..]) == all
    {
      RunHere(lib, zone, limiter.Contents(), es, i);
      if es[i].Arrive? {
        ghost var rest := RunOn(lib, zone, limiter.Contents(), es[i..]);
        var decision, stage := Evaluate(lib, zone, es[i].arrival.req, limiter, es[i].arrival.now);
        assert stages + rest == stages + [stage] + rest[1..];
        decisions := decisions + [decision];
        stages := stages + [stage];
      } else {
        limiter.Prune(es[i].now);
      }
    }
    assert es[|es|..] == [];
    assert stages == all;
  }

  /** Each request of a run on the mutable limiter gets the decision that the history of requests calls for. */
  method Serve(lib: Lib, zone: CompiledZone, hash: string -> nat, es: seq<EdgeEvent>, start: int)
    returns (decisions: seq<Option<Decision>>)
    requires SeparateScopes(zone) && Ordered(es, start)
    requires Setting(lib, zone, Arrivals(es)).WindowsWithin() || NoSweeps(es)
    ensures |decisions| == |Arrivals(es)|
    ensures forall i :: 0 <= i < |decisions| ==> decisions[i] == DecisionOf(zone, Setting(lib, zone, Arrivals(es)).Decided(i, 0))
  {
    decisions := Replay(lib, zone, hash, es);
    HistoryDecides(lib, zone, es, start);
  }
}
