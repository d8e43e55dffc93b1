/**
 Whole runs of the rate limiter: how many requests of one client can pass in any interval as long as the
 window, and when the background pruning can be noticed.
 */
module RateTraces {
  import opened Decimal
  import opened Limiter

  datatype Event =
    | Request(key: string, threshold: nat, window: int, now: int)
    | Sweep(now: int, seen: int, part: string -> bool)    // of some keys, by a clock read earlier

  function After(t: Table, e: Event): Table {
    match e
    case Request(key, _, window, now) => Checked(t, key, window, now)
    case Sweep(_, seen, part) => PrunedPart(t, part, seen)
  }

  function Final(t: Table, es: seq<Event>): Table
    decreases |es|
  {
    if es == [] then t else Final(After(t, es[0]), es[1..])
  }

  /** The verdicts of the requests, in order. */
  function Verdicts(t: Table, es: seq<Event>): seq<bool>
    decreases |es|
  {
    if es == [] then []
    else
      match es[0]
      case Request(key, threshold, window, now) =>
        [Over(t, key, threshold, window, now)] + Verdicts(After(t, es[0]), es[1..])
      case Sweep(_, _, _) => Verdicts(After(t, es[0]), es[1..])
  }

  /** The clock never goes back; a sweep has read it before. */
  predicate Ordered(es: seq<Event>, now: int) {
    es == [] || (now <= es[0].now && (es[0].Sweep? ==> es[0].seen <= es[0].now) && Ordered(es[1..], es[0].now))
  }

  function Latest(es: seq<Event>, now: int): int {
    if es == [] then now else es[|es| - 1].now
  }

  predicate CounterOk(t: Table, key: string, now: int) {
    key in t ==> t[key].windowStart <= t[key].lastSeen <= now
  }

  /** A counter is never seen before its window opened, nor after the present: every step keeps it so. */
  lemma CounterStaysOk(t: Table, e: Event, key: string, now: int)
    requires CounterOk(t, key, now) && now <= e.now
    ensures CounterOk(After(t, e), key, e.now)
  {
  }

  /** So it is in every run. */
  lemma {:induction false} CountersStayOk(t: Table, es: seq<Event>, key: string, now: int)
    requires CounterOk(t, key, now) && Ordered(es, now)
    ensures CounterOk(Final(t, es), key, Latest(es, now))
    decreases |es|
  {
    if es != [] {
      CounterStaysOk(t, es[0], key, now);
      CountersStayOk(After(t, es[0]), es[1..], key, es[0].now);
    }
  }

  // ---------------------------------------------------------------- the bound over any interval

  /** Every request for `key` carries the same budget. */
  predicate Fixed(es: seq<Event>, key: string, threshold: nat, window: int) {
    forall i :: 0 <= i < |es| && es[i].Request? && es[i].key == key ==> es[i].threshold == threshold && es[i].window == window
  }

  /** No window of `key` counts as many as 2^32 hits. */
  predicate NoWrap(t: Table, es: seq<Event>, key: string)
    decreases |es|
  {
    es == [] || (
      && (es[0].Request? && es[0].key == key ==> Opened(t, key, es[0].window, es[0].now).hits + 1 < UINT32_LIMIT)
      && NoWrap(After(t, es[0]), es[1..], key))
  }

  /** A run of fewer than 2^32 requests cannot wrap any counter. */
  lemma {:induction false} ShortRunsNeverWrap(t: Table, es: seq<Event>, key: string)
    requires (if key in t then t[key].hits else 0) + |es| < UINT32_LIMIT
    ensures NoWrap(t, es, key)
    decreases |es|
  {
    if es != [] {
      ShortRunsNeverWrap(After(t, es[0]), es[1..], key);
    }
  }

  /** How many requests for `key` pass under budget at a time in the half-open interval [from, to). */
  function PassedIn(t: Table, es: seq<Event>, key: string, from: int, to: int): nat
    decreases |es|
  {
    if es == [] then 0
    else
      (match es[0]
       case Request(k, threshold, window, now) =>
         if k == key && from <= now < to && !Over(t, k, threshold, window, now) then 1 else 0
       case Sweep(_, _, _) => 0)
      + PassedIn(After(t, es[0]), es[1..], key, from, to)
  }

  function Left(threshold: nat, hits: nat): nat {
    if hits < threshold then threshold - hits else 0
  }

  /** A client starts afresh when the window is over, or when it was idle long enough to be evicted. */
  function Span(window: int): int {
    if window <= IDLE_EVICTION then window else IDLE_EVICTION
  }

  /** What can still pass in [from, from + Span(window)), given the counter of `key` at time `now`. */
  function Cap(t: Table, key: string, threshold: nat, window: int, from: int, now: int): nat {
    if from + Span(window) <= now then 0
    else if now < from then (if threshold == 0 then 0 else 2 * threshold - 1)
    else if key !in t then threshold
    else Left(threshold, t[key].hits) + (if t[key].windowStart < from then threshold else 0)
  }

  predicate Counted(t: Table, key: string, now: int) {
    CounterOk(t, key, now) && (key in t ==> t[key].hits >= 1)
  }

  /** Letting time pass never raises the cap. */
  lemma CapOverTime(t: Table, key: string, threshold: nat, window: int, from: int, now: int, later: int)
    requires Counted(t, key, now) && now <= later
    ensures Cap(t, key, threshold, window, from, later) <= Cap(t, key, threshold, window, from, now)
  {
  }

  /** One event spends what it lets pass from the cap. */
  lemma CapSpent(t: Table, e: Event, key: string, threshold: nat, window: int, from: int)
    requires Counted(t, key, e.now) && (e.Sweep? ==> e.seen <= e.now)
    requires e.Request? && e.key == key ==>
      e.threshold == threshold && e.window == window && Opened(t, key, window, e.now).hits + 1 < UINT32_LIMIT
    ensures Counted(After(t, e), key, e.now)
    ensures Cap(After(t, e), key, threshold, window, from, e.now)
      + (if e.Request? && e.key == key && from <= e.now < from + Span(window) && !Over(t, key, threshold, window, e.now) then 1 else 0)
      <= Cap(t, key, threshold, window, from, e.now)
  {
  }

  lemma {:induction false} PassedWithinCap(t: Table, es: seq<Event>, key: string, threshold: nat, window: int, from: int, now: int)
    requires Ordered(es, now) && Fixed(es, key, threshold, window) && NoWrap(t, es, key)
    requires Counted(t, key, now)
    ensures PassedIn(t, es, key, from, from + Span(window)) <= Cap(t, key, threshold, window, from, now)
    decreases |es|
  {
    if es != [] {
      var e := es[0];
      CapOverTime(t, key, threshold, window, from, now, e.now);
      CapSpent(t, e, key, threshold, window, from);
      PassedWithinCap(After(t, e), es[1..], key, threshold, window, from, e.now);
    }
  }

  function TwiceLessOne(threshold: nat): nat {
    if threshold == 0 then 0 else 2 * threshold - 1
  }

  /**
   In any run of requests (for any clients) and partial sweeps, at most 2T - 1 requests of one client pass
   under budget in any half-open interval as long as the window, or as 300 seconds if that is less: one fewer
   than twice the threshold.
   */
  lemma AtMostTwiceTheBudget(es: seq<Event>, key: string, threshold: nat, window: int, from: int, now: int)
    requires Ordered(es, now) && Fixed(es, key, threshold, window) && NoWrap(map[], es, key)
    ensures PassedIn(map[], es, key, from, from + Span(window)) <= TwiceLessOne(threshold)
  {
    PassedWithinCap(map[], es, key, threshold, window, from, now);
  }

  // ---------------------------------------------------------------- the bound is reached

  function Burst(key: string, threshold: nat, window: int, at: int, n: nat): seq<Event> {
    seq(n, i => Request(key, threshold, window, at))
  }

  lemma {:induction false} PassedInParts(t: Table, a: seq<Event>, b: seq<Event>, key: string, from: int, to: int)
    ensures PassedIn(t, a + b, key, from, to) == PassedIn(t, a, key, from, to) + PassedIn(Final(t, a), b, key, from, to)
    decreases |a|
  {
    if a == [] {
      assert a + b == b;
    } else {
      assert (a + b)[0] == a[0] && (a + b)[1..] == a[1..] + b;
      PassedInParts(After(t, a[0]), a[1..], b, key, from, to);
    }
  }

  /** A burst that fits in what is left of the window passes whole. */
  lemma {:induction false} BurstPasses(t: Table, key: string, threshold: nat, window: int, at: int, n: nat, from: int, to: int)
    requires key in t && at - t[key].windowStart < window && t[key].hits + n <= threshold < UINT32_LIMIT
    requires from <= at < to && t[key].lastSeen <= at
    ensures var es := Burst(key, threshold, window, at, n);
      && PassedIn(t, es, key, from, to) == n && NoWrap(t, es, key)
      && key in Final(t, es)
      && Final(t, es)[key].windowStart == t[key].windowStart && Final(t, es)[key].hits == t[key].hits + n
      && Final(t, es)[key].lastSeen <= at
  {
    if n > 0 {
      var es := Burst(key, threshold, window, at, n);
      assert es[0] == Request(key, threshold, window, at);
      assert es[1..] == Burst(key, threshold, window, at, n - 1);
      BurstPasses(Checked(t, key, window, at), key, threshold, window, at, n - 1, from, to);
    }
  }

  lemma OneRequest(t: Table, key: string, threshold: nat, window: int, at: int, from: int, to: int)
    ensures var es := Burst(key, threshold, window, at, 1);
      && Final(t, es) == Checked(t, key, window, at)
      && PassedIn(t, es, key, from, to) == if from <= at < to && !Over(t, key, threshold, window, at) then 1 else 0
  {
    var es := Burst(key, threshold, window, at, 1);
    assert es[0] == Request(key, threshold, window, at) && es[1..] == [];
  }

  /** No window or one that is over, then a whole budget at once: all of it passes. */
  lemma FreshBudgetPasses(t: Table, key: string, threshold: nat, window: int, at: int, from: int, to: int)
    requires key in t ==> at - t[key].windowStart >= window
    requires window > 0 && 1 <= threshold < UINT32_LIMIT && from <= at < to
    ensures var es := Burst(key, threshold, window, at, threshold);
      && PassedIn(t, es, key, from, to) == threshold && NoWrap(t, es, key)
      && key in Final(t, es) && Final(t, es)[key].lastSeen <= at
  {
    var es := Burst(key, threshold, window, at, threshold);
    assert es[0] == Request(key, threshold, window, at);
    assert es[1..] == Burst(key, threshold, window, at, threshold - 1);
    BurstPasses(Checked(t, key, window, at), key, threshold, window, at, threshold - 1, from, to);
  }

  /** For every budget there is a run in which 2T - 1 requests pass within one window's length. */
  lemma TwiceTheBudgetIsReached(key: string, threshold: nat, window: int)
    requires 1 <= threshold < UINT32_LIMIT && 2 <= window
    ensures var es := Burst(key, threshold, window, 0, 1)
        + (Burst(key, threshold, window, window - 1, threshold - 1) + Burst(key, threshold, window, window, threshold));
      PassedIn(map[], es, key, window - 1, window - 1 + window) == 2 * threshold - 1
  {
    var from, to := window - 1, window - 1 + window;
    var a := Burst(key, threshold, window, 0, 1);
    var b := Burst(key, threshold, window, window - 1, threshold - 1);
    var c := Burst(key, threshold, window, window, threshold);
    PassedInParts(map[], a, b + c, key, from, to);
    OneRequest(map[], key, threshold, window, 0, from, to);
    var t := Checked(map[], key, window, 0);
    PassedInParts(t, b, c, key, from, to);
    BurstPasses(t, key, threshold, window, window - 1, threshold - 1, from, to);
    FreshBudgetPasses(Final(t, b), key, threshold, window, window, from, to);
  }

  // ---------------------------------------------------------------- the bound over a whole window, exactly

  lemma {:induction false} OrderedParts(a: seq<Event>, b: seq<Event>, now: int)
    requires Ordered(a, now) && Ordered(b, Latest(a, now))
    ensures Ordered(a + b, now)
  {
    if a == [] {
      assert a + b == b;
    } else {
      assert (a + b)[0] == a[0] && (a + b)[1..] == a[1..] + b;
      OrderedParts(a[1..], b, a[0].now);
    }
  }

  lemma {:induction false} BurstOrdered(key: string, threshold: nat, window: int, at: int, n: nat, now: int)
    requires now <= at
    ensures var es := Burst(key, threshold, window, at, n); Ordered(es, now) && now <= Latest(es, now) <= at
  {
    if n > 0 {
      var es := Burst(key, threshold, window, at, n);
      assert es[1..] == Burst(key, threshold, window, at, n - 1);
      BurstOrdered(key, threshold, window, at, n - 1, at);
    }
  }

  lemma {:induction false} NoWrapParts(t: Table, a: seq<Event>, b: seq<Event>, key: string)
    requires NoWrap(t, a, key) && NoWrap(Final(t, a), b, key)
    ensures NoWrap(t, a + b, key)
    decreases |a|
  {
    if a == [] {
      assert a + b == b;
    } else {
      assert (a + b)[0] == a[0] && (a + b)[1..] == a[1..] + b;
      NoWrapParts(After(t, a[0]), a[1..], b, key);
    }
  }

  /** A run the bound is about. */
  predicate RunOf(es: seq<Event>, key: string, threshold: nat, window: int) {
    Ordered(es, 0) && Fixed(es, key, threshold, window) && NoWrap(map[], es, key)
  }

  predicate WithinTwice(es: seq<Event>, key: string, threshold: nat, window: int, from: int) {
    PassedIn(map[], es, key, from, from + window) <= TwiceLessOne(threshold)
  }

  /** In no run do more than 2T - 1 requests pass in an interval as long as the window. */
  ghost predicate BoundedOverWindows(key: string, threshold: nat, window: int) {
    forall es, from :: RunOf(es, key, threshold, window) ==> WithinTwice(es, key, threshold, window, from)
  }

  /** After a sweep of everything 300 seconds later the client starts afresh, whatever its window. */
  lemma SweptAfresh(key: string, t: Table)
    requires key in t && t[key].lastSeen <= 0
    ensures var s := [Sweep(IDLE_EVICTION, IDLE_EVICTION, k => true)];
      key !in Final(t, s) && NoWrap(t, s, key) && Ordered(s, 0)
  {
    var s := [Sweep(IDLE_EVICTION, IDLE_EVICTION, k => true)];
    assert s[1..] == [];
  }

  lemma TwoBudgetsPass(key: string, threshold: nat, window: int) returns (es: seq<Event>)
    requires 1 <= threshold < UINT32_LIMIT && window > IDLE_EVICTION
    ensures RunOf(es, key, threshold, window)
    ensures PassedIn(map[], es, key, 0, window) == 2 * threshold
  {
    var a, b := Burst(key, threshold, window, 0, threshold), Burst(key, threshold, window, IDLE_EVICTION, threshold);
    var s := [Sweep(IDLE_EVICTION, IDLE_EVICTION, k => true)];
    FreshBudgetPasses(map[], key, threshold, window, 0, 0, window);
    var t := Final(map[], a);
    SweptAfresh(key, t);
    FreshBudgetPasses(Final(t, s), key, threshold, window, IDLE_EVICTION, 0, window);
    es := a + (s + b);
    PassedInParts(map[], a, s + b, key, 0, window);
    PassedInParts(t, s, b, key, 0, window);
    SweepPassesNothing(t, s[0], key, 0, window);
    NoWrapParts(t, s, b, key);
    NoWrapParts(map[], a, s + b, key);
    BurstOrdered(key, threshold, window, 0, threshold, 0);
    BurstOrdered(key, threshold, window, IDLE_EVICTION, threshold, IDLE_EVICTION);
    assert Latest(s, 0) == IDLE_EVICTION;
    OrderedParts(s, b, 0);
    OrderedParts(a, s + b, 0);
  }

  lemma SweepPassesNothing(t: Table, e: Event, key: string, from: int, to: int)
    requires e.Sweep?
    ensures PassedIn(t, [e], key, from, to) == 0
  {
    assert [e][1..] == [];
  }

  /** The bound holds over intervals as long as the window if and only if the window is at most 300 seconds. */
  lemma TwiceTheBudgetExactly(key: string, threshold: nat, window: int)
    requires 1 <= threshold < UINT32_LIMIT
    ensures BoundedOverWindows(key, threshold, window) <==> window <= 300_000_000_000
  {
    if window <= IDLE_EVICTION {
      forall es, from | RunOf(es, key, threshold, window) ensures WithinTwice(es, key, threshold, window, from) {
        AtMostTwiceTheBudget(es, key, threshold, window, from, 0);
      }
    } else {
      var es := TwoBudgetsPass(key, threshold, window);
      assert !WithinTwice(es, key, threshold, window, 0);
    }
  }

  // ---------------------------------------------------------------- the most that can pass in a whole window

  /** How often a client can start afresh at or after `x` and before `end`, by being idle for 300 seconds in between. */
  function Fresh(x: int, end: int): nat {
    if x < end then (end - 1 - x) / IDLE_EVICTION + 1 else 0
  }

  /** As many whole budgets. */
  function Budgets(threshold: nat, x: int, end: int): nat {
    threshold * Fresh(x, end)
  }

  lemma FreshLess(x: int, y: int, end: int)
    requires x <= y
    ensures Fresh(y, end) <= Fresh(x, end)
  {
  }

  lemma FreshNext(x: int, end: int)
    requires x < end
    ensures Fresh(x, end) == 1 + Fresh(x + IDLE_EVICTION, end)
  {
  }

  lemma BudgetsLess(threshold: nat, x: int, y: int, end: int)
    requires x <= y
    ensures Budgets(threshold, y, end) <= Budgets(threshold, x, end)
  {
    FreshLess(x, y, end);
  }

  lemma BudgetsNext(threshold: nat, x: int, end: int)
    requires x < end
    ensures Budgets(threshold, x, end) == threshold + Budgets(threshold, x + IDLE_EVICTION, end)
  {
    FreshNext(x, end);
  }

  function Max(a: nat, b: nat): nat {
    if a < b then b else a
  }

  function Later(a: int, b: int): int {
    if a < b then b else a
  }

  /**
   The most that can pass in an interval as long as the window: whole budgets every 300 seconds from its
   beginning on, or what a window opened earlier has left, and whole budgets from the next moment on.
   */
  function Most(threshold: nat, window: int): nat {
    if threshold == 0 || window <= 0 then 0
    else Max(Budgets(threshold, 0, window), threshold - 1 + Budgets(threshold, 1, window))
  }

  /** When the counter can next be replaced: its window is over, or it has been idle for long enough. */
  function Renewal(c: Counter, window: int): int {
    if c.windowStart + window <= c.lastSeen + IDLE_EVICTION then c.windowStart + window else c.lastSeen + IDLE_EVICTION
  }

  /** What can still pass in [from, end), given the counter of `key` at time `now`. */
  function Reserve(t: Table, key: string, threshold: nat, window: int, from: int, now: int): nat {
    var end := from + window;
    if end <= now then 0
    else if now < from then Most(threshold, window)
    else if key !in t || t[key].windowStart + window <= now then Budgets(threshold, now, end)
    else
      Max(Budgets(threshold, Later(now, Renewal(t[key], window)), end),
          Left(threshold, t[key].hits) + Budgets(threshold, Later(now + 1, Renewal(t[key], window)), end))
  }

  lemma Shifted(threshold: nat, x: int, end: int, shift: int)
    ensures Budgets(threshold, x + shift, end + shift) == Budgets(threshold, x, end)
  {
  }

  /** Letting time pass inside the interval never raises the reserve. */
  lemma ReserveInside(t: Table, key: string, threshold: nat, window: int, from: int, now: int, later: int)
    requires Counted(t, key, now) && from <= now <= later < from + window
    ensures Reserve(t, key, threshold, window, from, later) <= Reserve(t, key, threshold, window, from, now)
  {
    var end := from + window;
    BudgetsLess(threshold, now, later, end);
    if key in t && now < t[key].windowStart + window {
      var m := Renewal(t[key], window);
      BudgetsLess(threshold, Later(now, m), Later(later, m), end);
      BudgetsLess(threshold, Later(now + 1, m), Later(later + 1, m), end);
    }
  }

  /** Nor does entering it. */
  lemma ReserveEntering(t: Table, key: string, threshold: nat, window: int, from: int, now: int, later: int)
    requires Counted(t, key, now) && now < from <= later < from + window
    ensures Reserve(t, key, threshold, window, from, later) <= Most(threshold, window)
  {
    var end := from + window;
    Shifted(threshold, 0, window, from);
    Shifted(threshold, 1, window, from);
    BudgetsLess(threshold, from, later, end);
    if key in t {
      var m := Renewal(t[key], window);
      BudgetsLess(threshold, from, Later(later, m), end);
      BudgetsLess(threshold, from + 1, Later(later + 1, m), end);
    }
  }

  lemma ReserveOverTime(t: Table, key: string, threshold: nat, window: int, from: int, now: int, later: int)
    requires Counted(t, key, now) && now <= later
    ensures Reserve(t, key, threshold, window, from, later) <= Reserve(t, key, threshold, window, from, now)
  {
    if later < from + window {
      if from <= now {
        ReserveInside(t, key, threshold, window, from, now, later);
      } else if from <= later {
        ReserveEntering(t, key, threshold, window, from, now, later);
      }
    }
  }

  /** A hit that opens a window spends one of a whole budget. */
  lemma OpeningSpent(t: Table, key: string, threshold: nat, window: int, from: int, now: int)
    requires Counted(t, key, now) && from <= now < from + window && 1 < UINT32_LIMIT
    requires key !in t || t[key].windowStart + window <= now
    ensures Reserve(Checked(t, key, window, now), key, threshold, window, from, now)
      + (if !Over(t, key, threshold, window, now) then 1 else 0) <= Reserve(t, key, threshold, window, from, now)
  {
    var end := from + window;
    var c := Hit(t, key, window, now);
    assert c == Counter(now, 1, now);
    BudgetsNext(threshold, now, end);
    BudgetsLess(threshold, now + IDLE_EVICTION, Later(now, Later(now + IDLE_EVICTION, end)), end);
    RenewedFrom(threshold, now, window, end);
  }

  lemma RenewedFrom(threshold: nat, now: int, window: int, end: int)
    requires end <= now + window && now < end
    ensures Budgets(threshold, Later(now, Renewal(Counter(now, 1, now), window)), end) == Budgets(threshold, now + IDLE_EVICTION, end)
    ensures Budgets(threshold, Later(now + 1, Renewal(Counter(now, 1, now), window)), end) == Budgets(threshold, now + IDLE_EVICTION, end)
  {
  }

  /** A hit in an open window spends one of what it has left. */
  lemma HitSpent(t: Table, key: string, threshold: nat, window: int, from: int, now: int)
    requires Counted(t, key, now) && from <= now < from + window
    requires key in t && now < t[key].windowStart + window && t[key].hits + 1 < UINT32_LIMIT
    ensures Reserve(Checked(t, key, window, now), key, threshold, window, from, now)
      + (if !Over(t, key, threshold, window, now) then 1 else 0) <= Reserve(t, key, threshold, window, from, now)
  {
    var end, c := from + window, Hit(t, key, window, now);
    var m, m' := Renewal(t[key], window), Renewal(c, window);
    assert c == Counter(t[key].windowStart, t[key].hits + 1, now);
    assert now + 1 <= m' && m <= m';
    BudgetsLess(threshold, Later(now + 1, m), m', end);
  }

  /** A sweep can only take away what could be renewed by then anyway. */
  lemma SweepSpent(t: Table, key: string, threshold: nat, window: int, from: int, now: int, seen: int, part: string -> bool)
    requires Counted(t, key, now) && seen <= now
    ensures Reserve(PrunedPart(t, part, seen), key, threshold, window, from, now) <= Reserve(t, key, threshold, window, from, now)
  {
  }

  lemma ReserveSpent(t: Table, e: Event, key: string, threshold: nat, window: int, from: int)
    requires Counted(t, key, e.now) && (e.Sweep? ==> e.seen <= e.now)
    requires e.Request? && e.key == key ==>
      e.threshold == threshold && e.window == window && Opened(t, key, window, e.now).hits + 1 < UINT32_LIMIT
    ensures Counted(After(t, e), key, e.now)
    ensures Reserve(After(t, e), key, threshold, window, from, e.now)
      + (if e.Request? && e.key == key && from <= e.now < from + window && !Over(t, key, threshold, window, e.now) then 1 else 0)
      <= Reserve(t, key, threshold, window, from, e.now)
  {
    if e.Sweep? {
      SweepSpent(t, key, threshold, window, from, e.now, e.seen, e.part);
    } else if e.key == key && from <= e.now < from + window {
      if key !in t || t[key].windowStart + window <= e.now {
        OpeningSpent(t, key, threshold, window, from, e.now);
      } else {
        HitSpent(t, key, threshold, window, from, e.now);
      }
    }
  }

  lemma {:induction false} PassedWithinReserve(t: Table, es: seq<Event>, key: string, threshold: nat, window: int, from: int, now: int)
    requires Ordered(es, now) && Fixed(es, key, threshold, window) && NoWrap(t, es, key)
    requires Counted(t, key, now)
    ensures PassedIn(t, es, key, from, from + window) <= Reserve(t, key, threshold, window, from, now)
    decreases |es|
  {
    if es != [] {
      var e := es[0];
      ReserveOverTime(t, key, threshold, window, from, now, e.now);
      ReserveSpent(t, e, key, threshold, window, from);
      PassedWithinReserve(After(t, e), es[1..], key, threshold, window, from, e.now);
    }
  }

  /** In every run at most `Most` requests of one client pass in any interval as long as the window. */
  lemma AtMostInAWindow(es: seq<Event>, key: string, threshold: nat, window: int, from: int, now: int)
    requires Ordered(es, now) && Fixed(es, key, threshold, window) && NoWrap(map[], es, key)
    ensures PassedIn(map[], es, key, from, from + window) <= Most(threshold, window)
  {
    var start := if now < from then now else from - 1;
    OrderedFrom(es, now, start);
    PassedWithinReserve(map[], es, key, threshold, window, from, start);
  }

  lemma OrderedFrom(es: seq<Event>, now: int, earlier: int)
    requires Ordered(es, now) && earlier <= now
    ensures Ordered(es, earlier)
  {
  }

  /** A run that spends a whole budget at `x` and again every 300 seconds, a sweep before each. */
  lemma {:induction false} SpendAndIdle(t: Table, key: string, threshold: nat, window: int, x: int, lo: int, end: int) returns (es: seq<Event>)
    requires key in t ==> x - t[key].windowStart >= window
    requires window > 0 && 1 <= threshold < UINT32_LIMIT && lo <= x
    ensures Ordered(es, x) && Fixed(es, key, threshold, window) && NoWrap(t, es, key)
    ensures PassedIn(t, es, key, lo, end) == Budgets(threshold, x, end)
    decreases if x < end then end - x else 0
  {
    if x < end {
      var a, s := Burst(key, threshold, window, x, threshold), [Sweep(x + IDLE_EVICTION, x + IDLE_EVICTION, k => true)];
      FreshBudgetPasses(t, key, threshold, window, x, lo, end);
      BurstOrdered(key, threshold, window, x, threshold, x);
      var u := Final(t, a);
      EverythingSwept(u, key, x);
      var rest := SpendAndIdle(Final(u, s), key, threshold, window, x + IDLE_EVICTION, lo, end);
      es := a + (s + rest);
      PassedInParts(t, a, s + rest, key, lo, end);
      PassedInParts(u, s, rest, key, lo, end);
      SweepPassesNothing(u, s[0], key, lo, end);
      NoWrapParts(u, s, rest, key);
      NoWrapParts(t, a, s + rest, key);
      assert Latest(s, Latest(a, x)) == x + IDLE_EVICTION;
      OneSweepOrdered(Latest(a, x), x + IDLE_EVICTION);
      OrderedParts(s, rest, Latest(a, x));
      OrderedParts(a, s + rest, x);
      BudgetsNext(threshold, x, end);
    } else {
      es := [];
    }
  }

  lemma OneSweepOrdered(now: int, at: int)
    requires now <= at
    ensures Ordered([Sweep(at, at, k => true)], now)
  {
    assert [Sweep(at, at, k => true)][1..] == [];
  }

  lemma EverythingSwept(t: Table, key: string, x: int)
    requires key in t ==> t[key].lastSeen <= x
    ensures var s := [Sweep(x + IDLE_EVICTION, x + IDLE_EVICTION, k => true)];
      key !in Final(t, s) && NoWrap(t, s, key)
  {
    var s := [Sweep(x + IDLE_EVICTION, x + IDLE_EVICTION, k => true)];
    assert s[1..] == [];
  }

  /** A run of requests of one budget from a table on, the clock being at `now`. */
  predicate Proceeds(t: Table, es: seq<Event>, key: string, threshold: nat, window: int, now: int) {
    Ordered(es, now) && Fixed(es, key, threshold, window) && NoWrap(t, es, key)
  }

  lemma TwoParts(t: Table, a: seq<Event>, b: seq<Event>, key: string, threshold: nat, window: int, now: int)
    requires Proceeds(t, a, key, threshold, window, now) && Proceeds(Final(t, a), b, key, threshold, window, Latest(a, now))
    ensures Proceeds(t, a + b, key, threshold, window, now)
  {
    NoWrapParts(t, a, b, key);
    OrderedParts(a, b, now);
    assert Fixed(a + b, key, threshold, window) by {
      forall i | 0 <= i < |a + b| && (a + b)[i].Request? && (a + b)[i].key == key
        ensures (a + b)[i].threshold == threshold && (a + b)[i].window == window
      {
        assert (a + b)[i] == if i < |a| then a[i] else b[i - |a|];
      }
    }
  }

  lemma ThreeParts(key: string, threshold: nat, window: int, a: seq<Event>, b: seq<Event>, c: seq<Event>, from: int, to: int)
    requires Proceeds(map[], a, key, threshold, window, 0) && Proceeds(Final(map[], a), b, key, threshold, window, Latest(a, 0))
    requires Proceeds(Final(Final(map[], a), b), c, key, threshold, window, Latest(b, Latest(a, 0)))
    ensures RunOf(a + (b + c), key, threshold, window)
    ensures PassedIn(map[], a + (b + c), key, from, to)
      == PassedIn(map[], a, key, from, to) + PassedIn(Final(map[], a), b, key, from, to) + PassedIn(Final(Final(map[], a), b), c, key, from, to)
  {
    PassedInParts(map[], a, b + c, key, from, to);
    PassedInParts(Final(map[], a), b, c, key, from, to);
    TwoParts(Final(map[], a), b, c, key, threshold, window, Latest(a, 0));
    TwoParts(map[], a, b + c, key, threshold, window, 0);
  }

  /** A window opened by one early request, its rest spent at the end of it, and whole budgets from then on. */
  lemma SpendTheRestFirst(key: string, threshold: nat, window: int) returns (es: seq<Event>)
    requires window >= 2 && 1 <= threshold < UINT32_LIMIT
    ensures RunOf(es, key, threshold, window)
    ensures PassedIn(map[], es, key, window - 1, window - 1 + window) == threshold - 1 + Budgets(threshold, 1, window)
  {
    var from, end := window - 1, window - 1 + window;
    var a, b := Burst(key, threshold, window, 0, 1), Burst(key, threshold, window, window - 1, threshold - 1);
    OneRequest(map[], key, threshold, window, 0, from, end);
    OneHitNoWrap(key, threshold, window);
    var t := Checked(map[], key, window, 0);
    BurstPasses(t, key, threshold, window, window - 1, threshold - 1, from, end);
    var rest := SpendAndIdle(Final(t, b), key, threshold, window, window, from, end);
    BurstOrdered(key, threshold, window, 0, 1, 0);
    BurstOrdered(key, threshold, window, window - 1, threshold - 1, Latest(a, 0));
    OrderedFrom(rest, window, Latest(b, Latest(a, 0)));
    ThreeParts(key, threshold, window, a, b, rest, from, end);
    Shifted(threshold, 1, window, window - 1);
    es := a + (b + rest);
  }

  lemma OneHitNoWrap(key: string, threshold: nat, window: int)
    ensures NoWrap(map[], Burst(key, threshold, window, 0, 1), key)
  {
    assert Burst(key, threshold, window, 0, 1)[1..] == [];
  }

  /** Up to 300 seconds that is one fewer than twice the threshold. */
  lemma MostOfShortWindows(threshold: nat, window: int)
    requires 2 <= window <= IDLE_EVICTION
    ensures Most(threshold, window) == TwiceLessOne(threshold)
  {
    assert Fresh(0, window) == 1 && Fresh(1, window) == 1;
  }

  lemma ShortestWindow(threshold: nat)
    ensures Budgets(threshold, 0, 1) == threshold && Budgets(threshold, 1, 1) == 0
  {
    assert Fresh(0, 1) == 1;
  }

  /** For every budget some run reaches it. */
  lemma MostIsReached(key: string, threshold: nat, window: int) returns (es: seq<Event>, from: int)
    requires 1 <= threshold < UINT32_LIMIT && window > 0
    ensures RunOf(es, key, threshold, window)
    ensures PassedIn(map[], es, key, from, from + window) == Most(threshold, window)
  {
    ShortestWindow(threshold);
    if Budgets(threshold, 0, window) < threshold - 1 + Budgets(threshold, 1, window) {
      es := SpendTheRestFirst(key, threshold, window);
      from := window - 1;
    } else {
      es := SpendAndIdle(map[], key, threshold, window, 0, 0, window);
      from := 0;
    }
  }

  // ---------------------------------------------------------------- pruning

  function WithoutSweeps(es: seq<Event>): seq<Event> {
    if es == [] then []
    else if es[0].Sweep? then WithoutSweeps(es[1..])
    else [es[0]] + WithoutSweeps(es[1..])
  }

  predicate WindowsWithin(es: seq<Event>, limit: int) {
    forall i :: 0 <= i < |es| && es[i].Request? ==> es[i].window <= limit
  }

  /** `t` is `u` without some counters that have been idle for long enough to be evicted. */
  predicate Evicted(t: Table, u: Table, now: int) {
    && (forall k :: k in t ==> k in u && t[k] == u[k])
    && (forall k :: k in u ==> CounterOk(u, k, now) && (k in t || now - u[k].lastSeen >= IDLE_EVICTION))
  }

  /** An evicted counter's window is over, so the request that comes back opens a new one either way. */
  lemma EvictionUnnoticed(t: Table, u: Table, e: Event, now: int)
    requires Evicted(t, u, now) && e.Request? && now <= e.now && e.window <= IDLE_EVICTION
    ensures Hit(t, e.key, e.window, e.now) == Hit(u, e.key, e.window, e.now)
    ensures Evicted(After(t, e), After(u, e), e.now)
  {
  }

  lemma {:induction false} SameVerdicts(t: Table, u: Table, es: seq<Event>, now: int)
    requires Ordered(es, now) && WindowsWithin(es, IDLE_EVICTION) && Evicted(t, u, now)
    ensures Verdicts(t, es) == Verdicts(u, WithoutSweeps(es))
    decreases |es|
  {
    if es != [] {
      var e := es[0];
      if e.Sweep? {
        assert Evicted(After(t, e), u, e.now);
        SameVerdicts(After(t, e), u, es[1..], e.now);
      } else {
        EvictionUnnoticed(t, u, e, now);
        SameVerdicts(After(t, e), After(u, e), es[1..], e.now);
        assert WithoutSweeps(es)[1..] == WithoutSweeps(es[1..]);
      }
    }
  }

  /** Two runs with the same requests and any sweeps in between give the same verdicts. */
  lemma PruningIsInvisible(es: seq<Event>, fs: seq<Event>, now: int)
    requires Ordered(es, now) && Ordered(fs, now)
    requires WindowsWithin(es, IDLE_EVICTION) && WindowsWithin(fs, IDLE_EVICTION)
    requires WithoutSweeps(es) == WithoutSweeps(fs)
    ensures Verdicts(map[], es) == Verdicts(map[], fs)
  {
    SameVerdicts(map[], map[], es, now);
    SameVerdicts(map[], map[], fs, now);
  }

  /** A run, all of whose windows are `window` long, judged with and without its sweeps. */
  predicate SweepsUnseen(es: seq<Event>) {
    Verdicts(map[], es) == Verdicts(map[], WithoutSweeps(es))
  }

  predicate RunWith(es: seq<Event>, window: int) {
    Ordered(es, 0) && forall i :: 0 <= i < |es| && es[i].Request? ==> es[i].window == window
  }

  /** The compiler puts no upper bound on a window: a longer one than the eviction time lets a client start afresh. */
  lemma LongWindowsAreCutShort(window: int) returns (es: seq<Event>)
    requires window > IDLE_EVICTION
    ensures RunWith(es, window) && !SweepsUnseen(es)
  {
    var r0, s, r1 := Request("k", 1, window, 0), Sweep(IDLE_EVICTION, IDLE_EVICTION, k => true), Request("k", 1, window, IDLE_EVICTION);
    es := [r0, s, r1];
    assert es[1..] == [s, r1] && [s, r1][1..] == [r1] && [r1][1..] == [];
    assert WithoutSweeps(es) == [r0, r1] by {
      assert WithoutSweeps([r1]) == [r1];
      assert WithoutSweeps([s, r1]) == [r1];
    }
    var t1 := map["k" := Counter(0, 1, 0)];
    assert After(map[], r0) == t1;
    assert After(t1, s) == map[];
    assert Verdicts(map[], es) == [false, false] by {
      assert Verdicts(map[], [r1]) == [false];
      assert Verdicts(t1, [s, r1]) == [false];
    }
    assert Verdicts(t1, [r1]) == [true];
    assert [r0, r1][1..] == [r1];
    assert Verdicts(map[], [r0, r1]) == [false, true];
    assert Ordered([r1], IDLE_EVICTION) by {
      assert [r1][1..] == [];
    }
    assert Ordered([s, r1], 0);
    assert Ordered(es, 0);
  }

  /** Pruning can never be noticed, in any run, if and only if the window is no longer than 300 seconds. */
  lemma PruningInvisibleExactly(window: int)
    ensures (forall es :: RunWith(es, window) ==> SweepsUnseen(es)) <==> window <= 300_000_000_000
  {
    if window <= IDLE_EVICTION {
      forall es | RunWith(es, window) ensures SweepsUnseen(es) {
        SameVerdicts(map[], map[], es, 0);
      }
    } else {
      var es := LongWindowsAreCutShort(window);
    }
  }

  // ---------------------------------------------------------------- isolation

  /** The verdicts on one client's requests, in order. */
  function VerdictsFor(t: Table, es: seq<Event>, key: string): seq<bool>
    decreases |es|
  {
    if es == [] then []
    else
      match es[0]
      case Request(k, threshold, window, now) =>
        (if k == key then [Over(t, k, threshold, window, now)] else []) + VerdictsFor(After(t, es[0]), es[1..], key)
      case Sweep(_, _, _) => VerdictsFor(After(t, es[0]), es[1..], key)
  }

  /** The run without the requests of any other client. */
  function OnlyFor(es: seq<Event>, key: string): seq<Event> {
    if es == [] then []
    else (if es[0].Request? && es[0].key != key then [] else [es[0]]) + OnlyFor(es[1..], key)
  }

  predicate SameAt(t: Table, u: Table, key: string) {
    (key in t <==> key in u) && (key in t ==> t[key] == u[key])
  }

  lemma SameAfter(t: Table, u: Table, e: Event, key: string)
    requires SameAt(t, u, key)
    ensures SameAt(After(t, e), if e.Request? && e.key != key then u else After(u, e), key)
    ensures e.Request? && e.key == key ==> Over(t, key, e.threshold, e.window, e.now) == Over(u, key, e.threshold, e.window, e.now)
  {
  }

  /** In every run a client gets the verdicts it would get if no other client had sent anything. */
  lemma {:induction false} BudgetsAreIsolated(t: Table, u: Table, es: seq<Event>, key: string)
    requires SameAt(t, u, key)
    ensures VerdictsFor(t, es, key) == VerdictsFor(u, OnlyFor(es, key), key)
    decreases |es|
  {
    if es != [] {
      var e := es[0];
      SameAfter(t, u, e, key);
      if e.Request? && e.key != key {
        BudgetsAreIsolated(After(t, e), u, es[1..], key);
        assert OnlyFor(es, key) == OnlyFor(es[1..], key);
      } else {
        BudgetsAreIsolated(After(t, e), After(u, e), es[1..], key);
        assert OnlyFor(es, key)[1..] == OnlyFor(es[1..], key);
      }
    }
  }
}
