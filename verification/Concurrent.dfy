/**
 Requests of one zone in flight at the same time. Each walks the zone's stages in its own time; one step is
 one stage of one request, or one shard's share of a sweep. The limiter's locks make a `Check` one step, not
 an `Evaluate`, and a `Check` reads its clock before it takes the lock.
 */
module Concurrent {
  import opened Wrappers
  import opened Decimal
  import opened Library
  import opened Ruleset
  import opened Matching
  import opened Limiter
  import opened Stages
  import opened Decide
  import opened History

  /** A step takes effect at `at`; `clock` is what its check or its sweep had read before. */
  datatype Step = Advance(n: nat, clock: int, at: int) | SweepShard(shard: nat, clock: int, at: int)

  /** A request before stage `s`, or decided at it. */
  datatype Progress = At(s: nat) | Done(s: nat)

  datatype Edge = Edge(progress: seq<Progress>, table: Table)

  /** A hit on the budget of stage `s` by a client, or a shard's sweep. */
  datatype Entry = HitAt(s: nat, client: string, clock: int) | SweptAt(shard: nat, clock: int)

  /** The reference keeps what happened instead of a table. */
  datatype Past = Past(progress: seq<Progress>, log: seq<Entry>)

  /** Whether the history forgets a client that a sweep finds idle for 300 seconds. */
  datatype Memory = Forgetting | Lasting

  datatype Load = Load(lib: Lib, zone: CompiledZone, hash: string -> nat, reqs: seq<Request>) {
    function Size(): nat {
      BudgetCount(zone)
    }

    function StageAt(n: nat, s: nat): Stage
      requires n < |reqs| && s < Size()
    {
      StagesOf(lib, zone, reqs[n])[s]
    }

    function Started(): seq<Progress> {
      seq(|reqs|, i => if Size() == 0 then Done(0) else At(0))
    }

    /** The step is the turn of a request that has a stage before it. */
    predicate Turn(progress: seq<Progress>, st: Step) {
      && st.Advance? && st.n < |reqs| && |progress| == |reqs|
      && progress[st.n].At? && progress[st.n].s < Size()
    }

    /** Past the last stage a request is decided, by none. */
    function Moved(progress: seq<Progress>, n: nat, fires: bool): seq<Progress>
      requires n < |progress| && progress[n].At?
    {
      var s := progress[n].s;
      progress[n := if fires then Done(s) else if s + 1 == Size() then Done(s + 1) else At(s + 1)]
    }

    // -------------------------------------------------------------- on the table

    function Next(e: Edge, st: Step): Edge {
      if Turn(e.progress, st) then
        var stage := StageAt(st.n, e.progress[st.n].s);
        Edge(Moved(e.progress, st.n, stage.Fires(e.table, st.clock)), stage.Spent(e.table, st.clock))
      else if st.Advance? then e
      else e.(table := PrunedPart(e.table, k => hash(k) % SHARDS == st.shard, st.clock))
    }

    function Run(steps: seq<Step>): Edge {
      if steps == [] then Edge(Started(), map[]) else Next(Run(steps[..|steps| - 1]), steps[|steps| - 1])
    }

    // -------------------------------------------------------------- in the history

    function ShardOf(s: nat, client: string): nat
      requires s < Size()
    {
      hash(KeyOf(zone, s, client)) % SHARDS
    }

    /** A sweep of the budget's shard that finds its last hit 300 seconds ago. */
    predicate Idle(times: seq<int>, s: nat, client: string, e: Entry)
      requires s < Size()
    {
      e.SweptAt? && e.shard == ShardOf(s, client) && times != [] && e.clock - times[|times| - 1] >= IDLE_EVICTION
    }

    /** When this client hit the stage's budget, as far as the history remembers. */
    function TimesOf(log: seq<Entry>, s: nat, client: string, memory: Memory): seq<int>
      requires s < Size()
    {
      if log == [] then []
      else
        var before, e := TimesOf(log[..|log| - 1], s, client, memory), log[|log| - 1];
        if e.HitAt? then if e.s == s && e.client == client then before + [e.clock] else before
        else if memory.Forgetting? && Idle(before, s, client, e) then []
        else before
    }

    /** More than the threshold, in 32 bits, in the window that is open over the client's hits. */
    predicate Exceeded(log: seq<Entry>, n: nat, s: nat, clock: int, memory: Memory)
      requires n < |reqs| && s < Size()
    {
      && StageAt(n, s).applies
      && (BudgetOf(zone, s).Some? ==>
            SpanOf(TimesOf(log, s, reqs[n].clientIpText, memory) + [clock], WindowOf(zone, s)).count % UINT32_LIMIT
              > BudgetOf(zone, s).value.threshold)
    }

    function NextInHistory(p: Past, st: Step, memory: Memory): Past {
      if Turn(p.progress, st) then
        var s, client := p.progress[st.n].s, reqs[st.n].clientIpText;
        Past(Moved(p.progress, st.n, Exceeded(p.log, st.n, s, st.clock, memory)),
             if StageAt(st.n, s).Spends() then p.log + [HitAt(s, client, st.clock)] else p.log)
      else if st.Advance? then p
      else p.(log := p.log + [SweptAt(st.shard, st.clock)])
    }

    function RunInHistory(steps: seq<Step>, memory: Memory): Past {
      if steps == [] then Past(Started(), [])
      else NextInHistory(RunInHistory(steps[..|steps| - 1], memory), steps[|steps| - 1], memory)
    }
  }

  /** In nanoseconds. */
  function WindowOf(zone: CompiledZone, s: nat): (window: int)
    requires s < BudgetCount(zone)
    ensures BudgetOf(zone, s).Some? ==> window == BudgetOf(zone, s).value.windowSeconds * 1_000_000_000
  {
    if BudgetOf(zone, s).Some? then BudgetOf(zone, s).value.windowSeconds * SECOND else 0
  }

  // ---------------------------------------------------------------- the table follows the history

  /** The counter of one budget is the open window over its remembered hits, in 32 bits. */
  predicate Held(t: Table, key: string, times: seq<int>, window: int) {
    if times == [] then key !in t
    else
      var span := SpanOf(times, window);
      key in t && t[key] == Counter(span.start, span.count % UINT32_LIMIT, times[|times| - 1])
  }

  lemma HeldHit(t: Table, key: string, times: seq<int>, window: int, clock: int)
    requires Held(t, key, times, window)
    ensures Hit(t, key, window, clock).hits == SpanOf(times + [clock], window).count % UINT32_LIMIT
    ensures Held(Checked(t, key, window, clock), key, times + [clock], window)
  {
    assert (times + [clock])[..|times|] == times;
    if times != [] {
      CountWraps(SpanOf(times, window).count);
    }
  }

  /** Every budget's counter follows the history. */
  ghost predicate Follows(x: Load, t: Table, log: seq<Entry>) {
    forall s: nat, client :: s < x.Size() && BudgetOf(x.zone, s).Some? ==>
      Held(t, KeyOf(x.zone, s, client), x.TimesOf(log, s, client, Forgetting), WindowOf(x.zone, s))
  }

  lemma OneMoreEntry(x: Load, log: seq<Entry>, e: Entry, s: nat, client: string, memory: Memory)
    requires s < x.Size()
    ensures var before := x.TimesOf(log, s, client, memory);
      x.TimesOf(log + [e], s, client, memory)
        == if e.HitAt? then if e.s == s && e.client == client then before + [e.clock] else before
           else if memory.Forgetting? && x.Idle(before, s, client, e) then [] else before
  {
    assert (log + [e])[..|log|] == log;
  }

  lemma FollowsSweep(x: Load, t: Table, log: seq<Entry>, shard: nat, clock: int)
    requires Follows(x, t, log)
    ensures Follows(x, PrunedPart(t, k => x.hash(k) % SHARDS == shard, clock), log + [SweptAt(shard, clock)])
  {
    var u := PrunedPart(t, k => x.hash(k) % SHARDS == shard, clock);
    forall s: nat, client | s < x.Size() && BudgetOf(x.zone, s).Some?
      ensures Held(u, KeyOf(x.zone, s, client), x.TimesOf(log + [SweptAt(shard, clock)], s, client, Forgetting), WindowOf(x.zone, s))
    {
      OneMoreEntry(x, log, SweptAt(shard, clock), s, client, Forgetting);
    }
  }

  /** A hit on one budget: its counter follows, and no other is touched. */
  lemma FollowsHit(x: Load, t: Table, log: seq<Entry>, s: nat, client: string, clock: int)
    requires SeparateScopes(x.zone) && s < x.Size() && BudgetOf(x.zone, s).Some?
    requires Follows(x, t, log)
    ensures Follows(x, Checked(t, KeyOf(x.zone, s, client), WindowOf(x.zone, s), clock), log + [HitAt(s, client, clock)])
  {
    var key, u := KeyOf(x.zone, s, client), Checked(t, KeyOf(x.zone, s, client), WindowOf(x.zone, s), clock);
    forall s': nat, client' | s' < x.Size() && BudgetOf(x.zone, s').Some?
      ensures Held(u, KeyOf(x.zone, s', client'), x.TimesOf(log + [HitAt(s, client, clock)], s', client', Forgetting), WindowOf(x.zone, s'))
    {
      OneMoreEntry(x, log, HitAt(s, client, clock), s', client', Forgetting);
      if s == s' && client == client' {
        HeldHit(t, key, x.TimesOf(log, s, client, Forgetting), WindowOf(x.zone, s), clock);
      } else if KeyOf(x.zone, s', client') == key {
        SameBudget(x.zone, s, client, s', client');
      }
    }
  }

  /** On a table that follows the history, a stage fires exactly when the history says so. */
  lemma FiresAsLogSays(x: Load, t: Table, log: seq<Entry>, n: nat, s: nat, clock: int)
    requires n < |x.reqs| && s < x.Size() && Follows(x, t, log)
    ensures x.StageAt(n, s).Fires(t, clock) <==> x.Exceeded(log, n, s, clock, Forgetting)
  {
    var client := x.reqs[n].clientIpText;
    StageParts(x.lib, x.zone, x.reqs[n], s);
    if BudgetOf(x.zone, s).Some? {
      HeldHit(t, KeyOf(x.zone, s, client), x.TimesOf(log, s, client, Forgetting), WindowOf(x.zone, s), clock);
    }
  }

  /** One step keeps the two runs together. */
  lemma StepTogether(x: Load, e: Edge, p: Past, st: Step)
    requires SeparateScopes(x.zone) && e.progress == p.progress && Follows(x, e.table, p.log)
    ensures x.Next(e, st).progress == x.NextInHistory(p, st, Forgetting).progress
    ensures Follows(x, x.Next(e, st).table, x.NextInHistory(p, st, Forgetting).log)
  {
    if x.Turn(e.progress, st) {
      var s, client := e.progress[st.n].s, x.reqs[st.n].clientIpText;
      StageParts(x.lib, x.zone, x.reqs[st.n], s);
      FiresAsLogSays(x, e.table, p.log, st.n, s, st.clock);
      if x.StageAt(st.n, s).Spends() {
        FollowsHit(x, e.table, p.log, s, client, st.clock);
      }
    } else if st.SweepShard? {
      FollowsSweep(x, e.table, p.log, st.shard, st.clock);
    }
  }

  /**
   For every interleaving of requests and partial sweeps, whatever clocks they have read and however long the
   windows are, every request stands where the history says: decided at the same stage, or before the same one.
   */
  lemma {:induction false} InterleavingsFollowHistory(x: Load, steps: seq<Step>)
    requires SeparateScopes(x.zone)
    ensures x.Run(steps).progress == x.RunInHistory(steps, Forgetting).progress
    ensures Follows(x, x.Run(steps).table, x.RunInHistory(steps, Forgetting).log)
  {
    if steps != [] {
      var n := |steps| - 1;
      InterleavingsFollowHistory(x, steps[..n]);
      StepTogether(x, x.Run(steps[..n]), x.RunInHistory(steps[..n], Forgetting), steps[n]);
    }
  }

  // ---------------------------------------------------------------- when nothing need be remembered but the hits

  /** Steps take effect in order; checks have read the clock at most `skew` before, sweeps at any time before. */
  predicate Skewed(steps: seq<Step>, skew: nat) {
    && (forall i, j | 0 <= i < j < |steps| :: steps[i].at <= steps[j].at)
    && (forall i | 0 <= i < |steps| :: steps[i].clock <= steps[i].at && (steps[i].Advance? ==> steps[i].at - skew <= steps[i].clock))
  }

  /** A window is over before anyone who comes back, with a clock that old, can be in it. */
  predicate WindowsWithin(zone: CompiledZone, skew: nat) {
    forall s | 0 <= s < BudgetCount(zone) && BudgetOf(zone, s).Some? :: WindowOf(zone, s) + 2 * skew <= IDLE_EVICTION
  }

  predicate NoShardSwept(steps: seq<Step>) {
    forall i | 0 <= i < |steps| :: steps[i].Advance?
  }

  /** The kept hits and all hits open the same window, or the kept ones are none and the window is over by `at`. */
  predicate Alike(kept: seq<int>, all: seq<int>, window: int, skew: nat, at: int) {
    if all == [] then kept == []
    else
      var span, last := SpanOf(all, window), all[|all| - 1];
      && span.start <= at && span.start <= last + skew
      && (if kept == [] then at - skew - span.start >= window
          else SpanOf(kept, window) == span && kept[|kept| - 1] == last)
  }

  lemma AlikeLater(kept: seq<int>, all: seq<int>, window: int, skew: nat, at: int, later: int)
    requires Alike(kept, all, window, skew, at) && at <= later
    ensures Alike(kept, all, window, skew, later)
  {
  }

  lemma AlikeHit(kept: seq<int>, all: seq<int>, window: int, skew: nat, at: int, clock: int)
    requires Alike(kept, all, window, skew, at) && at - skew <= clock <= at
    ensures Alike(kept + [clock], all + [clock], window, skew, at)
    ensures SpanOf(kept + [clock], window) == SpanOf(all + [clock], window)
  {
    SpanNext(kept, window, clock);
    SpanNext(all, window, clock);
  }

  lemma SpanNext(times: seq<int>, window: int, clock: int)
    ensures (times + [clock])[|times + [clock]| - 1] == clock && times + [clock] != []
    ensures SpanOf(times + [clock], window)
      == if times == [] || clock - SpanOf(times, window).start >= window then Span(clock, 1)
         else Span(SpanOf(times, window).start, SpanOf(times, window).count + 1)
  {
    assert (times + [clock])[..|times|] == times;
  }

  lemma AlikeSwept(kept: seq<int>, all: seq<int>, window: int, skew: nat, at: int, clock: int)
    requires Alike(kept, all, window, skew, at) && clock <= at && window + 2 * skew <= IDLE_EVICTION
    requires kept != [] && clock - kept[|kept| - 1] >= IDLE_EVICTION
    ensures Alike([], all, window, skew, at)
  {
  }

  ghost predicate AllAlike(x: Load, log: seq<Entry>, skew: nat, at: int) {
    forall s: nat, client :: s < x.Size() && BudgetOf(x.zone, s).Some? ==>
      Alike(x.TimesOf(log, s, client, Forgetting), x.TimesOf(log, s, client, Lasting), WindowOf(x.zone, s), skew, at)
  }

  lemma AllAlikeLater(x: Load, log: seq<Entry>, skew: nat, at: int, later: int)
    requires AllAlike(x, log, skew, at) && at <= later
    ensures AllAlike(x, log, skew, later)
  {
    forall s: nat, client | s < x.Size() && BudgetOf(x.zone, s).Some?
      ensures Alike(x.TimesOf(log, s, client, Forgetting), x.TimesOf(log, s, client, Lasting), WindowOf(x.zone, s), skew, later)
    {
      AlikeLater(x.TimesOf(log, s, client, Forgetting), x.TimesOf(log, s, client, Lasting), WindowOf(x.zone, s), skew, at, later);
    }
  }

  lemma AlikeEntry(x: Load, log: seq<Entry>, e: Entry, s: nat, client: string, skew: nat, at: int)
    requires s < x.Size() && WindowOf(x.zone, s) + 2 * skew <= IDLE_EVICTION
    requires Alike(x.TimesOf(log, s, client, Forgetting), x.TimesOf(log, s, client, Lasting), WindowOf(x.zone, s), skew, at)
    requires e.clock <= at && (e.HitAt? ==> at - skew <= e.clock)
    ensures Alike(x.TimesOf(log + [e], s, client, Forgetting), x.TimesOf(log + [e], s, client, Lasting), WindowOf(x.zone, s), skew, at)
  {
    OneMoreEntry(x, log, e, s, client, Forgetting);
    OneMoreEntry(x, log, e, s, client, Lasting);
    var kept, all := x.TimesOf(log, s, client, Forgetting), x.TimesOf(log, s, client, Lasting);
    if e.HitAt? && e.s == s && e.client == client {
      AlikeHit(kept, all, WindowOf(x.zone, s), skew, at, e.clock);
    } else if x.Idle(kept, s, client, e) {
      AlikeSwept(kept, all, WindowOf(x.zone, s), skew, at, e.clock);
    }
  }

  lemma AllAlikeEntry(x: Load, log: seq<Entry>, e: Entry, skew: nat, at: int)
    requires AllAlike(x, log, skew, at) && WindowsWithin(x.zone, skew)
    requires e.clock <= at && (e.HitAt? ==> at - skew <= e.clock)
    ensures AllAlike(x, log + [e], skew, at)
  {
    forall s: nat, client | s < x.Size() && BudgetOf(x.zone, s).Some?
      ensures Alike(x.TimesOf(log + [e], s, client, Forgetting), x.TimesOf(log + [e], s, client, Lasting), WindowOf(x.zone, s), skew, at)
    {
      AlikeEntry(x, log, e, s, client, skew, at);
    }
  }

  lemma SameVerdict(x: Load, log: seq<Entry>, n: nat, s: nat, clock: int, skew: nat, at: int)
    requires n < |x.reqs| && s < x.Size() && AllAlike(x, log, skew, at) && at - skew <= clock <= at
    ensures x.Exceeded(log, n, s, clock, Forgetting) == x.Exceeded(log, n, s, clock, Lasting)
  {
    var client := x.reqs[n].clientIpText;
    if BudgetOf(x.zone, s).Some? {
      AlikeHit(x.TimesOf(log, s, client, Forgetting), x.TimesOf(log, s, client, Lasting), WindowOf(x.zone, s), skew, at, clock);
    }
  }

  function LastAt(steps: seq<Step>): int {
    if steps == [] then 0 else steps[|steps| - 1].at
  }

  lemma SameStep(x: Load, p: Past, st: Step, skew: nat)
    requires AllAlike(x, p.log, skew, st.at) && WindowsWithin(x.zone, skew)
    requires st.clock <= st.at && (st.Advance? ==> st.at - skew <= st.clock)
    ensures x.NextInHistory(p, st, Forgetting) == x.NextInHistory(p, st, Lasting)
    ensures AllAlike(x, x.NextInHistory(p, st, Lasting).log, skew, st.at)
  {
    if x.Turn(p.progress, st) {
      var s, client := p.progress[st.n].s, x.reqs[st.n].clientIpText;
      SameVerdict(x, p.log, st.n, s, st.clock, skew, st.at);
      if x.StageAt(st.n, s).Spends() {
        AllAlikeEntry(x, p.log, HitAt(s, client, st.clock), skew, st.at);
      }
    } else if st.SweepShard? {
      AllAlikeEntry(x, p.log, SweptAt(st.shard, st.clock), skew, st.at);
    }
  }

  /**
   With clocks at most `skew` old and windows of at most 300 seconds less twice the skew, no sweep is ever
   noticed: the history that forgets and the one that does not decide alike.
   */
  lemma {:induction false} ForgettingUnnoticed(x: Load, steps: seq<Step>, skew: nat)
    requires Skewed(steps, skew) && WindowsWithin(x.zone, skew)
    ensures x.RunInHistory(steps, Forgetting) == x.RunInHistory(steps, Lasting)
    ensures AllAlike(x, x.RunInHistory(steps, Lasting).log, skew, LastAt(steps))
  {
    if steps != [] {
      var n := |steps| - 1;
      var before, st := steps[..n], steps[n];
      ForgettingUnnoticed(x, before, skew);
      if n == 0 {
        assert x.RunInHistory(before, Lasting).log == [];
      } else {
        assert before[n - 1] == steps[n - 1];
        AllAlikeLater(x, x.RunInHistory(before, Lasting).log, skew, LastAt(before), st.at);
      }
      SameStep(x, x.RunInHistory(before, Lasting), st, skew);
    }
  }

  lemma {:induction false} NothingToForget(x: Load, log: seq<Entry>, s: nat, client: string)
    requires s < x.Size() && forall i :: 0 <= i < |log| ==> log[i].HitAt?
    ensures x.TimesOf(log, s, client, Forgetting) == x.TimesOf(log, s, client, Lasting)
  {
    if log != [] {
      NothingToForget(x, log[..|log| - 1], s, client);
    }
  }

  /** Without sweeps there is nothing to notice, whatever the clocks and the windows. */
  lemma {:induction false} UnsweptUnnoticed(x: Load, steps: seq<Step>)
    requires NoShardSwept(steps)
    ensures x.RunInHistory(steps, Forgetting) == x.RunInHistory(steps, Lasting)
    ensures var log := x.RunInHistory(steps, Lasting).log; forall i :: 0 <= i < |log| ==> log[i].HitAt?
  {
    if steps != [] {
      var n := |steps| - 1;
      UnsweptUnnoticed(x, steps[..n]);
      var p, st := x.RunInHistory(steps[..n], Lasting), steps[n];
      if x.Turn(p.progress, st) {
        NothingToForget(x, p.log, p.progress[st.n].s, x.reqs[st.n].clientIpText);
      }
    }
  }

  // ---------------------------------------------------------------- the bound on the window is exact

  /** A history whose entries took effect at `ats`, the hits with clocks at most `skew` old. */
  predicate Dated(log: seq<Entry>, ats: seq<int>, skew: nat) {
    && |ats| == |log|
    && (forall i, j | 0 <= i < j < |ats| :: ats[i] <= ats[j])
    && (forall i | 0 <= i < |log| :: log[i].clock <= ats[i] && (log[i].HitAt? ==> ats[i] - skew <= log[i].clock))
  }

  /** What the window holds when one more hit is counted. */
  function CountWith(x: Load, log: seq<Entry>, s: nat, client: string, clock: int, memory: Memory): nat
    requires s < x.Size()
  {
    SpanOf(x.TimesOf(log, s, client, memory) + [clock], WindowOf(x.zone, s)).count
  }

  lemma {:induction false} DatedAlike(x: Load, log: seq<Entry>, ats: seq<int>, s: nat, client: string, skew: nat, at: int)
    requires s < x.Size() && WindowOf(x.zone, s) + 2 * skew <= IDLE_EVICTION
    requires Dated(log, ats, skew) && (ats != [] ==> ats[|ats| - 1] <= at)
    ensures Alike(x.TimesOf(log, s, client, Forgetting), x.TimesOf(log, s, client, Lasting), WindowOf(x.zone, s), skew, at)
  {
    if log != [] {
      var n := |log| - 1;
      DatedAlike(x, log[..n], ats[..n], s, client, skew, ats[n]);
      AlikeEntry(x, log[..n], log[n], s, client, skew, ats[n]);
      assert log[..n] + [log[n]] == log;
      AlikeLater(x.TimesOf(log, s, client, Forgetting), x.TimesOf(log, s, client, Lasting), WindowOf(x.zone, s), skew, ats[n], at);
    }
  }

  /** A history and one more hit after it. */
  predicate Comes(log: seq<Entry>, ats: seq<int>, skew: nat, clock: int, at: int) {
    Dated(log, ats, skew) && (ats != [] ==> ats[|ats| - 1] <= at) && at - skew <= clock <= at
  }

  ghost predicate NeverNoticed(x: Load, s: nat, client: string, skew: nat)
    requires s < x.Size()
  {
    forall log, ats, clock, at :: Comes(log, ats, skew, clock, at) ==>
      CountWith(x, log, s, client, clock, Forgetting) == CountWith(x, log, s, client, clock, Lasting)
  }

  /** A hit, another with an older clock, a sweep, and a hit with an older clock: the sweep is noticed. */
  lemma SweepNoticed(x: Load, s: nat, client: string, skew: nat) returns (log: seq<Entry>, ats: seq<int>, clock: int, at: int)
    requires s < x.Size() && WindowOf(x.zone, s) > 0 && WindowOf(x.zone, s) + 2 * skew > IDLE_EVICTION
    ensures Comes(log, ats, skew, clock, at)
    ensures CountWith(x, log, s, client, clock, Forgetting) != CountWith(x, log, s, client, clock, Lasting)
  {
    var window := WindowOf(x.zone, s);
    var a, b, e := HitAt(s, client, 0), HitAt(s, client, 0 - skew), SweptAt(x.ShardOf(s, client), IDLE_EVICTION - skew);
    at := if IDLE_EVICTION <= skew then 0 else IDLE_EVICTION - skew;
    clock := at - skew;
    log, ats := [a, b, e], [0, 0, at];
    NoticedTimes(x, s, client, a, b, e, Forgetting);
    NoticedTimes(x, s, client, a, b, e, Lasting);
    ThirdCounts(window, 0 - skew, clock);
    ThreeDated(a, b, e, at, skew);
  }

  lemma ThreeDated(a: Entry, b: Entry, e: Entry, at: int, skew: nat)
    requires a.HitAt? && b.HitAt? && e.SweptAt? && 0 <= at && e.clock <= at
    requires 0 - skew <= a.clock <= 0 && 0 - skew <= b.clock <= 0
    ensures Dated([a, b, e], [0, 0, at], skew)
  {
  }

  /** Three hits within a window that opened at 0 count three, the last on its own counts one. */
  lemma ThirdCounts(window: int, second: int, third: int)
    requires window > 0 && second < window && third < window
    ensures SpanOf([0, second] + [third], window).count == 3
    ensures SpanOf([] + [third], window).count == 1
  {
    SpanNext([], window, 0);
    SpanNext([0], window, second);
    SpanNext([0, second], window, third);
    SpanNext([], window, third);
    assert [0] + [second] == [0, second] && [] + [0] == [0];
  }

  lemma NoticedTimes(x: Load, s: nat, client: string, a: Entry, b: Entry, e: Entry, memory: Memory)
    requires s < x.Size() && a.HitAt? && a.s == s && a.client == client && b.HitAt? && b.s == s && b.client == client
    requires e == SweptAt(x.ShardOf(s, client), b.clock + IDLE_EVICTION)
    ensures x.TimesOf([a, b, e], s, client, memory) == if memory.Forgetting? then [] else [a.clock, b.clock]
  {
    OneMoreEntry(x, [], a, s, client, memory);
    OneMoreEntry(x, [a], b, s, client, memory);
    OneMoreEntry(x, [a, b], e, s, client, memory);
    assert [] + [a] == [a] && [a] + [b] == [a, b] && [a, b] + [e] == [a, b, e];
    assert [a.clock] + [b.clock] == [a.clock, b.clock];
  }

  /** No sweep is ever noticed, in any history, if and only if the window and twice the skew are within 300 seconds. */
  lemma SkewedWindowsExactly(x: Load, s: nat, client: string, skew: nat)
    requires s < x.Size() && WindowOf(x.zone, s) > 0
    ensures NeverNoticed(x, s, client, skew) <==> WindowOf(x.zone, s) + 2 * skew <= 300_000_000_000
  {
    if WindowOf(x.zone, s) + 2 * skew <= IDLE_EVICTION {
      forall log, ats, clock, at | Comes(log, ats, skew, clock, at)
        ensures CountWith(x, log, s, client, clock, Forgetting) == CountWith(x, log, s, client, clock, Lasting)
      {
        DatedAlike(x, log, ats, s, client, skew, at);
        AlikeHit(x.TimesOf(log, s, client, Forgetting), x.TimesOf(log, s, client, Lasting), WindowOf(x.zone, s), skew, at, clock);
      }
    } else {
      var log, ats, clock, at := SweepNoticed(x, s, client, skew);
    }
  }

  /** So every request stands where the hits alone say. */
  lemma InterleavingsFollowHits(x: Load, steps: seq<Step>, skew: nat)
    requires SeparateScopes(x.zone)
    requires NoShardSwept(steps) || (Skewed(steps, skew) && WindowsWithin(x.zone, skew))
    ensures x.Run(steps).progress == x.RunInHistory(steps, Lasting).progress
  {
    InterleavingsFollowHistory(x, steps);
    if NoShardSwept(steps) {
      UnsweptUnnoticed(x, steps);
    } else {
      ForgettingUnnoticed(x, steps, skew);
    }
  }

  // ---------------------------------------------------------------- a request on its own

  function Repeated(x: Load, e: Edge, st: Step, k: nat): Edge
    decreases k
  {
    if k == 0 then e else Repeated(x, x.Next(e, st), st, k - 1)
  }

  lemma {:induction false} DoneStays(x: Load, e: Edge, st: Step, k: nat)
    requires st.Advance? && !x.Turn(e.progress, st)
    ensures Repeated(x, e, st, k) == e
    decreases k
  {
    if k > 0 {
      DoneStays(x, e, st, k - 1);
    }
  }

  lemma WalkOn(stages: seq<Stage>, t: Table, now: int, s: nat)
    requires s < |stages|
    ensures DecideFrom(stages, t, now, s)
      == if stages[s].Fires(t, now) then (s, stages[s].Spent(t, now)) else DecideFrom(stages, stages[s].Spent(t, now), now, s + 1)
    ensures DecideFrom(stages, t, now, |stages|) == (|stages|, t)
  {
  }

  lemma MovesOn(x: Load, e: Edge, n: nat, now: int, s: nat)
    requires n < |x.reqs| == |e.progress| && s < x.Size() && e.progress[n] == At(s)
    ensures var stage, next := x.StageAt(n, s), x.Next(e, Advance(n, now, now));
      && next.table == stage.Spent(e.table, now)
      && next.progress == e.progress[n := if stage.Fires(e.table, now) then Done(s) else if s + 1 == x.Size() then Done(s + 1) else At(s + 1)]
  {
  }

  /** A request whose steps nothing interrupts is decided, and spends, as the sequential walk does. */
  lemma {:induction false} AloneIsEvaluate(x: Load, e: Edge, n: nat, now: int, s: nat)
    requires n < |x.reqs| == |e.progress| && s < x.Size() && e.progress[n] == At(s)
    ensures var r := DecideFrom(StagesOf(x.lib, x.zone, x.reqs[n]), e.table, now, s);
      Repeated(x, e, Advance(n, now, now), x.Size() - s) == Edge(e.progress[n := Done(r.0)], r.1)
    decreases x.Size() - s
  {
    var st, stages := Advance(n, now, now), StagesOf(x.lib, x.zone, x.reqs[n]);
    var next := x.Next(e, st);
    MovesOn(x, e, n, now, s);
    WalkOn(stages, e.table, now, s);
    assert Repeated(x, e, st, x.Size() - s) == Repeated(x, next, st, x.Size() - s - 1);
    if stages[s].Fires(e.table, now) || s + 1 == x.Size() {
      DoneStays(x, next, st, x.Size() - s - 1);
      WalkOn(stages, next.table, now, s);
    } else {
      AloneIsEvaluate(x, next, n, now, s + 1);
      var d := DecideFrom(stages, next.table, now, s + 1).0;
      assert next.progress[n := Done(d)] == e.progress[n := Done(d)];
    }
  }

  // ---------------------------------------------------------------- on the mutable limiter

  /** One stage of one request, as one turn of a loop of `Evaluate`. */
  method AdvanceOne(x: Load, limiter: RateLimiter, n: nat, s: nat, now: int) returns (fires: bool)
    requires limiter.Valid() && n < |x.reqs| && s < x.Size()
    modifies limiter.shards
    ensures limiter.Valid()
    ensures fires == x.StageAt(n, s).Fires(old(limiter.Contents()), now)
    ensures limiter.Contents() == x.StageAt(n, s).Spent(old(limiter.Contents()), now)
  {
    var zone, req := x.zone, x.reqs[n];
    if s < |zone.rules| {
      var rule := zone.rules[s];
      if !EvalMatch(x.lib, req, rule.matchExpr) {
        return false;
      }
      if rule.rateLimit.None? {
        return true;
      }
      fires := limiter.Check(KeyOf(zone, s, req.clientIpText), rule.rateLimit.value.threshold, rule.rateLimit.value.windowSeconds * SECOND, now);
    } else {
      var ddos := zone.ddos[s - |zone.rules|];
      assert StagesOf(x.lib, zone, req)[|zone.rules| + (s - |zone.rules|)] == DdosStage(zone, req, ddos);
      if !DdosScopeMatches(ddos, req) {
        return false;
      }
      fires := limiter.Check(KeyOf(zone, s, req.clientIpText), ddos.requestRateThreshold, ddos.burstWindowSeconds * SECOND, now);
    }
  }

  /** One step on the limiter. */
  method ServeStep(x: Load, limiter: RateLimiter, progress: seq<Progress>, st: Step) returns (next: seq<Progress>)
    requires limiter.Valid() && limiter.hash == x.hash && |progress| == |x.reqs|
    requires st.SweepShard? ==> st.shard < SHARDS
    modifies limiter.shards
    ensures limiter.Valid() && |next| == |x.reqs|
    ensures Edge(next, limiter.Contents()) == x.Next(Edge(progress, old(limiter.Contents())), st)
  {
    next := progress;
    match st {
      case Advance(n, clock, _) =>
        if n < |x.reqs| && progress[n].At? && progress[n].s < x.Size() {
          var fires := AdvanceOne(x, limiter, n, progress[n].s, clock);
          next := x.Moved(progress, n, fires);
        }
      case SweepShard(shard, clock, _) =>
        ghost var t := limiter.Contents();
        limiter.PruneShard(shard, clock);
        assert PrunedPart(t, limiter.InShard(shard), clock) == PrunedPart(t, k => x.hash(k) % SHARDS == shard, clock);
    }
  }

  /** Any schedule of steps on one limiter: each request's progress is the one the history calls for. */
  method Serve(x: Load, steps: seq<Step>) returns (progress: seq<Progress>)
    requires SeparateScopes(x.zone)
    requires forall i :: 0 <= i < |steps| && steps[i].SweepShard? ==> steps[i].shard < SHARDS
    ensures progress == x.RunInHistory(steps, Forgetting).progress
  {
    var limiter := new RateLimiter(x.hash);
    progress := x.Started();
    for i := 0 to |steps|
      invariant limiter.Valid() && fresh(limiter.shards) && limiter.hash == x.hash
      invariant |progress| == |x.reqs| && Edge(progress, limiter.Contents()) == x.Run(steps[..i])
    {
      assert steps[..i + 1][..i] == steps[..i];
      progress := ServeStep(x, limiter, progress, steps[i]);
    }
    assert steps[..|steps|] == steps;
    InterleavingsFollowHistory(x, steps);
  }
}
