/**
 The calls that a sweep or a synchronisation makes, one after the other, while other writers use Redis too.
 Before the n-th call takes effect the others have made the transactions `others(n)`; the call meets
 `faults(n)`. The trace says who wrote what, in which order.
 */
module Traffic {
  import opened Wrappers
  import opened Decimal
  import opened Ruleset
  import opened Distribute

  datatype Deed = Ours(w: Write) | Theirs(w: Write)

  type Trace = seq<Deed>

  /** Everything that was written. */
  function AllOf(trace: Trace): seq<Write> {
    seq(|trace|, i requires 0 <= i < |trace| => trace[i].w)
  }

  function OursOf(trace: Trace): seq<Write> {
    if trace == [] then []
    else OursOf(trace[..|trace| - 1]) + (if trace[|trace| - 1].Ours? then [trace[|trace| - 1].w] else [])
  }

  function TheirsOf(trace: Trace): seq<Write> {
    if trace == [] then []
    else TheirsOf(trace[..|trace| - 1]) + (if trace[|trace| - 1].Theirs? then [trace[|trace| - 1].w] else [])
  }

  function ByOthers(ws: seq<Write>): Trace {
    seq(|ws|, i requires 0 <= i < |ws| => Theirs(ws[i]))
  }

  lemma AllOfParts(a: Trace, b: Trace)
    ensures AllOf(a + b) == AllOf(a) + AllOf(b)
  {
  }

  lemma {:induction false} OthersOnly(trace: Trace, ws: seq<Write>)
    ensures OursOf(trace + ByOthers(ws)) == OursOf(trace)
    ensures TheirsOf(trace + ByOthers(ws)) == TheirsOf(trace) + ws
    ensures AllOf(trace + ByOthers(ws)) == AllOf(trace) + ws
  {
    if ws == [] {
      assert trace + ByOthers(ws) == trace && TheirsOf(trace) + ws == TheirsOf(trace);
    } else {
      var n, t := |ws| - 1, trace + ByOthers(ws);
      assert t[..|t| - 1] == trace + ByOthers(ws[..n]);
      OthersOnly(trace, ws[..n]);
      assert ws == ws[..n] + [ws[n]];
    }
  }

  lemma OneOfOurs(trace: Trace, w: Write)
    ensures OursOf(trace + [Ours(w)]) == OursOf(trace) + [w]
    ensures TheirsOf(trace + [Ours(w)]) == TheirsOf(trace)
    ensures AllOf(trace + [Ours(w)]) == AllOf(trace) + [w]
  {
    assert (trace + [Ours(w)])[..|trace|] == trace;
    assert TheirsOf(trace) + [] == TheirsOf(trace);
  }

  /** Some of the plan has been carried out, from its beginning. */
  ghost predicate Began(before: seq<Write>, after: seq<Write>, plan: seq<Write>) {
    exists k :: 0 <= k <= |plan| && after == before + plan[..k]
  }

  lemma BeganNothing(before: seq<Write>, plan: seq<Write>)
    ensures Began(before, before, plan)
  {
    assert before == before + plan[..0];
  }

  lemma BeganAll(before: seq<Write>, plan: seq<Write>)
    ensures Began(before, before + plan, plan)
  {
    assert plan[..|plan|] == plan;
  }

  /** More of the same plan, after its first part. */
  lemma BeganLater(before: seq<Write>, done: seq<Write>, after: seq<Write>, more: seq<Write>, plan: seq<Write>)
    requires Began(before + done, after, more) && done + more <= plan
    ensures Began(before, after, plan)
  {
    var k :| 0 <= k <= |more| && after == before + done + more[..k];
    assert plan[..|done| + k] == done + more[..k];
    assert before + done + more[..k] == before + plan[..|done| + k];
  }

  /** What the others write during the calls from `a` up to `b`. */
  function Foreign(others: nat -> seq<Write>, a: nat, b: nat): seq<Write>
    decreases b
  {
    if b <= a then [] else Foreign(others, a, b - 1) + others(b - 1)
  }

  class Network {
    const faults: nat -> Fault
    const others: nat -> seq<Write>
    var calls: nat
    ghost var clean: bool     // no call has failed so far
    ghost var start: Store
    ghost var begin: nat
    ghost var trace: Trace

    constructor (faults: nat -> Fault, others: nat -> seq<Write>)
      ensures this.faults == faults && this.others == others && calls == 0 && clean
    {
      this.faults, this.others, calls := faults, others, 0;
      clean, start, begin, trace := true, EMPTY, 0, [];
    }

    /** Redis holds what the trace has made of it, and what is not ours in it is the others'. */
    ghost predicate Tracks(redis: Redis)
      reads this, redis
    {
      && redis.Contents() == ApplyAll(start, AllOf(trace))
      && begin <= calls && TheirsOf(trace) == Foreign(others, begin, calls)
    }

    twostate predicate Ongoing(redis: Redis)
      reads this, redis
    {
      Tracks(redis) && start == old(start) && begin == old(begin) && old(trace) <= trace
    }

    /** A new run of calls begins here. */
    ghost method Begin(redis: Redis)
      modifies this
      ensures Tracks(redis) && start == redis.Contents() && begin == calls && trace == []
      ensures calls == old(calls) && clean == old(clean)
    {
      start, begin, trace := redis.Contents(), calls, [];
      assert AllOf(trace) == [] && TheirsOf(trace) == [];
    }

    method Next(redis: Redis) returns (fault: Fault)
      requires Tracks(redis)
      modifies this, redis
      ensures Ongoing(redis) && OursOf(trace) == OursOf(old(trace))
      ensures calls == old(calls) + 1 && fault == faults(old(calls))
      ensures clean <==> old(clean) && fault.Healthy?
    {
      redis.Absorb(others(calls));
      OthersOnly(trace, others(calls));
      ApplyParts(start, AllOf(trace), others(calls));
      trace := trace + ByOthers(others(calls));
      fault := faults(calls);
      calls := calls + 1;
      clean := clean && fault.Healthy?;
    }

    /** `n` reads of the data-plane, one after the other; the first that fails ends them. */
    method AllHealthy(redis: Redis, n: nat) returns (ok: bool)
      requires Tracks(redis)
      modifies this, redis
      ensures Ongoing(redis) && OursOf(trace) == OursOf(old(trace))
      ensures clean <==> old(clean) && ok
      ensures ok ==> calls == old(calls) + n
    {
      for i := 0 to n
        invariant Ongoing(redis) && OursOf(trace) == OursOf(old(trace))
        invariant calls == old(calls) + i && clean == old(clean)
      {
        var fault := Next(redis);
        if !fault.Healthy? {
          return false;
        }
      }
      return true;
    }

    /** Our transaction has taken effect. */
    ghost method Note(redis: Redis, w: Write, before: Store)
      requires before == ApplyAll(start, AllOf(trace)) && redis.Contents() == Apply(before, w)
      requires begin <= calls && TheirsOf(trace) == Foreign(others, begin, calls)
      modifies `trace
      ensures Tracks(redis) && trace == old(trace) + [Ours(w)]
      ensures OursOf(trace) == OursOf(old(trace)) + [w]
    {
      OneOfOurs(trace, w);
      ApplyParts(start, AllOf(trace), [w]);
      assert ApplyAll(before, [w]) == Apply(before, w) by {
        assert [w][..0] == [];
      }
      trace := trace + [Ours(w)];
    }

    method Publish(redis: Redis, zone: CompiledZone) returns (ok: bool)
      requires Tracks(redis)
      modifies this, redis
      ensures Ongoing(redis) && (clean <==> old(clean) && ok)
      ensures ok ==> OursOf(trace) == OursOf(old(trace)) + [PublicationOf(zone)]
      ensures Began(OursOf(old(trace)), OursOf(trace), [PublicationOf(zone)])
    {
      var fault := Next(redis);
      ghost var before := redis.Contents();
      ok := redis.Publish(zone, fault);
      if !fault.Lost? {
        Note(redis, PublicationOf(zone), before);
      }
      BeganNothing(OursOf(old(trace)), [PublicationOf(zone)]);
      BeganAll(OursOf(old(trace)), [PublicationOf(zone)]);
    }

    method Unpublish(redis: Redis, hostname: string) returns (ok: bool)
      requires Tracks(redis)
      modifies this, redis
      ensures Ongoing(redis) && (clean <==> old(clean) && ok)
      ensures ok ==> OursOf(trace) == OursOf(old(trace)) + [Write.Unpublish(hostname)]
      ensures Began(OursOf(old(trace)), OursOf(trace), [Write.Unpublish(hostname)])
    {
      var fault := Next(redis);
      ghost var before := redis.Contents();
      ok := redis.Unpublish(hostname, fault);
      if !fault.Lost? {
        Note(redis, Write.Unpublish(hostname), before);
      }
      BeganNothing(OursOf(old(trace)), [Write.Unpublish(hostname)]);
      BeganAll(OursOf(old(trace)), [Write.Unpublish(hostname)]);
    }

    method BumpEpoch(redis: Redis) returns (ok: bool)
      requires Tracks(redis)
      modifies this, redis
      ensures Ongoing(redis) && (clean <==> old(clean) && ok)
      ensures ok ==> OursOf(trace) == OursOf(old(trace)) + [Write.BumpEpoch]
      ensures Began(OursOf(old(trace)), OursOf(trace), [Write.BumpEpoch])
    {
      var fault := Next(redis);
      ghost var before := redis.Contents();
      ok := redis.BumpEpoch(fault);
      if !fault.Lost? {
        Note(redis, Write.BumpEpoch, before);
      }
      BeganNothing(OursOf(old(trace)), [Write.BumpEpoch]);
      BeganAll(OursOf(old(trace)), [Write.BumpEpoch]);
    }

    method PublishedHostnames(redis: Redis) returns (members: Option<seq<string>>)
      requires Tracks(redis)
      modifies this, redis
      ensures Ongoing(redis) && OursOf(trace) == OursOf(old(trace))
      ensures clean <==> old(clean) && members.Some?
      ensures members.Some? ==> Enumerates(members.value, redis.index)
    {
      var fault := Next(redis);
      members := redis.PublishedHostnames(fault);
    }
  }
}
