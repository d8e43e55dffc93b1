/**
 Per-client request budgets: fixed windows in a sharded table. The clock is a parameter, in nanoseconds.
 The shards stand for one flat table; every method is proved against that table.
 */
module Limiter {
  import opened Decimal

  const SHARDS: nat := 32
  const SECOND: int := 1_000_000_000
  const IDLE_EVICTION: int := 300 * SECOND

  datatype Counter = Counter(windowStart: int, hits: nat, lastSeen: int)

  type Table = map<string, Counter>

  // ---------------------------------------------------------------- the flat table

  /** The counter a hit is added to: a fresh window when there is none or the old one is over. */
  function Opened(t: Table, key: string, window: int, now: int): Counter {
    var c := if key in t then t[key] else Counter(now, 0, now);
    if now - c.windowStart >= window then Counter(now, 0, c.lastSeen) else c
  }

  /** The counter after one hit; `hits` is a uint32 and wraps. */
  function Hit(t: Table, key: string, window: int, now: int): Counter {
    var c := Opened(t, key, window, now);
    Counter(c.windowStart, (c.hits + 1) % UINT32_LIMIT, now)
  }

  function Checked(t: Table, key: string, window: int, now: int): Table {
    t[key := Hit(t, key, window, now)]
  }

  /** The verdict of the request that was just counted. */
  predicate Over(t: Table, key: string, threshold: nat, window: int, now: int) {
    Hit(t, key, window, now).hits > threshold
  }

  function Pruned(t: Table, now: int): Table {
    map k | k in t && now - t[k].lastSeen < IDLE_EVICTION :: t[k]
  }

  /** A sweep of the keys in `part` by a clock read at `seen`, which may be long past. */
  function PrunedPart(t: Table, part: string -> bool, seen: int): Table {
    map k | k in t && !(part(k) && seen - t[k].lastSeen >= IDLE_EVICTION) :: t[k]
  }

  // ---------------------------------------------------------------- the sharded table

  class Shard {
    var entries: Table

    constructor ()
      ensures entries == map[]
    {
      entries := map[];
    }

    /** The inner loop of `Prune`: the map is walked in an arbitrary order. */
    method Prune(now: int)
      modifies this
      ensures entries == Pruned(old(entries), now)
    {
      var todo := entries.Keys;
      while todo != {}
        invariant todo <= entries.Keys <= old(entries).Keys
        invariant forall k :: k in entries ==> entries[k] == old(entries)[k]
        invariant forall k :: k in old(entries) && k !in todo ==> (k in entries <==> now - old(entries)[k].lastSeen < IDLE_EVICTION)
        decreases todo
      {
        var key :| key in todo;
        todo := todo - {key};
        if now - entries[key].lastSeen >= IDLE_EVICTION {
          entries := entries - {key};
        }
      }
    }
  }

  class RateLimiter {
    const hash: string -> nat
    const shards: seq<Shard>

    ghost predicate Valid()
      reads shards
    {
      && |shards| == SHARDS
      && (forall i, j :: 0 <= i < j < SHARDS ==> shards[i] != shards[j])
      && (forall i, k :: 0 <= i < SHARDS && k in shards[i].entries ==> Slot(k) == i)
    }

    function Slot(key: string): nat {
      hash(key) % SHARDS
    }

    ghost function Keys(): set<string>
      reads shards
    {
      set i, k | 0 <= i < |shards| && k in shards[i].entries :: k
    }

    /** The flat table the shards stand for. */
    ghost function Contents(): Table
      reads shards
      requires Valid()
    {
      map k | k in Keys() :: shards[Slot(k)].entries[k]
    }

    /** A key is in the table when it is in the one shard it hashes to. */
    lemma ContentsAt(key: string)
      requires Valid()
      ensures key in Contents() <==> key in shards[Slot(key)].entries
      ensures key in Contents() ==> Contents()[key] == shards[Slot(key)].entries[key]
    {
    }

    lemma ContentsAre(t: Table)
      requires Valid()
      requires forall k :: k in t <==> k in shards[Slot(k)].entries
      requires forall k :: k in t ==> t[k] == shards[Slot(k)].entries[k]
      ensures Contents() == t
    {
      forall k ensures k in Contents() <==> k in t {
        ContentsAt(k);
      }
    }

    constructor (hash: string -> nat)
      ensures Valid() && fresh(shards)
      ensures this.hash == hash && Contents() == map[]
    {
      var made: seq<Shard> := [];
      for i := 0 to SHARDS
        invariant |made| == i && fresh(made)
        invariant forall a, b :: 0 <= a < b < i ==> made[a] != made[b]
        invariant forall a :: 0 <= a < i ==> made[a].entries == map[]
      {
        var s := new Shard();
        made := made + [s];
      }
      this.hash := hash;
      shards := made;
    }

    /** A counter written into the shard of its key is written into the flat table. */
    method Put(key: string, c: Counter)
      requires Valid()
      modifies shards
      ensures Valid() && Contents() == old(Contents())[key := c]
    {
      ghost var t := Contents();
      forall k {
        ContentsAt(k);
      }
      var s := shards[Slot(key)];
      s.entries := s.entries[key := c];
      ContentsAre(t[key := c]);
    }

    /** Records one hit and reports whether the client is now over the threshold. */
    method Check(key: string, threshold: nat, window: int, now: int) returns (over: bool)
      requires Valid()
      modifies shards
      ensures Valid()
      ensures Contents() == Checked(old(Contents()), key, window, now)
      ensures over == Over(old(Contents()), key, threshold, window, now)
    {
      ghost var t := Contents();
      var s := shards[Slot(key)];
      var c := if key in s.entries then s.entries[key] else Counter(now, 0, now);
      assert c == if key in t then t[key] else Counter(now, 0, now) by {
        ContentsAt(key);
      }
      if now - c.windowStart >= window {
        c := Counter(now, 0, c.lastSeen);
      }
      c := c.(hits := (c.hits + 1) % UINT32_LIMIT);
      c := c.(lastSeen := now);
      assert c == Hit(t, key, window, now);
      Put(key, c);
      over := c.hits > threshold;
    }

    /** The keys of one shard. */
    function InShard(i: nat): string -> bool {
      key => Slot(key) == i
    }

    /** One shard's share of a sweep; checks may come before the next shard's, and `seen` stays as it was. */
    method PruneShard(i: nat, seen: int)
      requires Valid() && i < SHARDS
      modifies shards
      ensures Valid()
      ensures Contents() == PrunedPart(old(Contents()), InShard(i), seen)
    {
      ghost var t := Contents();
      forall k {
        ContentsAt(k);
      }
      shards[i].Prune(seen);
      ContentsAre(PrunedPart(t, InShard(i), seen));
    }

    /** Drops the counters nothing has touched for a while, shard by shard. */
    method Prune(now: int)
      requires Valid()
      modifies shards
      ensures Valid()
      ensures Contents() == Pruned(old(Contents()), now)
    {
      ghost var t := Contents();
      forall k {
        ContentsAt(k);
      }
      for i := 0 to SHARDS
        invariant forall j :: 0 <= j < i ==> shards[j].entries == Pruned(old(shards[j].entries), now)
        invariant forall j :: i <= j < SHARDS ==> shards[j].entries == old(shards[j].entries)
      {
        shards[i].Prune(now);
      }
      ContentsAre(Pruned(t, now));
    }

    method TrackedKeys() returns (total: nat)
      requires Valid()
      ensures total == |Contents()|
    {
      total := 0;
      ghost var counted: set<string> := {};
      for i := 0 to SHARDS
        invariant total == |counted|
        invariant forall k :: k in counted <==> k in Keys() && Slot(k) < i
      {
        total := total + |shards[i].entries|;
        assert counted !! shards[i].entries.Keys;
        assert |shards[i].entries| == |shards[i].entries.Keys|;
        counted := counted + shards[i].entries.Keys;
      }
      assert counted == Keys() == Contents().Keys;
    }
  }
}
