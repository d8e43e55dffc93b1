/**
 The edge's view of the configuration, refreshed by separate Redis reads. Writers may act between any two
 of them and any of them may fail: the i-th read sees the store `timeline(i)`, or nothing if `lost(i)`.
 */
module Cache {
  import opened Wrappers
  import opened Json
  import opened Decimal
  import opened Ruleset
  import opened Wire
  import opened Distribute

  type Zones = map<string, CompiledZone>

  datatype Snapshot = Snapshot(zones: Zones, epoch: nat)

  /** One edge's connection: what its next read will see. */
  class Reader {
    const timeline: nat -> Store
    const lost: nat -> bool
    var next: nat

    constructor (timeline: nat -> Store, lost: nat -> bool)
      ensures this.timeline == timeline && this.lost == lost && next == 0
    {
      this.timeline, this.lost, next := timeline, lost, 0;
    }

    method Members() returns (r: Option<seq<string>>)
      modifies this
      ensures next == old(next) + 1
      ensures r.None? <==> lost(old(next))
      ensures r.Some? ==> Enumerates(r.value, timeline(old(next)).index)
    {
      var s := timeline(next);
      next := next + 1;
      if lost(next - 1) {
        return None;
      }
      var listed: seq<string> := [];
      var rest := s.index;
      while rest != {}
        invariant rest <= s.index
        invariant Enumerates(listed, s.index - rest)
        decreases rest
      {
        var h :| h in rest;
        rest := rest - {h};
        listed := listed + [h];
      }
      return Some(listed);
    }

    method Epoch() returns (r: Option<nat>)
      modifies this
      ensures next == old(next) + 1
      ensures r == if lost(old(next)) then None else Some(timeline(old(next)).epoch)
    {
      r := if lost(next) then None else Some(timeline(next).epoch);
      next := next + 1;
    }

    method Version(h: string) returns (r: Option<string>)
      modifies this
      ensures next == old(next) + 1
      ensures r == VersionSeen(timeline, lost, old(next), h)
    {
      r := VersionSeen(timeline, lost, next, h);
      next := next + 1;
    }

    method Zone(h: string) returns (r: Option<Json>)
      modifies this
      ensures next == old(next) + 1
      ensures r == ZoneSeen(timeline, lost, old(next), h)
    {
      r := ZoneSeen(timeline, lost, next, h);
      next := next + 1;
    }
  }

  /** A missing key reads like an error. */
  function VersionSeen(timeline: nat -> Store, lost: nat -> bool, i: nat, h: string): Option<string> {
    if lost(i) || h !in timeline(i).versions then None else Some(timeline(i).versions[h])
  }

  function ZoneSeen(timeline: nat -> Store, lost: nat -> bool, i: nat, h: string): Option<Json> {
    if lost(i) || h !in timeline(i).zones then None else Some(timeline(i).zones[h])
  }

  /** The version read matches what is already held: nothing to download. */
  predicate Unchanged(previous: Zones, h: string, version: Option<string>) {
    version.Some? && h in previous && ParseInt(version.value) == Some(previous[h].configVersion)
  }

  /** A payload that parses and is not from a newer schema. */
  function Usable(payload: Option<Json>): Option<CompiledZone> {
    if payload.None? then None
    else
      var z := ReadZone(payload.value);
      if z.Some? && z.value.schemaVersion <= SCHEMA_VERSION then z else None
  }

  /** What the new snapshot holds for a host that is fetched: the payload, else whatever was held before. */
  function Fetched(previous: Zones, h: string, payload: Option<Json>): Option<CompiledZone> {
    if Usable(payload).Some? then Usable(payload)
    else if h in previous then Some(previous[h])
    else None
  }

  function EntryOf(zones: Zones, h: string): Option<CompiledZone> {
    if h in zones then Some(zones[h]) else None
  }

  function With(m: Zones, h: string, z: Option<CompiledZone>): Zones {
    if z.Some? then m[h := z.value] else m
  }

  /** The map a refresh builds, from read number `i` on, for the hosts that remain. */
  function Rebuilt(previous: Zones, timeline: nat -> Store, lost: nat -> bool, i: nat, hosts: seq<string>, built: Zones): Zones
    decreases |hosts|
  {
    if hosts == [] then built
    else
      var h := hosts[0];
      if Unchanged(previous, h, VersionSeen(timeline, lost, i, h))
      then Rebuilt(previous, timeline, lost, i + 1, hosts[1..], built[h := previous[h]])
      else Rebuilt(previous, timeline, lost, i + 2, hosts[1..],
                   With(built, h, Fetched(previous, h, ZoneSeen(timeline, lost, i + 1, h))))
  }

  /** How many zones the refresh downloads. */
  function Downloads(previous: Zones, timeline: nat -> Store, lost: nat -> bool, i: nat, hosts: seq<string>): nat
    decreases |hosts|
  {
    if hosts == [] then 0
    else
      var h := hosts[0];
      if Unchanged(previous, h, VersionSeen(timeline, lost, i, h))
      then Downloads(previous, timeline, lost, i + 1, hosts[1..])
      else (if Usable(ZoneSeen(timeline, lost, i + 1, h)).Some? then 1 else 0)
           + Downloads(previous, timeline, lost, i + 2, hosts[1..])
  }

  /** The number of the first read after the refresh. */
  function Finished(previous: Zones, timeline: nat -> Store, lost: nat -> bool, i: nat, hosts: seq<string>): nat
    decreases |hosts|
  {
    if hosts == [] then i
    else
      Finished(previous, timeline, lost,
               if Unchanged(previous, hosts[0], VersionSeen(timeline, lost, i, hosts[0])) then i + 1 else i + 2, hosts[1..])
  }

  /** One refresh, from read `i` to read `j`: it changes `a` into `b`, or leaves it when the index cannot be read. */
  ghost predicate Refresh(timeline: nat -> Store, lost: nat -> bool, a: Snapshot, i: nat, hosts: seq<string>,
                          b: Snapshot, j: nat, fetched: Option<nat>)
  {
    if lost(i) then b == a && j == i + 1 && fetched == None
    else
      && Enumerates(hosts, timeline(i).index)
      && b.zones == Rebuilt(a.zones, timeline, lost, i + 2, hosts, map[])
      && b.epoch == (if lost(i + 1) then 0 else timeline(i + 1).epoch)
      && j == Finished(a.zones, timeline, lost, i + 2, hosts)
      && fetched == Some(Downloads(a.zones, timeline, lost, i + 2, hosts))
  }

  ghost predicate Tick(timeline: nat -> Store, lost: nat -> bool, a: (Snapshot, nat), b: (Snapshot, nat)) {
    exists hosts, fetched :: Refresh(timeline, lost, a.0, a.1, hosts, b.0, b.1, fetched)
  }

  lemma OneMoreHost(previous: Zones, timeline: nat -> Store, lost: nat -> bool, r: nat, hosts: seq<string>, i: nat, built: Zones)
    requires i < |hosts|
    ensures var h, later := hosts[i], hosts[i + 1..];
      if Unchanged(previous, h, VersionSeen(timeline, lost, r, h)) then
        && Rebuilt(previous, timeline, lost, r, hosts[i..], built) == Rebuilt(previous, timeline, lost, r + 1, later, built[h := previous[h]])
        && Downloads(previous, timeline, lost, r, hosts[i..]) == Downloads(previous, timeline, lost, r + 1, later)
        && Finished(previous, timeline, lost, r, hosts[i..]) == Finished(previous, timeline, lost, r + 1, later)
      else
        && Rebuilt(previous, timeline, lost, r, hosts[i..], built)
           == Rebuilt(previous, timeline, lost, r + 2, later, With(built, h, Fetched(previous, h, ZoneSeen(timeline, lost, r + 1, h))))
        && Downloads(previous, timeline, lost, r, hosts[i..])
           == (if Usable(ZoneSeen(timeline, lost, r + 1, h)).Some? then 1 else 0) + Downloads(previous, timeline, lost, r + 2, later)
        && Finished(previous, timeline, lost, r, hosts[i..]) == Finished(previous, timeline, lost, r + 2, later)
  {
    assert hosts[i..][0] == hosts[i] && hosts[i..][1..] == hosts[i + 1..];
  }

  class RuleSetCache {
    var current: Snapshot

    constructor ()
      ensures current == Snapshot(map[], 0)
    {
      current := Snapshot(map[], 0);
    }

    method ZoneFor(hostname: string) returns (zone: Option<CompiledZone>)
      ensures zone == if hostname in current.zones then Some(current.zones[hostname]) else None
    {
      zone := if hostname in current.zones then Some(current.zones[hostname]) else None;
    }

    /** One host of the pass: its version, then its payload unless the version is the one held. */
    method RefreshHost(redis: Reader, previous: Zones, zones: Zones, h: string) returns (next: Zones, downloaded: bool)
      modifies redis
      ensures var i := old(redis.next);
        if Unchanged(previous, h, VersionSeen(redis.timeline, redis.lost, i, h))
        then redis.next == i + 1 && next == zones[h := previous[h]] && !downloaded
        else
          && redis.next == i + 2
          && next == With(zones, h, Fetched(previous, h, ZoneSeen(redis.timeline, redis.lost, i + 1, h)))
          && downloaded == Usable(ZoneSeen(redis.timeline, redis.lost, i + 1, h)).Some?
    {
      var version := redis.Version(h);
      if Unchanged(previous, h, version) {
        return zones[h := previous[h]], false;
      }
      var raw := redis.Zone(h);
      var zone := Usable(raw);
      if zone.None? {
        return if h in previous then zones[h := previous[h]] else zones, false;
      }
      return zones[h := zone.value], true;
    }

    method RefreshAll(redis: Reader, previous: Zones, hosts: seq<string>) returns (zones: Zones, count: nat)
      modifies redis
      ensures zones == Rebuilt(previous, redis.timeline, redis.lost, old(redis.next), hosts, map[])
      ensures count == Downloads(previous, redis.timeline, redis.lost, old(redis.next), hosts)
      ensures redis.next == Finished(previous, redis.timeline, redis.lost, old(redis.next), hosts)
    {
      zones, count := map[], 0;
      for i := 0 to |hosts|
        invariant Rebuilt(previous, redis.timeline, redis.lost, redis.next, hosts[i..], zones)
               == Rebuilt(previous, redis.timeline, redis.lost, old(redis.next), hosts, map[])
        invariant count + Downloads(previous, redis.timeline, redis.lost, redis.next, hosts[i..])
               == Downloads(previous, redis.timeline, redis.lost, old(redis.next), hosts)
        invariant Finished(previous, redis.timeline, redis.lost, redis.next, hosts[i..])
               == Finished(previous, redis.timeline, redis.lost, old(redis.next), hosts)
      {
        OneMoreHost(previous, redis.timeline, redis.lost, redis.next, hosts, i, zones);
        var downloaded;
        zones, downloaded := RefreshHost(redis, previous, zones, hosts[i]);
        count := if downloaded then count + 1 else count;
      }
    }

    /** One refresh pass; None when the index could not be read. */
    method RefreshOnce(redis: Reader) returns (fetched: Option<nat>, ghost hosts: seq<string>)
      modifies this, redis
      ensures Refresh(redis.timeline, redis.lost, old(current), old(redis.next), hosts, current, redis.next, fetched)
    {
      hosts := [];
      var members := redis.Members();
      if members.None? {
        return None, [];
      }
      hosts := members.value;
      var epoch := redis.Epoch();
      var previous := current;
      var zones, count := RefreshAll(redis, previous.zones, members.value);
      current := Snapshot(zones, epoch.GetOr(0));
      return Some(count), hosts;
    }

    /** One tick: a refresh that fails keeps the snapshot and the loop goes on. */
    method RefreshTick(redis: Reader, ghost ws: seq<Write>)
      requires MomentsOf(redis.timeline, ws) && AllLegible(ws) && AllGenuine(current.zones, ws)
      modifies this, redis
      ensures Tick(redis.timeline, redis.lost, (old(current), old(redis.next)), (current, redis.next))
      ensures AllGenuine(current.zones, ws)
    {
      ghost var previous, start := current, redis.next;
      var fetched, hosts := RefreshOnce(redis);
      if fetched.Some? {
        RefreshStaysGenuine(previous.zones, redis.timeline, redis.lost, start + 2, hosts, ws);
      }
    }

    /**
     The refresh loop: a tick whose refresh fails keeps the snapshot and the loop goes on. However the
     writers of `ws` interleave with its reads, it never holds anything but genuine entries.
     */
    method RunRefreshLoop(redis: Reader, ticks: nat, ghost ws: seq<Write>) returns (ghost trail: seq<(Snapshot, nat)>)
      requires MomentsOf(redis.timeline, ws) && AllLegible(ws)
      requires AllGenuine(current.zones, ws)
      modifies this, redis
      ensures |trail| == ticks + 1 && trail[0] == (old(current), old(redis.next)) && trail[ticks] == (current, redis.next)
      ensures forall t :: 0 <= t < ticks ==> Tick(redis.timeline, redis.lost, trail[t], trail[t + 1])
      ensures forall t :: 0 <= t <= ticks ==> AllGenuine(trail[t].0.zones, ws)
    {
      trail := [(current, redis.next)];
      for tick := 0 to ticks
        invariant |trail| == tick + 1 && trail[0] == (old(current), old(redis.next)) && trail[tick] == (current, redis.next)
        invariant forall t :: 0 <= t < tick ==> Tick(redis.timeline, redis.lost, trail[t], trail[t + 1])
        invariant forall t :: 0 <= t <= tick ==> AllGenuine(trail[t].0.zones, ws)
      {
        RefreshTick(redis, ws);
        trail := trail + [(current, redis.next)];
      }
    }
  }

  // ---------------------------------------------------------------- one host of a refresh

  /** Where in the reads a host's turn comes. */
  ghost function TurnOf(previous: Zones, timeline: nat -> Store, lost: nat -> bool, i: nat, hosts: seq<string>, h: string): nat
    requires h in hosts
    decreases |hosts|
  {
    if hosts[0] == h then i
    else TurnOf(previous, timeline, lost,
                if Unchanged(previous, hosts[0], VersionSeen(timeline, lost, i, hosts[0])) then i + 1 else i + 2, hosts[1..], h)
  }

  /** What a host's own reads, made at its turn, put into the new snapshot. */
  function EntryAt(previous: Zones, timeline: nat -> Store, lost: nat -> bool, i: nat, h: string): Option<CompiledZone> {
    if Unchanged(previous, h, VersionSeen(timeline, lost, i, h)) then Some(previous[h])
    else Fetched(previous, h, ZoneSeen(timeline, lost, i + 1, h))
  }

  lemma {:induction false} RebuiltOutside(previous: Zones, timeline: nat -> Store, lost: nat -> bool, i: nat, hosts: seq<string>, built: Zones, h: string)
    requires h !in hosts
    ensures var r := Rebuilt(previous, timeline, lost, i, hosts, built);
      (h in r <==> h in built) && (h in built ==> r[h] == built[h])
    decreases |hosts|
  {
    if hosts != [] {
      var g := hosts[0];
      if Unchanged(previous, g, VersionSeen(timeline, lost, i, g)) {
        RebuiltOutside(previous, timeline, lost, i + 1, hosts[1..], built[g := previous[g]], h);
      } else {
        RebuiltOutside(previous, timeline, lost, i + 2, hosts[1..],
                       With(built, g, Fetched(previous, g, ZoneSeen(timeline, lost, i + 1, g))), h);
      }
    }
  }

  /** Each listed host gets the entry of its own reads; a host that is not listed is gone. */
  lemma {:induction false} RebuiltEntry(previous: Zones, timeline: nat -> Store, lost: nat -> bool, i: nat, hosts: seq<string>, built: Zones, h: string)
    requires h in hosts && h !in built
    requires forall a, b :: 0 <= a < b < |hosts| ==> hosts[a] != hosts[b]
    ensures EntryOf(Rebuilt(previous, timeline, lost, i, hosts, built), h)
      == EntryAt(previous, timeline, lost, TurnOf(previous, timeline, lost, i, hosts, h), h)
    decreases |hosts|
  {
    var g := hosts[0];
    var next := if Unchanged(previous, g, VersionSeen(timeline, lost, i, g)) then i + 1 else i + 2;
    var grown := if next == i + 1 then built[g := previous[g]]
                 else With(built, g, Fetched(previous, g, ZoneSeen(timeline, lost, i + 1, g)));
    if g == h {
      assert h !in hosts[1..];
      RebuiltOutside(previous, timeline, lost, next, hosts[1..], grown, h);
    } else {
      RebuiltEntry(previous, timeline, lost, next, hosts[1..], grown, h);
    }
  }

  /** At its turn a host is downloaded: its version has moved or is unknown, and its payload is usable. */
  predicate Downloaded(previous: Zones, timeline: nat -> Store, lost: nat -> bool, turn: nat, h: string) {
    !Unchanged(previous, h, VersionSeen(timeline, lost, turn, h)) && Usable(ZoneSeen(timeline, lost, turn + 1, h)).Some?
  }

  ghost function DownloadedHosts(previous: Zones, timeline: nat -> Store, lost: nat -> bool, i: nat, hosts: seq<string>): set<string>
    decreases |hosts|
  {
    if hosts == [] then {}
    else
      var next := if Unchanged(previous, hosts[0], VersionSeen(timeline, lost, i, hosts[0])) then i + 1 else i + 2;
      DownloadedHosts(previous, timeline, lost, next, hosts[1..])
      + (if Downloaded(previous, timeline, lost, i, hosts[0]) then {hosts[0]} else {})
  }

  lemma {:induction false} DownloadedHostsAre(previous: Zones, timeline: nat -> Store, lost: nat -> bool, i: nat, hosts: seq<string>, h: string)
    requires forall a, b :: 0 <= a < b < |hosts| ==> hosts[a] != hosts[b]
    ensures h in DownloadedHosts(previous, timeline, lost, i, hosts)
      <==> h in hosts && Downloaded(previous, timeline, lost, TurnOf(previous, timeline, lost, i, hosts, h), h)
    decreases |hosts|
  {
    if hosts != [] {
      var g, rest := hosts[0], hosts[1..];
      assert g !in rest && (h in hosts <==> h == g || h in rest);
      DownloadedHostsAre(previous, timeline, lost, if Unchanged(previous, g, VersionSeen(timeline, lost, i, g)) then i + 1 else i + 2, rest, h);
    }
  }

  /** The number that a refresh returns is the number of listed hosts that it downloads. */
  lemma {:induction false} DownloadsExactly(previous: Zones, timeline: nat -> Store, lost: nat -> bool, i: nat, hosts: seq<string>)
    requires forall a, b :: 0 <= a < b < |hosts| ==> hosts[a] != hosts[b]
    ensures Downloads(previous, timeline, lost, i, hosts) == |DownloadedHosts(previous, timeline, lost, i, hosts)|
    decreases |hosts|
  {
    if hosts != [] {
      var g, rest := hosts[0], hosts[1..];
      var next := if Unchanged(previous, g, VersionSeen(timeline, lost, i, g)) then i + 1 else i + 2;
      DownloadsExactly(previous, timeline, lost, next, rest);
      DownloadedHostsAre(previous, timeline, lost, next, rest, g);
      assert g !in rest;
    }
  }

  // ---------------------------------------------------------------- safety under every interleaving

  /** Every store a read can see is some moment of one run of transactions from an empty Redis. */
  ghost predicate MomentsOf(timeline: nat -> Store, ws: seq<Write>) {
    forall i :: exists k :: 0 <= k <= |ws| && timeline(i) == ApplyAll(EMPTY, ws[..k])
  }

  /** The entry is one whole rule-set that was published for the host, of a schema the edge knows. */
  ghost predicate Genuine(h: string, z: CompiledZone, ws: seq<Write>) {
    z.schemaVersion <= SCHEMA_VERSION && exists w :: WasPublished(ws, h, w) && w.zone == z
  }

  ghost predicate AllGenuine(zones: Zones, ws: seq<Write>) {
    forall h :: h in zones ==> Genuine(h, zones[h], ws)
  }

  lemma MomentIsAligned(timeline: nat -> Store, ws: seq<Write>, i: nat)
    requires MomentsOf(timeline, ws)
    ensures Aligned(timeline(i), ws)
  {
    var k :| 0 <= k <= |ws| && timeline(i) == ApplyAll(EMPTY, ws[..k]);
    RunsStayAligned(ws[..k]);
    forall h | h in timeline(i).index ensures exists w :: WasPublished(ws, h, w) && Serves(timeline(i), w) {
      var w :| WasPublished(ws[..k], h, w) && Serves(timeline(i), w);
      assert WasPublished(ws, h, w);
    }
  }

  /** A payload seen at any moment is a publication of that host. */
  lemma SeenIsPublished(timeline: nat -> Store, lost: nat -> bool, ws: seq<Write>, i: nat, h: string) returns (w: Write)
    requires MomentsOf(timeline, ws) && AllLegible(ws) && ZoneSeen(timeline, lost, i, h).Some?
    ensures WasPublished(ws, h, w) && Serves(timeline(i), w)
    ensures ReadZone(ZoneSeen(timeline, lost, i, h).value) == Some(w.zone)
  {
    MomentIsAligned(timeline, ws, i);
    w :| WasPublished(ws, h, w) && Serves(timeline(i), w);
    assert Legible(w);
  }

  lemma EntryIsGenuine(previous: Zones, timeline: nat -> Store, lost: nat -> bool, turn: nat, h: string, ws: seq<Write>)
    requires MomentsOf(timeline, ws) && AllLegible(ws)
    requires h in previous ==> Genuine(h, previous[h], ws)
    ensures var e := EntryAt(previous, timeline, lost, turn, h); e.Some? ==> Genuine(h, e.value, ws)
  {
    if ZoneSeen(timeline, lost, turn + 1, h).Some? {
      var w := SeenIsPublished(timeline, lost, ws, turn + 1, h);
    }
  }

  /** However writers interleave with a refresh and whichever reads fail, the new snapshot is genuine. */
  lemma RefreshStaysGenuine(previous: Zones, timeline: nat -> Store, lost: nat -> bool, i: nat, hosts: seq<string>, ws: seq<Write>)
    requires MomentsOf(timeline, ws) && AllLegible(ws) && AllGenuine(previous, ws)
    requires forall a, b :: 0 <= a < b < |hosts| ==> hosts[a] != hosts[b]
    ensures AllGenuine(Rebuilt(previous, timeline, lost, i, hosts, map[]), ws)
  {
    var r := Rebuilt(previous, timeline, lost, i, hosts, map[]);
    forall h | h in r ensures Genuine(h, r[h], ws) {
      if h !in hosts {
        RebuiltOutside(previous, timeline, lost, i, hosts, map[], h);
      } else {
        RebuiltEntry(previous, timeline, lost, i, hosts, map[], h);
        EntryIsGenuine(previous, timeline, lost, TurnOf(previous, timeline, lost, i, hosts, h), h, ws);
      }
    }
  }

  /** A served host stays served through every refresh whose index read lists it; it goes when it is not listed. */
  lemma ServedStaysServed(previous: Zones, timeline: nat -> Store, lost: nat -> bool, i: nat, hosts: seq<string>, h: string)
    requires h in previous
    requires forall a, b :: 0 <= a < b < |hosts| ==> hosts[a] != hosts[b]
    ensures h in Rebuilt(previous, timeline, lost, i, hosts, map[]) <==> h in hosts
  {
    if h in hosts {
      RebuiltEntry(previous, timeline, lost, i, hosts, map[], h);
    } else {
      RebuiltOutside(previous, timeline, lost, i, hosts, map[], h);
    }
  }

  // ---------------------------------------------------------------- freshness

  /** Two rule-sets published for one host under one version say the same. */
  ghost predicate VersionDiscipline(ws: seq<Write>) {
    forall h, v, w :: WasPublished(ws, h, v) && WasPublished(ws, h, w) && v.zone.configVersion == w.zone.configVersion
      ==> v.zone.Essence() == w.zone.Essence()
  }

  /** `z` says what Redis held for `h` at this moment. */
  ghost predicate Current(s: Store, ws: seq<Write>, h: string, z: CompiledZone) {
    exists w :: WasPublished(ws, h, w) && Serves(s, w) && w.zone.Essence() == z.Essence()
  }

  lemma CarriedIsCurrent(previous: Zones, timeline: nat -> Store, lost: nat -> bool, turn: nat, h: string, ws: seq<Write>)
    requires MomentsOf(timeline, ws) && AllLegible(ws) && VersionDiscipline(ws)
    requires Unchanged(previous, h, VersionSeen(timeline, lost, turn, h)) && Genuine(h, previous[h], ws)
    ensures Current(timeline(turn), ws, h, previous[h])
  {
    MomentIsAligned(timeline, ws, turn);
    var w :| WasPublished(ws, h, w) && Serves(timeline(turn), w);
    var v :| WasPublished(ws, h, v) && v.zone == previous[h];
    assert Legible(w);
    assert v.zone.configVersion == w.zone.configVersion;
  }

  lemma FetchedIsCurrent(previous: Zones, timeline: nat -> Store, lost: nat -> bool, turn: nat, h: string, ws: seq<Write>)
    requires MomentsOf(timeline, ws) && AllLegible(ws)
    requires Usable(ZoneSeen(timeline, lost, turn, h)).Some?
    ensures Current(timeline(turn), ws, h, Usable(ZoneSeen(timeline, lost, turn, h)).value)
  {
    var w := SeenIsPublished(timeline, lost, ws, turn, h);
  }

  /** The entry is what Redis held at one of the host's two reads, unless the second found nothing usable. */
  ghost predicate Fresh(timeline: nat -> Store, lost: nat -> bool, turn: nat, h: string, ws: seq<Write>, e: Option<CompiledZone>) {
    || (e.Some? && Current(timeline(turn), ws, h, e.value))
    || (e.Some? && Current(timeline(turn + 1), ws, h, e.value))
    || Usable(ZoneSeen(timeline, lost, turn + 1, h)).None?
  }

  lemma EntryIsFresh(previous: Zones, timeline: nat -> Store, lost: nat -> bool, turn: nat, h: string, ws: seq<Write>)
    requires MomentsOf(timeline, ws) && AllLegible(ws) && VersionDiscipline(ws)
    requires h in previous ==> Genuine(h, previous[h], ws)
    ensures Fresh(timeline, lost, turn, h, ws, EntryAt(previous, timeline, lost, turn, h))
  {
    if Unchanged(previous, h, VersionSeen(timeline, lost, turn, h)) {
      CarriedIsCurrent(previous, timeline, lost, turn, h, ws);
    } else if Usable(ZoneSeen(timeline, lost, turn + 1, h)).Some? {
      FetchedIsCurrent(previous, timeline, lost, turn + 1, h, ws);
    }
  }

  /**
   Under version discipline every entry of a new snapshot is what Redis held for its host at one of the
   host's own two reads, unless the second one found nothing usable: a failed read, a host unpublished in
   between, or a schema too new.
   */
  lemma EntriesAreFresh(previous: Zones, timeline: nat -> Store, lost: nat -> bool, i: nat, hosts: seq<string>, ws: seq<Write>, h: string)
    requires MomentsOf(timeline, ws) && AllLegible(ws) && VersionDiscipline(ws) && AllGenuine(previous, ws)
    requires forall a, b :: 0 <= a < b < |hosts| ==> hosts[a] != hosts[b]
    requires h in hosts
    ensures Fresh(timeline, lost, TurnOf(previous, timeline, lost, i, hosts, h), h, ws,
                  EntryOf(Rebuilt(previous, timeline, lost, i, hosts, map[]), h))
  {
    var turn := TurnOf(previous, timeline, lost, i, hosts, h);
    RebuiltEntry(previous, timeline, lost, i, hosts, map[], h);
    EntryIsFresh(previous, timeline, lost, turn, h, ws);
  }

  // ---------------------------------------------------------------- a refresh without interference

  /** The snapshot a refresh builds when nobody writes meanwhile and no read fails. */
  function Refreshed(previous: Zones, s: Store, hosts: seq<string>): Zones {
    Rebuilt(previous, Still(s), NoneLost(), 0, hosts, map[])
  }

  function Still(s: Store): nat -> Store { (i: nat) => s }

  function NoneLost(): nat -> bool { (i: nat) => false }

  /** Reads only move forward. */
  lemma {:induction false} ReadsMoveOn(previous: Zones, timeline: nat -> Store, lost: nat -> bool, i: nat, hosts: seq<string>)
    ensures Finished(previous, timeline, lost, i, hosts) >= i + |hosts|
    decreases |hosts|
  {
    if hosts != [] {
      ReadsMoveOn(previous, timeline, lost,
                  if Unchanged(previous, hosts[0], VersionSeen(timeline, lost, i, hosts[0])) then i + 1 else i + 2, hosts[1..]);
    }
  }

  lemma {:induction false} RebuiltOnStill(previous: Zones, timeline: nat -> Store, lost: nat -> bool, i: nat, s: Store, k: nat,
                                          hosts: seq<string>, built: Zones)
    requires forall r :: i <= r < Finished(previous, timeline, lost, i, hosts) ==> timeline(r) == s && !lost(r)
    ensures Rebuilt(previous, timeline, lost, i, hosts, built) == Rebuilt(previous, Still(s), NoneLost(), k, hosts, built)
    decreases |hosts|
  {
    if hosts != [] {
      var h := hosts[0];
      ReadsMoveOn(previous, timeline, lost, i, hosts);
      assert VersionSeen(timeline, lost, i, h) == VersionSeen(Still(s), NoneLost(), k, h);
      if Unchanged(previous, h, VersionSeen(timeline, lost, i, h)) {
        RebuiltOnStill(previous, timeline, lost, i + 1, s, k + 1, hosts[1..], built[h := previous[h]]);
      } else {
        ReadsMoveOn(previous, timeline, lost, i + 2, hosts[1..]);
        assert ZoneSeen(timeline, lost, i + 1, h) == ZoneSeen(Still(s), NoneLost(), k + 1, h);
        RebuiltOnStill(previous, timeline, lost, i + 2, s, k + 2, hosts[1..],
                       With(built, h, Fetched(previous, h, ZoneSeen(timeline, lost, i + 1, h))));
      }
    }
  }

  /** A refresh during which nobody writes and no read fails builds `Refreshed`. */
  lemma RefreshOnStill(timeline: nat -> Store, lost: nat -> bool, a: Snapshot, i: nat, hosts: seq<string>, b: Snapshot, j: nat,
                       fetched: Option<nat>, s: Store)
    requires Refresh(timeline, lost, a, i, hosts, b, j, fetched)
    requires forall r :: i <= r < j ==> timeline(r) == s && !lost(r)
    ensures Enumerates(hosts, s.index)
    ensures b.zones == Refreshed(a.zones, s, hosts) && b.epoch == s.epoch
  {
    assert i < j by {
      ReadsMoveOn(a.zones, timeline, lost, i + 2, hosts);
    }
    assert !lost(i) && timeline(i) == s;
    ReadsMoveOn(a.zones, timeline, lost, i + 2, hosts);
    assert !lost(i + 1) && timeline(i + 1) == s;
    RebuiltOnStill(a.zones, timeline, lost, i + 2, s, 0, hosts, map[]);
  }

  function VersionIn(s: Store, h: string): Option<string> {
    if h in s.versions then Some(s.versions[h]) else None
  }

  function ZoneIn(s: Store, h: string): Option<Json> {
    if h in s.zones then Some(s.zones[h]) else None
  }

  /** Downloading every indexed zone, whatever its version. */
  function Reloaded(previous: Zones, s: Store, h: string): Option<CompiledZone> {
    if h in s.index then Fetched(previous, h, ZoneIn(s, h)) else None
  }

  lemma RefreshedEntry(previous: Zones, s: Store, hosts: seq<string>, h: string)
    requires Enumerates(hosts, s.index)
    ensures EntryOf(Refreshed(previous, s, hosts), h)
      == if h in s.index && Unchanged(previous, h, VersionIn(s, h)) then Some(previous[h]) else Reloaded(previous, s, h)
  {
    if h in hosts {
      RebuiltEntry(previous, Still(s), NoneLost(), 0, hosts, map[], h);
      var turn := TurnOf(previous, Still(s), NoneLost(), 0, hosts, h);
      assert VersionSeen(Still(s), NoneLost(), turn, h) == VersionIn(s, h);
      assert ZoneSeen(Still(s), NoneLost(), turn + 1, h) == ZoneIn(s, h);
    } else {
      RebuiltOutside(previous, Still(s), NoneLost(), 0, hosts, map[], h);
    }
  }

  predicate SameEssence(a: Option<CompiledZone>, b: Option<CompiledZone>) {
    if a.Some? && b.Some? then a.value.Essence() == b.value.Essence() else a.None? && b.None?
  }

  /** Skipping equal versions and downloading everything leave the host with the same rule-set. */
  predicate CheapAgrees(previous: Zones, s: Store, hosts: seq<string>, h: string) {
    SameEssence(EntryOf(Refreshed(previous, s, hosts), h), Reloaded(previous, s, h))
  }

  predicate Supported(w: Write) {
    w.Publish? && w.zone.schemaVersion <= SCHEMA_VERSION
  }

  /** `v` was published for the host under the version of `w`, which the host holds now. */
  ghost predicate OneVersion(ws: seq<Write>, s: Store, h: string, v: Write, w: Write) {
    && WasPublished(ws, h, v) && Supported(v)
    && WasPublished(ws, h, w) && Supported(w) && Serves(s, w)
    && v.zone.configVersion == w.zone.configVersion
  }

  /** Whatever was published for an indexed host under its stored version says what is stored. */
  ghost predicate StoredVersionsAreUnique(ws: seq<Write>, s: Store) {
    forall h, v, w :: OneVersion(ws, s, h, v, w) ==> v.zone.Essence() == w.zone.Essence()
  }

  lemma UsableIsRead(payload: Json, z: CompiledZone)
    requires ReadZone(payload) == Some(z)
    ensures Usable(Some(payload)) == if z.schemaVersion <= SCHEMA_VERSION then Some(z) else None
  {
  }

  /** What is read of a host that holds `w`. */
  lemma StoredReads(s: Store, w: Write, previous: Zones)
    requires w.Publish? && Serves(s, w) && Legible(w)
    ensures Usable(ZoneIn(s, w.zone.hostname)) == if Supported(w) then Some(w.zone) else None
    ensures Unchanged(previous, w.zone.hostname, VersionIn(s, w.zone.hostname))
      <==> w.zone.hostname in previous && previous[w.zone.hostname].configVersion == w.zone.configVersion
  {
    UsableIsRead(w.payload, w.zone);
  }

  /** For one host that holds `w`, what a skipped or made download comes to. */
  lemma CheapAgreesOn(previous: Zones, s: Store, hosts: seq<string>, w: Write)
    requires Enumerates(hosts, s.index) && w.Publish? && Serves(s, w) && Legible(w)
    ensures var h := w.zone.hostname;
      CheapAgrees(previous, s, hosts, h)
      <==> (Supported(w) && h in previous && previous[h].configVersion == w.zone.configVersion ==> previous[h].Essence() == w.zone.Essence())
  {
    StoredReads(s, w, previous);
    RefreshedEntry(previous, s, hosts, w.zone.hostname);
  }

  lemma SkippingIsSafe(ws: seq<Write>, hosts: seq<string>, previous: Zones, h: string)
    requires AllLegible(ws) && Enumerates(hosts, ApplyAll(EMPTY, ws).index) && AllGenuine(previous, ws)
    requires StoredVersionsAreUnique(ws, ApplyAll(EMPTY, ws))
    ensures CheapAgrees(previous, ApplyAll(EMPTY, ws), hosts, h)
  {
    var s := ApplyAll(EMPTY, ws);
    RunsStayAligned(ws);
    if h in s.index {
      var w :| WasPublished(ws, h, w) && Serves(s, w);
      assert Legible(w);
      CheapAgreesOn(previous, s, hosts, w);
      if h in previous {
        var v :| WasPublished(ws, h, v) && v.zone == previous[h];
        assert OneVersion(ws, s, h, v, w) || !Supported(w) || v.zone.configVersion != w.zone.configVersion;
      }
    } else {
      RefreshedEntry(previous, s, hosts, h);
    }
  }

  /** The edge that holds an older publication under the stored version does not get the stored one. */
  lemma SkippingIsStale(ws: seq<Write>, hosts: seq<string>, h: string, v: Write, w: Write) returns (previous: Zones)
    requires AllLegible(ws) && Enumerates(hosts, ApplyAll(EMPTY, ws).index)
    requires OneVersion(ws, ApplyAll(EMPTY, ws), h, v, w) && v.zone.Essence() != w.zone.Essence()
    ensures AllGenuine(previous, ws) && !CheapAgrees(previous, ApplyAll(EMPTY, ws), hosts, h)
  {
    previous := map[h := v.zone];
    assert Genuine(h, v.zone, ws);
    assert Legible(w);
    CheapAgreesOn(previous, ApplyAll(EMPTY, ws), hosts, w);
  }

  /**
   After any run of transactions: skipping equal versions agrees with reloading everything, for every edge
   that holds publications of the past, if and only if no indexed host was ever published with another
   content under the version it has now.
   */
  lemma CheapRefreshAgreesExactly(ws: seq<Write>, hosts: seq<string>)
    requires AllLegible(ws) && Enumerates(hosts, ApplyAll(EMPTY, ws).index)
    ensures (forall previous, h :: AllGenuine(previous, ws) ==> CheapAgrees(previous, ApplyAll(EMPTY, ws), hosts, h))
      <==> StoredVersionsAreUnique(ws, ApplyAll(EMPTY, ws))
  {
    var s := ApplyAll(EMPTY, ws);
    if StoredVersionsAreUnique(ws, s) {
      forall previous, h | AllGenuine(previous, ws) ensures CheapAgrees(previous, s, hosts, h) {
        SkippingIsSafe(ws, hosts, previous, h);
      }
    } else {
      var h, v, w :| OneVersion(ws, s, h, v, w) && v.zone.Essence() != w.zone.Essence();
      var previous := SkippingIsStale(ws, hosts, h, v, w);
    }
  }

  /** Under version discipline the cheap refresh is as good as a full reload, at any moment of any run. */
  lemma {:induction false} DisciplineMakesSkippingSafe(ws: seq<Write>, k: nat, hosts: seq<string>, previous: Zones, h: string)
    requires k <= |ws| && AllLegible(ws) && VersionDiscipline(ws) && AllGenuine(previous, ws[..k])
    requires Enumerates(hosts, ApplyAll(EMPTY, ws[..k]).index)
    ensures CheapAgrees(previous, ApplyAll(EMPTY, ws[..k]), hosts, h)
  {
    forall g, v, w | OneVersion(ws[..k], ApplyAll(EMPTY, ws[..k]), g, v, w)
      ensures v.zone.Essence() == w.zone.Essence()
    {
      assert WasPublished(ws, g, v) && WasPublished(ws, g, w);
    }
    SkippingIsSafe(ws[..k], hosts, previous, h);
  }
}
