/**
 The incremental path: one change event, one zone recompiled. It merges no tenant-wide rows. Repeating it,
 in any order, must lead to the same content of Redis as the sweep.
 */
module Sync {
  import opened Wrappers
  import opened Json
  import opened Library
  import opened Ruleset
  import opened Compile
  import opened Rows
  import opened Distribute
  import opened Traffic
  import opened Cache
  import opened Resync
  import Verdict

  // ---------------------------------------------------------------- events

  datatype Event = Event(recordId: Option<string>, data: map<string, Json>)

  /** The payload's two members; a payload of another shape is refused. */
  function ReadEvent(payload: Json): Option<Event> {
    match AsObject(payload)
    case None => None
    case Some(m) =>
      var recordId := Member(m, "recordId", AsOptString, None);
      var data := Member(m, "data", AsObject, map[]);
      if recordId.Some? && data.Some? then Some(Event(recordId.value, data.value)) else None
  }

  /** Which zone an event is about. A null `zoneId` decodes as the empty string and is returned as one. */
  function ZoneIdFromEvent(entity: string, payload: Json): Option<string> {
    match ReadEvent(payload)
    case None => None
    case Some(e) =>
      if entity == "waf.zones" then e.recordId
      else if entity in {"waf.ddos_policies", "waf.firewall_rules", "waf.ip_access_lists"} then
        if "zoneId" in e.data then AsString(e.data["zoneId"]) else None
      else None
  }

  /** The documentation says a tenant-wide event names no zone; the code names the zone "". */
  lemma TenantWideEventNamesTheEmptyZone(entity: string, data: map<string, Json>)
    requires entity in {"waf.ddos_policies", "waf.firewall_rules", "waf.ip_access_lists"}
    requires "zoneId" in data
    ensures ZoneIdFromEvent(entity, Obj(map["data" := Obj(data)])) == AsString(data["zoneId"])
    ensures data["zoneId"] == Null ==> ZoneIdFromEvent(entity, Obj(map["data" := Obj(data)])) == Some("")
  {
    assert ReadEvent(Obj(map["data" := Obj(data)])) == Some(Event(None, data));
  }

  /** A zone's event names its own record, another entity's names nothing; `null` and no record id are no zone. */
  lemma ZoneEventNamesItsRecord(entity: string, id: string)
    ensures ZoneIdFromEvent("waf.zones", Obj(map["recordId" := Str(id)])) == Some(id)
    ensures ZoneIdFromEvent("waf.zones", Obj(map["recordId" := Null])) == None
    ensures ZoneIdFromEvent("waf.zones", Obj(map[])) == None
    ensures entity !in {"waf.zones", "waf.ddos_policies", "waf.firewall_rules", "waf.ip_access_lists"} ==>
      ZoneIdFromEvent(entity, Obj(map["recordId" := Str(id)])) == None
  {
    var named, unnamed := map["recordId" := Str(id)], map["recordId" := Null];
    assert ReadEvent(Obj(named)) == Some(Event(Some(id), map[]));
    assert ReadEvent(Obj(unnamed)) == Some(Event(None, map[]));
    assert ReadEvent(Obj(map[])) == Some(Event(None, map[]));
  }

  /** The hostname an event carries; the only one a subscriber passes on as the known one. */
  function HostnameFromEvent(payload: Json): Option<string> {
    match AsObject(payload)
    case None => None
    case Some(m) =>
      var data := Member(m, "data", AsObject, map[]);
      if data.Some? && "hostname" in data.value then AsString(data.value["hostname"]) else None
  }

  // ---------------------------------------------------------------- one zone

  /** `dp.Zone`: the row with this id. */
  function Find(zones: seq<Record>, id: string): (r: Option<Record>)
    ensures r.Some? ==> r.value in zones && r.value.id == id
    ensures r.None? ==> forall i :: 0 <= i < |zones| ==> zones[i].id != id
  {
    if zones == [] then None else if zones[0].id == id then Some(zones[0]) else Find(zones[1..], id)
  }

  function SyncedZone(lib: Lib, dp: DataPlane, zone: Record, tenantId: string, at: string): Option<CompiledZone> {
    ZoneOf(lib, zone, tenantId, dp.PoliciesFor(zone.id), dp.RulesFor(zone.id), dp.EntriesFor(zone.id), at)
  }

  function UnpublishKnown(known: Option<string>): seq<Write> {
    if known.Some? then [Unpublish(known.value)] else []
  }

  /** The transactions for a publishable zone. */
  function ZoneWrites(lib: Lib, dp: DataPlane, zone: Record, tenantId: string, known: Option<string>, at: string): seq<Write> {
    var hostname := zone.Text("hostname");
    if hostname.None? then []
    else
      (if known.Some? && known.value != hostname.value then [Unpublish(known.value)] else [])
      + [PublicationOf(SyncedZone(lib, dp, zone, tenantId, at).value)]
  }

  /** The transactions of one synchronisation. */
  function SyncWrites(lib: Lib, dp: DataPlane, zoneId: string, tenantId: string, known: Option<string>, at: string): seq<Write> {
    match Find(dp.zones, zoneId)
    case None => UnpublishKnown(known)
    case Some(zone) =>
      if Served(zone) then ZoneWrites(lib, dp, zone, tenantId, known, at)
      else if zone.Text("hostname").Some? then [Unpublish(zone.Text("hostname").value)]
      else UnpublishKnown(known)
  }

  /** One synchronisation; it stops at the first failed call and succeeds exactly when none failed. */
  method Zone(lib: Lib, dp: DataPlane, redis: Redis, net: Network, zoneId: string, tenantId: string, known: Option<string>, at: string)
    returns (ok: bool)
    modifies redis, net
    ensures net.Tracks(redis) && net.start == old(redis.Contents()) && net.begin == old(net.calls)
    ensures net.clean <==> old(net.clean) && ok
    ensures ok ==> OursOf(net.trace) == SyncWrites(lib, dp, zoneId, tenantId, known, at)
    ensures Began([], OursOf(net.trace), SyncWrites(lib, dp, zoneId, tenantId, known, at))
  {
    net.Begin(redis);
    ghost var plan := SyncWrites(lib, dp, zoneId, tenantId, known, at);
    BeganNothing([], plan);
    var zoneFault := net.Next(redis);
    if !zoneFault.Healthy? {
      return false;
    }
    var found := Find(dp.zones, zoneId);
    if found.None? {
      if known.Some? {
        ok := net.Unpublish(redis, known.value);
        return ok;
      }
      return true;
    }
    var zone := found.value;
    var hostname := zone.Text("hostname");
    RecordReads(lib, zone);
    if !Publishable(zone) {
      if hostname.Some? {
        ok := net.Unpublish(redis, hostname.value);
        return ok;
      }
      if known.Some? {
        ok := net.Unpublish(redis, known.value);
        return ok;
      }
      return true;
    }
    ok := Republish(lib, dp, redis, net, zone, tenantId, known, at);
  }

  /** The rest of the path for a publishable zone: read its rows, compile, drop the old host, publish. */
  method Republish(lib: Lib, dp: DataPlane, redis: Redis, net: Network, zone: Record, tenantId: string, known: Option<string>, at: string)
    returns (ok: bool)
    requires Served(zone) && net.Tracks(redis) && OursOf(net.trace) == []
    modifies redis, net
    ensures net.Ongoing(redis) && (net.clean <==> old(net.clean) && ok)
    ensures ok ==> OursOf(net.trace) == ZoneWrites(lib, dp, zone, tenantId, known, at)
    ensures Began([], OursOf(net.trace), ZoneWrites(lib, dp, zone, tenantId, known, at))
  {
    ghost var plan := ZoneWrites(lib, dp, zone, tenantId, known, at);
    BeganNothing([], plan);
    var fetched := net.AllHealthy(redis, 3);
    if !fetched {
      return false;
    }
    var compiled, dropped := CompileZone(lib, zone, tenantId, dp.PoliciesFor(zone.id), dp.RulesFor(zone.id), dp.EntriesFor(zone.id), at);
    if compiled.None? {
      return true;
    }
    ghost var z := compiled.value;
    assert plan == (if known.Some? && known.value != z.hostname then [Unpublish(known.value)] else []) + [PublicationOf(z)];
    ok := Replace(redis, net, compiled.value, known);
  }

  /** The new rule-set goes out after the old host, if that is another. */
  method Replace(redis: Redis, net: Network, z: CompiledZone, known: Option<string>) returns (ok: bool)
    requires net.Tracks(redis) && OursOf(net.trace) == []
    modifies redis, net
    ensures net.Ongoing(redis) && (net.clean <==> old(net.clean) && ok)
    ensures var ws := (if known.Some? && known.value != z.hostname then [Unpublish(known.value)] else []) + [PublicationOf(z)];
      (ok ==> OursOf(net.trace) == ws) && Began([], OursOf(net.trace), ws)
  {
    ghost var w := PublicationOf(z);
    if known.Some? && known.value != z.hostname {
      ghost var u := Unpublish(known.value);
      var removed := net.Unpublish(redis, known.value);
      if !removed {
        BeganLonger([], OursOf(net.trace), [u], [u] + [w]);
        return false;
      }
      assert [] + [u] == [u];
      ok := net.Publish(redis, z);
      BeganLater([], [u], OursOf(net.trace), [w], [u] + [w]);
    } else {
      ok := net.Publish(redis, z);
      assert [] + [w] == [w];
    }
  }

  // ---------------------------------------------------------------- deletions and renames

  lemma OneWrite(s: Store, w: Write)
    ensures ApplyAll(s, [w]) == Apply(s, w)
  {
    OneMore(s, [], w);
    assert [] + [w] == [w];
  }

  lemma TwoWrites(s: Store, v: Write, w: Write)
    ensures ApplyAll(s, [v] + [w]) == Apply(Apply(s, v), w)
  {
    OneMore(s, [v], w);
    OneWrite(s, v);
  }

  /** A synchronisation that gets as far as the known hostname, rather than stopping at the zone's own. */
  predicate ReachesKnownHost(zone: Option<Record>) {
    zone.None? || (Served(zone.value) <==> zone.value.Text("hostname").Some?)
  }

  /**
   A host that is not the zone's own leaves the index if and only if the caller knew it, and the zone is gone
   or is either publishable with a hostname or neither. Otherwise the old rule-set is left to the sweep.
   */
  lemma OldHostGoesExactly(lib: Lib, dp: DataPlane, s: Store, zoneId: string, tenantId: string, known: Option<string>, at: string, other: string)
    requires var zone := Find(dp.zones, zoneId); zone.Some? ==> zone.value.Text("hostname") != Some(other)
    ensures var t := ApplyAll(s, SyncWrites(lib, dp, zoneId, tenantId, known, at));
      other in t.index <==> other in s.index && !(known == Some(other) && ReachesKnownHost(Find(dp.zones, zoneId)))
  {
    OtherCall(lib, dp, s, Call(zoneId, tenantId, known, at), other);
  }

  /** A zone renamed and suspended keeps its old host published, even when the caller names that host. */
  lemma {:induction false} SuspendedRenameLeavesTheOldHost(lib: Lib, dp: DataPlane, s: Store, tenantId: string, at: string)
    requires dp.zones == [Record("z", Some("suspended"), map["hostname" := Str("new.example")])]
    requires "old.example" in s.index
    ensures "old.example" in ApplyAll(s, SyncWrites(lib, dp, "z", tenantId, Some("old.example"), at)).index
  {
    assert "status" !in dp.zones[0].data && dp.zones[0].data["hostname"] == Str("new.example");
    assert Str("new.example").s[0] != "old.example"[0];
    assert Find(dp.zones, "z") == Some(dp.zones[0]);
    OldHostGoesExactly(lib, dp, s, "z", tenantId, Some("old.example"), at, "old.example");
  }

  /**
   A subscriber learns the hostname from the event, which carries the zone's present row. After a rename the
   documentation promises that the old host goes; through an event that names the new host it stays.
   */
  lemma {:induction false} RenameEventLeavesTheOldHost(lib: Lib, dp: DataPlane, s: Store, zoneId: string, tenantId: string, data: map<string, Json>, at: string, other: string)
    requires Find(dp.zones, zoneId).Some? && Servable(Find(dp.zones, zoneId).value)
    requires "hostname" in data && AsString(data["hostname"]) == Find(dp.zones, zoneId).value.Text("hostname")
    requires Find(dp.zones, zoneId).value.Text("hostname").value != other && other in s.index
    ensures other in ApplyAll(s, SyncWrites(lib, dp, zoneId, tenantId, HostnameFromEvent(Obj(map["data" := Obj(data)])), at)).index
  {
    assert HostnameFromEvent(Obj(map["data" := Obj(data)])) == AsString(data["hostname"]);
    OldHostGoesExactly(lib, dp, s, zoneId, tenantId, AsString(data["hostname"]), at, other);
  }

  // ---------------------------------------------------------------- any schedule agrees with the sweep

  datatype Call = Call(zoneId: string, tenantId: string, known: Option<string>, at: string)

  /** The store after a series of synchronisations. */
  function SyncAll(lib: Lib, dp: DataPlane, s: Store, calls: seq<Call>): Store {
    if calls == [] then s
    else
      var n, c := |calls| - 1, calls[|calls| - 1];
      ApplyAll(SyncAll(lib, dp, s, calls[..n]), CallWrites(lib, dp, c))
  }

  /** Zone ids and hostnames are unique. */
  predicate Distinct(dp: DataPlane) {
    && UniqueHostnames(dp.zones)
    && forall i, j | 0 <= i < j < |dp.zones| :: dp.zones[i].id != dp.zones[j].id
  }

  predicate Absent(s: Store, h: string) {
    h !in s.index && h !in s.zones && h !in s.versions
  }

  /** The host of `zone` holds what a synchronisation of the zone leaves there. */
  ghost predicate Settled(lib: Lib, dp: DataPlane, s: Store, zone: Record)
    requires zone.Text("hostname").Some?
  {
    if Served(zone) then exists c: Call :: Serves(s, SyncedPublication(lib, dp, zone, c))
    else Absent(s, zone.Text("hostname").value)
  }

  function SyncedPublication(lib: Lib, dp: DataPlane, zone: Record, c: Call): (w: Write)
    requires zone.Text("hostname").Some?
    ensures w.Publish? && w.zone.hostname == zone.Text("hostname").value
  {
    PublicationOf(SyncedZone(lib, dp, zone, c.tenantId, c.at).value)
  }

  /** The call is about the zone with this host. */
  predicate Concerns(dp: DataPlane, c: Call, i: nat)
    requires i < |dp.zones|
  {
    c.zoneId == dp.zones[i].id
  }

  /** A call that is not about the host's zone and takes the host out of Redis: the host was named as the known one. */
  predicate Removes(dp: DataPlane, c: Call, h: string) {
    c.known == Some(h) && ReachesKnownHost(Find(dp.zones, c.zoneId))
  }

  function CallWrites(lib: Lib, dp: DataPlane, c: Call): seq<Write> {
    SyncWrites(lib, dp, c.zoneId, c.tenantId, c.known, c.at)
  }

  lemma FindsItsZone(dp: DataPlane, i: nat)
    requires Distinct(dp) && i < |dp.zones|
    ensures Find(dp.zones, dp.zones[i].id) == Some(dp.zones[i])
  {
  }

  /** A synchronisation of the zone leaves its host settled, whatever else it removes before. */
  lemma SyncSettles(lib: Lib, dp: DataPlane, s: Store, c: Call, i: nat)
    requires Distinct(dp) && i < |dp.zones| && Concerns(dp, c, i) && dp.zones[i].Text("hostname").Some?
    ensures Settled(lib, dp, ApplyAll(s, CallWrites(lib, dp, c)), dp.zones[i])
  {
    var zone, h := dp.zones[i], dp.zones[i].Text("hostname").value;
    FindsItsZone(dp, i);
    if Served(zone) {
      var w := SyncedPublication(lib, dp, zone, c);
      SettledByPublication(lib, dp, s, c, zone, w);
    } else {
      OneWrite(s, Unpublish(h));
    }
  }

  lemma SettledByPublication(lib: Lib, dp: DataPlane, s: Store, c: Call, zone: Record, w: Write)
    requires Servable(zone) && w == SyncedPublication(lib, dp, zone, c)
    ensures Serves(ApplyAll(s, ZoneWrites(lib, dp, zone, c.tenantId, c.known, c.at)), w)
  {
    if c.known.Some? && c.known.value != zone.Text("hostname").value {
      TwoWrites(s, Unpublish(c.known.value), w);
      JustPublished(Apply(s, Unpublish(c.known.value)), w);
    } else {
      assert [] + [w] == [w];
      OneWrite(s, w);
      JustPublished(s, w);
    }
  }

  lemma OtherHostMoved(s: Store, known: Option<string>, w: Write, h: string)
    requires w.Publish? && w.zone.hostname != h
    ensures var t := ApplyAll(s, (if known.Some? && known.value != w.zone.hostname then [Unpublish(known.value)] else []) + [w]);
      if known == Some(h) then Absent(t, h) else SameHostState(s, t, h)
  {
    if known.Some? && known.value != w.zone.hostname {
      var u := Apply(s, Unpublish(known.value));
      TwoWrites(s, Unpublish(known.value), w);
      SameAfterWrite(u, u, w, h);
      SameAfterWrite(s, s, Unpublish(known.value), h);
      GoneStaysGone(s, u, Apply(u, w), known.value, h);
    } else {
      assert [] + [w] == [w];
      OneWrite(s, w);
      SameAfterWrite(s, s, w, h);
    }
  }

  lemma GoneStaysGone(s: Store, u: Store, t: Store, gone: string, h: string)
    requires u == Apply(s, Unpublish(gone)) && SameHostState(t, u, h)
    ensures if gone == h then Absent(t, h) else SameHostState(s, t, h)
  {
  }

  lemma OtherPublication(lib: Lib, dp: DataPlane, s: Store, c: Call, zone: Record, h: string)
    requires Servable(zone) && zone.Text("hostname") != Some(h)
    ensures var t := ApplyAll(s, ZoneWrites(lib, dp, zone, c.tenantId, c.known, c.at));
      if c.known == Some(h) then Absent(t, h) else SameHostState(s, t, h)
  {
    OtherHostMoved(s, c.known, SyncedPublication(lib, dp, zone, c), h);
  }

  /** What a call about another zone does to a host: it takes it out, or leaves it alone. */
  lemma OtherCall(lib: Lib, dp: DataPlane, s: Store, c: Call, h: string)
    requires var zone := Find(dp.zones, c.zoneId); zone.Some? ==> zone.value.Text("hostname") != Some(h)
    ensures var t := ApplyAll(s, CallWrites(lib, dp, c));
      if Removes(dp, c, h) then Absent(t, h) else SameHostState(s, t, h)
  {
    var zone := Find(dp.zones, c.zoneId);
    if c.known.Some? {
      OneWrite(s, Unpublish(c.known.value));
    }
    if zone.Some? && zone.value.Text("hostname").Some? {
      if Served(zone.value) {
        OtherPublication(lib, dp, s, c, zone.value, h);
      } else {
        OneWrite(s, Unpublish(zone.value.Text("hostname").value));
      }
    }
  }

  lemma OtherZonesHost(dp: DataPlane, c: Call, i: nat)
    requires Distinct(dp) && i < |dp.zones| && !Concerns(dp, c, i) && dp.zones[i].Text("hostname").Some?
    ensures var zone := Find(dp.zones, c.zoneId); zone.Some? ==> zone.value.Text("hostname") != dp.zones[i].Text("hostname")
  {
    var zone := Find(dp.zones, c.zoneId);
    if zone.Some? {
      var j :| 0 <= j < |dp.zones| && dp.zones[j] == zone.value;
      DifferentHosts(dp, i, j);
    }
  }

  lemma DifferentHosts(dp: DataPlane, i: nat, j: nat)
    requires Distinct(dp) && i < |dp.zones| && j < |dp.zones| && i != j && dp.zones[i].Text("hostname").Some?
    ensures dp.zones[i].Text("hostname") != dp.zones[j].Text("hostname")
  {
  }

  /** The host is out of reach of the calls after the `k`-th, which is about its zone. */
  predicate SafeAfter(dp: DataPlane, calls: seq<Call>, i: nat, k: nat)
    requires i < |dp.zones| && dp.zones[i].Text("hostname").Some? && k < |calls|
  {
    && Concerns(dp, calls[k], i)
    && forall j | k < j < |calls| :: Concerns(dp, calls[j], i) || !Removes(dp, calls[j], dp.zones[i].Text("hostname").value)
  }

  /** After the last call about the zone no call takes its host out. */
  predicate Undisturbed(dp: DataPlane, calls: seq<Call>, i: nat)
    requires i < |dp.zones| && dp.zones[i].Text("hostname").Some?
  {
    exists k | 0 <= k < |calls| :: SafeAfter(dp, calls, i, k)
  }

  predicate Called(dp: DataPlane, calls: seq<Call>, i: nat)
    requires i < |dp.zones|
  {
    exists k | 0 <= k < |calls| :: Concerns(dp, calls[k], i)
  }

  lemma CalledBefore(dp: DataPlane, calls: seq<Call>, i: nat)
    requires i < |dp.zones| && calls != [] && !Concerns(dp, calls[|calls| - 1], i)
    ensures Called(dp, calls, i) <==> Called(dp, calls[..|calls| - 1], i)
  {
    var before := calls[..|calls| - 1];
    if k :| 0 <= k < |calls| && Concerns(dp, calls[k], i) {
      assert Concerns(dp, before[k], i);
    }
    if k :| 0 <= k < |before| && Concerns(dp, before[k], i) {
      assert Concerns(dp, calls[k], i);
    }
  }

  lemma UndisturbedBefore(dp: DataPlane, calls: seq<Call>, i: nat)
    requires i < |dp.zones| && dp.zones[i].Text("hostname").Some? && calls != [] && !Concerns(dp, calls[|calls| - 1], i)
    ensures Undisturbed(dp, calls, i)
      <==> Undisturbed(dp, calls[..|calls| - 1], i) && !Removes(dp, calls[|calls| - 1], dp.zones[i].Text("hostname").value)
  {
    var before := calls[..|calls| - 1];
    if k :| 0 <= k < |calls| && SafeAfter(dp, calls, i, k) {
      assert SafeAfter(dp, before, i, k);
    }
    if !Removes(dp, calls[|calls| - 1], dp.zones[i].Text("hostname").value) {
      if k :| 0 <= k < |before| && SafeAfter(dp, before, i, k) {
        assert SafeAfter(dp, calls, i, k);
      }
    }
  }

  lemma StaysSettled(lib: Lib, dp: DataPlane, s: Store, t: Store, zone: Record)
    requires zone.Text("hostname").Some? && Settled(lib, dp, s, zone) && SameHostState(s, t, zone.Text("hostname").value)
    ensures Settled(lib, dp, t, zone)
  {
    if Served(zone) {
      var c: Call :| Serves(s, SyncedPublication(lib, dp, zone, c));
      assert Serves(t, SyncedPublication(lib, dp, zone, c));
    }
  }

  /** A zone that was called is settled, or its host was taken out afterwards. */
  lemma {:induction false} CalledZonesAreSettled(lib: Lib, dp: DataPlane, s: Store, calls: seq<Call>, i: nat)
    requires Distinct(dp) && i < |dp.zones| && dp.zones[i].Text("hostname").Some? && Called(dp, calls, i)
    ensures if Undisturbed(dp, calls, i) then Settled(lib, dp, SyncAll(lib, dp, s, calls), dp.zones[i])
            else Absent(SyncAll(lib, dp, s, calls), dp.zones[i].Text("hostname").value)
    decreases |calls|
  {
    var n, c, h := |calls| - 1, calls[|calls| - 1], dp.zones[i].Text("hostname").value;
    var before := SyncAll(lib, dp, s, calls[..n]);
    if Concerns(dp, c, i) {
      assert SafeAfter(dp, calls, i, n);
      SyncSettles(lib, dp, before, c, i);
    } else {
      UndisturbedBefore(dp, calls, i);
      CalledBefore(dp, calls, i);
      CalledZonesAreSettled(lib, dp, s, calls[..n], i);
      OtherZonesHost(dp, c, i);
      OtherCall(lib, dp, before, c, h);
      if Undisturbed(dp, calls, i) {
        StaysSettled(lib, dp, before, SyncAll(lib, dp, s, calls), dp.zones[i]);
      }
    }
  }

  predicate KeysAligned(s: Store) {
    s.index == s.zones.Keys == s.versions.Keys
  }

  lemma {:induction false} AlwaysAligned(s: Store, ws: seq<Write>)
    requires KeysAligned(s)
    ensures KeysAligned(ApplyAll(s, ws))
  {
    if ws != [] {
      AlwaysAligned(s, ws[..|ws| - 1]);
    }
  }

  /** Two stores say the same about a host: both nothing, or the same rule-set under the same version. */
  ghost predicate SameHost(s: Store, t: Store, h: string) {
    || (Absent(s, h) && Absent(t, h))
    || exists v: Write, w: Write :: v.Publish? && w.Publish? && v.zone.hostname == h && w.zone.hostname == h
         && Serves(s, v) && Serves(t, w) && v.version == w.version && v.zone.Essence() == w.zone.Essence()
         && Legible(v) && Legible(w)
  }

  /** Some tenant-wide row, within the page that the sweep reads, compiles. */
  ghost predicate TenantWideRowsCount(lib: Lib, dp: DataPlane) {
    AnyCompiles(lib, Page(dp.tenantRules, RULE_PAGE), Page(dp.tenantEntries, ENTRY_PAGE))
  }

  /** The two paths compile the same rule-set if and only if no tenant-wide row compiles. */
  lemma SyncedIsSweptExactly(lib: Lib, dp: DataPlane, zone: Record, tenantId: string, at: string)
    requires zone.Text("hostname").Some?
    ensures SyncedZone(lib, dp, zone, tenantId, at).value.Essence() == dp.SweptZone(lib, zone).value.Essence()
      <==> !TenantWideRowsCount(lib, dp)
    ensures SyncedZone(lib, dp, zone, tenantId, at).value.configVersion == dp.SweptZone(lib, zone).value.configVersion
  {
    var v, w := SyncedZone(lib, dp, zone, tenantId, at).value, dp.SweptZone(lib, zone).value;
    MoreRowsUnseen(lib, dp.RulesFor(zone.id), dp.EntriesFor(zone.id), Page(dp.tenantRules, RULE_PAGE), Page(dp.tenantEntries, ENTRY_PAGE));
    assert v.Essence().rules == v.rules && w.Essence().rules == w.rules;
    assert v.rules == w.rules ==> v.Essence() == w.Essence();
  }

  lemma SyncedIsLegible(lib: Lib, dp: DataPlane, zone: Record, c: Call)
    requires zone.Text("hostname").Some?
    ensures Legible(SyncedPublication(lib, dp, zone, c))
  {
    Verdict.CompiledZoneTravels(lib, zone, c.tenantId, dp.PoliciesFor(zone.id), dp.RulesFor(zone.id), dp.EntriesFor(zone.id), c.at);
    PublicationsAreLegible(SyncedZone(lib, dp, zone, c.tenantId, c.at).value);
  }

  lemma SweptIsLegible(lib: Lib, dp: DataPlane, zone: Record)
    requires zone.Text("hostname").Some?
    ensures Legible(PublicationOf(dp.SweptZone(lib, zone).value))
  {
    Verdict.CompiledZoneTravels(lib, zone, zone.Text("tenantId").GetOr(""), dp.PoliciesFor(zone.id),
                                dp.RulesFor(zone.id) + Page(dp.tenantRules, RULE_PAGE),
                                dp.EntriesFor(zone.id) + Page(dp.tenantEntries, ENTRY_PAGE), dp.clock(zone.id));
    PublicationsAreLegible(dp.SweptZone(lib, zone).value);
  }

  /** A host holds one legible publication at most. */
  lemma ServedOnce(s: Store, v: Write, w: Write)
    requires v.Publish? && w.Publish? && v.zone.hostname == w.zone.hostname
    requires Serves(s, v) && Serves(s, w) && Legible(v) && Legible(w)
    ensures v.zone == w.zone
  {
  }

  /** For two served publications, saying the same is having the same essence. */
  lemma SameHostExactly(s: Store, t: Store, v: Write, w: Write)
    requires v.Publish? && w.Publish? && v.zone.hostname == w.zone.hostname && v.version == w.version
    requires Serves(s, v) && Serves(t, w) && Legible(v) && Legible(w)
    ensures SameHost(s, t, v.zone.hostname) <==> v.zone.Essence() == w.zone.Essence()
  {
    if SameHost(s, t, v.zone.hostname) {
      var v': Write, w': Write :| v'.Publish? && w'.Publish? && v'.zone.hostname == v.zone.hostname && w'.zone.hostname == v.zone.hostname
        && Serves(s, v') && Serves(t, w') && v'.version == w'.version && v'.zone.Essence() == w'.zone.Essence()
        && Legible(v') && Legible(w');
      ServedOnce(s, v, v');
      ServedOnce(t, w, w');
    }
  }

  lemma ServedMeetsSwept(lib: Lib, dp: DataPlane, s: Store, t: Store, zone: Record)
    requires Servable(zone) && Settled(lib, dp, s, zone) && ServesZone(lib, dp, t, zone)
    ensures SameHost(s, t, zone.Text("hostname").value) <==> !TenantWideRowsCount(lib, dp)
  {
    var c: Call :| Serves(s, SyncedPublication(lib, dp, zone, c));
    SyncedIsLegible(lib, dp, zone, c);
    SweptIsLegible(lib, dp, zone);
    SweptHostname(lib, dp, zone);
    SyncedIsSweptExactly(lib, dp, zone, c.tenantId, c.at);
    SameHostExactly(s, t, SyncedPublication(lib, dp, zone, c), PublicationOf(dp.SweptZone(lib, zone).value));
  }

  lemma SettledMeetsNothing(lib: Lib, dp: DataPlane, s: Store, t: Store, zone: Record)
    requires zone.Text("hostname").Some? && Settled(lib, dp, s, zone)
    requires KeysAligned(t) && zone.Text("hostname").value !in t.index
    ensures SameHost(s, t, zone.Text("hostname").value) <==> !Served(zone)
  {
    if Served(zone) {
      var c: Call :| Serves(s, SyncedPublication(lib, dp, zone, c));
    }
  }

  /** Taken out of Redis, the host is as the sweep leaves it if and only if the sweep leaves nothing there. */
  lemma AbsentMeetsSwept(lib: Lib, dp: DataPlane, s: Store, t: Store, zone: Record)
    requires zone.Text("hostname").Some? && Absent(s, zone.Text("hostname").value) && KeysAligned(t)
    ensures SameHost(s, t, zone.Text("hostname").value) <==> zone.Text("hostname").value !in t.index
  {
  }

  /**
   After any synchronisations of any zones, existing or not, in any order and number, with any known hostnames,
   that include this zone's: its host is exactly as a sweep from the same store would leave it, if and only if
   the sweep does not serve it and neither do they, or the sweep serves it, no tenant-wide row compiles, and
   nobody named it as a known host after its own last call. So the incremental path is idempotent and confluent.
   */
  lemma {:induction false} AnyScheduleAgreesWithTheSweep(lib: Lib, dp: DataPlane, s: Store, calls: seq<Call>, orphans: seq<string>, i: nat)
    requires Distinct(dp) && KeysAligned(s) && AreOrphans(lib, dp, s, orphans)
    requires i < |dp.zones| && dp.zones[i].Text("hostname").Some? && Called(dp, calls, i)
    ensures SameHost(SyncAll(lib, dp, s, calls), ApplyAll(s, SweepWrites(lib, dp, orphans)), dp.zones[i].Text("hostname").value)
      <==> if Served(dp.zones[i]) && Undisturbed(dp, calls, i) then i < 50 && !TenantWideRowsCount(lib, dp)
           else !(Served(dp.zones[i]) && i < 50)
  {
    var zone, t := dp.zones[i], ApplyAll(s, SweepWrites(lib, dp, orphans));
    CalledZonesAreSettled(lib, dp, s, calls, i);
    SweptPage(lib, dp, s, orphans, i);
    AlwaysAligned(s, SweepWrites(lib, dp, orphans));
    if !Undisturbed(dp, calls, i) {
      AbsentMeetsSwept(lib, dp, SyncAll(lib, dp, s, calls), t, zone);
      ServedIsIndexed(lib, dp, t, zone);
    } else if Served(zone) && i < 50 {
      ServedMeetsSwept(lib, dp, SyncAll(lib, dp, s, calls), t, zone);
    } else {
      SettledMeetsNothing(lib, dp, SyncAll(lib, dp, s, calls), t, zone);
    }
  }

  lemma ServedIsIndexed(lib: Lib, dp: DataPlane, t: Store, zone: Record)
    ensures Servable(zone) && ServesZone(lib, dp, t, zone) ==> zone.Text("hostname").value in t.index
  {
    if Servable(zone) {
      SweptHostname(lib, dp, zone);
    }
  }

  /** Where the sweep leaves a zone: served when it is servable and in the page, else not indexed. */
  lemma SweptPage(lib: Lib, dp: DataPlane, s: Store, orphans: seq<string>, i: nat)
    requires Distinct(dp) && AreOrphans(lib, dp, s, orphans)
    requires i < |dp.zones| && dp.zones[i].Text("hostname").Some?
    ensures var t := ApplyAll(s, SweepWrites(lib, dp, orphans));
      if Served(dp.zones[i]) && i < 50 then ServesZone(lib, dp, t, dp.zones[i])
      else dp.zones[i].Text("hostname").value !in t.index
  {
    InPage(dp, i);
    SweepConverges(lib, dp, s, orphans);
  }

  lemma InPage(dp: DataPlane, i: nat)
    requires Distinct(dp) && i < |dp.zones| && dp.zones[i].Text("hostname").Some?
    ensures UniqueHostnames(dp.AllZones())
    ensures i < 50 ==> i < |dp.AllZones()| && dp.AllZones()[i] == dp.zones[i]
    ensures dp.zones[i].Text("hostname").value in Expected(dp.AllZones()) <==> Served(dp.zones[i]) && i < 50
  {
    var page := dp.AllZones();
    assert forall k :: 0 <= k < |page| ==> page[k] == dp.zones[k];
    if dp.zones[i].Text("hostname").value in Expected(page) {
      var k :| 0 <= k < |page| && Servable(page[k]) && page[k].Text("hostname").value == dp.zones[i].Text("hostname").value;
      assert k == i;
    }
    if Served(dp.zones[i]) && i < 50 {
      assert Servable(page[i]);
    }
  }
}
