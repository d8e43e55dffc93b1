/**
 The periodic sweep: publish every servable zone, then unpublish whatever else is indexed. Every call to the
 data-plane or to Redis may fail, and the sweep stops there; other writers may use Redis between any two calls.
 */
module Resync {
  import opened Wrappers
  import opened Decimal
  import opened Library
  import opened Ruleset
  import opened Compile
  import opened Rows
  import opened Distribute
  import opened Traffic
  import opened Cache
  import Json
  import Verdict

  const ZONE_PAGE: nat := 50
  const RULE_PAGE: nat := 50
  const POLICY_PAGE: nat := 50
  const ENTRY_PAGE: nat := 100

  /** A list read returns one page and never asks for the next. */
  function Page<T>(rows: seq<T>, limit: nat): seq<T> {
    if |rows| <= limit then rows else rows[..limit]
  }

  /** What the sweep's reads of the data-plane return, whenever each is made; `clock` stamps a compilation. */
  datatype DataPlane = DataPlane(
    zones: seq<Record>,
    policies: string -> seq<Record>,
    rules: string -> seq<Record>,
    entries: string -> seq<Record>,
    tenantRules: seq<Record>,
    tenantEntries: seq<Record>,
    clock: string -> string)
  {
    function AllZones(): seq<Record> { Page(zones, ZONE_PAGE) }
    function PoliciesFor(id: string): seq<Record> { Page(policies(id), POLICY_PAGE) }
    function RulesFor(id: string): seq<Record> { Page(rules(id), RULE_PAGE) }
    function EntriesFor(id: string): seq<Record> { Page(entries(id), ENTRY_PAGE) }

    /** A zone as the sweep compiles it: its own rows, then the tenant-wide ones. */
    function SweptZone(lib: Lib, zone: Record): Option<CompiledZone> {
      ZoneOf(lib, zone, zone.Text("tenantId").GetOr(""), PoliciesFor(zone.id),
             RulesFor(zone.id) + Page(tenantRules, RULE_PAGE), EntriesFor(zone.id) + Page(tenantEntries, ENTRY_PAGE),
             clock(zone.id))
    }
  }

  /** The row's own status, or else the one it is wrapped in, is active or paused. */
  predicate Served(zone: Record) {
    InService(zone.data, zone.status)
  }

  predicate Servable(zone: Record) {
    zone.Text("hostname").Some? && Served(zone)
  }

  /** What is served, in terms of what it compiles to. */
  lemma ServableExactly(lib: Lib, dp: DataPlane, zone: Record)
    ensures Servable(zone) <==> zone.Text("hostname").Some? && Publishable(zone)
    ensures Servable(zone) <==> dp.SweptZone(lib, zone).Some? && dp.SweptZone(lib, zone).value.status in {"active", "paused"}
  {
    RecordReads(lib, zone);
  }

  /** At most 50 zones, and of each zone 50 policies, 50 rules and 100 entries of its own, then as many tenant-wide ones. */
  lemma PagesAre(dp: DataPlane, id: string)
    ensures |dp.AllZones()| <= 50 && dp.AllZones() <= dp.zones && (|dp.zones| <= 50 ==> dp.AllZones() == dp.zones)
    ensures |dp.PoliciesFor(id)| <= 50 && dp.PoliciesFor(id) <= dp.policies(id) && (|dp.policies(id)| <= 50 ==> dp.PoliciesFor(id) == dp.policies(id))
    ensures |dp.RulesFor(id)| <= 50 && dp.RulesFor(id) <= dp.rules(id) && (|dp.rules(id)| <= 50 ==> dp.RulesFor(id) == dp.rules(id))
    ensures |dp.EntriesFor(id)| <= 100 && dp.EntriesFor(id) <= dp.entries(id) && (|dp.entries(id)| <= 100 ==> dp.EntriesFor(id) == dp.entries(id))
    ensures |dp.zones| >= 50 ==> |dp.AllZones()| == 50
    ensures |dp.policies(id)| >= 50 ==> |dp.PoliciesFor(id)| == 50
    ensures |dp.rules(id)| >= 50 ==> |dp.RulesFor(id)| == 50
    ensures |dp.entries(id)| >= 100 ==> |dp.EntriesFor(id)| == 100
  {
  }

  /** What the sweep publishes for a zone, if it serves it. */
  function Publisher(lib: Lib, dp: DataPlane): Record -> Option<Write> {
    (zone: Record) => if Servable(zone) then Some(PublicationOf(dp.SweptZone(lib, zone).value)) else None
  }

  function Collected(f: Record -> Option<Write>, zones: seq<Record>): seq<Write> {
    if zones == [] then []
    else
      var n := |zones| - 1;
      Collected(f, zones[..n]) + (if f(zones[n]).Some? then [f(zones[n]).value] else [])
  }

  /** The transactions of the first loop, in order. */
  function Publications(lib: Lib, dp: DataPlane, zones: seq<Record>): seq<Write> {
    Collected(Publisher(lib, dp), zones)
  }

  /** The hostnames the sweep expects to be served. */
  function Expected(zones: seq<Record>): set<string> {
    set i | 0 <= i < |zones| && Servable(zones[i]) :: zones[i].Text("hostname").value
  }

  function Removals(orphans: seq<string>): seq<Write> {
    seq(|orphans|, i requires 0 <= i < |orphans| => Unpublish(orphans[i]))
  }

  /** Everything a sweep writes when nothing fails. */
  function SweepWrites(lib: Lib, dp: DataPlane, orphans: seq<string>): seq<Write> {
    Publications(lib, dp, dp.AllZones()) + Removals(orphans) + [BumpEpoch]
  }

  /** The orphans: indexed after the publications, but not expected. */
  ghost predicate AreOrphans(lib: Lib, dp: DataPlane, s: Store, orphans: seq<string>) {
    Enumerates(orphans, ApplyAll(s, Publications(lib, dp, dp.AllZones())).index - Expected(dp.AllZones()))
  }

  lemma OneMore(s: Store, done: seq<Write>, w: Write)
    ensures ApplyAll(s, done + [w]) == Apply(ApplyAll(s, done), w)
  {
    assert (done + [w])[..|done|] == done;
  }

  /** One turn of the first loop: read a servable zone's rows, compile them, publish. */
  method PublishZone(lib: Lib, dp: DataPlane, redis: Redis, net: Network, zone: Record) returns (ok: bool)
    requires Servable(zone) && net.Tracks(redis)
    modifies redis, net
    ensures net.Ongoing(redis) && (net.clean <==> old(net.clean) && ok)
    ensures ok ==> OursOf(net.trace) == OursOf(old(net.trace)) + [Publisher(lib, dp)(zone).value]
    ensures Began(OursOf(old(net.trace)), OursOf(net.trace), [Publisher(lib, dp)(zone).value])
  {
    ok := net.AllHealthy(redis, 3);
    if ok {
      var rules := dp.RulesFor(zone.id) + Page(dp.tenantRules, RULE_PAGE);
      var entries := dp.EntriesFor(zone.id) + Page(dp.tenantEntries, ENTRY_PAGE);
      var compiled, dropped := CompileZone(lib, zone, zone.Text("tenantId").GetOr(""), dp.PoliciesFor(zone.id), rules, entries,
                                           dp.clock(zone.id));
      ok := net.Publish(redis, compiled.value);
    } else {
      BeganNothing(OursOf(net.trace), [Publisher(lib, dp)(zone).value]);
    }
  }

  /** One turn of the first loop, whatever the zone is. */
  method TakeZone(lib: Lib, dp: DataPlane, redis: Redis, net: Network, zone: Record, expected: set<string>, ghost ours: seq<Write>, ghost done: seq<Write>)
    returns (ok: bool, expected': set<string>)
    requires net.Tracks(redis) && OursOf(net.trace) == ours + done
    modifies redis, net
    ensures net.Ongoing(redis) && (net.clean <==> old(net.clean) && ok)
    ensures ok ==> expected' == expected + (if Servable(zone) then {zone.Text("hostname").value} else {})
    ensures ok ==> OursOf(net.trace) == ours + (done + Taken(Publisher(lib, dp), zone))
    ensures Began(ours, OursOf(net.trace), done + Taken(Publisher(lib, dp), zone))
  {
    var hostname := zone.Text("hostname");
    expected' := expected;
    ServableExactly(lib, dp, zone);
    if hostname.Some? && Publishable(zone) {
      ghost var w := Publisher(lib, dp)(zone).value;
      ok := PublishZone(lib, dp, redis, net, zone);
      BeganLater(ours, done, OursOf(net.trace), [w], done + [w]);
      assert ours + done + [w] == ours + (done + [w]);
      expected' := expected + {hostname.value};
    } else {
      assert done + [] == done;
      BeganAll(ours, done);
      ok := true;
    }
  }

  function Taken(f: Record -> Option<Write>, zone: Record): seq<Write> {
    if f(zone).Some? then [f(zone).value] else []
  }

  /** The first loop, over every zone of the page. */
  method PublishAll(lib: Lib, dp: DataPlane, redis: Redis, net: Network, zones: seq<Record>)
    returns (ok: bool, expected: set<string>)
    requires net.Tracks(redis)
    modifies redis, net
    ensures net.Ongoing(redis) && (net.clean <==> old(net.clean) && ok)
    ensures ok ==> expected == Expected(zones) && OursOf(net.trace) == OursOf(old(net.trace)) + Publications(lib, dp, zones)
    ensures Began(OursOf(old(net.trace)), OursOf(net.trace), Publications(lib, dp, zones))
  {
    ghost var ours, plan := OursOf(net.trace), Publications(lib, dp, zones);
    expected := {};
    for i := 0 to |zones|
      invariant expected == Expected(zones[..i])
      invariant net.Ongoing(redis) && net.clean == old(net.clean)
      invariant OursOf(net.trace) == ours + Publications(lib, dp, zones[..i])
    {
      ghost var done := Publications(lib, dp, zones[..i]);
      CollectedStep(Publisher(lib, dp), zones, i);
      ExpectedGrows(zones, i);
      ok, expected := TakeZone(lib, dp, redis, net, zones[i], expected, ours, done);
      if !ok {
        CollectedGrow(Publisher(lib, dp), zones, i + 1);
        BeganLonger(ours, OursOf(net.trace), Publications(lib, dp, zones[..i + 1]), plan);
        return false, expected;
      }
    }
    assert zones[..|zones|] == zones;
    BeganAll(ours, plan);
    return true, expected;
  }

  lemma BeganLonger(before: seq<Write>, after: seq<Write>, part: seq<Write>, plan: seq<Write>)
    requires Began(before, after, part) && part <= plan
    ensures Began(before, after, plan)
  {
    assert before + [] == before && [] + part == part;
    BeganLater(before, [], after, part, plan);
  }

  lemma CollectedStep(f: Record -> Option<Write>, zones: seq<Record>, i: nat)
    requires i < |zones|
    ensures Collected(f, zones[..i + 1])
      == Collected(f, zones[..i]) + Taken(f, zones[i])
  {
    assert zones[..i + 1][..i] == zones[..i];
    assert zones[..i + 1][i] == zones[i];
  }

  lemma {:induction false} CollectedGrow(f: Record -> Option<Write>, zones: seq<Record>, i: nat)
    requires i <= |zones|
    ensures Collected(f, zones[..i]) <= Collected(f, zones)
    decreases |zones|
  {
    if i < |zones| {
      var n := |zones| - 1;
      CollectedGrow(f, zones[..n], i);
      assert zones[..n][..i] == zones[..i];
    } else {
      assert zones[..i] == zones;
    }
  }

  lemma ExpectedGrows(zones: seq<Record>, i: nat)
    requires i < |zones|
    ensures Expected(zones[..i + 1])
      == Expected(zones[..i]) + (if Servable(zones[i]) then {zones[i].Text("hostname").value} else {})
  {
    var a, b := zones[..i], zones[..i + 1];
    forall h | h in Expected(b)
      ensures h in Expected(a) || (Servable(zones[i]) && h == zones[i].Text("hostname").value)
    {
      var k :| 0 <= k < |b| && Servable(b[k]) && b[k].Text("hostname").value == h;
      assert k < i ==> a[k] == b[k];
    }
    forall h | h in Expected(a) ensures h in Expected(b) {
      var k :| 0 <= k < |a| && Servable(a[k]) && a[k].Text("hostname").value == h;
      assert b[k] == a[k];
    }
    if Servable(zones[i]) {
      assert b[i] == zones[i];
    }
  }

  /** The second loop: whatever is listed but not expected. */
  method RemoveOrphans(redis: Redis, net: Network, published: seq<string>, expected: set<string>) returns (ok: bool)
    requires net.Tracks(redis)
    modifies redis, net
    ensures net.Ongoing(redis) && (net.clean <==> old(net.clean) && ok)
    ensures ok ==> OursOf(net.trace) == OursOf(old(net.trace)) + Removals(Orphaned(published, expected))
    ensures Began(OursOf(old(net.trace)), OursOf(net.trace), Removals(Orphaned(published, expected)))
  {
    ghost var ours, plan := OursOf(net.trace), Removals(Orphaned(published, expected));
    for i := 0 to |published|
      invariant net.Ongoing(redis) && net.clean == old(net.clean)
      invariant OursOf(net.trace) == ours + Removals(Orphaned(published[..i], expected))
    {
      OrphanedStep(published, expected, i);
      ok := TakeHost(redis, net, published[i], expected, ours, Removals(Orphaned(published[..i], expected)));
      if !ok {
        OrphanedGrow(published, expected, i + 1);
        BeganLonger(ours, OursOf(net.trace), Removals(Orphaned(published[..i + 1], expected)), plan);
        return false;
      }
    }
    assert published[..|published|] == published;
    BeganAll(ours, plan);
    return true;
  }

  /** One turn of the second loop. */
  method TakeHost(redis: Redis, net: Network, hostname: string, expected: set<string>, ghost ours: seq<Write>, ghost done: seq<Write>)
    returns (ok: bool)
    requires net.Tracks(redis) && OursOf(net.trace) == ours + done
    modifies redis, net
    ensures net.Ongoing(redis) && (net.clean <==> old(net.clean) && ok)
    ensures ok ==> OursOf(net.trace) == ours + (done + (if hostname in expected then [] else [Unpublish(hostname)]))
    ensures Began(ours, OursOf(net.trace), done + (if hostname in expected then [] else [Unpublish(hostname)]))
  {
    if hostname !in expected {
      ghost var w := Unpublish(hostname);
      ok := net.Unpublish(redis, hostname);
      BeganLater(ours, done, OursOf(net.trace), [w], done + [w]);
      assert ours + done + [w] == ours + (done + [w]);
    } else {
      assert done + [] == done;
      BeganAll(ours, done);
      ok := true;
    }
  }

  function Orphaned(published: seq<string>, expected: set<string>): seq<string> {
    if published == [] then []
    else
      var n := |published| - 1;
      Orphaned(published[..n], expected) + (if published[n] in expected then [] else [published[n]])
  }

  lemma OrphanedStep(published: seq<string>, expected: set<string>, i: nat)
    requires i < |published|
    ensures var done := Removals(Orphaned(published[..i], expected));
      Removals(Orphaned(published[..i + 1], expected)) == done + (if published[i] in expected then [] else [Unpublish(published[i])])
  {
    assert published[..i + 1][..i] == published[..i];
    assert published[..i + 1][i] == published[i];
  }

  lemma {:induction false} OrphanedGrow(published: seq<string>, expected: set<string>, i: nat)
    requires i <= |published|
    ensures Orphaned(published[..i], expected) <= Orphaned(published, expected)
    ensures Removals(Orphaned(published[..i], expected)) <= Removals(Orphaned(published, expected))
    decreases |published|
  {
    if i < |published| {
      var n := |published| - 1;
      OrphanedGrow(published[..n], expected, i);
      assert published[..n][..i] == published[..i];
    } else {
      assert published[..i] == published;
    }
  }

  lemma {:induction false} OrphanedIn(published: seq<string>, expected: set<string>, h: string)
    ensures h in Orphaned(published, expected) <==> h in published && h !in expected
  {
    if published != [] {
      var n := |published| - 1;
      OrphanedIn(published[..n], expected, h);
      assert published == published[..n] + [published[n]];
    }
  }

  lemma {:induction false} OrphanedOnce(published: seq<string>, expected: set<string>)
    requires forall i, j :: 0 <= i < j < |published| ==> published[i] != published[j]
    ensures var o := Orphaned(published, expected); forall i, j :: 0 <= i < j < |o| ==> o[i] != o[j]
  {
    if published != [] {
      var n := |published| - 1;
      OrphanedOnce(published[..n], expected);
      OrphanedIn(published[..n], expected, published[n]);
    }
  }

  lemma OrphanedAre(published: seq<string>, expected: set<string>)
    requires forall i, j :: 0 <= i < j < |published| ==> published[i] != published[j]
    ensures Enumerates(Orphaned(published, expected), (set h | h in published) - expected)
  {
    forall h ensures h in Orphaned(published, expected) <==> h in (set h | h in published) - expected {
      OrphanedIn(published, expected, h);
    }
    OrphanedOnce(published, expected);
  }

  /** The index as it stood when `readAt` deeds of the trace were done. */
  function IndexAt(s: Store, trace: Trace, readAt: nat): set<string>
    requires readAt <= |trace|
  {
    ApplyAll(s, AllOf(trace[..readAt])).index
  }

  /**
   A sweep of a Redis that held `s`, with everything written meanwhile in `trace`: it published every servable
   zone, then listed the index, then removed what was listed but not expected; or it stopped on the way.
   */
  ghost predicate Swept(lib: Lib, dp: DataPlane, s: Store, trace: Trace, published: seq<string>, readAt: nat, ok: bool) {
    var publications, orphans := Publications(lib, dp, dp.AllZones()), Orphaned(published, Expected(dp.AllZones()));
    || (!ok && Began([], OursOf(trace), publications))
    || (&& readAt <= |trace| && OursOf(trace[..readAt]) == publications
        && Enumerates(published, IndexAt(s, trace, readAt))
        && Began([], OursOf(trace), SweepWrites(lib, dp, orphans))
        && (ok ==> OursOf(trace) == SweepWrites(lib, dp, orphans)))
  }

  /** One sweep. It stops at the first failed call; it succeeds exactly when none failed. */
  method RunOnce(lib: Lib, dp: DataPlane, redis: Redis, net: Network) returns (ok: bool, ghost published: seq<string>, ghost readAt: nat)
    modifies redis, net
    ensures net.Tracks(redis) && net.start == old(redis.Contents()) && net.begin == old(net.calls)
    ensures net.clean <==> old(net.clean) && ok
    ensures Swept(lib, dp, net.start, net.trace, published, readAt, ok)
  {
    net.Begin(redis);
    published, readAt := [], 0;
    ghost var publications := Publications(lib, dp, dp.AllZones());
    var fetched := net.AllHealthy(redis, 3);
    if !fetched {
      BeganNothing([], publications);
      return false, published, readAt;
    }
    var done, expected := PublishAll(lib, dp, redis, net, dp.AllZones());
    assert [] + publications == publications;
    if !done {
      return false, published, readAt;
    }
    var indexed := net.PublishedHostnames(redis);
    if indexed.None? {
      BeganAll([], publications);
      return false, published, readAt;
    }
    published, readAt := indexed.value, |net.trace|;
    ghost var read := net.trace;
    assert net.trace[..readAt] == net.trace;
    ok := Finish(lib, dp, redis, net, indexed.value, expected);
    assert net.trace[..readAt] == read;
  }

  /** What comes after the index was read. */
  method Finish(lib: Lib, dp: DataPlane, redis: Redis, net: Network, published: seq<string>, expected: set<string>) returns (ok: bool)
    requires net.Tracks(redis) && expected == Expected(dp.AllZones())
    requires OursOf(net.trace) == Publications(lib, dp, dp.AllZones())
    modifies redis, net
    ensures net.Ongoing(redis) && (net.clean <==> old(net.clean) && ok)
    ensures ok ==> OursOf(net.trace) == SweepWrites(lib, dp, Orphaned(published, expected))
    ensures Began([], OursOf(net.trace), SweepWrites(lib, dp, Orphaned(published, expected)))
  {
    ghost var publications, removals := OursOf(net.trace), Removals(Orphaned(published, expected));
    ghost var plan := SweepWrites(lib, dp, Orphaned(published, expected));
    assert [] + publications == publications && [] + (publications + removals) == publications + removals;
    var removed := RemoveOrphans(redis, net, published, expected);
    if !removed {
      BeganLater([], publications, OursOf(net.trace), removals, plan);
      return false;
    }
    ok := net.BumpEpoch(redis);
    BeganLater([], publications + removals, OursOf(net.trace), [BumpEpoch], plan);
  }

  // ---------------------------------------------------------------- a sweep never unprotects

  lemma {:induction false} IndexKept(s: Store, ws: seq<Write>, h: string)
    requires h in s.index && Unpublish(h) !in ws
    ensures h in ApplyAll(s, ws).index
  {
    if ws != [] {
      IndexKept(s, ws[..|ws| - 1], h);
    }
  }

  lemma {:induction false} CollectedIn(f: Record -> Option<Write>, zones: seq<Record>, w: Write)
    ensures w in Collected(f, zones) <==> exists i :: 0 <= i < |zones| && f(zones[i]) == Some(w)
  {
    if zones != [] {
      var n := |zones| - 1;
      CollectedIn(f, zones[..n], w);
      assert forall i :: 0 <= i < n ==> zones[..n][i] == zones[i];
      if f(zones[n]) == Some(w) {
      }
    }
  }

  lemma OnlyPublications(lib: Lib, dp: DataPlane, zones: seq<Record>)
    ensures forall i :: 0 <= i < |Publications(lib, dp, zones)| ==> Publications(lib, dp, zones)[i].Publish?
  {
    var ws := Publications(lib, dp, zones);
    forall i | 0 <= i < |ws| ensures ws[i].Publish? {
      CollectedIn(Publisher(lib, dp), zones, ws[i]);
    }
  }

  lemma {:induction false} OursOrTheirs(trace: Trace, w: Write)
    ensures w in AllOf(trace) <==> w in OursOf(trace) || w in TheirsOf(trace)
  {
    if trace != [] {
      var n := |trace| - 1;
      OursOrTheirs(trace[..n], w);
      assert AllOf(trace) == AllOf(trace[..n]) + [trace[n].w];
    }
  }

  /** The sweep itself never unpublishes a host it expects. */
  lemma NeverOurs(lib: Lib, dp: DataPlane, s: Store, trace: Trace, published: seq<string>, readAt: nat, ok: bool, h: string)
    requires Swept(lib, dp, s, trace, published, readAt, ok) && h in Expected(dp.AllZones())
    ensures Unpublish(h) !in OursOf(trace)
  {
    var zones := dp.AllZones();
    var orphans := Orphaned(published, Expected(zones));
    OnlyPublications(lib, dp, zones);
    OrphanedIn(published, Expected(zones), h);
    OnlyOrphansRemoved(Publications(lib, dp, zones), orphans, h);
  }

  /**
   A host that was indexed and is servable in the sweep's page stays indexed wherever the sweep stops, unless
   another writer unpublishes it.
   */
  lemma {:induction false} StoppedSweepKeepsServableHosts(lib: Lib, dp: DataPlane, s: Store, trace: Trace, published: seq<string>, readAt: nat,
                                         ok: bool, h: string)
    requires Swept(lib, dp, s, trace, published, readAt, ok)
    requires h in s.index && h in Expected(dp.AllZones()) && Unpublish(h) !in TheirsOf(trace)
    ensures h in ApplyAll(s, AllOf(trace)).index
  {
    NeverOurs(lib, dp, s, trace, published, readAt, ok, h);
    OursOrTheirs(trace, Unpublish(h));
    IndexKept(s, AllOf(trace), h);
  }

  lemma OnlyOrphansRemoved(publications: seq<Write>, orphans: seq<string>, h: string)
    requires forall i :: 0 <= i < |publications| ==> publications[i].Publish?
    requires h !in orphans
    ensures Unpublish(h) !in publications + Removals(orphans) + [BumpEpoch]
  {
  }

  /** Nothing is unpublished before every servable zone has been published. */
  lemma RemovalsComeLast(lib: Lib, dp: DataPlane, orphans: seq<string>, i: nat)
    requires i < |SweepWrites(lib, dp, orphans)| && SweepWrites(lib, dp, orphans)[i].Unpublish?
    ensures Publications(lib, dp, dp.AllZones()) <= SweepWrites(lib, dp, orphans)[..i]
  {
    OnlyPublications(lib, dp, dp.AllZones());
  }

  // ---------------------------------------------------------------- a sweep converges

  predicate UniqueHostnames(zones: seq<Record>) {
    forall i, j | 0 <= i < j < |zones| && zones[i].Text("hostname").Some? ::
      zones[i].Text("hostname") != zones[j].Text("hostname")
  }

  /** The zone's own publication is what all three keys hold for its host. */
  predicate ServesZone(lib: Lib, dp: DataPlane, s: Store, zone: Record)
    requires Servable(zone)
  {
    Serves(s, PublicationOf(dp.SweptZone(lib, zone).value))
  }

  ghost predicate ServesAll(lib: Lib, dp: DataPlane, s: Store, zones: seq<Record>) {
    forall i :: 0 <= i < |zones| && Servable(zones[i]) ==> ServesZone(lib, dp, s, zones[i])
  }

  /** Publications of different hosts do not disturb each other. */
  predicate HostsApart(f: Record -> Option<Write>, zones: seq<Record>) {
    && (forall i | 0 <= i < |zones| && f(zones[i]).Some? :: f(zones[i]).value.Publish?)
    && (forall i, j | 0 <= i < j < |zones| && f(zones[i]).Some? && f(zones[j]).Some? ::
          f(zones[i]).value.zone.hostname != f(zones[j]).value.zone.hostname)
  }

  lemma {:induction false} CollectedServe(f: Record -> Option<Write>, s: Store, zones: seq<Record>)
    requires HostsApart(f, zones)
    ensures var t := ApplyAll(s, Collected(f, zones));
      forall i :: 0 <= i < |zones| && f(zones[i]).Some? ==> Serves(t, f(zones[i]).value)
  {
    if zones != [] {
      var n := |zones| - 1;
      assert forall i :: 0 <= i < n ==> zones[..n][i] == zones[i];
      CollectedServe(f, s, zones[..n]);
      var u := ApplyAll(s, Collected(f, zones[..n]));
      assert zones[..n + 1] == zones;
      CollectedStep(f, zones, n);
      assert Collected(f, zones[..n]) + [] == Collected(f, zones[..n]);
      if f(zones[n]).Some? {
        var w := f(zones[n]).value;
        OneMore(s, Collected(f, zones[..n]), w);
        JustPublished(u, w);
        forall i | 0 <= i < n && f(zones[i]).Some? ensures Serves(Apply(u, w), f(zones[i]).value) {
          OtherHostKept(u, w, f(zones[i]).value);
        }
      }
    }
  }

  /** After publications the index has gained their hosts, and lost none. */
  lemma {:induction false} PublishedIndex(s: Store, ws: seq<Write>, h: string)
    requires forall i :: 0 <= i < |ws| ==> ws[i].Publish?
    ensures h in ApplyAll(s, ws).index <==> h in s.index || exists i :: 0 <= i < |ws| && ws[i].zone.hostname == h
  {
    if ws != [] {
      var n := |ws| - 1;
      PublishedIndex(s, ws[..n], h);
      assert forall i :: 0 <= i < n ==> ws[..n][i] == ws[i];
      if ws[n].zone.hostname == h {
      }
    }
  }

  predicate PublishesHost(w: Option<Write>, h: string) {
    w.Some? && w.value.Publish? && w.value.zone.hostname == h
  }

  lemma PublishesItsHost(lib: Lib, dp: DataPlane, zone: Record)
    ensures Publisher(lib, dp)(zone).Some? <==> Servable(zone)
    ensures Servable(zone) ==> PublishesHost(Publisher(lib, dp)(zone), zone.Text("hostname").value)
  {
    if Servable(zone) {
      SweptHostname(lib, dp, zone);
    }
  }

  lemma PublishedFor(lib: Lib, dp: DataPlane, zones: seq<Record>, h: string)
    ensures var ws := Publications(lib, dp, zones);
      (exists i :: 0 <= i < |ws| && ws[i].Publish? && ws[i].zone.hostname == h) <==> h in Expected(zones)
  {
    var f, ws := Publisher(lib, dp), Publications(lib, dp, zones);
    if i :| 0 <= i < |ws| && ws[i].Publish? && ws[i].zone.hostname == h {
      CollectedIn(f, zones, ws[i]);
      var k :| 0 <= k < |zones| && f(zones[k]) == Some(ws[i]);
      PublishesItsHost(lib, dp, zones[k]);
    }
    if h in Expected(zones) {
      var k :| 0 <= k < |zones| && Servable(zones[k]) && zones[k].Text("hostname").value == h;
      PublishesItsHost(lib, dp, zones[k]);
      CollectedIn(f, zones, f(zones[k]).value);
    }
  }

  lemma PublishersApart(lib: Lib, dp: DataPlane, zones: seq<Record>)
    requires UniqueHostnames(zones)
    ensures HostsApart(Publisher(lib, dp), zones)
  {
    forall i | 0 <= i < |zones|
      ensures Publisher(lib, dp)(zones[i]).Some? <==> Servable(zones[i])
      ensures Servable(zones[i]) ==> PublishesHost(Publisher(lib, dp)(zones[i]), zones[i].Text("hostname").value)
    {
      PublishesItsHost(lib, dp, zones[i]);
    }
  }

  lemma AfterPublications(lib: Lib, dp: DataPlane, s: Store, zones: seq<Record>)
    requires UniqueHostnames(zones)
    ensures ApplyAll(s, Publications(lib, dp, zones)).index == s.index + Expected(zones)
    ensures ServesAll(lib, dp, ApplyAll(s, Publications(lib, dp, zones)), zones)
  {
    PublishersApart(lib, dp, zones);
    CollectedServe(Publisher(lib, dp), s, zones);
    OnlyPublications(lib, dp, zones);
    forall h ensures h in ApplyAll(s, Publications(lib, dp, zones)).index <==> h in s.index + Expected(zones) {
      PublishedIndex(s, Publications(lib, dp, zones), h);
      PublishedFor(lib, dp, zones, h);
    }
  }

  lemma OtherHostKept(s: Store, w: Write, v: Write)
    requires v.Publish? && Serves(s, v)
    requires w.Publish? ==> w.zone.hostname != v.zone.hostname
    requires w.Unpublish? ==> w.hostname != v.zone.hostname
    ensures Serves(Apply(s, w), v)
  {
  }

  lemma JustPublished(s: Store, w: Write)
    requires w.Publish?
    ensures Serves(Apply(s, w), w)
  {
  }

  lemma {:induction false} AfterRemovals(s: Store, orphans: seq<string>)
    ensures var t := ApplyAll(s, Removals(orphans));
      && t.index == s.index - (set h | h in orphans)
      && forall w: Write :: w.Publish? && w.zone.hostname !in orphans && Serves(s, w) ==> Serves(t, w)
  {
    if orphans != [] {
      var n := |orphans| - 1;
      AfterRemovals(s, orphans[..n]);
      assert Removals(orphans)[..n] == Removals(orphans[..n]);
      assert orphans == orphans[..n] + [orphans[n]];
      var u := ApplyAll(s, Removals(orphans[..n]));
      forall w: Write | w.Publish? && w.zone.hostname !in orphans && Serves(s, w)
        ensures Serves(Apply(u, Unpublish(orphans[n])), w)
      {
        OtherHostKept(u, Unpublish(orphans[n]), w);
      }
    }
  }

  /** Where a sweep leaves a host, in terms of where the publications left it. */
  lemma AfterSweep(s: Store, publications: seq<Write>, orphans: seq<string>, h: string)
    ensures var u, t := ApplyAll(s, publications), ApplyAll(s, publications + Removals(orphans) + [BumpEpoch]);
      && (h in t.index <==> h in u.index && h !in orphans)
      && forall w: Write :: w.Publish? && w.zone.hostname == h && h !in orphans && Serves(u, w) ==> Serves(t, w)
  {
    var u := ApplyAll(s, publications);
    AfterRemovals(u, orphans);
    ApplyParts(s, publications, Removals(orphans));
    OneMore(s, publications + Removals(orphans), BumpEpoch);
  }

  /**
   From any content of Redis, a sweep in which nothing fails leaves exactly the servable hostnames in the
   index, each with the compiled rule-set of its zone behind it.
   */
  lemma SweepConverges(lib: Lib, dp: DataPlane, s: Store, orphans: seq<string>)
    requires UniqueHostnames(dp.AllZones()) && AreOrphans(lib, dp, s, orphans)
    ensures var t := ApplyAll(s, SweepWrites(lib, dp, orphans));
      t.index == Expected(dp.AllZones()) && ServesAll(lib, dp, t, dp.AllZones())
  {
    var zones := dp.AllZones();
    var publications, t := Publications(lib, dp, zones), ApplyAll(s, SweepWrites(lib, dp, orphans));
    AfterPublications(lib, dp, s, zones);
    forall h ensures h in t.index <==> h in Expected(zones) {
      AfterSweep(s, publications, orphans, h);
    }
    forall i | 0 <= i < |zones| && Servable(zones[i]) ensures ServesZone(lib, dp, t, zones[i]) {
      var h := zones[i].Text("hostname").value;
      assert h in Expected(zones);
      SweptHostname(lib, dp, zones[i]);
      AfterSweep(s, publications, orphans, h);
    }
  }

  // ---------------------------------------------------------------- a sweep among other writers

  /** What one sequence of writes does to the index, the rule-sets and the versions of a host. */
  predicate SameHostState(s: Store, t: Store, h: string) {
    && (h in s.index <==> h in t.index)
    && (h in s.zones <==> h in t.zones) && (h in s.zones ==> s.zones[h] == t.zones[h])
    && (h in s.versions <==> h in t.versions) && (h in s.versions ==> s.versions[h] == t.versions[h])
  }

  predicate About(w: Write, h: string) {
    (w.Publish? && w.zone.hostname == h) || (w.Unpublish? && w.hostname == h)
  }

  /** No other writer touches the host. */
  predicate LeftAlone(trace: Trace, h: string) {
    forall i | 0 <= i < |trace| :: trace[i].Theirs? ==> !About(trace[i].w, h)
  }

  lemma SameAfterWrite(s: Store, t: Store, w: Write, h: string)
    requires SameHostState(s, t, h)
    ensures SameHostState(Apply(s, w), Apply(t, w), h)
    ensures !About(w, h) ==> SameHostState(Apply(s, w), t, h)
  {
  }

  lemma {:induction false} AloneIsOurs(s: Store, trace: Trace, h: string)
    requires LeftAlone(trace, h)
    ensures SameHostState(ApplyAll(s, AllOf(trace)), ApplyAll(s, OursOf(trace)), h)
  {
    if trace != [] {
      var n, d := |trace| - 1, trace[|trace| - 1];
      var u, v := ApplyAll(s, AllOf(trace[..n])), ApplyAll(s, OursOf(trace[..n]));
      AloneIsOurs(s, trace[..n], h);
      SameAfterWrite(u, v, d.w, h);
      AllOfParts(trace[..n], [d]);
      assert trace[..n] + [d] == trace && AllOf([d]) == [d.w];
      OneMore(s, AllOf(trace[..n]), d.w);
      OneMore(s, OursOf(trace[..n]), d.w);
      assert OursOf(trace[..n]) + [] == OursOf(trace[..n]);
    }
  }

  /** The last write about the host. */
  function LastAbout(ws: seq<Write>, h: string): Option<Write> {
    if ws == [] then None
    else if About(ws[|ws| - 1], h) then Some(ws[|ws| - 1])
    else LastAbout(ws[..|ws| - 1], h)
  }

  /** However writers interleave, the last write about a host decides whether it is indexed. */
  lemma {:induction false} LastWriteDecides(s: Store, ws: seq<Write>, h: string)
    ensures h in ApplyAll(s, ws).index
      <==> if LastAbout(ws, h).Some? then LastAbout(ws, h).value.Publish? else h in s.index
  {
    if ws != [] {
      LastWriteDecides(s, ws[..|ws| - 1], h);
    }
  }

  /**
   Among other writers, a sweep in which nothing fails brings every host that they leave alone to where it
   belongs: indexed if and only if expected, and serving what its zone compiles to.
   */
  lemma {:induction false} SweepConvergesWhereLeftAlone(lib: Lib, dp: DataPlane, s: Store, trace: Trace, published: seq<string>, readAt: nat, h: string)
    requires UniqueHostnames(dp.AllZones()) && Swept(lib, dp, s, trace, published, readAt, true) && LeftAlone(trace, h)
    ensures var t := ApplyAll(s, AllOf(trace));
      && (h in t.index <==> h in Expected(dp.AllZones()))
      && forall i :: 0 <= i < |dp.AllZones()| && Servable(dp.AllZones()[i]) && dp.AllZones()[i].Text("hostname").value == h
           ==> ServesZone(lib, dp, t, dp.AllZones()[i])
  {
    var zones := dp.AllZones();
    var publications, orphans := Publications(lib, dp, zones), Orphaned(published, Expected(zones));
    var u, t := ApplyAll(s, publications), ApplyAll(s, SweepWrites(lib, dp, orphans));
    AloneIsOurs(s, trace, h);
    AloneIsOurs(s, trace[..readAt], h);
    AfterPublications(lib, dp, s, zones);
    OrphanedIn(published, Expected(zones), h);
    AfterSweep(s, publications, orphans, h);
    forall i | 0 <= i < |zones| && Servable(zones[i]) && zones[i].Text("hostname").value == h
      ensures ServesZone(lib, dp, ApplyAll(s, AllOf(trace)), zones[i])
    {
      SweptHostname(lib, dp, zones[i]);
      SameServes(t, ApplyAll(s, AllOf(trace)), PublicationOf(dp.SweptZone(lib, zones[i]).value), h);
    }
  }

  lemma SameServes(s: Store, t: Store, w: Write, h: string)
    requires SameHostState(t, s, h) && w.Publish? && w.zone.hostname == h && Serves(s, w)
    ensures Serves(t, w)
  {
  }

  /** A sweep that nobody disturbs. */
  lemma QuietSweep(lib: Lib, dp: DataPlane, s: Store, trace: Trace, published: seq<string>, readAt: nat)
    requires Swept(lib, dp, s, trace, published, readAt, true) && TheirsOf(trace) == []
    ensures var orphans := Orphaned(published, Expected(dp.AllZones()));
      ApplyAll(s, AllOf(trace)) == ApplyAll(s, SweepWrites(lib, dp, orphans)) && AreOrphans(lib, dp, s, orphans)
  {
    NobodyElse(trace, readAt);
    OrphanedAre(published, Expected(dp.AllZones()));
    assert (set h | h in published) == IndexAt(s, trace, readAt);
  }

  lemma {:induction false} NobodyElse(trace: Trace, k: nat)
    requires TheirsOf(trace) == [] && k <= |trace|
    ensures AllOf(trace) == OursOf(trace) && AllOf(trace[..k]) == OursOf(trace[..k])
  {
    if trace != [] {
      var n := |trace| - 1;
      assert TheirsOf(trace[..n]) == [] && trace[n].Ours?;
      NobodyElse(trace[..n], if k <= n then k else n);
      assert AllOf(trace) == AllOf(trace[..n]) + [trace[n].w];
      if k <= n {
        assert trace[..n][..k] == trace[..k];
      } else {
        assert trace[..k] == trace;
      }
    }
  }

  /**
   Whatever was written up to the index read, by the sweep or by others: afterwards a host is indexed if and
   only if it was when the index was read and the sweep expects it.
   */
  lemma IndexedAfterRemovals(s: Store, ws: seq<Write>, expected: set<string>, orphans: seq<string>, h: string)
    requires Enumerates(orphans, ApplyAll(s, ws).index - expected)
    ensures h in ApplyAll(s, ws + Removals(orphans) + [BumpEpoch]).index <==> h in ApplyAll(s, ws).index && h in expected
  {
    AfterSweep(s, ws, orphans, h);
  }

  /** A zone created while the sweep runs, and already synchronised, is not in the sweep's list: its host is removed. */
  lemma CreatedZoneIsRemoved(lib: Lib, dp: DataPlane, s: Store, z: CompiledZone, orphans: seq<string>)
    requires dp.zones == [] && Enumerates(orphans, ApplyAll(s, [PublicationOf(z)]).index - Expected(dp.AllZones()))
    ensures z.hostname in ApplyAll(s, [PublicationOf(z)]).index
    ensures z.hostname !in ApplyAll(s, [PublicationOf(z)] + Removals(orphans) + [BumpEpoch]).index
  {
    OneMore(s, [], PublicationOf(z));
    assert [] + [PublicationOf(z)] == [PublicationOf(z)];
    IndexedAfterRemovals(s, [PublicationOf(z)], Expected(dp.AllZones()), orphans, z.hostname);
  }

  /** A zone suspended while the sweep runs, and already unpublished, is still in its list: its host is published again. */
  lemma SuspendedZoneIsRepublished(lib: Lib, dp: DataPlane, s: Store, zone: Record, orphans: seq<string>)
    requires dp.zones == [zone] && Servable(zone)
    requires var ws := [Unpublish(zone.Text("hostname").value)] + Publications(lib, dp, dp.AllZones());
      Enumerates(orphans, ApplyAll(s, ws).index - Expected(dp.AllZones()))
    ensures var ws := [Unpublish(zone.Text("hostname").value)] + Publications(lib, dp, dp.AllZones());
      zone.Text("hostname").value in ApplyAll(s, ws + Removals(orphans) + [BumpEpoch]).index
  {
    var h := zone.Text("hostname").value;
    var gone, publications := [Unpublish(h)], Publications(lib, dp, dp.AllZones());
    assert dp.AllZones()[0] == zone && h in Expected(dp.AllZones());
    ApplyParts(s, gone, publications);
    AfterPublications(lib, dp, ApplyAll(s, gone), dp.AllZones());
    IndexedAfterRemovals(s, gone + publications, Expected(dp.AllZones()), orphans, h);
  }

  lemma SweptHostname(lib: Lib, dp: DataPlane, zone: Record)
    requires Servable(zone)
    ensures PublicationOf(dp.SweptZone(lib, zone).value).zone.hostname == zone.Text("hostname").value
  {
  }

  /** Only the first page is swept: a servable zone beyond it loses its host. */
  lemma OnlyTheFirstPageIsServed(lib: Lib, dp: DataPlane, s: Store, orphans: seq<string>, i: nat)
    requires UniqueHostnames(dp.zones) && AreOrphans(lib, dp, s, orphans)
    requires i < |dp.zones| && Servable(dp.zones[i])
    ensures dp.zones[i].Text("hostname").value in ApplyAll(s, SweepWrites(lib, dp, orphans)).index <==> i < 50
  {
    var page, h := dp.AllZones(), dp.zones[i].Text("hostname").value;
    assert forall k :: 0 <= k < |page| ==> page[k] == dp.zones[k];
    SweepConverges(lib, dp, s, orphans);
    if i < ZONE_PAGE {
      assert page[i] == dp.zones[i];
    }
    if h in Expected(page) {
      var k :| 0 <= k < |page| && Servable(page[k]) && page[k].Text("hostname").value == h;
    }
  }

  // ---------------------------------------------------------------- the edge converges

  lemma SweptIsUsable(lib: Lib, dp: DataPlane, s: Store, zone: Record)
    requires Servable(zone) && ServesZone(lib, dp, s, zone)
    ensures var z, h := dp.SweptZone(lib, zone).value, zone.Text("hostname").value;
      && Usable(ZoneIn(s, h)) == Some(z)
      && VersionIn(s, h).Some? && ParseInt(VersionIn(s, h).value) == Some(z.configVersion)
  {
    var z := dp.SweptZone(lib, zone).value;
    Verdict.CompiledZoneTravels(lib, zone, zone.Text("tenantId").GetOr(""), dp.PoliciesFor(zone.id),
                                dp.RulesFor(zone.id) + Page(dp.tenantRules, RULE_PAGE),
                                dp.EntriesFor(zone.id) + Page(dp.tenantEntries, ENTRY_PAGE), dp.clock(zone.id));
    PublicationsAreLegible(z);
  }

  /** What the sweep makes of a host: its servable zone, compiled; None when there is none. */
  ghost predicate SweptFor(lib: Lib, dp: DataPlane, h: string, z: Option<CompiledZone>) {
    if h in Expected(dp.AllZones())
    then exists i :: 0 <= i < |dp.AllZones()| && Servable(dp.AllZones()[i]) && dp.AllZones()[i].Text("hostname").value == h
           && z == dp.SweptZone(lib, dp.AllZones()[i])
    else z.None?
  }

  /** An entry of the edge that its version does not tell from `z` is `z`, up to what no decision reads. */
  predicate VersionTells(previous: Zones, h: string, z: CompiledZone) {
    h in previous && previous[h].configVersion == z.configVersion ==> previous[h].Essence() == z.Essence()
  }

  lemma ServedEntry(lib: Lib, dp: DataPlane, t: Store, previous: Zones, hosts: seq<string>, zone: Record)
    requires Servable(zone) && ServesZone(lib, dp, t, zone) && Enumerates(hosts, t.index)
    ensures var z, h := dp.SweptZone(lib, zone).value, zone.Text("hostname").value;
      SameEssence(EntryOf(Refreshed(previous, t, hosts), h), Some(z)) <==> VersionTells(previous, h, z)
  {
    var z, h := dp.SweptZone(lib, zone).value, zone.Text("hostname").value;
    SweptHostname(lib, dp, zone);
    SweptIsUsable(lib, dp, t, zone);
    RefreshedEntry(previous, t, hosts, h);
    FetchedUsable(previous, h, ZoneIn(t, h), z);
  }

  lemma UnlistedEntry(previous: Zones, t: Store, hosts: seq<string>, h: string)
    requires Enumerates(hosts, t.index) && h !in t.index
    ensures EntryOf(Refreshed(previous, t, hosts), h).None?
  {
    RebuiltOutside(previous, Still(t), NoneLost(), 0, hosts, map[], h);
  }

  lemma FetchedUsable(previous: Zones, h: string, payload: Option<Json.Json>, z: CompiledZone)
    requires Usable(payload) == Some(z)
    ensures Fetched(previous, h, payload) == Some(z)
  {
  }

  /**
   A sweep from any Redis content, then one refresh of an edge with any snapshot. A host whose zone is
   servable is served exactly what the zone compiles to if and only if the edge holds nothing else under the
   same version; any other host is not served.
   */
  lemma EdgeConverges(lib: Lib, dp: DataPlane, s: Store, orphans: seq<string>, previous: Zones, hosts: seq<string>, h: string, z: Option<CompiledZone>)
    requires UniqueHostnames(dp.AllZones()) && AreOrphans(lib, dp, s, orphans)
    requires Enumerates(hosts, ApplyAll(s, SweepWrites(lib, dp, orphans)).index)
    requires SweptFor(lib, dp, h, z)
    ensures SameEssence(EntryOf(Refreshed(previous, ApplyAll(s, SweepWrites(lib, dp, orphans)), hosts), h), z)
      <==> (z.Some? ==> VersionTells(previous, h, z.value))
  {
    SweepConverges(lib, dp, s, orphans);
    EdgeConvergesOn(lib, dp, ApplyAll(s, SweepWrites(lib, dp, orphans)), previous, hosts, h, z);
  }

  lemma EdgeConvergesOn(lib: Lib, dp: DataPlane, t: Store, previous: Zones, hosts: seq<string>, h: string, z: Option<CompiledZone>)
    requires t.index == Expected(dp.AllZones()) && ServesAll(lib, dp, t, dp.AllZones()) && Enumerates(hosts, t.index)
    requires SweptFor(lib, dp, h, z)
    ensures SameEssence(EntryOf(Refreshed(previous, t, hosts), h), z) <==> (z.Some? ==> VersionTells(previous, h, z.value))
  {
    if h in Expected(dp.AllZones()) {
      var i :| 0 <= i < |dp.AllZones()| && Servable(dp.AllZones()[i]) && dp.AllZones()[i].Text("hostname").value == h
        && z == dp.SweptZone(lib, dp.AllZones()[i]);
      ServedEntry(lib, dp, t, previous, hosts, dp.AllZones()[i]);
    } else {
      UnlistedEntry(previous, t, hosts, h);
    }
  }

  /**
   The same through the reads themselves: a refresh during which nobody writes and no read fails, after a
   sweep, brings the edge to the data-plane's rule-set if and only if the versions tell.
   */
  lemma {:induction false} RefreshAfterSweepConverges(lib: Lib, dp: DataPlane, s: Store, orphans: seq<string>, timeline: nat -> Store, lost: nat -> bool,
                                   a: Snapshot, i: nat, hosts: seq<string>, b: Snapshot, j: nat, fetched: Option<nat>,
                                   h: string, z: Option<CompiledZone>)
    requires UniqueHostnames(dp.AllZones()) && AreOrphans(lib, dp, s, orphans) && SweptFor(lib, dp, h, z)
    requires Refresh(timeline, lost, a, i, hosts, b, j, fetched)
    requires forall r :: i <= r < j ==> timeline(r) == ApplyAll(s, SweepWrites(lib, dp, orphans)) && !lost(r)
    ensures SameEssence(EntryOf(b.zones, h), z) <==> (z.Some? ==> VersionTells(a.zones, h, z.value))
  {
    RefreshOnStill(timeline, lost, a, i, hosts, b, j, fetched, ApplyAll(s, SweepWrites(lib, dp, orphans)));
    EdgeConverges(lib, dp, s, orphans, a.zones, hosts, h, z);
  }

  /**
   The version comes from the zone's own row. While that row stays as it is, an edge that already serves the
   host keeps what it has, whatever became of the rules, policies and access lists, tenant-wide or not: the
   refresh brings the change if and only if there is none to bring.
   */
  lemma {:induction false} UnbumpedChangeIsNeverFetched(lib: Lib, before: DataPlane, after: DataPlane, zone: Record, t: Store, previous: Zones, hosts: seq<string>)
    requires Servable(zone) && ServesZone(lib, after, t, zone) && Enumerates(hosts, t.index)
    requires zone.Text("hostname").Some? && zone.Text("hostname").value in previous
    requires previous[zone.Text("hostname").value] == before.SweptZone(lib, zone).value
    ensures EntryOf(Refreshed(previous, t, hosts), zone.Text("hostname").value) == before.SweptZone(lib, zone)
    ensures SameEssence(EntryOf(Refreshed(previous, t, hosts), zone.Text("hostname").value), after.SweptZone(lib, zone))
      <==> before.SweptZone(lib, zone).value.Essence() == after.SweptZone(lib, zone).value.Essence()
  {
    SweptHostname(lib, after, zone);
    SweptIsUsable(lib, after, t, zone);
    RefreshedEntry(previous, t, hosts, zone.Text("hostname").value);
    ServedEntry(lib, after, t, previous, hosts, zone);
  }
}
