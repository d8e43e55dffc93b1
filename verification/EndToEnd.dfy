/** All three planes at once: from the rows of the data-plane to the decision on a request at the edge. */
module EndToEnd {
  import opened Wrappers
  import opened Decimal
  import opened Library
  import opened Ruleset
  import opened Matching
  import opened Limiter
  import opened Stages
  import opened Decide
  import opened Compile
  import opened Lists
  import opened Verdict
  import opened Distribute
  import opened Traffic
  import opened Cache
  import opened Resync

  function FirstOf<T>(rows: seq<T>, n: nat): seq<T> {
    rows[..if |rows| < n then |rows| else n]
  }

  /** The rows of a zone that count: its first 50 rules and 100 entries, then the tenant's. */
  function RulesFor(dp: DataPlane, zone: Record): seq<Record> {
    FirstOf(dp.rules(zone.id), 50) + FirstOf(dp.tenantRules, 50)
  }

  function EntriesFor(dp: DataPlane, zone: Record): seq<Record> {
    FirstOf(dp.entries(zone.id), 100) + FirstOf(dp.tenantEntries, 100)
  }

  function PoliciesFor(dp: DataPlane, zone: Record): seq<Record> {
    FirstOf(dp.policies(zone.id), 50)
  }

  /** The edge's decision on a request, on any table of budgets. */
  function Decided(lib: Lib, z: CompiledZone, req: Request, table: Table, now: int): Option<Decision> {
    DecisionOf(z, DecideFrom(StagesOf(lib, z, req), table, now, 0).0)
  }

  /** No decision reads what the essence leaves out. */
  lemma EssenceDecides(lib: Lib, x: CompiledZone, y: CompiledZone, req: Request, table: Table, now: int)
    requires x.Essence() == y.Essence()
    ensures Decided(lib, x, req, table, now) == Decided(lib, y, req, table, now)
  {
    assert x.zoneId == x.Essence().zoneId && x.rules == x.Essence().rules && x.ddos == x.Essence().ddos;
    assert y.zoneId == y.Essence().zoneId && y.rules == y.Essence().rules && y.ddos == y.Essence().ddos;
    SameStages(lib, x, y, req);
  }

  lemma SameStages(lib: Lib, x: CompiledZone, y: CompiledZone, req: Request)
    requires x.zoneId == y.zoneId && x.rules == y.rules && x.ddos == y.ddos
    ensures StagesOf(lib, x, req) == StagesOf(lib, y, req)
    ensures forall s :: DecisionOf(x, s) == DecisionOf(y, s)
  {
  }

  lemma SweptRows(lib: Lib, dp: DataPlane, zone: Record)
    ensures dp.SweptZone(lib, zone)
      == ZoneOf(lib, zone, zone.Text("tenantId").GetOr(""), PoliciesFor(dp, zone), RulesFor(dp, zone), EntriesFor(dp, zone), dp.clock(zone.id))
  {
    assert dp.PoliciesFor(zone.id) == PoliciesFor(dp, zone);
    assert dp.RulesFor(zone.id) == FirstOf(dp.rules(zone.id), 50) && Page(dp.tenantRules, RULE_PAGE) == FirstOf(dp.tenantRules, 50);
    assert dp.EntriesFor(zone.id) == FirstOf(dp.entries(zone.id), 100) && Page(dp.tenantEntries, ENTRY_PAGE) == FirstOf(dp.tenantEntries, 100);
  }

  /** What a sweep compiles for a zone decides as the zone's rows prescribe. */
  lemma SweptDecides(lib: Lib, dp: DataPlane, zone: Record, req: Request, table: Table, now: int)
    requires Servable(zone) && DistinctRecords(PoliciesFor(dp, zone), RulesFor(dp, zone))
    ensures Prescribed(Moment(lib, zone.id, req, table, now, AsCompiled), PoliciesFor(dp, zone), RulesFor(dp, zone), EntriesFor(dp, zone),
                       Decided(lib, dp.SweptZone(lib, zone).value, req, table, now))
  {
    SweptRows(lib, dp, zone);
    CompiledDecision(Moment(lib, zone.id, req, table, now, AsCompiled), zone, zone.Text("tenantId").GetOr(""),
                     PoliciesFor(dp, zone), RulesFor(dp, zone), EntriesFor(dp, zone), dp.clock(zone.id));
  }

  /** After a sweep that leaves other writers' hosts aside, and a refresh that nobody disturbs, the edge holds the zone. */
  lemma EdgeHolds(lib: Lib, dp: DataPlane, s: Store, trace: Trace, published: seq<string>, readAt: nat, k: nat,
                  timeline: nat -> Store, lost: nat -> bool, a: Snapshot, i: nat, hosts: seq<string>, b: Snapshot, j: nat, fetched: Option<nat>)
    requires UniqueHostnames(dp.AllZones()) && Swept(lib, dp, s, trace, published, readAt, true)
    requires k < |dp.AllZones()| && Servable(dp.AllZones()[k]) && LeftAlone(trace, dp.AllZones()[k].Text("hostname").value)
    requires Refresh(timeline, lost, a, i, hosts, b, j, fetched)
    requires forall r :: i <= r < j ==> timeline(r) == ApplyAll(s, AllOf(trace)) && !lost(r)
    ensures var zone := dp.AllZones()[k];
      var h, z := zone.Text("hostname").value, dp.SweptZone(lib, zone).value;
      SameEssence(EntryOf(b.zones, h), Some(z)) <==> VersionTells(a.zones, h, z)
  {
    var zone, t := dp.AllZones()[k], ApplyAll(s, AllOf(trace));
    SweepConvergesWhereLeftAlone(lib, dp, s, trace, published, readAt, zone.Text("hostname").value);
    RefreshOnStill(timeline, lost, a, i, hosts, b, j, fetched, t);
    ServedEntry(lib, dp, t, a.zones, hosts, zone);
  }

  /**
   A sweep in which nothing fails, among writers that leave the zone's host alone; then an undisturbed refresh of
   an edge that holds nothing else under the zone's version. From then on the edge decides every request, on
   every table of budgets, as the rows of the data-plane prescribe.
   */
  lemma {:induction false} RowsDecideAtTheEdge(lib: Lib, dp: DataPlane, s: Store, trace: Trace, published: seq<string>, readAt: nat, k: nat,
                            timeline: nat -> Store, lost: nat -> bool, a: Snapshot, i: nat, hosts: seq<string>, b: Snapshot, j: nat,
                            fetched: Option<nat>, req: Request, table: Table, now: int)
    requires UniqueHostnames(dp.AllZones()) && Swept(lib, dp, s, trace, published, readAt, true)
    requires k < |dp.AllZones()| && Servable(dp.AllZones()[k]) && LeftAlone(trace, dp.AllZones()[k].Text("hostname").value)
    requires Refresh(timeline, lost, a, i, hosts, b, j, fetched)
    requires forall r :: i <= r < j ==> timeline(r) == ApplyAll(s, AllOf(trace)) && !lost(r)
    requires var zone := dp.AllZones()[k];
      && DistinctRecords(PoliciesFor(dp, zone), RulesFor(dp, zone))
      && VersionTells(a.zones, zone.Text("hostname").value, dp.SweptZone(lib, zone).value)
    ensures var zone := dp.AllZones()[k];
      && zone.Text("hostname").value in b.zones
      && Prescribed(Moment(lib, zone.id, req, table, now, AsCompiled), PoliciesFor(dp, zone), RulesFor(dp, zone), EntriesFor(dp, zone),
                    Decided(lib, b.zones[zone.Text("hostname").value], req, table, now))
  {
    var zone := dp.AllZones()[k];
    EdgeHolds(lib, dp, s, trace, published, readAt, k, timeline, lost, a, i, hosts, b, j, fetched);
    SweptDecides(lib, dp, zone, req, table, now);
    EssenceDecides(lib, b.zones[zone.Text("hostname").value], dp.SweptZone(lib, zone).value, req, table, now);
  }
}
