/**
 Incident correlation: recent events are grouped by (zone, source address), and every group at the threshold
 gets an open incident unless one whose title contains the address is already open in its zone. Groups live
 in a map, so they are visited in an arbitrary order.
 */
module Correlate {
  import opened Wrappers
  import opened Decimal
  import Text

  /** `occurredAt` is None when the payload has no parseable time. */
  datatype SecurityEvent = SecurityEvent(zoneId: string, sourceIp: string, occurredAt: Option<int>, createdAt: int)

  datatype Incident = Incident(zoneId: string, title: string, severity: string, eventCount: int, isOpen: bool)

  datatype Key = Key(zoneId: string, sourceIp: string)

  const INCIDENT_LIST_LIMIT: nat := 50

  function OccurredAtOrFallback(e: SecurityEvent): int {
    e.occurredAt.GetOr(e.createdAt)
  }

  function SeverityFor(count: int): string {
    if count < 10 then "low" else if count < 50 then "medium" else if count < 200 then "high" else "critical"
  }

  function Title(count: nat, ip: string, windowMinutes: int): string {
    FormatNat(count) + " events from " + ip + (" in " + FormatInt(windowMinutes) + "m")
  }

  /** An event that counts: inside the window, with a zone and an address. */
  predicate Counts(e: SecurityEvent, cutoff: int) {
    && (e.occurredAt.Some? ==> e.occurredAt.value >= cutoff) && (e.occurredAt.None? ==> e.createdAt >= cutoff)
    && e.zoneId != "" && e.sourceIp != ""
  }

  predicate InGroup(e: SecurityEvent, k: Key, cutoff: int) {
    Counts(e, cutoff) && e.zoneId == k.zoneId && e.sourceIp == k.sourceIp
  }

  /** How many events of the group are recent. */
  function GroupSize(events: seq<SecurityEvent>, k: Key, cutoff: int): nat {
    if events == [] then 0
    else GroupSize(events[..|events| - 1], k, cutoff) + (if InGroup(events[|events| - 1], k, cutoff) then 1 else 0)
  }

  ghost predicate AreGroups(groups: map<Key, nat>, events: seq<SecurityEvent>, cutoff: int) {
    && (forall k :: k in groups ==> groups[k] == GroupSize(events, k, cutoff) > 0)
    && (forall k :: GroupSize(events, k, cutoff) > 0 ==> k in groups)
  }

  method GroupEvents(events: seq<SecurityEvent>, cutoff: int) returns (groups: map<Key, nat>)
    ensures AreGroups(groups, events, cutoff)
  {
    groups := map[];
    for i := 0 to |events|
      invariant AreGroups(groups, events[..i], cutoff)
    {
      var e := events[i];
      assert events[..i + 1][..i] == events[..i];
      if OccurredAtOrFallback(e) < cutoff || e.zoneId == "" || e.sourceIp == "" {
        continue;
      }
      var k := Key(e.zoneId, e.sourceIp);
      groups := groups[k := (if k in groups then groups[k] else 0) + 1];
    }
    assert events[..|events|] == events;
  }

  /** An open incident that stands for the group. */
  predicate Stands(i: Incident, k: Key) {
    i.isOpen && i.zoneId == k.zoneId && Text.Contains(i.title, k.sourceIp)
  }

  predicate Standing(incidents: seq<Incident>, k: Key) {
    exists i | 0 <= i < |incidents| :: Stands(incidents[i], k)
  }

  function OpenIn(incidents: seq<Incident>, zoneId: string): seq<Incident> {
    if incidents == [] then []
    else
      var last := incidents[|incidents| - 1];
      OpenIn(incidents[..|incidents| - 1], zoneId) + (if last.isOpen && last.zoneId == zoneId then [last] else [])
  }

  // ---------------------------------------------------------------- the list read

  /** How the store picks the page it returns of a zone's open incidents. */
  type Lister = (seq<Incident>, string) -> seq<Incident>

  predicate IsPage(page: seq<Incident>, all: seq<Incident>) {
    multiset(page) <= multiset(all) && |page| == if |all| <= INCIDENT_LIST_LIMIT then |all| else INCIDENT_LIST_LIMIT
  }

  ghost predicate Lists(lister: Lister) {
    forall incidents, zoneId :: IsPage(lister(incidents, zoneId), OpenIn(incidents, zoneId))
  }

  predicate Names(i: Incident, ip: string) {
    Text.Contains(i.title, ip)
  }

  /** The search in the page finds the address. */
  predicate Found(lister: Lister, incidents: seq<Incident>, k: Key) {
    exists i | 0 <= i < |lister(incidents, k.zoneId)| :: Names(lister(incidents, k.zoneId)[i], k.sourceIp)
  }

  lemma {:induction false} OpenInExactly(incidents: seq<Incident>, zoneId: string, x: Incident)
    ensures x in OpenIn(incidents, zoneId) <==> x in incidents && x.isOpen && x.zoneId == zoneId
  {
    if incidents != [] {
      OpenInExactly(incidents[..|incidents| - 1], zoneId, x);
      assert incidents == incidents[..|incidents| - 1] + [incidents[|incidents| - 1]];
    }
  }

  /** What is found stands. */
  lemma FoundStands(lister: Lister, incidents: seq<Incident>, k: Key)
    requires Lists(lister) && Found(lister, incidents, k)
    ensures Standing(incidents, k)
  {
    var page, all := lister(incidents, k.zoneId), OpenIn(incidents, k.zoneId);
    assert IsPage(page, all);
    var i :| 0 <= i < |page| && Names(page[i], k.sourceIp);
    assert page[i] in multiset(page);
    assert page[i] in all;
    OpenInExactly(incidents, k.zoneId, page[i]);
    var j :| 0 <= j < |incidents| && incidents[j] == page[i];
    assert Stands(incidents[j], k);
  }

  function Keep(s: seq<Incident>, ip: string, named: bool): seq<Incident> {
    if s == [] then []
    else
      var last := s[|s| - 1];
      Keep(s[..|s| - 1], ip, named) + (if Names(last, ip) == named then [last] else [])
  }

  lemma {:induction false} KeepCounts(s: seq<Incident>, ip: string, named: bool, x: Incident)
    ensures multiset(Keep(s, ip, named))[x] == if Names(x, ip) == named then multiset(s)[x] else 0
  {
    if s != [] {
      KeepCounts(s[..|s| - 1], ip, named, x);
      assert s == s[..|s| - 1] + [s[|s| - 1]];
    }
  }

  lemma {:induction false} KeepSizes(s: seq<Incident>, ip: string)
    ensures |Keep(s, ip, true)| + |Keep(s, ip, false)| == |s|
  {
    if s != [] {
      KeepSizes(s[..|s| - 1], ip);
    }
  }

  lemma KeepSplits(s: seq<Incident>, ip: string)
    ensures multiset(Keep(s, ip, true)) + multiset(Keep(s, ip, false)) == multiset(s)
  {
    forall x ensures (multiset(Keep(s, ip, true)) + multiset(Keep(s, ip, false)))[x] == multiset(s)[x] {
      KeepCounts(s, ip, true, x);
      KeepCounts(s, ip, false, x);
    }
  }

  lemma {:induction false} KeptAre(s: seq<Incident>, ip: string, named: bool)
    ensures forall i :: 0 <= i < |Keep(s, ip, named)| ==> Names(Keep(s, ip, named)[i], ip) == named
  {
    if s != [] {
      KeptAre(s[..|s| - 1], ip, named);
    }
  }

  /** A zone's open incidents that do not name the address. */
  function Others(incidents: seq<Incident>, k: Key): nat {
    |Keep(OpenIn(incidents, k.zoneId), k.sourceIp, false)|
  }

  lemma StandingCounts(incidents: seq<Incident>, k: Key)
    requires Standing(incidents, k)
    ensures Others(incidents, k) < |OpenIn(incidents, k.zoneId)|
  {
    var all := OpenIn(incidents, k.zoneId);
    var i :| 0 <= i < |incidents| && Stands(incidents[i], k);
    OpenInExactly(incidents, k.zoneId, incidents[i]);
    KeepCounts(all, k.sourceIp, true, incidents[i]);
    KeepSizes(all, k.sourceIp);
    assert incidents[i] in multiset(Keep(all, k.sourceIp, true));
  }

  /** Whatever page it is, a standing incident is found if fewer than 50 others are open. */
  lemma FoundAmongFew(lister: Lister, incidents: seq<Incident>, k: Key)
    requires Lists(lister) && Standing(incidents, k) && Others(incidents, k) < INCIDENT_LIST_LIMIT
    ensures Found(lister, incidents, k)
  {
    var page, all := lister(incidents, k.zoneId), OpenIn(incidents, k.zoneId);
    var others := Keep(all, k.sourceIp, false);
    assert IsPage(page, all);
    StandingCounts(incidents, k);
    if !Found(lister, incidents, k) {
      forall x | x in multiset(page) ensures multiset(page)[x] <= multiset(others)[x] {
        assert x in page;
        KeepCounts(all, k.sourceIp, false, x);
      }
      SmallerBag(page, others);
    }
  }

  lemma SmallerBag(a: seq<Incident>, b: seq<Incident>)
    requires forall x :: x in multiset(a) ==> multiset(a)[x] <= multiset(b)[x]
    ensures |a| <= |b|
  {
    assert multiset(b) == multiset(a) + (multiset(b) - multiset(a));
    assert |multiset(a)| == |a| && |multiset(b)| == |b|;
  }

  /** A store that lists first the incidents that name the address, or those that do not. */
  function Favouring(ip: string, named: bool): Lister {
    (incidents: seq<Incident>, zoneId: string) =>
      FirstPage(Keep(OpenIn(incidents, zoneId), ip, named) + Keep(OpenIn(incidents, zoneId), ip, !named))
  }

  function FirstPage(s: seq<Incident>): seq<Incident> {
    if |s| <= INCIDENT_LIST_LIMIT then s else s[..INCIDENT_LIST_LIMIT]
  }

  lemma FavouringLists(ip: string, named: bool)
    ensures Lists(Favouring(ip, named))
  {
    forall incidents, zoneId ensures IsPage(Favouring(ip, named)(incidents, zoneId), OpenIn(incidents, zoneId)) {
      var all := OpenIn(incidents, zoneId);
      KeepSplits(all, ip);
      KeepSizes(all, ip);
      PageOfSame(Keep(all, ip, named) + Keep(all, ip, !named), all);
    }
  }

  lemma PageOfSame(s: seq<Incident>, all: seq<Incident>)
    requires multiset(s) == multiset(all) && |s| == |all|
    ensures IsPage(FirstPage(s), all)
  {
    assert s == FirstPage(s) + s[|FirstPage(s)|..];
  }

  /** Such a store finds whatever stands. */
  lemma FavouredIsFound(incidents: seq<Incident>, k: Key)
    requires Standing(incidents, k)
    ensures Found(Favouring(k.sourceIp, true), incidents, k)
  {
    var all := OpenIn(incidents, k.zoneId);
    StandingCounts(incidents, k);
    KeepSizes(all, k.sourceIp);
    KeptAre(all, k.sourceIp, true);
    var page := Favouring(k.sourceIp, true)(incidents, k.zoneId);
    assert page[0] == Keep(all, k.sourceIp, true)[0];
    assert Names(page[0], k.sourceIp);
  }

  /** And one that lists the others first misses it behind 50 of them. */
  lemma HiddenBehindOthers(incidents: seq<Incident>, k: Key)
    requires Others(incidents, k) >= INCIDENT_LIST_LIMIT
    ensures !Found(Favouring(k.sourceIp, false), incidents, k)
  {
    var all := OpenIn(incidents, k.zoneId);
    KeptAre(all, k.sourceIp, false);
    var others := Keep(all, k.sourceIp, false);
    var page := Favouring(k.sourceIp, false)(incidents, k.zoneId);
    assert forall i :: 0 <= i < |page| ==> page[i] == others[i];
  }

  // ---------------------------------------------------------------- the pass

  function NewIncident(k: Key, count: nat, windowMinutes: int): Incident {
    Incident(k.zoneId, Title(count, k.sourceIp, windowMinutes), SeverityFor(count), count, true)
  }

  /** Under 10 events are low, under 50 medium, under 200 high, the rest critical. */
  lemma SeverityBands(count: nat)
    ensures SeverityFor(count) == "low" <==> count <= 9
    ensures SeverityFor(count) == "medium" <==> 10 <= count <= 49
    ensures SeverityFor(count) == "high" <==> 50 <= count <= 199
    ensures SeverityFor(count) == "critical" <==> 200 <= count
  {
  }

  /** What is opened for a group: in its zone, open, with its count, and a title that says count, address and window. */
  lemma NewIncidentReads(k: Key, count: nat, windowMinutes: int)
    ensures var x := NewIncident(k, count, windowMinutes);
      && x.isOpen && x.zoneId == k.zoneId && x.eventCount == count
      && (x.severity == "critical" <==> count >= 200) && (x.severity == "low" <==> count < 10)
      && Text.HasPrefix(x.title, FormatNat(count) + " events from " + k.sourceIp)
      && Text.HasSuffix(x.title, " in " + FormatInt(windowMinutes) + "m")
  {
    Text.JoinedEnds(FormatNat(count) + " events from " + k.sourceIp, " in " + FormatInt(windowMinutes) + "m");
    SeverityBands(count);
  }

  lemma TitleNamesTheAddress(count: nat, ip: string, windowMinutes: int)
    ensures Text.Contains(Title(count, ip, windowMinutes), ip)
  {
    var a, c := FormatNat(count) + " events from ", " in " + FormatInt(windowMinutes) + "m";
    Text.ContainsPart(a, ip, c);
    assert a + ip + c == Title(count, ip, windowMinutes);
  }

  /** The groups at the threshold, in the order they are visited. */
  function AtThreshold(order: seq<Key>, groups: map<Key, nat>, threshold: int): seq<Key> {
    if order == [] then []
    else
      var last := order[|order| - 1];
      AtThreshold(order[..|order| - 1], groups, threshold)
      + (if last in groups && groups[last] >= threshold then [last] else [])
  }

  /** The incidents after visiting `order`: one more for each group at the threshold that had none standing. */
  function Opened(lister: Lister, incidents: seq<Incident>, order: seq<Key>, groups: map<Key, nat>, threshold: int, windowMinutes: int): seq<Incident> {
    if order == [] then incidents
    else
      var last := order[|order| - 1];
      var before := Opened(lister, incidents, order[..|order| - 1], groups, threshold, windowMinutes);
      if last in groups && groups[last] >= threshold && !Found(lister, before, last)
      then before + [NewIncident(last, groups[last], windowMinutes)] else before
  }

  ghost predicate Enumerates(order: seq<Key>, groups: map<Key, nat>) {
    && (forall k :: k in order <==> k in groups)
    && (forall i, j :: 0 <= i < j < |order| ==> order[i] != order[j])
  }

  class AlertStore {
    var incidents: seq<Incident>

    constructor (incidents: seq<Incident>)
      ensures this.incidents == incidents
    {
      this.incidents := incidents;
    }

    /** The store refuses a creation when `denied` says so; the sweep then stops. */
    method Create(incident: Incident, denied: bool) returns (ok: bool)
      modifies this
      ensures ok == !denied
      ensures incidents == if ok then old(incidents) + [incident] else old(incidents)
    {
      ok := !denied;
      if ok {
        incidents := incidents + [incident];
      }
    }

    /** The list read and the search in it. */
    method AlreadyOpen(lister: Lister, k: Key) returns (found: bool)
      ensures found <==> Found(lister, incidents, k)
    {
      var existing := lister(incidents, k.zoneId);
      for i := 0 to |existing|
        invariant forall j :: 0 <= j < i ==> !Names(existing[j], k.sourceIp)
      {
        if Names(existing[i], k.sourceIp) {
          return true;
        }
      }
      return false;
    }

    /**
     One pass over the groups in the order `order`. It stops at a list read that fails or a creation that is
     denied.
     */
    method CorrelateGroups(lister: Lister, groups: map<Key, nat>, order: seq<Key>, threshold: int, windowMinutes: int,
                           unlisted: nat -> bool, denied: nat -> bool)
      returns (ok: bool, created: nat, skipped: nat)
      requires forall k :: k in order ==> k in groups
      modifies this
      ensures ok ==> incidents == Opened(lister, old(incidents), order, groups, threshold, windowMinutes)
      ensures ok ==> |incidents| == |old(incidents)| + created
      ensures ok ==> created + skipped == |AtThreshold(order, groups, threshold)|
      ensures (forall i: nat :: !unlisted(i) && !denied(i)) ==> ok
      ensures !ok ==> exists n :: 0 <= n < |order| && incidents == Opened(lister, old(incidents), order[..n], groups, threshold, windowMinutes)
    {
      created, skipped := 0, 0;
      for i := 0 to |order|
        invariant incidents == Opened(lister, old(incidents), order[..i], groups, threshold, windowMinutes)
        invariant |incidents| == |old(incidents)| + created
        invariant created + skipped == |AtThreshold(order[..i], groups, threshold)|
      {
        var key := order[i];
        var count := groups[key];
        assert order[..i + 1][..i] == order[..i];
        if count < threshold {
          continue;
        }
        if unlisted(i) {
          return false, created, skipped;
        }
        var alreadyOpen := AlreadyOpen(lister, key);
        if alreadyOpen {
          skipped := skipped + 1;
          continue;
        }
        var done := Create(NewIncident(key, count, windowMinutes), denied(created));
        if !done {
          return false, created, skipped;
        }
        created := created + 1;
      }
      assert order[..|order|] == order;
      return true, created, skipped;
    }
  }

  // ---------------------------------------------------------------- coverage and idempotence

  lemma {:induction false} OpenedKeeps(lister: Lister, incidents: seq<Incident>, order: seq<Key>, groups: map<Key, nat>, threshold: int, windowMinutes: int)
    ensures incidents <= Opened(lister, incidents, order, groups, threshold, windowMinutes)
  {
    if order != [] {
      OpenedKeeps(lister, incidents, order[..|order| - 1], groups, threshold, windowMinutes);
    }
  }

  lemma StandingGrows(incidents: seq<Incident>, more: seq<Incident>, k: Key)
    requires Standing(incidents, k)
    ensures Standing(incidents + more, k)
  {
    var i :| 0 <= i < |incidents| && Stands(incidents[i], k);
    assert (incidents + more)[i] == incidents[i];
  }

  /** In whatever order, every group at the threshold ends with an open incident of its zone that names its address. */
  lemma {:induction false} EveryGroupIsCovered(lister: Lister, incidents: seq<Incident>, order: seq<Key>, groups: map<Key, nat>, threshold: int, windowMinutes: int, k: Key)
    requires Lists(lister) && k in order && Due(groups, threshold, k)
    ensures Standing(Opened(lister, incidents, order, groups, threshold, windowMinutes), k)
  {
    var n, last := |order| - 1, order[|order| - 1];
    var before, after := Opened(lister, incidents, order[..n], groups, threshold, windowMinutes), Opened(lister, incidents, order, groups, threshold, windowMinutes);
    if k in order[..n] {
      EveryGroupIsCovered(lister, incidents, order[..n], groups, threshold, windowMinutes, k);
      StandingGrows(before, after[|before|..], k);
      assert before + after[|before|..] == after;
    } else {
      assert last == k;
      if Found(lister, before, k) {
        FoundStands(lister, before, k);
      } else {
        TitleNamesTheAddress(groups[k], k.sourceIp, windowMinutes);
        assert Stands(after[|before|], k);
      }
    }
  }

  lemma {:induction false} NothingToOpen(lister: Lister, incidents: seq<Incident>, order: seq<Key>, groups: map<Key, nat>, threshold: int, windowMinutes: int)
    requires forall k :: k in order && Due(groups, threshold, k) ==> Found(lister, incidents, k)
    ensures Opened(lister, incidents, order, groups, threshold, windowMinutes) == incidents
  {
    if order != [] {
      NothingToOpen(lister, incidents, order[..|order| - 1], groups, threshold, windowMinutes);
    }
  }

  /** A pass that opens nothing has found every group at the threshold. */
  lemma {:induction false} AllWereFound(lister: Lister, incidents: seq<Incident>, order: seq<Key>, groups: map<Key, nat>, threshold: int, windowMinutes: int, k: Key)
    requires Opened(lister, incidents, order, groups, threshold, windowMinutes) == incidents
    requires k in order && Due(groups, threshold, k)
    ensures Found(lister, incidents, k)
  {
    var n := |order| - 1;
    OpenedKeeps(lister, incidents, order[..n], groups, threshold, windowMinutes);
    assert Opened(lister, incidents, order[..n], groups, threshold, windowMinutes) == incidents;
    if k in order[..n] {
      AllWereFound(lister, incidents, order[..n], groups, threshold, windowMinutes, k);
    }
  }

  /** A later cutoff only shrinks the groups. */
  lemma {:induction false} LaterCutoff(events: seq<SecurityEvent>, k: Key, cutoff: int, later: int)
    requires cutoff <= later
    ensures GroupSize(events, k, later) <= GroupSize(events, k, cutoff)
  {
    if events != [] {
      LaterCutoff(events[..|events| - 1], k, cutoff, later);
    }
  }

  /** Every due group of a later pass over the same events has its incident. */
  lemma FirstPassCovers(lister: Lister, events: seq<SecurityEvent>, cutoff: int, later: int, threshold: int, windowMinutes: int,
                        incidents: seq<Incident>, groups: map<Key, nat>, order: seq<Key>, groups': map<Key, nat>, k: Key)
    requires cutoff <= later && AreGroups(groups, events, cutoff) && AreGroups(groups', events, later)
    requires Lists(lister) && Enumerates(order, groups) && Due(groups', threshold, k)
    ensures Standing(Opened(lister, incidents, order, groups, threshold, windowMinutes), k)
  {
    LaterCutoff(events, k, cutoff, later);
    EveryGroupIsCovered(lister, incidents, order, groups, threshold, windowMinutes, k);
  }

  /** Whatever page the store returns at each read, the pass opens nothing. */
  ghost predicate OpensNothing(incidents: seq<Incident>, order: seq<Key>, groups: map<Key, nat>, threshold: int, windowMinutes: int) {
    forall lister :: Lists(lister) ==> Opened(lister, incidents, order, groups, threshold, windowMinutes) == incidents
  }

  /** Each due group's zone has fewer than 50 open incidents that do not name its address. */
  predicate WithinPage(incidents: seq<Incident>, order: seq<Key>, groups: map<Key, nat>, threshold: int) {
    forall k | k in order :: Due(groups, threshold, k) ==> Others(incidents, k) < INCIDENT_LIST_LIMIT
  }

  /**
   When every due group has its incident, a pass opens nothing, whatever page the store returns, if and only if
   no due group's zone has 50 other open incidents to hide it behind.
   */
  lemma NothingOpensExactly(incidents: seq<Incident>, order: seq<Key>, groups: map<Key, nat>, threshold: int, windowMinutes: int)
    requires forall k :: k in order && Due(groups, threshold, k) ==> Standing(incidents, k)
    ensures OpensNothing(incidents, order, groups, threshold, windowMinutes) <==> WithinPage(incidents, order, groups, threshold)
  {
    if WithinPage(incidents, order, groups, threshold) {
      forall lister | Lists(lister) ensures Opened(lister, incidents, order, groups, threshold, windowMinutes) == incidents {
        forall k | k in order && Due(groups, threshold, k) ensures Found(lister, incidents, k) {
          FoundAmongFew(lister, incidents, k);
        }
        NothingToOpen(lister, incidents, order, groups, threshold, windowMinutes);
      }
    } else {
      var k :| k in order && Due(groups, threshold, k) && Others(incidents, k) >= INCIDENT_LIST_LIMIT;
      var lister := Favouring(k.sourceIp, false);
      FavouringLists(k.sourceIp, false);
      HiddenBehindOthers(incidents, k);
      if OpensNothing(incidents, order, groups, threshold, windowMinutes) {
        AllWereFound(lister, incidents, order, groups, threshold, windowMinutes, k);
      }
    }
  }

  /**
   A second run over the same events, at any later time and in any order, opens nothing while the incidents of
   the first stay open, if and only if none of them is hidden behind 50 others of its zone.
   */
  lemma RerunOpensNothing(lister: Lister, events: seq<SecurityEvent>, cutoff: int, later: int, threshold: int, windowMinutes: int,
                          incidents: seq<Incident>, groups: map<Key, nat>, order: seq<Key>, groups': map<Key, nat>, order': seq<Key>)
    requires cutoff <= later && AreGroups(groups, events, cutoff) && AreGroups(groups', events, later)
    requires Lists(lister) && Enumerates(order, groups) && Enumerates(order', groups')
    ensures var first := Opened(lister, incidents, order, groups, threshold, windowMinutes);
      OpensNothing(first, order', groups', threshold, windowMinutes) <==> WithinPage(first, order', groups', threshold)
  {
    var first := Opened(lister, incidents, order, groups, threshold, windowMinutes);
    forall k | k in order' && Due(groups', threshold, k) ensures Standing(first, k) {
      FirstPassCovers(lister, events, cutoff, later, threshold, windowMinutes, incidents, groups, order, groups', k);
    }
    NothingOpensExactly(first, order', groups', threshold, windowMinutes);
  }

  function Copies(x: Incident, n: nat): seq<Incident> {
    if n == 0 then [] else Copies(x, n - 1) + [x]
  }

  lemma {:induction false} CopiesAreOthers(x: Incident, n: nat, last: Incident, k: Key)
    requires x.isOpen && x.zoneId == k.zoneId && !Names(x, k.sourceIp)
    ensures Others(Copies(x, n), k) == n
    ensures Others(Copies(x, n) + [last], k) >= n
  {
    assert (Copies(x, n) + [last])[..|Copies(x, n)|] == Copies(x, n);
    KeepOpen(Copies(x, n), last, k);
    if n > 0 {
      CopiesAreOthers(x, n - 1, last, k);
      KeepOpen(Copies(x, n - 1), x, k);
    }
  }

  lemma KeepOpen(incidents: seq<Incident>, x: Incident, k: Key)
    ensures Others(incidents + [x], k)
      == Others(incidents, k) + (if x.isOpen && x.zoneId == k.zoneId && !Names(x, k.sourceIp) then 1 else 0)
  {
    assert (incidents + [x])[..|incidents|] == incidents;
    var all := OpenIn(incidents, k.zoneId);
    assert (all + [x])[..|all|] == all;
    assert OpenIn(incidents + [x], k.zoneId) == if x.isOpen && x.zoneId == k.zoneId then all + [x] else all;
  }

  /** Fifty open incidents without the address in front of the group's own: some store makes the rerun open another. */
  lemma FiftyOthersHide(k: Key, groups: map<Key, nat>, windowMinutes: int, other: Incident)
    requires groups == map[k := 1] && other.isOpen && other.zoneId == k.zoneId && !Names(other, k.sourceIp)
    ensures !OpensNothing(Copies(other, INCIDENT_LIST_LIMIT) + [NewIncident(k, 1, windowMinutes)], [k], groups, 1, windowMinutes)
  {
    var own := NewIncident(k, 1, windowMinutes);
    var incidents := Copies(other, INCIDENT_LIST_LIMIT) + [own];
    CopiesAreOthers(other, INCIDENT_LIST_LIMIT, own, k);
    TitleNamesTheAddress(1, k.sourceIp, windowMinutes);
    assert Stands(incidents[|incidents| - 1], k);
    assert k in [k];
    NothingOpensExactly(incidents, [k], groups, 1, windowMinutes);
  }

  // ---------------------------------------------------------------- one incident per group, exactly

  /** A group whose address the title of another group's incident contains. */
  predicate Shadows(groups: map<Key, nat>, windowMinutes: int, j: Key, k: Key)
    requires j in groups
  {
    j != k && Stands(NewIncident(j, groups[j], windowMinutes), k)
  }

  predicate Due(groups: map<Key, nat>, threshold: int, k: Key) {
    k in groups && groups[k] >= threshold
  }

  /** No due group is named by an open incident or by another due group's title. */
  ghost predicate Unambiguous(incidents: seq<Incident>, groups: map<Key, nat>, threshold: int, windowMinutes: int) {
    && (forall k :: Due(groups, threshold, k) ==> !Standing(incidents, k))
    && (forall j, k :: Due(groups, threshold, j) && Due(groups, threshold, k) ==> !Shadows(groups, windowMinutes, j, k))
  }

  /** The groups got an incident each: as many new incidents as groups at the threshold. */
  predicate OneEach(lister: Lister, incidents: seq<Incident>, order: seq<Key>, groups: map<Key, nat>, threshold: int, windowMinutes: int) {
    |Opened(lister, incidents, order, groups, threshold, windowMinutes)| == |incidents| + |AtThreshold(order, groups, threshold)|
  }

  /** The incident is that of a due group in the list. */
  predicate IsDues(x: Incident, order: seq<Key>, groups: map<Key, nat>, threshold: int, windowMinutes: int) {
    exists k | k in order :: Due(groups, threshold, k) && x == NewIncident(k, groups[k], windowMinutes)
  }

  /** No more incidents than groups, and every new one is a due group's. */
  lemma {:induction false} OpenedAreDue(lister: Lister, incidents: seq<Incident>, order: seq<Key>, groups: map<Key, nat>, threshold: int, windowMinutes: int)
    ensures var r := Opened(lister, incidents, order, groups, threshold, windowMinutes);
      && |incidents| <= |r| <= |incidents| + |AtThreshold(order, groups, threshold)|
      && forall i :: |incidents| <= i < |r| ==> IsDues(r[i], order, groups, threshold, windowMinutes)
  {
    if order != [] {
      var last, rest := order[|order| - 1], order[..|order| - 1];
      OpenedAreDue(lister, incidents, rest, groups, threshold, windowMinutes);
      var before, r := Opened(lister, incidents, rest, groups, threshold, windowMinutes), Opened(lister, incidents, order, groups, threshold, windowMinutes);
      forall i | |incidents| <= i < |r| ensures IsDues(r[i], order, groups, threshold, windowMinutes) {
        if i < |before| {
          assert IsDues(before[i], rest, groups, threshold, windowMinutes);
          var k :| k in rest && Due(groups, threshold, k) && before[i] == NewIncident(k, groups[k], windowMinutes);
          assert k in order && r[i] == before[i];
        } else {
          assert last in order && r[i] == NewIncident(last, groups[last], windowMinutes);
        }
      }
    }
  }

  lemma {:induction false} UnambiguousGroupsGetOneEach(lister: Lister, incidents: seq<Incident>, order: seq<Key>, groups: map<Key, nat>, threshold: int, windowMinutes: int)
    requires Lists(lister) && Unambiguous(incidents, groups, threshold, windowMinutes)
    requires forall i, j :: 0 <= i < j < |order| ==> order[i] != order[j]
    ensures OneEach(lister, incidents, order, groups, threshold, windowMinutes)
  {
    if order != [] {
      var n, last := |order| - 1, order[|order| - 1];
      UnambiguousGroupsGetOneEach(lister, incidents, order[..n], groups, threshold, windowMinutes);
      var before := Opened(lister, incidents, order[..n], groups, threshold, windowMinutes);
      if Due(groups, threshold, last) {
        assert last !in order[..n];
        NotYetStanding(lister, incidents, order[..n], groups, threshold, windowMinutes, last);
        if Found(lister, before, last) {
          FoundStands(lister, before, last);
        }
      }
    }
  }

  lemma NotYetStanding(lister: Lister, incidents: seq<Incident>, order: seq<Key>, groups: map<Key, nat>, threshold: int, windowMinutes: int, k: Key)
    requires Unambiguous(incidents, groups, threshold, windowMinutes)
    requires k !in order && Due(groups, threshold, k)
    ensures !Standing(Opened(lister, incidents, order, groups, threshold, windowMinutes), k)
  {
    var r := Opened(lister, incidents, order, groups, threshold, windowMinutes);
    OpenedKeeps(lister, incidents, order, groups, threshold, windowMinutes);
    OpenedAreDue(lister, incidents, order, groups, threshold, windowMinutes);
    forall i | 0 <= i < |r| ensures !Stands(r[i], k) {
      if i < |incidents| {
        assert r[i] == incidents[i];
        assert !Standing(incidents, k);
      } else {
        assert IsDues(r[i], order, groups, threshold, windowMinutes);
        var j :| j in order && Due(groups, threshold, j) && r[i] == NewIncident(j, groups[j], windowMinutes);
        assert !Shadows(groups, windowMinutes, j, k);
      }
    }
  }

  lemma OneMoreGroup(lister: Lister, incidents: seq<Incident>, order: seq<Key>, groups: map<Key, nat>, threshold: int, windowMinutes: int)
    requires order != []
    ensures var rest, k := order[..|order| - 1], order[|order| - 1];
      var before := Opened(lister, incidents, rest, groups, threshold, windowMinutes);
      && |AtThreshold(order, groups, threshold)| == |AtThreshold(rest, groups, threshold)| + (if Due(groups, threshold, k) then 1 else 0)
      && |Opened(lister, incidents, order, groups, threshold, windowMinutes)|
         == |before| + (if Due(groups, threshold, k) && !Found(lister, before, k) then 1 else 0)
  {
  }

  /** One incident short before the last group, or skipping it, is one short after it. */
  lemma StaysFewer(lister: Lister, incidents: seq<Incident>, order: seq<Key>, groups: map<Key, nat>, threshold: int, windowMinutes: int)
    requires order != []
    requires var rest, k := order[..|order| - 1], order[|order| - 1];
      || !OneEach(lister, incidents, rest, groups, threshold, windowMinutes)
      || (Due(groups, threshold, k) && Found(lister, Opened(lister, incidents, rest, groups, threshold, windowMinutes), k))
    ensures !OneEach(lister, incidents, order, groups, threshold, windowMinutes)
  {
    OneMoreGroup(lister, incidents, order, groups, threshold, windowMinutes);
    OpenedAreDue(lister, incidents, order[..|order| - 1], groups, threshold, windowMinutes);
  }

  lemma {:induction false} FewerOnceSkipped(lister: Lister, incidents: seq<Incident>, order: seq<Key>, groups: map<Key, nat>, threshold: int, windowMinutes: int, i: nat)
    requires i < |order| && Due(groups, threshold, order[i])
    requires Found(lister, Opened(lister, incidents, order[..i], groups, threshold, windowMinutes), order[i])
    ensures !OneEach(lister, incidents, order, groups, threshold, windowMinutes)
  {
    var rest := order[..|order| - 1];
    if i == |rest| {
      StaysFewer(lister, incidents, order, groups, threshold, windowMinutes);
    } else {
      assert rest[..i] == order[..i] && rest[i] == order[i];
      FewerOnceSkipped(lister, incidents, rest, groups, threshold, windowMinutes, i);
      StaysFewer(lister, incidents, order, groups, threshold, windowMinutes);
    }
  }

  /** A listing of the groups that begins with the given ones. */
  lemma ListStartingWith(groups: map<Key, nat>, begin: seq<Key>) returns (order: seq<Key>)
    requires forall i :: 0 <= i < |begin| ==> begin[i] in groups
    requires forall i, j :: 0 <= i < j < |begin| ==> begin[i] != begin[j]
    ensures Enumerates(order, groups) && begin <= order
  {
    order := begin;
    var rest := groups.Keys - set k | k in begin;
    while rest != {}
      invariant rest <= groups.Keys && begin <= order
      invariant forall x :: x in order <==> x in groups && x !in rest
      invariant forall a, b :: 0 <= a < b < |order| ==> order[a] != order[b]
      decreases rest
    {
      var x :| x in rest;
      rest := rest - {x};
      order := order + [x];
    }
  }

  /** In every order and whatever pages the store returns, each due group gets an incident. */
  ghost predicate AlwaysOneEach(incidents: seq<Incident>, groups: map<Key, nat>, threshold: int, windowMinutes: int) {
    forall lister, order :: Lists(lister) && Enumerates(order, groups) ==> OneEach(lister, incidents, order, groups, threshold, windowMinutes)
  }

  /**
   Every group at the threshold gets an incident of its own, for every order the map may be walked in and every
   page the store may return, if and only if no such group's address is part of an open title of its zone or of
   another such group's title.
   */
  lemma OneIncidentPerGroupExactly(incidents: seq<Incident>, groups: map<Key, nat>, threshold: int, windowMinutes: int)
    ensures AlwaysOneEach(incidents, groups, threshold, windowMinutes) <==> Unambiguous(incidents, groups, threshold, windowMinutes)
  {
    if Unambiguous(incidents, groups, threshold, windowMinutes) {
      forall lister, order | Lists(lister) && Enumerates(order, groups) ensures OneEach(lister, incidents, order, groups, threshold, windowMinutes) {
        UnambiguousGroupsGetOneEach(lister, incidents, order, groups, threshold, windowMinutes);
      }
    } else {
      var lister, order := SkippingOrder(incidents, groups, threshold, windowMinutes);
    }
  }

  lemma SkippingOrder(incidents: seq<Incident>, groups: map<Key, nat>, threshold: int, windowMinutes: int)
    returns (lister: Lister, order: seq<Key>)
    requires !Unambiguous(incidents, groups, threshold, windowMinutes)
    ensures Lists(lister) && Enumerates(order, groups) && !OneEach(lister, incidents, order, groups, threshold, windowMinutes)
  {
    if k :| Due(groups, threshold, k) && Standing(incidents, k) {
      lister := Favouring(k.sourceIp, true);
      FavouringLists(k.sourceIp, true);
      order := ListStartingWith(groups, [k]);
      assert order[0] == k && order[..0] == [];
      FavouredIsFound(incidents, k);
      FewerOnceSkipped(lister, incidents, order, groups, threshold, windowMinutes, 0);
    } else {
      var j, k :| Due(groups, threshold, j) && Due(groups, threshold, k) && Shadows(groups, windowMinutes, j, k);
      lister := Favouring(k.sourceIp, true);
      FavouringLists(k.sourceIp, true);
      order := ListStartingWith(groups, [j, k]);
      assert order[0] == j && order[1] == k && order[..1] == [j];
      ShadowIsFound(incidents, groups, threshold, windowMinutes, j, k);
      FewerOnceSkipped(lister, incidents, order, groups, threshold, windowMinutes, 1);
    }
  }

  lemma OpenedForOne(lister: Lister, incidents: seq<Incident>, j: Key, groups: map<Key, nat>, threshold: int, windowMinutes: int)
    requires Due(groups, threshold, j) && !Found(lister, incidents, j)
    ensures Opened(lister, incidents, [j], groups, threshold, windowMinutes) == incidents + [NewIncident(j, groups[j], windowMinutes)]
  {
    assert [j][..|[j]| - 1] == [] && Opened(lister, incidents, [], groups, threshold, windowMinutes) == incidents;
  }

  lemma ShadowIsFound(incidents: seq<Incident>, groups: map<Key, nat>, threshold: int, windowMinutes: int, j: Key, k: Key)
    requires Due(groups, threshold, j) && Due(groups, threshold, k) && Shadows(groups, windowMinutes, j, k) && !Standing(incidents, j)
    ensures Found(Favouring(k.sourceIp, true), Opened(Favouring(k.sourceIp, true), incidents, [j], groups, threshold, windowMinutes), k)
  {
    var lister := Favouring(k.sourceIp, true);
    FavouringLists(k.sourceIp, true);
    if Found(lister, incidents, j) {
      FoundStands(lister, incidents, j);
    }
    OpenedForOne(lister, incidents, j, groups, threshold, windowMinutes);
    var one := Opened(lister, incidents, [j], groups, threshold, windowMinutes);
    assert Stands(one[|incidents|], k);
    FavouredIsFound(one, k);
  }

  lemma TitleNamesBeginning(count: nat, begin: string, rest: string, windowMinutes: int)
    ensures Text.Contains(Title(count, begin + rest, windowMinutes), begin)
  {
    Text.ContainsBeginning(FormatNat(count) + " events from ", begin, rest, " in " + FormatInt(windowMinutes) + "m");
  }

  /** Two clients of one zone, one of whose addresses begins the other's: some order opens one incident for both. */
  lemma AddressInsideAnother(incidents: seq<Incident>, groups: map<Key, nat>, windowMinutes: int)
    requires groups == map[Key("z", "10.0.0.12") := 5, Key("z", "10.0.0.1") := 5]
    ensures !AlwaysOneEach(incidents, groups, 5, windowMinutes)
  {
    var j, k := Key("z", "10.0.0.12"), Key("z", "10.0.0.1");
    TitleNamesBeginning(5, "10.0.0.1", "2", windowMinutes);
    assert "10.0.0.1" + "2" == "10.0.0.12";
    assert |k.sourceIp| != |j.sourceIp|;
    assert Shadows(groups, windowMinutes, j, k);
    OneIncidentPerGroupExactly(incidents, groups, 5, windowMinutes);
  }
}
