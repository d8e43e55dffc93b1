/**
 The published configuration in Redis. Publishing and unpublishing are transactions: each takes effect at
 once or not at all, and a caller that sees an error does not know which.
 */
module Distribute {
  import opened Wrappers
  import opened Json
  import opened Decimal
  import opened Ruleset
  import opened Wire

  /** The four kinds of Redis key; `RedisKeysApart` shows that they do not collide. */
  datatype Store = Store(index: set<string>, zones: map<string, Json>, versions: map<string, string>, epoch: nat)

  const EMPTY := Store({}, map[], map[], 0)

  /** A publication carries the rule-set with its serialised form and the text of its version. */
  datatype Write = Publish(zone: CompiledZone, payload: Json, version: string) | Unpublish(hostname: string) | BumpEpoch

  function PublicationOf(z: CompiledZone): Write {
    Publish(z, WriteZone(z), FormatInt(z.configVersion))
  }

  /** The effect of one transaction. */
  function Apply(s: Store, w: Write): Store {
    match w
    case Publish(z, payload, version) =>
      Store(s.index + {z.hostname}, s.zones[z.hostname := payload], s.versions[z.hostname := version], s.epoch)
    case Unpublish(h) => Store(s.index - {h}, s.zones - {h}, s.versions - {h}, s.epoch)
    case BumpEpoch => s.(epoch := s.epoch + 1)
  }

  function ApplyAll(s: Store, ws: seq<Write>): Store {
    if ws == [] then s else Apply(ApplyAll(s, ws[..|ws| - 1]), ws[|ws| - 1])
  }

  lemma {:induction false} ApplyParts(s: Store, a: seq<Write>, b: seq<Write>)
    ensures ApplyAll(s, a + b) == ApplyAll(ApplyAll(s, a), b)
  {
    if b == [] {
      assert a + b == a;
    } else {
      var n := |b| - 1;
      assert (a + b)[..|a + b| - 1] == a + b[..n];
      ApplyParts(s, a, b[..n]);
    }
  }

  /** How one network call goes. A lost reply hides an effect that did take place. */
  datatype Fault = Healthy | Lost | ReplyLost

  class Redis {
    var index: set<string>
    var zones: map<string, Json>
    var versions: map<string, string>
    var epoch: nat

    function Contents(): Store
      reads this
    {
      Store(index, zones, versions, epoch)
    }

    /** Rule-set, version and index membership in one transaction. */
    method Publish(zone: CompiledZone, fault: Fault) returns (ok: bool)
      modifies this
      ensures ok == fault.Healthy?
      ensures Contents() == if fault.Lost? then old(Contents()) else Apply(old(Contents()), PublicationOf(zone))
    {
      if !fault.Lost? {
        zones := zones[zone.hostname := WriteZone(zone)];
        versions := versions[zone.hostname := FormatInt(zone.configVersion)];
        index := index + {zone.hostname};
      }
      ok := fault.Healthy?;
    }

    method Unpublish(hostname: string, fault: Fault) returns (ok: bool)
      modifies this
      ensures ok == fault.Healthy?
      ensures Contents() == if fault.Lost? then old(Contents()) else Apply(old(Contents()), Write.Unpublish(hostname))
    {
      if !fault.Lost? {
        index := index - {hostname};
        zones := zones - {hostname};
        versions := versions - {hostname};
      }
      ok := fault.Healthy?;
    }

    /** The members of the index, in whatever order Redis lists them. */
    method PublishedHostnames(fault: Fault) returns (members: Option<seq<string>>)
      ensures members.Some? <==> fault.Healthy?
      ensures members.Some? ==> Enumerates(members.value, index)
    {
      if !fault.Healthy? {
        return None;
      }
      var listed: seq<string> := [];
      var rest := index;
      while rest != {}
        invariant rest <= index
        invariant Enumerates(listed, index - rest)
        decreases rest
      {
        var h :| h in rest;
        rest := rest - {h};
        listed := listed + [h];
      }
      return Some(listed);
    }

    /** Transactions of other writers. */
    method Absorb(ws: seq<Write>)
      modifies this
      ensures Contents() == ApplyAll(old(Contents()), ws)
    {
      for i := 0 to |ws|
        invariant Contents() == ApplyAll(old(Contents()), ws[..i])
      {
        assert ws[..i + 1][..i] == ws[..i];
        match ws[i] {
          case Publish(z, payload, version) =>
            zones := zones[z.hostname := payload];
            versions := versions[z.hostname := version];
            index := index + {z.hostname};
          case Unpublish(h) =>
            index := index - {h};
            zones := zones - {h};
            versions := versions - {h};
          case BumpEpoch => epoch := epoch + 1;
        }
      }
      assert ws[..|ws|] == ws;
    }

    method BumpEpoch(fault: Fault) returns (ok: bool)
      modifies this
      ensures ok == fault.Healthy?
      ensures Contents() == if fault.Lost? then old(Contents()) else Apply(old(Contents()), Write.BumpEpoch)
    {
      if !fault.Lost? {
        epoch := epoch + 1;
      }
      ok := fault.Healthy?;
    }
  }

  /** Every member once, nothing else. */
  ghost predicate Enumerates(listed: seq<string>, members: set<string>) {
    && (forall h :: h in listed <==> h in members)
    && (forall i, j :: 0 <= i < j < |listed| ==> listed[i] != listed[j])
  }

  // ---------------------------------------------------------------- what every run keeps

  /** What `w` published is what all three keys hold for its host. */
  predicate Serves(s: Store, w: Write)
    requires w.Publish?
  {
    var h := w.zone.hostname;
    h in s.index && h in s.zones && h in s.versions && s.zones[h] == w.payload && s.versions[h] == w.version
  }

  ghost predicate WasPublished(ws: seq<Write>, h: string, w: Write) {
    w in ws && w.Publish? && w.zone.hostname == h
  }

  /** The three kinds of key name the same hosts, and each host has one whole publication of the past. */
  ghost predicate Aligned(s: Store, ws: seq<Write>) {
    && s.index == s.zones.Keys == s.versions.Keys
    && forall h :: h in s.index ==> exists w :: WasPublished(ws, h, w) && Serves(s, w)
  }

  lemma AlignedStep(s: Store, ws: seq<Write>, w: Write)
    requires Aligned(s, ws)
    ensures Aligned(Apply(s, w), ws + [w])
  {
    var t := Apply(s, w);
    forall h | h in t.index ensures exists v :: WasPublished(ws + [w], h, v) && Serves(t, v) {
      if w.Publish? && w.zone.hostname == h {
        assert WasPublished(ws + [w], h, w) && Serves(t, w);
      } else {
        var v :| WasPublished(ws, h, v) && Serves(s, v);
        assert WasPublished(ws + [w], h, v) && Serves(t, v);
      }
    }
  }

  /** From an empty Redis, after every sequence of transactions the keys are aligned. */
  lemma {:induction false} RunsStayAligned(ws: seq<Write>)
    ensures Aligned(ApplyAll(EMPTY, ws), ws)
  {
    if ws != [] {
      var n := |ws| - 1;
      RunsStayAligned(ws[..n]);
      AlignedStep(ApplyAll(EMPTY, ws[..n]), ws[..n], ws[n]);
      assert ws[..n] + [ws[n]] == ws;
    }
  }

  /** The edge can read back what was published, and the version key tells the truth. */
  predicate Legible(w: Write) {
    w.Publish? ==> ReadZone(w.payload) == Some(w.zone) && ParseInt(w.version) == Some(w.zone.configVersion)
  }

  predicate AllLegible(ws: seq<Write>) {
    forall i | 0 <= i < |ws| :: Legible(ws[i])
  }

  /** Every zone that fits the wire is published legibly. */
  lemma {:induction false} PublicationsAreLegible(z: CompiledZone)
    requires ZoneTravels(z)
    ensures Legible(PublicationOf(z))
  {
    ZoneRoundTrip(z);
    FormatParseInt(z.configVersion);
  }

  /** After every run, the version key of an indexed host names the version of its stored rule-set. */
  lemma {:induction false} VersionKeyIsTrue(ws: seq<Write>, h: string)
    requires AllLegible(ws) && h in ApplyAll(EMPTY, ws).index
    ensures var s := ApplyAll(EMPTY, ws);
      && h in s.zones && h in s.versions
      && ReadZone(s.zones[h]).Some?
      && ParseInt(s.versions[h]) == Some(ReadZone(s.zones[h]).value.configVersion)
  {
    RunsStayAligned(ws);
    var w :| WasPublished(ws, h, w) && Serves(ApplyAll(EMPTY, ws), w);
    assert Legible(w);
  }

  /** The epoch counts the bumps and nothing else. */
  lemma {:induction false} EpochCounts(s: Store, ws: seq<Write>)
    ensures ApplyAll(s, ws).epoch == s.epoch + multiset(ws)[BumpEpoch]
  {
    if ws != [] {
      var n := |ws| - 1;
      EpochCounts(s, ws[..n]);
      assert ws == ws[..n] + [ws[n]];
    }
  }
}
