/**
 The compiled rule-set: the contract between the control-plane, which writes it, and the edge-plane,
 which reads it. Both planes declare the same types; here they are declared once.
 A field, operator or action is a closed set plus the zero value Go leaves when a key is missing.
 */
module Ruleset {
  import opened Wrappers

  const SCHEMA_VERSION: nat := 3

  datatype Action = NoAction | ActAllow | ActLog | ActChallenge | ActBlock

  datatype Field = NoField | UriPath | UriQuery | Method | Header | SourceIp | SourceIpCidr | Country | UserAgent

  datatype Op =
    | NoOp | Eq | NotEq | Contains | NotContains | StartsWith | EndsWith | In | NotIn | ContainsCi | Regex

  datatype Predicate = Predicate(field: Field, op: Op, value: Option<string>, values: seq<string>, param: Option<string>)

  datatype MatchExpr =
    | Always
    | Test(test: Predicate)
    | All(children: seq<MatchExpr>)
    | Any(children: seq<MatchExpr>)
    | Not(inner: MatchExpr)

  datatype RateLimit = RateLimit(threshold: nat, windowSeconds: nat)

  datatype CompiledRule = CompiledRule(
    id: string,
    name: string,
    ruleType: string,
    action: Action,
    priority: int,
    matchExpr: MatchExpr,
    rateLimit: Option<RateLimit>)

  datatype CompiledDdos = CompiledDdos(
    id: string,
    sensitivity: string,
    action: Action,
    requestRateThreshold: nat,
    burstWindowSeconds: nat,
    pathPrefix: Option<string>,
    httpMethod: Option<string>,
    priority: int)

  datatype CompiledZone = CompiledZone(
    schemaVersion: nat,
    zoneId: string,
    tenantId: string,
    hostname: string,
    originAddress: string,
    status: string,
    protectionMode: string,
    configVersion: int,
    ddos: seq<CompiledDdos>,
    rules: seq<CompiledRule>,
    compiledAt: string)
  {
    /** Anything but an active zone in enforce mode only reports. */
    predicate Enforcing() {
      protectionMode == "enforce" && status == "active"
    }

    /** The zone without the two fields that no decision reads. */
    function Essence(): CompiledZone {
      this.(tenantId := "", compiledAt := "")
    }
  }

  function ZoneKey(hostname: string): string { "waf:zone:" + hostname }

  function ZoneVersionKey(hostname: string): string { "waf:zone-version:" + hostname }

  const ZONE_INDEX_KEY := "waf:zones"
  const EPOCH_KEY := "waf:ruleset-epoch"

  /** The four kinds of Redis key never collide, and each host has keys of its own. */
  lemma RedisKeysApart(g: string, h: string)
    ensures ZoneKey(g) == ZoneKey(h) ==> g == h
    ensures ZoneVersionKey(g) == ZoneVersionKey(h) ==> g == h
    ensures ZoneKey(g) != ZoneVersionKey(h)
    ensures ZONE_INDEX_KEY != ZoneKey(g) && ZONE_INDEX_KEY != ZoneVersionKey(g)
    ensures EPOCH_KEY != ZoneKey(g) && EPOCH_KEY != ZoneVersionKey(g) && EPOCH_KEY != ZONE_INDEX_KEY
  {
    assert ZoneKey(g)[9..] == g && ZoneKey(h)[9..] == h;
    assert ZoneVersionKey(g)[17..] == g && ZoneVersionKey(h)[17..] == h;
    assert ZoneKey(g)[8] == ':' && ZoneVersionKey(h)[8] == '-' && ZoneVersionKey(g)[8] == '-';
    assert ZONE_INDEX_KEY[8] == 's' && EPOCH_KEY[4] == 'r' && ZONE_INDEX_KEY[4] == 'z';
    assert ZoneKey(g)[4] == 'z' && ZoneVersionKey(g)[4] == 'z';
  }
}
