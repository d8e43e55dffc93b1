/** `CompileZone`: from data-plane records to the rule-set the edge serves. */
module Compile {
  import opened Wrappers
  import opened Json
  import opened Decimal
  import opened Library
  import opened Ruleset
  import opened Parse
  import opened Lists
  import opened Rows

  /** A row of the data-plane. A `null` member reads as the zero value of the type asked for. */
  datatype Record = Record(id: string, status: Option<string>, data: map<string, Json>) {
    function Text(field: string): Option<string> {
      if field in data then AsString(data[field]) else None
    }

    function Flag(field: string): Option<bool> {
      if field in data then AsBool(data[field]) else None
    }

    function Number(lib: Lib, field: string): (r: Option<int>)
      ensures r.Some? ==> IsInt64(r.value)
    {
      if field !in data then None
      else
        match data[field]
        case Null => Some(0)
        case Num(t) => lib.Int64Of(t)
        case _ => None
    }

    /** Switched off only by a readable `enabled` that is false. */
    predicate Disabled() {
      Flag("enabled") == Some(false)
    }

    /** A positive number, or the default. */
    function Positive(lib: Lib, field: string, default: nat): (r: nat)
      requires default > 0
      ensures r > 0
    {
      var n := Number(lib, field);
      if n.Some? && n.value >= 1 then n.value else default
    }

    function Priority(lib: Lib): (r: int)
      ensures IsInt64(r)
    {
      Number(lib, "priority").GetOr(1000)
    }

    function Condition(): Option<Json> {
      if "matchCondition" in data then Some(data["matchCondition"]) else None
    }
  }

  /** Only active and paused zones are served. */
  predicate Publishable(zone: Record) {
    var status := if zone.Text("status").Some? then zone.Text("status") else zone.status;
    status == Some("active") || status == Some("paused")
  }

  /** An unknown action must not start blocking traffic. */
  function ActionFrom(raw: string): (a: Action)
    ensures a != NoAction
  {
    if raw == "block" then ActBlock
    else if raw == "challenge" then ActChallenge
    else if raw == "allow" then ActAllow
    else ActLog
  }

  // ---------------------------------------------------------------- what the readers read

  /** Each reader of a row, in terms of the row's members. */
  lemma RecordReads(lib: Lib, r: Record)
    ensures forall field :: r.Text(field) == TextAt(r.data, field)
    ensures r.Disabled() <==> Off(r.data)
    ensures forall field, default: nat :: default > 0 ==> r.Positive(lib, field, default) == LimitAt(lib, r.data, field, default)
    ensures r.Priority(lib) == PriorityAt(lib, r.data)
    ensures r.Condition() == ConditionAt(r.data)
    ensures r.Number(lib, "configVersion").GetOr(0) == VersionAt(lib, r.data)
    ensures Publishable(r) <==> InService(r.data, r.status)
  {
  }

  lemma ActionReads(name: string)
    ensures ActionFrom(name) == ActionNamed(name)
  {
  }

  function CompiledRuleOf(lib: Lib, rule: Record): Option<CompiledRule> {
    if rule.Disabled() then None
    else
      match ParsedCondition(lib, rule.Condition())
      case None => None
      case Some(e) =>
        var ruleType := rule.Text("ruleType").GetOr("waf");
        var rateLimit :=
          if ruleType == "rateLimit"
          then Some(RateLimit(ToUint32(rule.Positive(lib, "rateLimitThreshold", 100)),
                              ToUint32(rule.Positive(lib, "rateLimitWindow", 60))))
          else None;
        Some(CompiledRule(rule.id, rule.Text("name").GetOr("unnamed"), ruleType,
                          ActionFrom(rule.Text("action").GetOr("")), rule.Priority(lib), e, rateLimit))
  }

  function CompiledEntryOf(entry: Record): Option<CompiledRule> {
    if entry.Disabled() || entry.Text("type").None? || entry.Text("value").None? then None
    else
      var listType, value := entry.Text("type").value, entry.Text("value").value;
      Some(CompiledRule(entry.id, listType + " " + value, "ipAccessList",
                        if listType == "whitelist" then ActAllow else ActBlock, 0,
                        Test(Predicate(SourceIpCidr, Eq, Some(value), [], None)), None))
  }

  function CompiledDdosOf(lib: Lib, policy: Record): Option<CompiledDdos> {
    if policy.Disabled() then None
    else
      var pathPrefix, httpMethod := policy.Text("pathPrefix"), policy.Text("httpMethod");
      Some(CompiledDdos(policy.id, policy.Text("sensitivity").GetOr("medium"),
                        ActionFrom(policy.Text("action").GetOr("")),
                        ToUint32(policy.Positive(lib, "requestRateThreshold", 500)),
                        ToUint32(policy.Positive(lib, "burstWindow", 60)),
                        if pathPrefix == Some("") then None else pathPrefix,
                        if httpMethod == Some("") then None else httpMethod,
                        policy.Priority(lib)))
  }

  function RuleCompiler(lib: Lib): Record -> Option<CompiledRule> {
    rule => CompiledRuleOf(lib, rule)
  }

  /** The entries of one kind: the whitelist, or everything else. */
  function EntryCompiler(allow: bool): Record -> Option<CompiledRule> {
    entry =>
      var c := CompiledEntryOf(entry);
      if c.Some? && (c.value.action == ActAllow) == allow then c else None
  }

  function DdosCompiler(lib: Lib): Record -> Option<CompiledDdos> {
    policy => CompiledDdosOf(lib, policy)
  }

  function RulePriority(): CompiledRule -> int {
    (r: CompiledRule) => r.priority
  }

  function DdosPriority(): CompiledDdos -> int {
    (d: CompiledDdos) => d.priority
  }

  /** The access lists, allowed entries first; then the rules by priority. */
  function RulesOf(lib: Lib, rules: seq<Record>, entries: seq<Record>): seq<CompiledRule> {
    FilterMap(entries, EntryCompiler(true)) + FilterMap(entries, EntryCompiler(false))
    + SortBy(FilterMap(rules, RuleCompiler(lib)), RulePriority())
  }

  function PoliciesOf(lib: Lib, policies: seq<Record>): seq<CompiledDdos> {
    SortBy(FilterMap(policies, DdosCompiler(lib)), DdosPriority())
  }

  /** What `CompileZone` returns; None for a zone without a hostname. */
  function ZoneOf(lib: Lib, zone: Record, tenantId: string, policies: seq<Record>, rules: seq<Record>, entries: seq<Record>,
                  compiledAt: string): Option<CompiledZone>
  {
    match zone.Text("hostname")
    case None => None
    case Some(hostname) =>
      Some(CompiledZone(
        SCHEMA_VERSION, zone.id, tenantId, hostname,
        zone.Text("originAddress").GetOr(""),
        if zone.Text("status").Some? then zone.Text("status").value else zone.status.GetOr("pending"),
        zone.Text("protectionMode").GetOr("monitor"),
        zone.Number(lib, "configVersion").GetOr(0),
        PoliciesOf(lib, policies), RulesOf(lib, rules, entries), compiledAt))
  }

  // ---------------------------------------------------------------- the loops

  method CompileDdosPolicies(lib: Lib, policies: seq<Record>) returns (compiled: seq<CompiledDdos>)
    ensures compiled == PoliciesOf(lib, policies)
  {
    compiled := [];
    for i := 0 to |policies|
      invariant compiled + FilterMap(policies[i..], DdosCompiler(lib)) == FilterMap(policies, DdosCompiler(lib))
    {
      assert policies[i..][1..] == policies[i + 1..];
      var c := CompiledDdosOf(lib, policies[i]);
      if c.Some? {
        compiled := compiled + [c.value];
      }
    }
    assert compiled == FilterMap(policies, DdosCompiler(lib));
    compiled := SortBy(compiled, DdosPriority());
  }

  lemma FilterMapStep<T, U>(s: seq<T>, i: nat, f: T -> Option<U>)
    requires i < |s|
    ensures FilterMap(s[i..], f) == (if f(s[i]).Some? then [f(s[i]).value] else []) + FilterMap(s[i + 1..], f)
  {
    assert s[i..][1..] == s[i + 1..];
  }

  /** The stable partition of the access lists. */
  method PartitionEntries(entries: seq<Record>) returns (accessRules: seq<CompiledRule>)
    ensures accessRules == FilterMap(entries, EntryCompiler(true)) + FilterMap(entries, EntryCompiler(false))
  {
    accessRules := [];
    var blocked: seq<CompiledRule> := [];
    for i := 0 to |entries|
      invariant accessRules + FilterMap(entries[i..], EntryCompiler(true)) == FilterMap(entries, EntryCompiler(true))
      invariant blocked + FilterMap(entries[i..], EntryCompiler(false)) == FilterMap(entries, EntryCompiler(false))
    {
      FilterMapStep(entries, i, EntryCompiler(true));
      FilterMapStep(entries, i, EntryCompiler(false));
      var c := CompiledEntryOf(entries[i]);
      if c.None? {
        continue;
      }
      if c.value.action == ActAllow {
        accessRules := accessRules + [c.value];
      } else {
        blocked := blocked + [c.value];
      }
    }
    accessRules := accessRules + blocked;
  }

  /** Also returns the number of rules and entries that were not compiled, which is logged. */
  method CompileZone(lib: Lib, zone: Record, tenantId: string, policies: seq<Record>, rules: seq<Record>, entries: seq<Record>,
                     now: string) returns (r: Option<CompiledZone>, dropped: nat)
    ensures r == ZoneOf(lib, zone, tenantId, policies, rules, entries, now)
    ensures r.Some? ==> dropped == CountRejected(rules, RuleCompiler(lib)) + CountRejected(entries, EntriesCompiler())
  {
    var hostname := zone.Text("hostname");
    if hostname.None? {
      return None, 0;
    }
    var accessRules := PartitionEntries(entries);
    var regularRules: seq<CompiledRule> := [];
    for i := 0 to |rules|
      invariant regularRules + FilterMap(rules[i..], RuleCompiler(lib)) == FilterMap(rules, RuleCompiler(lib))
    {
      assert rules[i..][1..] == rules[i + 1..];
      var c := CompiledRuleOf(lib, rules[i]);
      if c.Some? {
        regularRules := regularRules + [c.value];
      }
    }
    assert regularRules == FilterMap(rules, RuleCompiler(lib));
    RejectedAreTheRest(rules, RuleCompiler(lib));
    RejectedAreTheRest(entries, EntriesCompiler());
    PartitionIsWhole(entries);
    dropped := (|rules| - |regularRules|) + (|entries| - |accessRules|);
    regularRules := SortBy(regularRules, RulePriority());

    var status := zone.Text("status");
    if status.None? {
      status := Some(zone.status.GetOr("pending"));
    }
    var ddos := CompileDdosPolicies(lib, policies);
    r := Some(CompiledZone(
      SCHEMA_VERSION, zone.id, tenantId, hostname.value,
      zone.Text("originAddress").GetOr(""), status.value, zone.Text("protectionMode").GetOr("monitor"),
      zone.Number(lib, "configVersion").GetOr(0), ddos, accessRules + regularRules, now));
  }

  function EntriesCompiler(): Record -> Option<CompiledRule> {
    entry => CompiledEntryOf(entry)
  }

  /** Every compilable entry goes to exactly one side of the partition. */
  lemma {:induction false} PartitionIsWhole(entries: seq<Record>)
    ensures multiset(FilterMap(entries, EntryCompiler(true))) + multiset(FilterMap(entries, EntryCompiler(false)))
      == multiset(FilterMap(entries, EntriesCompiler()))
    ensures |FilterMap(entries, EntryCompiler(true))| + |FilterMap(entries, EntryCompiler(false))|
      == |FilterMap(entries, EntriesCompiler())|
  {
    if entries != [] {
      PartitionIsWhole(entries[1..]);
    }
  }

  /** Every compilable rule and entry appears in the zone exactly once, every compilable policy too. */
  lemma EveryRecordOnce(lib: Lib, policies: seq<Record>, rules: seq<Record>, entries: seq<Record>)
    ensures multiset(RulesOf(lib, rules, entries))
      == multiset(FilterMap(entries, EntriesCompiler())) + multiset(FilterMap(rules, RuleCompiler(lib)))
    ensures multiset(PoliciesOf(lib, policies)) == multiset(FilterMap(policies, DdosCompiler(lib)))
  {
    PartitionIsWhole(entries);
    SortByIsSorted(FilterMap(rules, RuleCompiler(lib)), RulePriority());
    SortByIsSorted(FilterMap(policies, DdosCompiler(lib)), DdosPriority());
  }

  /** Some of the rows compile. */
  ghost predicate AnyCompiles(lib: Lib, rules: seq<Record>, entries: seq<Record>) {
    || (exists r :: r in rules && CompiledRuleOf(lib, r).Some?)
    || (exists e :: e in entries && CompiledEntryOf(e).Some?)
  }

  lemma RulesInAll(lib: Lib, rules: seq<Record>, entries: seq<Record>)
    ensures |RulesOf(lib, rules, entries)| == |FilterMap(entries, EntriesCompiler())| + |FilterMap(rules, RuleCompiler(lib))|
  {
    EveryRecordOnce(lib, [], rules, entries);
    assert |multiset(RulesOf(lib, rules, entries))| == |RulesOf(lib, rules, entries)|;
  }

  lemma NoneOfEitherKind(entries: seq<Record>, allow: bool)
    requires forall e :: e in entries ==> CompiledEntryOf(e).None?
    ensures FilterMap(entries, EntryCompiler(allow)) == []
  {
    FilterMapEmpty(entries, EntryCompiler(allow));
    assert forall e :: e in entries ==> EntryCompiler(allow)(e).None?;
  }

  lemma NoneCompiles(lib: Lib, rules: seq<Record>, entries: seq<Record>)
    ensures AnyCompiles(lib, rules, entries)
      <==> FilterMap(rules, RuleCompiler(lib)) != [] || FilterMap(entries, EntriesCompiler()) != []
  {
    FilterMapEmpty(rules, RuleCompiler(lib));
    FilterMapEmpty(entries, EntriesCompiler());
    assert forall r :: RuleCompiler(lib)(r) == CompiledRuleOf(lib, r);
    assert forall e :: EntriesCompiler()(e) == CompiledEntryOf(e);
  }

  /** Further rules and entries leave the compiled list as it was if and only if none of them compiles. */
  lemma MoreRowsUnseen(lib: Lib, rules: seq<Record>, entries: seq<Record>, moreRules: seq<Record>, moreEntries: seq<Record>)
    ensures RulesOf(lib, rules + moreRules, entries + moreEntries) == RulesOf(lib, rules, entries)
      <==> !AnyCompiles(lib, moreRules, moreEntries)
  {
    NoneCompiles(lib, moreRules, moreEntries);
    FilterMapParts(rules, moreRules, RuleCompiler(lib));
    if AnyCompiles(lib, moreRules, moreEntries) {
      FilterMapParts(entries, moreEntries, EntriesCompiler());
      RulesInAll(lib, rules, entries);
      RulesInAll(lib, rules + moreRules, entries + moreEntries);
    } else {
      FilterMapParts(entries, moreEntries, EntryCompiler(true));
      FilterMapParts(entries, moreEntries, EntryCompiler(false));
      NoneOfEitherKind(moreEntries, true);
      NoneOfEitherKind(moreEntries, false);
      assert FilterMap(rules + moreRules, RuleCompiler(lib)) == FilterMap(rules, RuleCompiler(lib));
      assert FilterMap(entries + moreEntries, EntryCompiler(true)) == FilterMap(entries, EntryCompiler(true));
      assert FilterMap(entries + moreEntries, EntryCompiler(false)) == FilterMap(entries, EntryCompiler(false));
    }
  }

  // ---------------------------------------------------------------- rows and what becomes of them

  /** A rule is dropped only when it is switched off or its condition cannot be represented; its fields are the row's. */
  lemma RuleCompilesExactly(lib: Lib, r: Record)
    ensures CompiledRuleOf(lib, r).Some? <==> !Off(r.data) && ParsedCondition(lib, ConditionAt(r.data)).Some?
    ensures CompiledRuleOf(lib, r).Some? ==>
      var c := CompiledRuleOf(lib, r).value;
      && c.id == r.id && c.name == TextAt(r.data, "name").GetOr("unnamed")
      && c.ruleType == TextAt(r.data, "ruleType").GetOr("waf")
      && c.action == ActionNamed(TextAt(r.data, "action").GetOr(""))
      && c.priority == PriorityAt(lib, r.data)
      && Some(c.matchExpr) == ParsedCondition(lib, ConditionAt(r.data))
      && c.rateLimit == (if TextAt(r.data, "ruleType") == Some("rateLimit")
                         then Some(RateLimit(ToUint32(LimitAt(lib, r.data, "rateLimitThreshold", 100)),
                                             ToUint32(LimitAt(lib, r.data, "rateLimitWindow", 60))))
                         else None)
  {
    RecordReads(lib, r);
    ActionReads(TextAt(r.data, "action").GetOr(""));
  }

  /** A policy is dropped only when it is switched off. */
  lemma DdosCompilesExactly(lib: Lib, p: Record)
    ensures CompiledDdosOf(lib, p).Some? <==> !Off(p.data)
    ensures CompiledDdosOf(lib, p).Some? ==>
      var c := CompiledDdosOf(lib, p).value;
      && c.id == p.id && c.sensitivity == TextAt(p.data, "sensitivity").GetOr("medium")
      && c.action == ActionNamed(TextAt(p.data, "action").GetOr(""))
      && c.priority == PriorityAt(lib, p.data)
      && c.requestRateThreshold == ToUint32(LimitAt(lib, p.data, "requestRateThreshold", 500))
      && c.burstWindowSeconds == ToUint32(LimitAt(lib, p.data, "burstWindow", 60))
      && c.pathPrefix.GetOr("") == TextAt(p.data, "pathPrefix").GetOr("") && c.pathPrefix != Some("")
      && c.httpMethod.GetOr("") == TextAt(p.data, "httpMethod").GetOr("") && c.httpMethod != Some("")
  {
    RecordReads(lib, p);
    ActionReads(TextAt(p.data, "action").GetOr(""));
  }

  /** An entry is dropped only when it is switched off or has no type or value; it allows or blocks its network. */
  lemma EntryCompilesExactly(lib: Lib, e: Record)
    ensures CompiledEntryOf(e).Some? <==> !Off(e.data) && TextAt(e.data, "type").Some? && TextAt(e.data, "value").Some?
    ensures CompiledEntryOf(e).Some? ==>
      var c := CompiledEntryOf(e).value;
      && c.id == e.id && c.ruleType == "ipAccessList" && c.priority == 0 && c.rateLimit.None?
      && c.action == (if TextAt(e.data, "type") == Some("whitelist") then ActAllow else ActBlock)
      && c.matchExpr == Test(Predicate(SourceIpCidr, Eq, TextAt(e.data, "value"), [], None))
  {
    RecordReads(lib, e);
  }

  /** A zone compiles exactly when it has a hostname; its own fields are the row's, its status the one it is served under. */
  lemma ZoneCompilesExactly(lib: Lib, zone: Record, tenantId: string, policies: seq<Record>, rules: seq<Record>, entries: seq<Record>, at: string)
    ensures var c := ZoneOf(lib, zone, tenantId, policies, rules, entries, at);
      && (c.Some? <==> TextAt(zone.data, "hostname").Some?)
      && (c.Some? ==>
            && c.value.schemaVersion == 3 && c.value.zoneId == zone.id && c.value.tenantId == tenantId
            && c.value.hostname == TextAt(zone.data, "hostname").value
            && c.value.originAddress == TextAt(zone.data, "originAddress").GetOr("")
            && c.value.status == StatusAt(zone.data, zone.status)
            && c.value.protectionMode == TextAt(zone.data, "protectionMode").GetOr("monitor")
            && c.value.configVersion == VersionAt(lib, zone.data)
            && c.value.compiledAt == at
            && (c.value.status in {"active", "paused"} <==> Publishable(zone)))
  {
    RecordReads(lib, zone);
  }
}
