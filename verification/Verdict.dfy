/**
 What a zone's records say should happen to a request, without compiling anything: the access lists,
 then the firewall rules by (priority, position), then the DDoS policies. The compiled zone, evaluated at
 the edge, must give the same decision.
 */
module Verdict {
  import opened Wrappers
  import opened Json
  import opened Decimal
  import opened Library
  import opened Ruleset
  import opened Matching
  import opened Limiter
  import opened Keys
  import opened Stages
  import opened Decide
  import opened Compile
  import opened Parse
  import opened Meaning
  import opened Lists
  import opened Rows
  import opened Wire
  import Text

  /** Whether thresholds and windows are the authored numbers, or what 32 bits keep of them. */
  datatype Budgets = AsWritten | AsCompiled

  /** One request on one table of budgets. */
  datatype Moment = Moment(lib: Lib, zoneId: string, req: Request, table: Table, now: int, budgets: Budgets) {
    function Kept(n: nat): nat {
      if budgets.AsWritten? then n else ToUint32(n)
    }

    predicate EntryFires(entry: Record, allow: bool) {
      && !Off(entry.data)
      && TextAt(entry.data, "type").Some? && TextAt(entry.data, "value").Some?
      && (TextAt(entry.data, "type").value == "whitelist") == allow
      && InNetwork(lib, req.clientIp, TextAt(entry.data, "value").value)
    }

    /** An enabled, representable rule whose condition holds and whose budget, if it is limited, is exceeded. */
    predicate RuleFires(rule: Record) {
      && !Off(rule.data)
      && ParsedCondition(lib, ConditionAt(rule.data)).Some?
      && ConditionHolds(lib, req, ConditionAt(rule.data))
      && (TextAt(rule.data, "ruleType") == Some("rateLimit") ==>
            Over(table, RuleKey(zoneId, rule.id, req.clientIpText), Kept(LimitAt(lib, rule.data, "rateLimitThreshold", 100)),
                 Kept(LimitAt(lib, rule.data, "rateLimitWindow", 60)) * SECOND, now))
    }

    predicate PolicyFires(policy: Record) {
      && !Off(policy.data)
      && Text.HasPrefix(req.path, TextAt(policy.data, "pathPrefix").GetOr(""))
      && TextAt(policy.data, "httpMethod").GetOr("") in {"", "any", req.httpMethod}
      && Over(table, DdosKey(zoneId, policy.id, req.clientIpText), Kept(LimitAt(lib, policy.data, "requestRateThreshold", 500)),
              Kept(LimitAt(lib, policy.data, "burstWindow", 60)) * SECOND, now)
    }
  }

  function EntryDecision(entry: Record, action: Action): Decision {
    Decision(action, "firewallRule", entry.id, TextAt(entry.data, "type").GetOr("") + " " + TextAt(entry.data, "value").GetOr(""))
  }

  function RuleDecision(rule: Record): Decision {
    Decision(ActionNamed(TextAt(rule.data, "action").GetOr("")), "firewallRule", rule.id, TextAt(rule.data, "name").GetOr("unnamed"))
  }

  function PolicyDecision(policy: Record): Decision {
    Decision(ActionNamed(TextAt(policy.data, "action").GetOr("")), "ddosPolicy", policy.id,
             "DDoS policy (" + TextAt(policy.data, "sensitivity").GetOr("medium") + ")")
  }

  /** The least record, by (priority, position), that satisfies `p`. */
  ghost predicate FiresFirst(records: seq<Record>, p: Record -> bool, rank: Record -> int, i: nat) {
    LeastAt(records, p, rank, i)
  }

  ghost predicate NoneFires(records: seq<Record>, p: Record -> bool) {
    forall i :: 0 <= i < |records| ==> !p(records[i])
  }

  function WhitelistFires(m: Moment): Record -> bool { e => m.EntryFires(e, true) }
  function BlacklistFires(m: Moment): Record -> bool { e => m.EntryFires(e, false) }
  function RuleFiresIn(m: Moment): Record -> bool { r => m.RuleFires(r) }
  function PolicyFiresIn(m: Moment): Record -> bool { p => m.PolicyFires(p) }
  function ByPriority(lib: Lib): Record -> int { (r: Record) => PriorityAt(lib, r.data) }
  function ByPosition(): Record -> int { r => 0 }

  /**
   The verdict: the first matching whitelist entry, else the first other matching entry, else the firing
   rule least by (priority, position), else the firing policy least by (priority, position), else none.
   */
  ghost predicate Prescribed(m: Moment, policies: seq<Record>, rules: seq<Record>, entries: seq<Record>, d: Option<Decision>) {
    if !NoneFires(entries, WhitelistFires(m)) then
      exists i: nat :: FiresFirst(entries, WhitelistFires(m), ByPosition(), i) && d == Some(EntryDecision(entries[i], ActAllow))
    else if !NoneFires(entries, BlacklistFires(m)) then
      exists i: nat :: FiresFirst(entries, BlacklistFires(m), ByPosition(), i) && d == Some(EntryDecision(entries[i], ActBlock))
    else if !NoneFires(rules, RuleFiresIn(m)) then
      exists i: nat :: FiresFirst(rules, RuleFiresIn(m), ByPriority(m.lib), i) && d == Some(RuleDecision(rules[i]))
    else if !NoneFires(policies, PolicyFiresIn(m)) then
      exists i: nat :: FiresFirst(policies, PolicyFiresIn(m), ByPriority(m.lib), i) && d == Some(PolicyDecision(policies[i]))
    else d.None?
  }

  // ---------------------------------------------------------------- budgets survive the truncation

  predicate RuleFits(lib: Lib, r: Record) {
    TextAt(r.data, "ruleType") == Some("rateLimit") ==>
      LimitAt(lib, r.data, "rateLimitThreshold", 100) < UINT32_LIMIT && LimitAt(lib, r.data, "rateLimitWindow", 60) < UINT32_LIMIT
  }

  predicate PolicyFits(lib: Lib, p: Record) {
    LimitAt(lib, p.data, "requestRateThreshold", 500) < UINT32_LIMIT && LimitAt(lib, p.data, "burstWindow", 60) < UINT32_LIMIT
  }

  /** A limited rule keeps its budget if and only if both numbers are below 2^32. */
  lemma RuleBudgetKeptExactly(lib: Lib, r: Record)
    requires CompiledRuleOf(lib, r).Some? && TextAt(r.data, "ruleType") == Some("rateLimit")
    ensures CompiledRuleOf(lib, r).value.rateLimit
        == Some(RateLimit(LimitAt(lib, r.data, "rateLimitThreshold", 100), LimitAt(lib, r.data, "rateLimitWindow", 60)))
      <==> RuleFits(lib, r)
  {
    TruncationKeeps(LimitAt(lib, r.data, "rateLimitThreshold", 100));
    TruncationKeeps(LimitAt(lib, r.data, "rateLimitWindow", 60));
  }

  /** So does a policy. */
  lemma PolicyBudgetKeptExactly(lib: Lib, p: Record)
    requires CompiledDdosOf(lib, p).Some?
    ensures var d := CompiledDdosOf(lib, p).value;
      (d.requestRateThreshold == LimitAt(lib, p.data, "requestRateThreshold", 500) && d.burstWindowSeconds == LimitAt(lib, p.data, "burstWindow", 60))
      <==> PolicyFits(lib, p)
  {
    TruncationKeeps(LimitAt(lib, p.data, "requestRateThreshold", 500));
    TruncationKeeps(LimitAt(lib, p.data, "burstWindow", 60));
  }

  lemma TruncationKeeps(n: nat)
    ensures ToUint32(n) == n <==> n < UINT32_LIMIT
    ensures ToUint32(UINT32_LIMIT) == 0
  {
  }

  /** Fails open: with a window of 2^32 seconds every hit opens a new window, and no threshold but 0 is ever exceeded. */
  lemma TruncatedWindowNeverFires(m: Moment, r: Record)
    requires m.budgets.AsCompiled? && TextAt(r.data, "ruleType") == Some("rateLimit")
    requires LimitAt(m.lib, r.data, "rateLimitWindow", 60) == UINT32_LIMIT
    requires m.Kept(LimitAt(m.lib, r.data, "rateLimitThreshold", 100)) >= 1
    requires var key := RuleKey(m.zoneId, r.id, m.req.clientIpText); key in m.table ==> m.table[key].windowStart <= m.now
    ensures !m.RuleFires(r)
  {
    TruncationKeeps(UINT32_LIMIT);
  }

  /** Fails closed: with a threshold of 2^32 every hit is over budget, but for the one that wraps the counter to 0. */
  lemma TruncatedThresholdAlwaysFires(m: Moment, r: Record)
    requires m.budgets.AsCompiled? && TextAt(r.data, "ruleType") == Some("rateLimit") && !Off(r.data)
    requires ParsedCondition(m.lib, ConditionAt(r.data)).Some? && ConditionHolds(m.lib, m.req, ConditionAt(r.data))
    requires LimitAt(m.lib, r.data, "rateLimitThreshold", 100) == UINT32_LIMIT
    ensures m.RuleFires(r)
      <==> Hit(m.table, RuleKey(m.zoneId, r.id, m.req.clientIpText), m.Kept(LimitAt(m.lib, r.data, "rateLimitWindow", 60)) * SECOND, m.now).hits != 0
  {
    TruncationKeeps(UINT32_LIMIT);
  }

  // ---------------------------------------------------------------- stages and records

  function FiringRule(m: Moment): CompiledRule -> bool {
    (r: CompiledRule) => Stage(EvalMatch(m.lib, m.req, r.matchExpr), r.rateLimit, RuleKey(m.zoneId, r.id, m.req.clientIpText)).Fires(m.table, m.now)
  }

  function FiringDdos(m: Moment): CompiledDdos -> bool {
    (d: CompiledDdos) => Stage(DdosScopeMatches(d, m.req), Some(RateLimit(d.requestRateThreshold, d.burstWindowSeconds)),
               DdosKey(m.zoneId, d.id, m.req.clientIpText)).Fires(m.table, m.now)
  }

  lemma EntryRecordFires(m: Moment, allow: bool, e: Record)
    ensures m.EntryFires(e, allow) <==> EntryCompiler(allow)(e).Some? && FiringRule(m)(EntryCompiler(allow)(e).value)
  {
  }

  lemma RuleRecordFires(m: Moment, r: Record)
    requires m.budgets.AsCompiled?
    ensures m.RuleFires(r) <==> CompiledRuleOf(m.lib, r).Some? && FiringRule(m)(CompiledRuleOf(m.lib, r).value)
  {
    RuleCompilesExactly(m.lib, r);
    if ParsedCondition(m.lib, ConditionAt(r.data)).Some? {
      ConditionMeaning(m.lib, m.req, ConditionAt(r.data));
    }
  }

  lemma PolicyScope(m: Moment, p: Record)
    requires CompiledDdosOf(m.lib, p).Some?
    ensures DdosScopeMatches(CompiledDdosOf(m.lib, p).value, m.req)
      <==> Text.HasPrefix(m.req.path, TextAt(p.data, "pathPrefix").GetOr("")) && TextAt(p.data, "httpMethod").GetOr("") in {"", "any", m.req.httpMethod}
  {
    assert m.req.path[..0] == "";
  }

  lemma PolicyRecordFires(m: Moment, p: Record)
    requires m.budgets.AsCompiled?
    ensures m.PolicyFires(p) <==> CompiledDdosOf(m.lib, p).Some? && FiringDdos(m)(CompiledDdosOf(m.lib, p).value)
  {
    DdosCompilesExactly(m.lib, p);
    if !Off(p.data) {
      PolicyScope(m, p);
    }
  }

  lemma {:induction false} FirstIsLeastByPosition(s: seq<Record>, p: Record -> bool)
    ensures First(s, p) == Least(s, p, ByPosition())
  {
    if s != [] {
      FirstIsLeastByPosition(s[1..], p);
    }
  }

  lemma EntriesFound(m: Moment, entries: seq<Record>, allow: bool)
    ensures var p := if allow then WhitelistFires(m) else BlacklistFires(m);
      First(FilterMap(entries, EntryCompiler(allow)), FiringRule(m))
        == var e := Least(entries, p, ByPosition()); if e.Some? then EntryCompiler(allow)(e.value) else None
  {
    var p := if allow then WhitelistFires(m) else BlacklistFires(m);
    forall e ensures p(e) <==> EntryCompiler(allow)(e).Some? && FiringRule(m)(EntryCompiler(allow)(e).value) {
      EntryRecordFires(m, allow, e);
    }
    FirstOfMapped(entries, EntryCompiler(allow), FiringRule(m), p);
    FirstIsLeastByPosition(entries, p);
  }

  lemma RulesFound(m: Moment, rules: seq<Record>)
    requires m.budgets.AsCompiled?
    ensures First(SortBy(FilterMap(rules, RuleCompiler(m.lib)), RulePriority()), FiringRule(m))
      == var r := Least(rules, RuleFiresIn(m), ByPriority(m.lib)); if r.Some? then CompiledRuleOf(m.lib, r.value) else None
  {
    var f := RuleCompiler(m.lib);
    FirstOfSorted(FilterMap(rules, f), FiringRule(m), RulePriority());
    forall r ensures RuleFiresIn(m)(r) <==> f(r).Some? && FiringRule(m)(f(r).value) {
      RuleRecordFires(m, r);
    }
    RulePriorities(m.lib);
    LeastOfMapped(rules, f, FiringRule(m), RuleFiresIn(m), RulePriority(), ByPriority(m.lib));
  }

  lemma RulePriorities(lib: Lib)
    ensures forall r :: RuleCompiler(lib)(r).Some? ==> RulePriority()(RuleCompiler(lib)(r).value) == ByPriority(lib)(r)
  {
  }

  lemma PoliciesFound(m: Moment, policies: seq<Record>)
    requires m.budgets.AsCompiled?
    ensures First(PoliciesOf(m.lib, policies), FiringDdos(m))
      == var p := Least(policies, PolicyFiresIn(m), ByPriority(m.lib)); if p.Some? then CompiledDdosOf(m.lib, p.value) else None
  {
    var f := DdosCompiler(m.lib);
    FirstOfSorted(FilterMap(policies, f), FiringDdos(m), DdosPriority());
    forall p ensures PolicyFiresIn(m)(p) <==> f(p).Some? && FiringDdos(m)(f(p).value) {
      PolicyRecordFires(m, p);
    }
    DdosPriorities(m.lib);
    LeastOfMapped(policies, f, FiringDdos(m), PolicyFiresIn(m), DdosPriority(), ByPriority(m.lib));
  }

  lemma DdosPriorities(lib: Lib)
    ensures forall p :: DdosCompiler(lib)(p).Some? ==> DdosPriority()(DdosCompiler(lib)(p).value) == ByPriority(lib)(p)
  {
  }

  // ---------------------------------------------------------------- the first firing stage

  function RuleVerdict(r: CompiledRule): Decision {
    Decision(r.action, "firewallRule", r.id, r.name)
  }

  function DdosVerdict(d: CompiledDdos): Decision {
    Decision(d.action, "ddosPolicy", d.id, "DDoS policy (" + d.sensitivity + ")")
  }

  /** The decision read off the compiled lists: the first firing rule, else the first firing policy. */
  function FirstVerdict(m: Moment, zone: CompiledZone): Option<Decision> {
    var rule, ddos := First(zone.rules, FiringRule(m)), First(zone.ddos, FiringDdos(m));
    if rule.Some? then Some(RuleVerdict(rule.value))
    else if ddos.Some? then Some(DdosVerdict(ddos.value))
    else None
  }

  lemma {:induction false} FirstAt<T>(s: seq<T>, q: T -> bool, i: nat)
    requires i <= |s| && forall j :: 0 <= j < i ==> !q(s[j])
    ensures i < |s| && q(s[i]) ==> First(s, q) == Some(s[i])
    ensures i == |s| ==> First(s, q) == None
  {
    if i > 0 {
      assert forall j :: 0 <= j < i - 1 ==> s[1..][j] == s[j + 1];
      FirstAt(s[1..], q, i - 1);
    }
  }

  lemma StagesFire(m: Moment, zone: CompiledZone)
    requires m.zoneId == zone.zoneId
    ensures var stages, n := StagesOf(m.lib, zone, m.req), |zone.rules|;
      && |stages| == n + |zone.ddos|
      && (forall i :: 0 <= i < n ==> stages[i].Fires(m.table, m.now) == FiringRule(m)(zone.rules[i]))
      && (forall j :: n <= j < |stages| ==> stages[j].Fires(m.table, m.now) == FiringDdos(m)(zone.ddos[j - n]))
  {
    var stages, n := StagesOf(m.lib, zone, m.req), |zone.rules|;
    forall j | n <= j < |stages| ensures stages[j].Fires(m.table, m.now) == FiringDdos(m)(zone.ddos[j - n]) {
      assert stages[n + (j - n)] == DdosStage(zone, m.req, zone.ddos[j - n]);
    }
  }

  lemma RuleStageVerdict(m: Moment, zone: CompiledZone, d: nat)
    requires d < |zone.rules| && FiringRule(m)(zone.rules[d]) && forall i :: 0 <= i < d ==> !FiringRule(m)(zone.rules[i])
    ensures DecisionOf(zone, d) == FirstVerdict(m, zone)
  {
    FirstAt(zone.rules, FiringRule(m), d);
  }

  lemma DdosStageVerdict(m: Moment, zone: CompiledZone, d: nat)
    requires |zone.rules| <= d <= |zone.rules| + |zone.ddos| && forall i :: 0 <= i < |zone.rules| ==> !FiringRule(m)(zone.rules[i])
    requires forall j :: 0 <= j < d - |zone.rules| ==> !FiringDdos(m)(zone.ddos[j])
    requires d < |zone.rules| + |zone.ddos| ==> FiringDdos(m)(zone.ddos[d - |zone.rules|])
    ensures DecisionOf(zone, d) == FirstVerdict(m, zone)
  {
    FirstAt(zone.rules, FiringRule(m), |zone.rules|);
    FirstAt(zone.ddos, FiringDdos(m), d - |zone.rules|);
  }

  lemma StageVerdict(m: Moment, zone: CompiledZone, d: nat)
    requires m.zoneId == zone.zoneId
    requires var stages := StagesOf(m.lib, zone, m.req);
      && d <= |stages|
      && (forall i :: 0 <= i < d ==> !stages[i].Fires(m.table, m.now))
      && (d < |stages| ==> stages[d].Fires(m.table, m.now))
    ensures DecisionOf(zone, d) == FirstVerdict(m, zone)
  {
    var stages, n := StagesOf(m.lib, zone, m.req), |zone.rules|;
    StagesFire(m, zone);
    if d < n {
      RuleStageVerdict(m, zone, d);
    } else {
      forall j | 0 <= j < d - n ensures !FiringDdos(m)(zone.ddos[j]) {
        assert !stages[n + j].Fires(m.table, m.now);
      }
      DdosStageVerdict(m, zone, d);
    }
  }

  // ---------------------------------------------------------------- distinct records

  function RecordId(): Record -> string { (r: Record) => r.id }
  function RuleId(): CompiledRule -> string { (r: CompiledRule) => r.id }
  function DdosId(): CompiledDdos -> string { (d: CompiledDdos) => d.id }
  function Differ(): (string, string) -> bool { (a, b) => a != b }
  function ScopesDiffer(zoneId: string): (string, string) -> bool { (a, b) => !Overlap(Scope(zoneId, a), Scope(zoneId, b)) }

  predicate DistinctRecords(policies: seq<Record>, rules: seq<Record>) {
    ApartBy(rules, RecordId(), Differ()) && ApartBy(policies, RecordId(), Differ())
  }

  lemma {:induction false} EntriesHaveNoBudget(entries: seq<Record>, allow: bool)
    ensures forall r :: r in FilterMap(entries, EntryCompiler(allow)) ==> r.rateLimit.None?
  {
    if entries != [] {
      EntriesHaveNoBudget(entries[1..], allow);
    }
  }

  /** Compiling keeps the identifiers of different budgets apart, in whatever sense the records' are. */
  lemma CompiledIdsApart(lib: Lib, zone: Record, tenantId: string, policies: seq<Record>, rules: seq<Record>, entries: seq<Record>, at: string,
                         apart: (string, string) -> bool)
    requires Symmetric(apart) && ApartBy(rules, RecordId(), apart) && ApartBy(policies, RecordId(), apart)
    requires ZoneOf(lib, zone, tenantId, policies, rules, entries, at).Some?
    ensures var z := ZoneOf(lib, zone, tenantId, policies, rules, entries, at).value;
      forall i: nat, j: nat :: Rivals(z, i, j) ==> apart(IdOf(z, i), IdOf(z, j))
  {
    var z := ZoneOf(lib, zone, tenantId, policies, rules, entries, at).value;
    var regular := FilterMap(rules, RuleCompiler(lib));
    MappedIds(rules, RuleCompiler(lib), RecordId(), RuleId(), apart);
    SortedIds(regular, RulePriority(), RuleId(), apart);
    MappedIds(policies, DdosCompiler(lib), RecordId(), DdosId(), apart);
    SortedIds(FilterMap(policies, DdosCompiler(lib)), DdosPriority(), DdosId(), apart);
    EntriesHaveNoBudget(entries, true);
    EntriesHaveNoBudget(entries, false);
    var access := FilterMap(entries, EntryCompiler(true)) + FilterMap(entries, EntryCompiler(false));
    RivalsApart(z, access, SortBy(regular, RulePriority()), apart);
  }

  lemma RivalsApart(z: CompiledZone, access: seq<CompiledRule>, regular: seq<CompiledRule>, apart: (string, string) -> bool)
    requires Symmetric(apart) && z.rules == access + regular
    requires forall i :: 0 <= i < |access| ==> access[i].rateLimit.None?
    requires ApartBy(regular, RuleId(), apart) && ApartBy(z.ddos, DdosId(), apart)
    ensures forall i: nat, j: nat :: Rivals(z, i, j) ==> apart(IdOf(z, i), IdOf(z, j))
  {
    var a, n := |access|, |z.rules|;
    forall i: nat, j: nat | Rivals(z, i, j) && i < j ensures apart(IdOf(z, i), IdOf(z, j)) {
      if i < n {
        assert i >= a && z.rules[i] == regular[i - a] && z.rules[j] == regular[j - a];
        assert apart(RuleId()(regular[i - a]), RuleId()(regular[j - a]));
      } else {
        assert apart(DdosId()(z.ddos[i - n]), DdosId()(z.ddos[j - n]));
      }
    }
    forall i: nat, j: nat | Rivals(z, i, j) ensures apart(IdOf(z, i), IdOf(z, j)) {
      if i > j {
        assert Rivals(z, j, i);
      }
    }
  }

  /** Records with different identifiers compile to budgets that no client confuses. */
  lemma CompiledIdsDistinct(lib: Lib, zone: Record, tenantId: string, policies: seq<Record>, rules: seq<Record>, entries: seq<Record>, at: string)
    requires DistinctRecords(policies, rules)
    requires ZoneOf(lib, zone, tenantId, policies, rules, entries, at).Some?
    ensures DistinctIds(ZoneOf(lib, zone, tenantId, policies, rules, entries, at).value)
  {
    CompiledIdsApart(lib, zone, tenantId, policies, rules, entries, at, Differ());
  }

  /** Records whose scopes do not begin each other compile to budgets that no two clients share. */
  lemma CompiledScopesSeparate(lib: Lib, zone: Record, tenantId: string, policies: seq<Record>, rules: seq<Record>, entries: seq<Record>, at: string)
    requires ApartBy(rules, RecordId(), ScopesDiffer(zone.id)) && ApartBy(policies, RecordId(), ScopesDiffer(zone.id))
    requires ZoneOf(lib, zone, tenantId, policies, rules, entries, at).Some?
    ensures SeparateScopes(ZoneOf(lib, zone, tenantId, policies, rules, entries, at).value)
  {
    CompiledIdsApart(lib, zone, tenantId, policies, rules, entries, at, ScopesDiffer(zone.id));
  }

  // ---------------------------------------------------------------- the theorem

  /**
   Compiling a zone's records and evaluating the result gives the verdict the records prescribe, for every
   request and every table of budgets, with what 32 bits keep of the thresholds and windows.
   */
  lemma {:induction false} CompiledDecision(m: Moment, zone: Record, tenantId: string, policies: seq<Record>, rules: seq<Record>, entries: seq<Record>, at: string)
    requires ZoneOf(m.lib, zone, tenantId, policies, rules, entries, at).Some?
    requires DistinctRecords(policies, rules) && m.zoneId == zone.id && m.budgets.AsCompiled?
    ensures var z := ZoneOf(m.lib, zone, tenantId, policies, rules, entries, at).value;
      Prescribed(m, policies, rules, entries, DecisionOf(z, DecideFrom(StagesOf(m.lib, z, m.req), m.table, m.now, 0).0))
  {
    var z := ZoneOf(m.lib, zone, tenantId, policies, rules, entries, at).value;
    CompiledIdsDistinct(m.lib, zone, tenantId, policies, rules, entries, at);
    StageKeysApart(m.lib, z, m.req);
    var stages := StagesOf(m.lib, z, m.req);
    FirstFiringStageDecides(stages, m.table, m.now, 0);
    StageVerdict(m, z, DecideFrom(stages, m.table, m.now, 0).0);
    FirstVerdictPrescribed(m, policies, rules, entries, z);
  }

  /** When every budget fits in 32 bits, that is the verdict of the authored numbers. */
  lemma {:induction false} AuthoredDecision(m: Moment, zone: Record, tenantId: string, policies: seq<Record>, rules: seq<Record>, entries: seq<Record>, at: string)
    requires ZoneOf(m.lib, zone, tenantId, policies, rules, entries, at).Some?
    requires DistinctRecords(policies, rules) && m.zoneId == zone.id && m.budgets.AsWritten?
    requires forall i :: 0 <= i < |rules| ==> RuleFits(m.lib, rules[i])
    requires forall i :: 0 <= i < |policies| ==> PolicyFits(m.lib, policies[i])
    ensures var z := ZoneOf(m.lib, zone, tenantId, policies, rules, entries, at).value;
      Prescribed(m, policies, rules, entries, DecisionOf(z, DecideFrom(StagesOf(m.lib, z, m.req), m.table, m.now, 0).0))
  {
    var c, z := m.(budgets := AsCompiled), ZoneOf(m.lib, zone, tenantId, policies, rules, entries, at).value;
    CompiledDecision(c, zone, tenantId, policies, rules, entries, at);
    SamePrescription(m, policies, rules, entries, DecisionOf(z, DecideFrom(StagesOf(m.lib, z, m.req), m.table, m.now, 0).0));
  }

  lemma SamePrescription(m: Moment, policies: seq<Record>, rules: seq<Record>, entries: seq<Record>, d: Option<Decision>)
    requires m.budgets.AsWritten?
    requires forall i :: 0 <= i < |rules| ==> RuleFits(m.lib, rules[i])
    requires forall i :: 0 <= i < |policies| ==> PolicyFits(m.lib, policies[i])
    requires Prescribed(m.(budgets := AsCompiled), policies, rules, entries, d)
    ensures Prescribed(m, policies, rules, entries, d)
  {
    var c := m.(budgets := AsCompiled);
    SameFirst(entries, WhitelistFires(m), WhitelistFires(c), ByPosition());
    SameFirst(entries, BlacklistFires(m), BlacklistFires(c), ByPosition());
    forall i | 0 <= i < |rules| ensures RuleFiresIn(m)(rules[i]) == RuleFiresIn(c)(rules[i]) {
      FitsFiresAlike(m, rules[i]);
    }
    SameFirst(rules, RuleFiresIn(m), RuleFiresIn(c), ByPriority(m.lib));
    forall i | 0 <= i < |policies| ensures PolicyFiresIn(m)(policies[i]) == PolicyFiresIn(c)(policies[i]) {
      PolicyFitsFiresAlike(m, policies[i]);
    }
    SameFirst(policies, PolicyFiresIn(m), PolicyFiresIn(c), ByPriority(m.lib));
  }

  lemma FitsFiresAlike(m: Moment, r: Record)
    requires RuleFits(m.lib, r)
    ensures m.RuleFires(r) == m.(budgets := AsCompiled).RuleFires(r)
  {
  }

  lemma PolicyFitsFiresAlike(m: Moment, p: Record)
    requires PolicyFits(m.lib, p)
    ensures m.PolicyFires(p) == m.(budgets := AsCompiled).PolicyFires(p)
  {
  }

  lemma SameFirst(records: seq<Record>, p: Record -> bool, q: Record -> bool, rank: Record -> int)
    requires forall i :: 0 <= i < |records| ==> p(records[i]) == q(records[i])
    ensures NoneFires(records, p) == NoneFires(records, q)
    ensures forall i: nat :: FiresFirst(records, p, rank, i) == FiresFirst(records, q, rank, i)
  {
  }

  /** The least record found, with the record's own account of firing. */
  lemma LeastFires(records: seq<Record>, p: Record -> bool, rank: Record -> int)
    ensures var r := Least(records, p, rank);
      && (r.None? <==> NoneFires(records, p))
      && (r.Some? ==> p(r.value) && exists i: nat :: FiresFirst(records, p, rank, i) && records[i] == r.value)
  {
    LeastIsLeast(records, p, rank);
    var r := Least(records, p, rank);
    if r.Some? {
      var i: nat :| LeastAt(records, p, rank, i) && records[i] == r.value;
      assert FiresFirst(records, p, rank, i);
    }
  }

  lemma EntryVerdict(m: Moment, e: Record, allow: bool)
    requires m.EntryFires(e, allow)
    ensures EntryCompiler(allow)(e).Some?
    ensures RuleVerdict(EntryCompiler(allow)(e).value) == EntryDecision(e, if allow then ActAllow else ActBlock)
  {
  }

  lemma FirstVerdictPrescribed(m: Moment, policies: seq<Record>, rules: seq<Record>, entries: seq<Record>, z: CompiledZone)
    requires z.rules == RulesOf(m.lib, rules, entries) && z.ddos == PoliciesOf(m.lib, policies) && m.budgets.AsCompiled?
    ensures Prescribed(m, policies, rules, entries, FirstVerdict(m, z))
  {
    var allowed, blocked := FilterMap(entries, EntryCompiler(true)), FilterMap(entries, EntryCompiler(false));
    var regular := SortBy(FilterMap(rules, RuleCompiler(m.lib)), RulePriority());
    FirstOfParts(allowed + blocked, regular, FiringRule(m));
    FirstOfParts(allowed, blocked, FiringRule(m));
    LeastFires(entries, WhitelistFires(m), ByPosition());
    LeastFires(entries, BlacklistFires(m), ByPosition());
    LeastFires(rules, RuleFiresIn(m), ByPriority(m.lib));
    LeastFires(policies, PolicyFiresIn(m), ByPriority(m.lib));
    EntriesFound(m, entries, true);
    EntriesFound(m, entries, false);
    RulesFound(m, rules);
    PoliciesFound(m, policies);
    var white := Least(entries, WhitelistFires(m), ByPosition());
    var black := Least(entries, BlacklistFires(m), ByPosition());
    if white.Some? {
      EntryVerdict(m, white.value, true);
    } else if black.Some? {
      EntryVerdict(m, black.value, false);
    } else {
      RestPrescribed(m, policies, rules, First(z.rules, FiringRule(m)), First(z.ddos, FiringDdos(m)));
    }
  }

  lemma VerdictReads(lib: Lib, r: Record)
    ensures CompiledRuleOf(lib, r).Some? ==> RuleVerdict(CompiledRuleOf(lib, r).value) == RuleDecision(r)
    ensures CompiledDdosOf(lib, r).Some? ==> DdosVerdict(CompiledDdosOf(lib, r).value) == PolicyDecision(r)
  {
    RuleCompilesExactly(lib, r);
    DdosCompilesExactly(lib, r);
  }

  /** The rules' and the policies' share of the verdict. */
  lemma RestPrescribed(m: Moment, policies: seq<Record>, rules: seq<Record>, r: Option<CompiledRule>, d: Option<CompiledDdos>)
    requires r == var x := Least(rules, RuleFiresIn(m), ByPriority(m.lib)); if x.Some? then CompiledRuleOf(m.lib, x.value) else None
    requires d == var x := Least(policies, PolicyFiresIn(m), ByPriority(m.lib)); if x.Some? then CompiledDdosOf(m.lib, x.value) else None
    ensures var verdict := if r.Some? then Some(RuleVerdict(r.value)) else if d.Some? then Some(DdosVerdict(d.value)) else None;
      if !NoneFires(rules, RuleFiresIn(m)) then
        exists i: nat :: FiresFirst(rules, RuleFiresIn(m), ByPriority(m.lib), i) && verdict == Some(RuleDecision(rules[i]))
      else if !NoneFires(policies, PolicyFiresIn(m)) then
        exists i: nat :: FiresFirst(policies, PolicyFiresIn(m), ByPriority(m.lib), i) && verdict == Some(PolicyDecision(policies[i]))
      else verdict.None?
  {
    LeastFires(rules, RuleFiresIn(m), ByPriority(m.lib));
    LeastFires(policies, PolicyFiresIn(m), ByPriority(m.lib));
    var x, y := Least(rules, RuleFiresIn(m), ByPriority(m.lib)), Least(policies, PolicyFiresIn(m), ByPriority(m.lib));
    if x.Some? {
      RuleCompilesExactly(m.lib, x.value);
      VerdictReads(m.lib, x.value);
    }
    if y.Some? {
      DdosCompilesExactly(m.lib, y.value);
      VerdictReads(m.lib, y.value);
    }
  }

  lemma FirstIsUnique(records: seq<Record>, p: Record -> bool, rank: Record -> int)
    ensures forall i: nat, j: nat :: FiresFirst(records, p, rank, i) && FiresFirst(records, p, rank, j) ==> i == j
  {
  }

  /** A verdict is determined by the records: two prescribed decisions are equal. */
  lemma VerdictIsUnique(m: Moment, policies: seq<Record>, rules: seq<Record>, entries: seq<Record>, a: Option<Decision>, b: Option<Decision>)
    requires Prescribed(m, policies, rules, entries, a) && Prescribed(m, policies, rules, entries, b)
    ensures a == b
  {
    FirstIsUnique(entries, WhitelistFires(m), ByPosition());
    FirstIsUnique(entries, BlacklistFires(m), ByPosition());
    FirstIsUnique(rules, RuleFiresIn(m), ByPriority(m.lib));
    FirstIsUnique(policies, PolicyFiresIn(m), ByPriority(m.lib));
  }

  // ---------------------------------------------------------------- what is compiled can be published

  lemma {:induction false} CompiledRulesTravel(lib: Lib, rules: seq<Record>)
    ensures forall r :: r in FilterMap(rules, RuleCompiler(lib)) ==> RuleTravels(r)
  {
    if rules != [] {
      CompiledRulesTravel(lib, rules[1..]);
      if CompiledRuleOf(lib, rules[0]).Some? && rules[0].Condition().Some? {
        ParsedTravels(lib, rules[0].Condition().value);
      }
    }
  }

  lemma {:induction false} CompiledEntriesTravel(entries: seq<Record>, allow: bool)
    ensures forall r :: r in FilterMap(entries, EntryCompiler(allow)) ==> RuleTravels(r)
  {
    if entries != [] {
      CompiledEntriesTravel(entries[1..], allow);
    }
  }

  lemma {:induction false} CompiledPoliciesTravel(lib: Lib, policies: seq<Record>)
    ensures forall d :: d in FilterMap(policies, DdosCompiler(lib)) ==> DdosTravels(d)
  {
    if policies != [] {
      CompiledPoliciesTravel(lib, policies[1..]);
    }
  }

  /** A compiled zone is read back at the edge exactly as it was published. */
  lemma CompiledZoneTravels(lib: Lib, zone: Record, tenantId: string, policies: seq<Record>, rules: seq<Record>, entries: seq<Record>, at: string)
    requires ZoneOf(lib, zone, tenantId, policies, rules, entries, at).Some?
    ensures var z := ZoneOf(lib, zone, tenantId, policies, rules, entries, at).value;
      ZoneTravels(z) && ReadZone(WriteZone(z)) == Some(z)
  {
    var z := ZoneOf(lib, zone, tenantId, policies, rules, entries, at).value;
    CompiledRulesTravel(lib, rules);
    CompiledEntriesTravel(entries, true);
    CompiledEntriesTravel(entries, false);
    CompiledPoliciesTravel(lib, policies);
    var regular, ddos := FilterMap(rules, RuleCompiler(lib)), FilterMap(policies, DdosCompiler(lib));
    SortByIsSorted(regular, RulePriority());
    SortByIsSorted(ddos, DdosPriority());
    forall i | 0 <= i < |z.rules| ensures RuleTravels(z.rules[i]) {
      assert z.rules[i] in multiset(z.rules);
      assert multiset(z.rules) == multiset(FilterMap(entries, EntryCompiler(true))) + multiset(FilterMap(entries, EntryCompiler(false))) + multiset(regular);
    }
    forall i | 0 <= i < |z.ddos| ensures DdosTravels(z.ddos[i]) {
      assert z.ddos[i] in multiset(z.ddos);
    }
    ZoneRoundTrip(z);
  }

  // ---------------------------------------------------------------- who is interfered with

  /**
   From the record to the proxy: a decision other than to log takes effect if and only if the zone's record says
   "active" and "enforce". A paused zone only reports.
   */
  lemma EnforcedExactly(lib: Lib, zone: Record, tenantId: string, policies: seq<Record>, rules: seq<Record>, entries: seq<Record>, at: string,
                        d: Decision)
    requires ZoneOf(lib, zone, tenantId, policies, rules, entries, at).Some?
    ensures var z := ReadZone(WriteZone(ZoneOf(lib, zone, tenantId, policies, rules, entries, at).value));
      && z.Some?
      && (d.EffectiveAction(z.value) == d.action
          <==> d.action == ActLog || (TextAt(zone.data, "protectionMode") == Some("enforce") && StatusAt(zone.data, zone.status) == "active"))
      && (d.EffectiveAction(z.value) != d.action ==> d.EffectiveAction(z.value) == ActLog)
  {
    CompiledZoneTravels(lib, zone, tenantId, policies, rules, entries, at);
    ZoneCompilesExactly(lib, zone, tenantId, policies, rules, entries, at);
    EnforcedZone(ZoneOf(lib, zone, tenantId, policies, rules, entries, at).value, d);
  }

  lemma EnforcedZone(z: CompiledZone, d: Decision)
    ensures d.EffectiveAction(z) == d.action <==> d.action == ActLog || (z.protectionMode == "enforce" && z.status == "active")
    ensures d.EffectiveAction(z) != d.action ==> d.EffectiveAction(z) == ActLog
  {
  }

  /** The action of a decision travels under the name that was authored, or as a log. */
  lemma ActionTravelsByName(name: string)
    ensures ActionName(ActionNamed(name)) == if name in {"allow", "block", "challenge"} then name else "log"
    ensures ReadAction(Str(ActionName(ActionNamed(name)))) == Some(ActionNamed(name))
  {
  }
}
