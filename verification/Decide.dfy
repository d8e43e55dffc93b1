/** `Evaluate`: one request against one zone, spending budgets in the limiter. */
module Decide {
  import opened Wrappers
  import opened Library
  import opened Ruleset
  import opened Matching
  import opened Limiter
  import opened Keys
  import opened Stages
  import Text

  datatype Decision = Decision(action: Action, triggeredBy: string, triggeredById: string, triggeredByName: string) {
    /** In monitor mode every verdict only reports. */
    function EffectiveAction(zone: CompiledZone): Action {
      if zone.Enforcing() then action else ActLog
    }
  }

  predicate DdosScopeMatches(d: CompiledDdos, req: Request) {
    && (d.pathPrefix.Some? ==> Text.HasPrefix(req.path, d.pathPrefix.value))
    && (d.httpMethod.Some? ==> d.httpMethod.value == "any" || d.httpMethod.value == req.httpMethod)
  }

  function RuleStage(lib: Lib, zone: CompiledZone, req: Request, rule: CompiledRule): Stage {
    Stage(EvalMatch(lib, req, rule.matchExpr), rule.rateLimit, RuleKey(zone.zoneId, rule.id, req.clientIpText))
  }

  function DdosStage(zone: CompiledZone, req: Request, d: CompiledDdos): Stage {
    Stage(DdosScopeMatches(d, req), Some(RateLimit(d.requestRateThreshold, d.burstWindowSeconds)),
          DdosKey(zone.zoneId, d.id, req.clientIpText))
  }

  /** The stages a request meets: the zone's rules, then its DDoS policies. */
  function StagesOf(lib: Lib, zone: CompiledZone, req: Request): (r: seq<Stage>)
    ensures |r| == |zone.rules| + |zone.ddos|
    ensures forall i :: 0 <= i < |zone.rules| ==> r[i] == RuleStage(lib, zone, req, zone.rules[i])
    ensures forall i :: 0 <= i < |zone.ddos| ==> r[|zone.rules| + i] == DdosStage(zone, req, zone.ddos[i])
  {
    seq(|zone.rules|, i requires 0 <= i < |zone.rules| => RuleStage(lib, zone, req, zone.rules[i]))
    + seq(|zone.ddos|, i requires 0 <= i < |zone.ddos| => DdosStage(zone, req, zone.ddos[i]))
  }

  /** The decision of the stage that fired; None when every stage was passed. */
  function DecisionOf(zone: CompiledZone, s: nat): Option<Decision> {
    if s < |zone.rules| then
      Some(Decision(zone.rules[s].action, "firewallRule", zone.rules[s].id, zone.rules[s].name))
    else if s - |zone.rules| < |zone.ddos| then
      var d := zone.ddos[s - |zone.rules|];
      Some(Decision(d.action, "ddosPolicy", d.id, "DDoS policy (" + d.sensitivity + ")"))
    else None
  }

  /** The first loop: the rules, in order. */
  method EvaluateRules(lib: Lib, zone: CompiledZone, req: Request, limiter: RateLimiter, now: int, ghost stages: seq<Stage>)
    returns (decision: Option<Decision>, ghost stage: nat)
    requires limiter.Valid()
    requires |zone.rules| <= |stages|
    requires forall i :: 0 <= i < |zone.rules| ==> stages[i] == RuleStage(lib, zone, req, zone.rules[i])
    modifies limiter.shards
    ensures limiter.Valid()
    ensures decision.Some? ==> stage < |zone.rules| && decision == DecisionOf(zone, stage)
    ensures decision.Some? ==> (stage, limiter.Contents()) == DecideFrom(stages, old(limiter.Contents()), now, 0)
    ensures decision.None? ==>
      DecideFrom(stages, limiter.Contents(), now, |zone.rules|) == DecideFrom(stages, old(limiter.Contents()), now, 0)
  {
    for i := 0 to |zone.rules|
      invariant limiter.Valid()
      invariant DecideFrom(stages, limiter.Contents(), now, i) == DecideFrom(stages, old(limiter.Contents()), now, 0)
    {
      var rule := zone.rules[i];
      assert stages[i] == RuleStage(lib, zone, req, rule);
      if !EvalMatch(lib, req, rule.matchExpr) {
        continue;
      }
      if rule.rateLimit.Some? {
        var overBudget := limiter.Check(RuleKey(zone.zoneId, rule.id, req.clientIpText),
                                        rule.rateLimit.value.threshold, rule.rateLimit.value.windowSeconds * SECOND, now);
        if !overBudget {
          continue;
        }
      }
      return Some(Decision(rule.action, "firewallRule", rule.id, rule.name)), i;
    }
    return None, |zone.rules|;
  }

  /** The second loop: the policies, reached only when no rule decided. */
  method EvaluateDdos(zone: CompiledZone, req: Request, limiter: RateLimiter, now: int, ghost stages: seq<Stage>)
    returns (decision: Option<Decision>, ghost stage: nat)
    requires limiter.Valid()
    requires |stages| == |zone.rules| + |zone.ddos|
    requires forall i :: 0 <= i < |zone.ddos| ==> stages[|zone.rules| + i] == DdosStage(zone, req, zone.ddos[i])
    modifies limiter.shards
    ensures limiter.Valid()
    ensures stage >= |zone.rules| && decision == DecisionOf(zone, stage)
    ensures (stage, limiter.Contents()) == DecideFrom(stages, old(limiter.Contents()), now, |zone.rules|)
  {
    for i := 0 to |zone.ddos|
      invariant limiter.Valid()
      invariant DecideFrom(stages, limiter.Contents(), now, |zone.rules| + i)
             == DecideFrom(stages, old(limiter.Contents()), now, |zone.rules|)
    {
      var ddos := zone.ddos[i];
      assert stages[|zone.rules| + i] == DdosStage(zone, req, ddos);
      if !DdosScopeMatches(ddos, req) {
        continue;
      }
      var overBudget := limiter.Check(DdosKey(zone.zoneId, ddos.id, req.clientIpText),
                                      ddos.requestRateThreshold, ddos.burstWindowSeconds * SECOND, now);
      if overBudget {
        return Some(Decision(ddos.action, "ddosPolicy", ddos.id, "DDoS policy (" + ddos.sensitivity + ")")),
               |zone.rules| + i;
      }
    }
    return None, |stages|;
  }

  method Evaluate(lib: Lib, zone: CompiledZone, req: Request, limiter: RateLimiter, now: int)
    returns (decision: Option<Decision>, ghost stage: nat)
    requires limiter.Valid()
    modifies limiter.shards
    ensures limiter.Valid()
    ensures decision == DecisionOf(zone, stage)
    ensures (stage, limiter.Contents()) == DecideFrom(StagesOf(lib, zone, req), old(limiter.Contents()), now, 0)
  {
    ghost var stages := StagesOf(lib, zone, req);
    decision, stage := EvaluateRules(lib, zone, req, limiter, now, stages);
    if decision.None? {
      decision, stage := EvaluateDdos(zone, req, limiter, now, stages);
    }
  }

  // ---------------------------------------------------------------- budgets of one zone

  function BudgetCount(zone: CompiledZone): nat {
    |zone.rules| + |zone.ddos|
  }

  /** The identifier, the budget and the key of a stage; the request contributes the client only. */
  function IdOf(zone: CompiledZone, s: nat): string
    requires s < BudgetCount(zone)
  {
    if s < |zone.rules| then zone.rules[s].id else zone.ddos[s - |zone.rules|].id
  }

  function BudgetOf(zone: CompiledZone, s: nat): Option<RateLimit>
    requires s < BudgetCount(zone)
  {
    if s < |zone.rules| then zone.rules[s].rateLimit
    else Some(RateLimit(zone.ddos[s - |zone.rules|].requestRateThreshold, zone.ddos[s - |zone.rules|].burstWindowSeconds))
  }

  function KeyOf(zone: CompiledZone, s: nat, clientIp: string): string
    requires s < BudgetCount(zone)
  {
    if s < |zone.rules| then RuleKey(zone.zoneId, IdOf(zone, s), clientIp) else DdosKey(zone.zoneId, IdOf(zone, s), clientIp)
  }

  lemma StageParts(lib: Lib, zone: CompiledZone, req: Request, s: nat)
    requires s < BudgetCount(zone)
    ensures StagesOf(lib, zone, req)[s].key == KeyOf(zone, s, req.clientIpText)
    ensures StagesOf(lib, zone, req)[s].budget == BudgetOf(zone, s)
  {
    if s >= |zone.rules| {
      var i := s - |zone.rules|;
      assert StagesOf(lib, zone, req)[|zone.rules| + i] == DdosStage(zone, req, zone.ddos[i]);
    }
  }

  /** Two stages with budgets of the same kind. */
  predicate Rivals(zone: CompiledZone, i: nat, j: nat) {
    && i < BudgetCount(zone) && j < BudgetCount(zone) && i != j
    && BudgetOf(zone, i).Some? && BudgetOf(zone, j).Some?
    && (i < |zone.rules| <==> j < |zone.rules|)
  }

  predicate DistinctIds(zone: CompiledZone) {
    forall i, j | 0 <= i < BudgetCount(zone) && 0 <= j < BudgetCount(zone) ::
      Rivals(zone, i, j) ==> IdOf(zone, i) != IdOf(zone, j)
  }

  /** No budget's scope begins another's. */
  predicate SeparateScopes(zone: CompiledZone) {
    forall i, j | 0 <= i < BudgetCount(zone) && 0 <= j < BudgetCount(zone) ::
      Rivals(zone, i, j) ==> !Overlap(Scope(zone.zoneId, IdOf(zone, i)), Scope(zone.zoneId, IdOf(zone, j)))
  }

  /** Two different budgets of one client never share a counter when the identifiers differ. */
  lemma StageKeysApart(lib: Lib, zone: CompiledZone, req: Request)
    requires DistinctIds(zone)
    ensures KeysApart(StagesOf(lib, zone, req))
  {
    var stages, ip := StagesOf(lib, zone, req), req.clientIpText;
    forall i, j | 0 <= i < j < |stages| && stages[i].budget.Some? && stages[j].budget.Some?
      ensures stages[i].key != stages[j].key
    {
      StageParts(lib, zone, req, i);
      StageParts(lib, zone, req, j);
      if i < |zone.rules| && j >= |zone.rules| {
        RuleAndDdosKeysApart(zone.zoneId, IdOf(zone, i), ip, zone.zoneId, IdOf(zone, j), ip);
      } else {
        assert Rivals(zone, i, j);
        KeysOfOneClient(zone.zoneId, IdOf(zone, i), IdOf(zone, j), ip);
      }
    }
  }

  lemma SeparateScopesAreDistinct(zone: CompiledZone)
    requires SeparateScopes(zone)
    ensures DistinctIds(zone)
  {
    forall i, j | 0 <= i < BudgetCount(zone) && 0 <= j < BudgetCount(zone) && Rivals(zone, i, j)
      ensures IdOf(zone, i) != IdOf(zone, j)
    {
      assert !Overlap(Scope(zone.zoneId, IdOf(zone, i)), Scope(zone.zoneId, IdOf(zone, j)));
    }
  }

  /** With separate scopes, budgets share a counter only when they are the same stage and the same client. */
  lemma SameBudget(zone: CompiledZone, i: nat, a: string, j: nat, b: string)
    requires SeparateScopes(zone) && i < BudgetCount(zone) && j < BudgetCount(zone)
    requires BudgetOf(zone, i).Some? && BudgetOf(zone, j).Some? && KeyOf(zone, i, a) == KeyOf(zone, j, b)
    ensures i == j && a == b
  {
    var z, p, q := zone.zoneId, IdOf(zone, i), IdOf(zone, j);
    if i < |zone.rules| && j < |zone.rules| {
      RuleKeysMeetExactly(z, p, z, q);
      assert !Rivals(zone, i, j);
      KeysOfOneScope(z, p, a, b);
    } else if i >= |zone.rules| && j >= |zone.rules| {
      DdosKeysMeetExactly(z, p, z, q);
      assert !Rivals(zone, i, j);
      KeysOfOneScope(z, p, a, b);
    } else if i < |zone.rules| {
      RuleAndDdosKeysApart(z, p, a, z, q, b);
    } else {
      RuleAndDdosKeysApart(z, q, b, z, p, a);
    }
  }

  ghost predicate Shared(zone: CompiledZone, i: nat, a: string, j: nat, b: string) {
    && i < BudgetCount(zone) && j < BudgetCount(zone)
    && BudgetOf(zone, i).Some? && BudgetOf(zone, j).Some?
    && KeyOf(zone, i, a) == KeyOf(zone, j, b)
  }

  /** Every (stage, client) has a counter of its own if and only if no scope begins another. */
  lemma OneBudgetPerStageAndClient(zone: CompiledZone)
    ensures (forall i, a, j, b :: Shared(zone, i, a, j, b) ==> i == j && a == b) <==> SeparateScopes(zone)
  {
    if SeparateScopes(zone) {
      forall i, a, j, b | Shared(zone, i, a, j, b) ensures i == j && a == b {
        SameBudget(zone, i, a, j, b);
      }
    } else {
      var i, j :| 0 <= i < BudgetCount(zone) && 0 <= j < BudgetCount(zone) && Rivals(zone, i, j)
        && Overlap(Scope(zone.zoneId, IdOf(zone, i)), Scope(zone.zoneId, IdOf(zone, j)));
      var p, q := Scope(zone.zoneId, IdOf(zone, i)), Scope(zone.zoneId, IdOf(zone, j));
      var a, b := OverlapMeets(if i < |zone.rules| then "r:" else "d:", p, q);
      assert Shared(zone, i, a, j, b);
    }
  }
}
