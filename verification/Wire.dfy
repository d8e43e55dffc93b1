/**
 The rule-set on the wire: `MarshalJSON` on the control-plane, `UnmarshalJSON` on the edge, as
 functions between rule-sets and JSON trees, and the proof that the second undoes the first.
 */
module Wire {
  import opened Wrappers
  import opened Json
  import opened Decimal
  import opened Ruleset

  // ---------------------------------------------------------------- closed sets

  function ActionName(a: Action): string {
    match a
    case NoAction => ""
    case ActAllow => "allow"
    case ActLog => "log"
    case ActChallenge => "challenge"
    case ActBlock => "block"
  }

  function ReadAction(j: Json): Option<Action> {
    match AsString(j)
    case None => None
    case Some(s) =>
      if s == "allow" then Some(ActAllow)
      else if s == "log" then Some(ActLog)
      else if s == "challenge" then Some(ActChallenge)
      else if s == "block" then Some(ActBlock)
      else None
  }

  function FieldName(f: Field): string {
    match f
    case NoField => ""
    case UriPath => "uriPath"
    case UriQuery => "uriQuery"
    case Method => "method"
    case Header => "header"
    case SourceIp => "sourceIp"
    case SourceIpCidr => "sourceIpCidr"
    case Country => "country"
    case UserAgent => "userAgent"
  }

  function ReadField(j: Json): Option<Field> {
    match AsString(j)
    case None => None
    case Some(s) =>
      if s == "uriPath" then Some(UriPath)
      else if s == "uriQuery" then Some(UriQuery)
      else if s == "method" then Some(Method)
      else if s == "header" then Some(Header)
      else if s == "sourceIp" then Some(SourceIp)
      else if s == "sourceIpCidr" then Some(SourceIpCidr)
      else if s == "country" then Some(Country)
      else if s == "userAgent" then Some(UserAgent)
      else None
  }

  function OpName(o: Op): string {
    match o
    case NoOp => ""
    case Eq => "eq"
    case NotEq => "notEq"
    case Contains => "contains"
    case NotContains => "notContains"
    case StartsWith => "startsWith"
    case EndsWith => "endsWith"
    case In => "in"
    case NotIn => "notIn"
    case ContainsCi => "containsCi"
    case Regex => "regex"
  }

  function ReadOp(j: Json): Option<Op> {
    match AsString(j)
    case None => None
    case Some(s) =>
      if s == "eq" then Some(Eq)
      else if s == "notEq" then Some(NotEq)
      else if s == "contains" then Some(Contains)
      else if s == "notContains" then Some(NotContains)
      else if s == "startsWith" then Some(StartsWith)
      else if s == "endsWith" then Some(EndsWith)
      else if s == "in" then Some(In)
      else if s == "notIn" then Some(NotIn)
      else if s == "containsCi" then Some(ContainsCi)
      else if s == "regex" then Some(Regex)
      else None
  }

  // ---------------------------------------------------------------- match expressions

  /** An `omitempty` pointer field. */
  function Optional(key: string, v: Option<string>): map<string, Json> {
    if v.Some? then map[key := Str(v.value)] else map[]
  }

  function StrList(vs: seq<string>): seq<Json> {
    seq(|vs|, i requires 0 <= i < |vs| => Str(vs[i]))
  }

  function WritePredicate(p: Predicate): Json {
    Obj(map["field" := Str(FieldName(p.field)), "op" := Str(OpName(p.op))]
        + Optional("value", p.value)
        + (if p.values == [] then map[] else map["values" := Arr(StrList(p.values))])
        + Optional("param", p.param))
  }

  function ReadStrings(j: Json): Option<seq<string>> {
    match AsList(j)
    case None => None
    case Some(items) => AsListOf(items, AsString)
  }

  function ReadPredicate(j: Json): Option<Predicate> {
    match AsObject(j)
    case None => None
    case Some(m) =>
      var field := Member(m, "field", ReadField, NoField);
      var op := Member(m, "op", ReadOp, NoOp);
      var value := Member(m, "value", AsOptString, None);
      var values := Member(m, "values", ReadStrings, []);
      var param := Member(m, "param", AsOptString, None);
      if field.Some? && op.Some? && value.Some? && values.Some? && param.Some?
      then Some(Predicate(field.value, op.value, value.value, values.value, param.value))
      else None
  }

  function WriteMatch(e: MatchExpr): Json {
    match e
    case Always => Str("always")
    case Test(p) => Obj(map["predicate" := WritePredicate(p)])
    case All(children) => Obj(map["all" := Arr(WriteMatches(children))])
    case Any(children) => Obj(map["any" := Arr(WriteMatches(children))])
    case Not(inner) => Obj(map["not" := WriteMatch(inner)])
  }

  function WriteMatches(es: seq<MatchExpr>): seq<Json> {
    seq(|es|, i requires 0 <= i < |es| => WriteMatch(es[i]))
  }

  /** A bare string must be "always"; anything else must be an object with one known key. */
  function ReadMatch(j: Json): Option<MatchExpr> {
    if AsString(j).Some? then
      if AsString(j).value == "always" then Some(Always) else None
    else
      match j
      case Obj(m) =>
        if |m| != 1 then None
        else if "predicate" in m then
          match ReadPredicate(m["predicate"]) {
            case Some(p) => Some(Test(p))
            case None => None
          }
        else if "all" in m then
          if m["all"].Null? then Some(All([]))
          else if m["all"].Arr? then
            match ReadMatches(m["all"].items) {
              case Some(children) => Some(All(children))
              case None => None
            }
          else None
        else if "any" in m then
          if m["any"].Null? then Some(Any([]))
          else if m["any"].Arr? then
            match ReadMatches(m["any"].items) {
              case Some(children) => Some(Any(children))
              case None => None
            }
          else None
        else if "not" in m then
          match ReadMatch(m["not"]) {
            case Some(inner) => Some(Not(inner))
            case None => None
          }
        else None
      case _ => None
  }

  /** One element the edge cannot read fails the whole list. */
  function ReadMatches(items: seq<Json>): Option<seq<MatchExpr>> {
    if forall i | 0 <= i < |items| :: ReadMatch(items[i]).Some?
    then Some(seq(|items|, i requires 0 <= i < |items| && ReadMatch(items[i]).Some? => ReadMatch(items[i]).value))
    else None
  }

  // ---------------------------------------------------------------- the whole zone

  function WriteRateLimit(r: RateLimit): Json {
    Obj(map["threshold" := Num(FormatNat(r.threshold)), "windowSeconds" := Num(FormatNat(r.windowSeconds))])
  }

  function WriteRule(r: CompiledRule): Json {
    Obj(map[
          "id" := Str(r.id), "name" := Str(r.name), "ruleType" := Str(r.ruleType),
          "action" := Str(ActionName(r.action)), "priority" := Num(FormatInt(r.priority)),
          "matchExpr" := WriteMatch(r.matchExpr)]
        + (if r.rateLimit.Some? then map["rateLimit" := WriteRateLimit(r.rateLimit.value)] else map[]))
  }

  function WriteDdos(d: CompiledDdos): Json {
    Obj(map[
          "id" := Str(d.id), "sensitivity" := Str(d.sensitivity), "action" := Str(ActionName(d.action)),
          "requestRateThreshold" := Num(FormatNat(d.requestRateThreshold)),
          "burstWindowSeconds" := Num(FormatNat(d.burstWindowSeconds)),
          "priority" := Num(FormatInt(d.priority))]
        + Optional("pathPrefix", d.pathPrefix)
        + Optional("httpMethod", d.httpMethod))
  }

  function WriteDdosList(ds: seq<CompiledDdos>): seq<Json> {
    seq(|ds|, i requires 0 <= i < |ds| => WriteDdos(ds[i]))
  }

  /** The compiler's policy list is never a nil slice; its rule list is nil when it is empty. */
  function WriteRuleList(rs: seq<CompiledRule>): Json {
    if rs == [] then Null else Arr(seq(|rs|, i requires 0 <= i < |rs| => WriteRule(rs[i])))
  }

  function WriteZone(z: CompiledZone): Json {
    Obj(map[
          "schemaVersion" := Num(FormatNat(z.schemaVersion)), "zoneId" := Str(z.zoneId),
          "tenantId" := Str(z.tenantId), "hostname" := Str(z.hostname),
          "originAddress" := Str(z.originAddress), "status" := Str(z.status),
          "protectionMode" := Str(z.protectionMode), "configVersion" := Num(FormatInt(z.configVersion)),
          "ddos" := Arr(WriteDdosList(z.ddos)),
          "rules" := WriteRuleList(z.rules),
          "compiledAt" := Str(z.compiledAt)])
  }

  /** Decoding a number into a `uint32`: the literal must be a plain non-negative integer in range. */
  function ReadUint32(j: Json): Option<nat> {
    match j
    case Null => Some(0)
    case Num(t) => ParseUint(t, UINT32_LIMIT)
    case _ => None
  }

  function ReadInt64(j: Json): Option<int> {
    match j
    case Null => Some(0)
    case Num(t) => ParseInt(t)
    case _ => None
  }

  function ReadRateLimit(j: Json): Option<Option<RateLimit>> {
    match j
    case Null => Some(None)
    case Obj(m) =>
      var t := Member(m, "threshold", ReadUint32, 0);
      var w := Member(m, "windowSeconds", ReadUint32, 0);
      if t.Some? && w.Some? then Some(Some(RateLimit(t.value, w.value))) else None
    case _ => None
  }

  function ReadRule(j: Json): Option<CompiledRule> {
    match AsObject(j)
    case None => None
    case Some(m) =>
      var id := Member(m, "id", AsString, "");
      var name := Member(m, "name", AsString, "");
      var ruleType := Member(m, "ruleType", AsString, "");
      var action := Member(m, "action", ReadAction, NoAction);
      var priority := Member(m, "priority", ReadInt64, 0);
      var matchExpr := Member(m, "matchExpr", ReadMatch, Always);
      var rateLimit := Member(m, "rateLimit", ReadRateLimit, None);
      if id.Some? && name.Some? && ruleType.Some? && action.Some? && priority.Some? && matchExpr.Some? && rateLimit.Some?
      then Some(CompiledRule(id.value, name.value, ruleType.value, action.value, priority.value, matchExpr.value, rateLimit.value))
      else None
  }

  function ReadDdos(j: Json): Option<CompiledDdos> {
    match AsObject(j)
    case None => None
    case Some(m) =>
      var id := Member(m, "id", AsString, "");
      var sensitivity := Member(m, "sensitivity", AsString, "");
      var action := Member(m, "action", ReadAction, NoAction);
      var threshold := Member(m, "requestRateThreshold", ReadUint32, 0);
      var window := Member(m, "burstWindowSeconds", ReadUint32, 0);
      var path := Member(m, "pathPrefix", AsOptString, None);
      var method' := Member(m, "httpMethod", AsOptString, None);
      var priority := Member(m, "priority", ReadInt64, 0);
      if id.Some? && sensitivity.Some? && action.Some? && threshold.Some? && window.Some? && path.Some? && method'.Some? && priority.Some?
      then Some(CompiledDdos(id.value, sensitivity.value, action.value, threshold.value, window.value, path.value, method'.value, priority.value))
      else None
  }

  function ReadDdosList(j: Json): Option<seq<CompiledDdos>> {
    match AsList(j)
    case None => None
    case Some(items) => AsListOf(items, ReadDdos)
  }

  function ReadRuleList(j: Json): Option<seq<CompiledRule>> {
    match AsList(j)
    case None => None
    case Some(items) => AsListOf(items, ReadRule)
  }

  function ReadZone(j: Json): Option<CompiledZone> {
    match AsObject(j)
    case None => None
    case Some(m) =>
      var schemaVersion := Member(m, "schemaVersion", ReadUint32, 0);
      var zoneId := Member(m, "zoneId", AsString, "");
      var tenantId := Member(m, "tenantId", AsString, "");
      var hostname := Member(m, "hostname", AsString, "");
      var originAddress := Member(m, "originAddress", AsString, "");
      var status := Member(m, "status", AsString, "");
      var protectionMode := Member(m, "protectionMode", AsString, "");
      var configVersion := Member(m, "configVersion", ReadInt64, 0);
      var ddos := Member(m, "ddos", ReadDdosList, []);
      var rules := Member(m, "rules", ReadRuleList, []);
      var compiledAt := Member(m, "compiledAt", AsString, "");
      if schemaVersion.Some? && zoneId.Some? && tenantId.Some? && hostname.Some? && originAddress.Some? && status.Some?
         && protectionMode.Some? && configVersion.Some? && ddos.Some? && rules.Some? && compiledAt.Some?
      then Some(CompiledZone(schemaVersion.value, zoneId.value, tenantId.value, hostname.value, originAddress.value,
                             status.value, protectionMode.value, configVersion.value, ddos.value, rules.value,
                             compiledAt.value))
      else None
  }

  // ---------------------------------------------------------------- what can travel

  /** No zero value anywhere: the edge refuses an unknown field or operator name. */
  predicate MatchTravels(e: MatchExpr) {
    match e
    case Always => true
    case Test(p) => p.field != NoField && p.op != NoOp
    case All(children) => forall i :: 0 <= i < |children| ==> MatchTravels(children[i])
    case Any(children) => forall i :: 0 <= i < |children| ==> MatchTravels(children[i])
    case Not(inner) => MatchTravels(inner)
  }

  predicate RuleTravels(r: CompiledRule) {
    && r.action != NoAction
    && MatchTravels(r.matchExpr)
    && IsInt64(r.priority)
    && (r.rateLimit.Some? ==> r.rateLimit.value.threshold < UINT32_LIMIT && r.rateLimit.value.windowSeconds < UINT32_LIMIT)
  }

  predicate DdosTravels(d: CompiledDdos) {
    && d.action != NoAction
    && IsInt64(d.priority)
    && d.requestRateThreshold < UINT32_LIMIT
    && d.burstWindowSeconds < UINT32_LIMIT
  }

  predicate ZoneTravels(z: CompiledZone) {
    && z.schemaVersion < UINT32_LIMIT
    && IsInt64(z.configVersion)
    && (forall i :: 0 <= i < |z.ddos| ==> DdosTravels(z.ddos[i]))
    && (forall i :: 0 <= i < |z.rules| ==> RuleTravels(z.rules[i]))
  }

  // ---------------------------------------------------------------- round trips

  lemma FieldRoundTrip(f: Field)
    ensures ReadField(Str(FieldName(f))) == if f == NoField then None else Some(f)
  {
  }

  lemma OpRoundTrip(o: Op)
    ensures ReadOp(Str(OpName(o))) == if o == NoOp then None else Some(o)
  {
  }

  lemma ActionRoundTrip(a: Action)
    ensures ReadAction(Str(ActionName(a))) == if a == NoAction then None else Some(a)
  {
  }

  /** The members of a written predicate: `omitempty` leaves a nil pointer and an empty slice out. */
  lemma WrittenPredicate(p: Predicate)
    ensures var m := WritePredicate(p).fields;
      && "field" in m && m["field"] == Str(FieldName(p.field))
      && "op" in m && m["op"] == Str(OpName(p.op))
      && Member(m, "value", AsOptString, None) == Some(p.value)
      && ("values" in m <==> p.values != []) && ("values" in m ==> m["values"] == Arr(StrList(p.values)))
      && Member(m, "param", AsOptString, None) == Some(p.param)
  {
  }

  lemma PredicateRoundTrip(p: Predicate)
    ensures ReadPredicate(WritePredicate(p)) == if p.field != NoField && p.op != NoOp then Some(p) else None
  {
    WrittenPredicate(p);
    FieldRoundTrip(p.field);
    OpRoundTrip(p.op);
    DecodedWhole(StrList(p.values), AsString, p.values);
  }

  lemma ReadsTest(j: Json)
    ensures ReadMatch(Obj(map["predicate" := j]))
      == match ReadPredicate(j) { case Some(p) => Some(Test(p)) case None => None }
  {
  }

  lemma ReadsAll(items: seq<Json>)
    ensures ReadMatch(Obj(map["all" := Arr(items)]))
      == match ReadMatches(items) { case Some(es) => Some(All(es)) case None => None }
  {
  }

  lemma ReadsAny(items: seq<Json>)
    ensures ReadMatch(Obj(map["any" := Arr(items)]))
      == match ReadMatches(items) { case Some(es) => Some(Any(es)) case None => None }
  {
  }

  lemma ReadsNot(j: Json)
    ensures ReadMatch(Obj(map["not" := j]))
      == match ReadMatch(j) { case Some(e) => Some(Not(e)) case None => None }
  {
  }

  predicate AllTravel(es: seq<MatchExpr>) {
    forall i :: 0 <= i < |es| ==> MatchTravels(es[i])
  }

  lemma ReadsChildren(items: seq<Json>, es: seq<MatchExpr>)
    requires |items| == |es|
    requires forall i :: 0 <= i < |es| ==> ReadMatch(items[i]) == if MatchTravels(es[i]) then Some(es[i]) else None
    ensures ReadMatches(items) == if AllTravel(es) then Some(es) else None
  {
    if AllTravel(es) {
      assert ReadMatches(items).value == es;
    }
  }

  /** The edge reads back exactly what was written, or refuses it when a zero value got in. */
  lemma {:induction false} MatchRoundTrip(e: MatchExpr)
    ensures ReadMatch(WriteMatch(e)) == if MatchTravels(e) then Some(e) else None
  {
    match e
    case Always =>
    case Test(p) =>
      ReadsTest(WritePredicate(p));
      PredicateRoundTrip(p);
    case All(children) =>
      forall i | 0 <= i < |children| {
        MatchRoundTrip(children[i]);
      }
      ReadsAll(WriteMatches(children));
      ReadsChildren(WriteMatches(children), children);
    case Any(children) =>
      forall i | 0 <= i < |children| {
        MatchRoundTrip(children[i]);
      }
      ReadsAny(WriteMatches(children));
      ReadsChildren(WriteMatches(children), children);
    case Not(inner) =>
      ReadsNot(WriteMatch(inner));
      MatchRoundTrip(inner);
  }

  lemma WrittenRule(r: CompiledRule)
    ensures var m := WriteRule(r).fields;
      && "id" in m && m["id"] == Str(r.id)
      && "name" in m && m["name"] == Str(r.name)
      && "ruleType" in m && m["ruleType"] == Str(r.ruleType)
      && "action" in m && m["action"] == Str(ActionName(r.action))
      && "priority" in m && m["priority"] == Num(FormatInt(r.priority))
      && "matchExpr" in m && m["matchExpr"] == WriteMatch(r.matchExpr)
      && ("rateLimit" in m <==> r.rateLimit.Some?)
      && ("rateLimit" in m ==> m["rateLimit"] == WriteRateLimit(r.rateLimit.value))
  {
  }

  lemma RateLimitRoundTrip(r: RateLimit)
    requires r.threshold < UINT32_LIMIT && r.windowSeconds < UINT32_LIMIT
    ensures ReadRateLimit(WriteRateLimit(r)) == Some(Some(r))
  {
    FormatParseUint(r.threshold, UINT32_LIMIT);
    FormatParseUint(r.windowSeconds, UINT32_LIMIT);
  }

  lemma RuleRoundTrip(r: CompiledRule)
    requires RuleTravels(r)
    ensures ReadRule(WriteRule(r)) == Some(r)
  {
    var m := WriteRule(r).fields;
    WrittenRule(r);
    FormatParseInt(r.priority);
    ActionRoundTrip(r.action);
    MatchRoundTrip(r.matchExpr);
    if r.rateLimit.Some? {
      RateLimitRoundTrip(r.rateLimit.value);
    }
    ReadsRule(m, r);
  }

  lemma ReadsRule(m: map<string, Json>, r: CompiledRule)
    requires Member(m, "id", AsString, "") == Some(r.id)
    requires Member(m, "name", AsString, "") == Some(r.name)
    requires Member(m, "ruleType", AsString, "") == Some(r.ruleType)
    requires Member(m, "action", ReadAction, NoAction) == Some(r.action)
    requires Member(m, "priority", ReadInt64, 0) == Some(r.priority)
    requires Member(m, "matchExpr", ReadMatch, Always) == Some(r.matchExpr)
    requires Member(m, "rateLimit", ReadRateLimit, None) == Some(r.rateLimit)
    ensures ReadRule(Obj(m)) == Some(r)
  {
  }

  lemma WrittenDdos(d: CompiledDdos)
    ensures var m := WriteDdos(d).fields;
      && "id" in m && m["id"] == Str(d.id)
      && "sensitivity" in m && m["sensitivity"] == Str(d.sensitivity)
      && "action" in m && m["action"] == Str(ActionName(d.action))
      && "requestRateThreshold" in m && m["requestRateThreshold"] == Num(FormatNat(d.requestRateThreshold))
      && "burstWindowSeconds" in m && m["burstWindowSeconds"] == Num(FormatNat(d.burstWindowSeconds))
      && "priority" in m && m["priority"] == Num(FormatInt(d.priority))
      && Member(m, "pathPrefix", AsOptString, None) == Some(d.pathPrefix)
      && Member(m, "httpMethod", AsOptString, None) == Some(d.httpMethod)
  {
  }

  lemma DdosRoundTrip(d: CompiledDdos)
    requires DdosTravels(d)
    ensures ReadDdos(WriteDdos(d)) == Some(d)
  {
    WrittenDdos(d);
    FormatParseInt(d.priority);
    FormatParseUint(d.requestRateThreshold, UINT32_LIMIT);
    FormatParseUint(d.burstWindowSeconds, UINT32_LIMIT);
    ActionRoundTrip(d.action);
  }

  lemma DdosListRoundTrip(ds: seq<CompiledDdos>)
    requires forall i :: 0 <= i < |ds| ==> DdosTravels(ds[i])
    ensures ReadDdosList(Arr(WriteDdosList(ds))) == Some(ds)
  {
    forall i | 0 <= i < |ds| ensures ReadDdos(WriteDdosList(ds)[i]) == Some(ds[i]) {
      DdosRoundTrip(ds[i]);
    }
    DecodedWhole(WriteDdosList(ds), ReadDdos, ds);
  }

  lemma RuleListRoundTrip(rs: seq<CompiledRule>)
    requires forall i :: 0 <= i < |rs| ==> RuleTravels(rs[i])
    ensures ReadRuleList(WriteRuleList(rs)) == Some(rs)
  {
    if rs != [] {
      var items := WriteRuleList(rs).items;
      forall i | 0 <= i < |rs| ensures ReadRule(items[i]) == Some(rs[i]) {
        RuleRoundTrip(rs[i]);
      }
      DecodedWhole(items, ReadRule, rs);
    }
  }

  lemma WrittenZone(z: CompiledZone)
    ensures var m := WriteZone(z).fields;
      && "schemaVersion" in m && m["schemaVersion"] == Num(FormatNat(z.schemaVersion))
      && "zoneId" in m && m["zoneId"] == Str(z.zoneId)
      && "tenantId" in m && m["tenantId"] == Str(z.tenantId)
      && "hostname" in m && m["hostname"] == Str(z.hostname)
      && "originAddress" in m && m["originAddress"] == Str(z.originAddress)
      && "status" in m && m["status"] == Str(z.status)
  {
  }

  lemma WrittenZoneRest(z: CompiledZone)
    ensures var m := WriteZone(z).fields;
      && "protectionMode" in m && m["protectionMode"] == Str(z.protectionMode)
      && "configVersion" in m && m["configVersion"] == Num(FormatInt(z.configVersion))
      && "ddos" in m && m["ddos"] == Arr(WriteDdosList(z.ddos))
      && "rules" in m && m["rules"] == WriteRuleList(z.rules)
      && "compiledAt" in m && m["compiledAt"] == Str(z.compiledAt)
  {
  }

  lemma ReadsZone(m: map<string, Json>, z: CompiledZone)
    requires Member(m, "schemaVersion", ReadUint32, 0) == Some(z.schemaVersion)
    requires Member(m, "zoneId", AsString, "") == Some(z.zoneId)
    requires Member(m, "tenantId", AsString, "") == Some(z.tenantId)
    requires Member(m, "hostname", AsString, "") == Some(z.hostname)
    requires Member(m, "originAddress", AsString, "") == Some(z.originAddress)
    requires Member(m, "status", AsString, "") == Some(z.status)
    requires Member(m, "protectionMode", AsString, "") == Some(z.protectionMode)
    requires Member(m, "configVersion", ReadInt64, 0) == Some(z.configVersion)
    requires Member(m, "ddos", ReadDdosList, []) == Some(z.ddos)
    requires Member(m, "rules", ReadRuleList, []) == Some(z.rules)
    requires Member(m, "compiledAt", AsString, "") == Some(z.compiledAt)
    ensures ReadZone(Obj(m)) == Some(z)
  {
  }

  lemma ZoneNumbersRead(m: map<string, Json>, z: CompiledZone)
    requires ZoneTravels(z)
    requires "schemaVersion" in m && m["schemaVersion"] == Num(FormatNat(z.schemaVersion))
    requires "configVersion" in m && m["configVersion"] == Num(FormatInt(z.configVersion))
    requires "ddos" in m && m["ddos"] == Arr(WriteDdosList(z.ddos))
    requires "rules" in m && m["rules"] == WriteRuleList(z.rules)
    ensures Member(m, "schemaVersion", ReadUint32, 0) == Some(z.schemaVersion)
    ensures Member(m, "configVersion", ReadInt64, 0) == Some(z.configVersion)
    ensures Member(m, "ddos", ReadDdosList, []) == Some(z.ddos)
    ensures Member(m, "rules", ReadRuleList, []) == Some(z.rules)
  {
    FormatParseUint(z.schemaVersion, UINT32_LIMIT);
    FormatParseInt(z.configVersion);
    DdosListRoundTrip(z.ddos);
    RuleListRoundTrip(z.rules);
  }

  /** What the control-plane publishes is what the edge reads. */
  lemma ZoneRoundTrip(z: CompiledZone)
    requires ZoneTravels(z)
    ensures ReadZone(WriteZone(z)) == Some(z)
  {
    var m := WriteZone(z).fields;
    WrittenZone(z);
    WrittenZoneRest(z);
    ZoneNumbersRead(m, z);
    ReadsZone(m, z);
  }

  // ---------------------------------------------------------------- what is refused

  /** The strict readers read exactly the names that are written, and never a zero value. */
  lemma NamesReadExactly(name: string)
    ensures forall f :: ReadField(Str(name)) == Some(f) <==> f != NoField && FieldName(f) == name
    ensures forall o :: ReadOp(Str(name)) == Some(o) <==> o != NoOp && OpName(o) == name
    ensures forall a :: ReadAction(Str(name)) == Some(a) <==> a != NoAction && ActionName(a) == name
  {
  }

  /** An expression is "always", or one of four keys on its own. */
  lemma OnlyKnownShapes(j: Json)
    ensures ReadMatch(j).Some? ==>
      j == Str("always")
      || (j.Obj? && |j.fields| == 1 && ("predicate" in j.fields || "all" in j.fields || "any" in j.fields || "not" in j.fields))
  {
  }

  /** A member that is missing is not refused: a predicate without a field or an operator is read, with neither. */
  lemma MissingMembersAreRead()
    ensures ReadPredicate(Obj(map[])) == Some(Predicate(NoField, NoOp, None, [], None))
  {
  }
}
