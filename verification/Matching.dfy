/** The edge's decision: what one compiled condition says about one request. */
module Matching {
  import opened Wrappers
  import opened Library
  import opened Ruleset
  import Text

  /** What a condition can test. `header` is the case-insensitive lookup, "" when absent. */
  datatype Request = Request(
    httpMethod: string,
    path: string,
    query: string,
    clientIp: string,        // the parsed address
    clientIpText: string,    // its text, also the key of every budget
    userAgent: string,
    header: string -> string,
    country: string)

  /** A network is matched by containment, a bare address exactly. */
  predicate IpInCidr(lib: Lib, ip: string, cidr: string) {
    if '/' in cidr then lib.cidrContains(cidr, ip) else lib.sameAddress(cidr, ip)
  }

  function FieldValue(req: Request, p: Predicate): string {
    match p.field
    case UriPath => req.path
    case UriQuery => req.query
    case Method => req.httpMethod
    case UserAgent => req.userAgent
    case SourceIp => req.clientIpText
    case SourceIpCidr => req.clientIpText
    case Country => req.country
    case Header => if p.param.Some? then req.header(p.param.value) else ""
    case NoField => ""
  }

  predicate EvalCidr(lib: Lib, req: Request, p: Predicate) {
    var inside :=
      if p.op == In || p.op == NotIn then exists i | 0 <= i < |p.values| :: IpInCidr(lib, req.clientIp, p.values[i])
      else p.value.Some? && IpInCidr(lib, req.clientIp, p.value.value);
    if p.op == NotEq || p.op == NotIn || p.op == NotContains then !inside else inside
  }

  predicate EvalPredicate(lib: Lib, req: Request, p: Predicate) {
    if p.field == SourceIpCidr then EvalCidr(lib, req, p)
    else
      var actual := FieldValue(req, p);
      match p.op
      case Eq => p.value.Some? && p.value.value == actual
      case NotEq => p.value.None? || p.value.value != actual
      case Contains => p.value.Some? && Text.Contains(actual, p.value.value)
      case NotContains => p.value.None? || !Text.Contains(actual, p.value.value)
      case StartsWith => p.value.Some? && Text.HasPrefix(actual, p.value.value)
      case EndsWith => p.value.Some? && Text.HasSuffix(actual, p.value.value)
      case In => actual in p.values
      case NotIn => actual !in p.values
      case ContainsCi => p.value.Some? && Text.Contains(lib.toLower(actual), lib.toLower(p.value.value))
      case Regex => p.value.Some? && lib.regexCompiles(p.value.value) && lib.regexMatches(p.value.value, actual)
      case NoOp => false
  }

  /**
   What is missing or wrong in a rule-set never widens it: without an operator nothing matches but a network
   test, and a pattern that does not compile matches nothing; an attribute that is not named is empty.
   */
  lemma NothingWidens(lib: Lib, req: Request, p: Predicate)
    ensures p.op == NoOp ==>
      (EvalPredicate(lib, req, p) <==> p.field == SourceIpCidr && p.value.Some? && IpInCidr(lib, req.clientIp, p.value.value))
    ensures p.op == Regex && p.field != SourceIpCidr && EvalPredicate(lib, req, p) ==>
      p.value.Some? && lib.regexCompiles(p.value.value) && lib.regexMatches(p.value.value, FieldValue(req, p))
    ensures p.field == NoField && p.op == Eq && EvalPredicate(lib, req, p) ==> p.value == Some("")
    ensures p.field == NoField && p.op == In && EvalPredicate(lib, req, p) ==> "" in p.values
    ensures p.field == Header && p.param.None? && p.op == Eq && EvalPredicate(lib, req, p) ==> p.value == Some("")
  {
  }

  predicate EvalMatch(lib: Lib, req: Request, e: MatchExpr) {
    match e
    case Always => true
    case Test(p) => EvalPredicate(lib, req, p)
    case All(children) => forall i | 0 <= i < |children| :: EvalMatch(lib, req, children[i])
    case Any(children) => exists i | 0 <= i < |children| :: EvalMatch(lib, req, children[i])
    case Not(inner) => !EvalMatch(lib, req, inner)
  }
}
