/**
 What an authored condition means, read straight off the JSON the author wrote: no compiled grammar,
 no wire. An operator is a relation between the attribute and an operand, possibly negated; a list of
 operands is satisfied by any one of them. The compiler, the wire and the evaluator must agree with it.
 */
module Meaning {
  import opened Wrappers
  import opened Json
  import opened Library
  import opened Ruleset
  import opened Matching
  import opened Parse
  import opened Wire
  import Text

  predicate Negates(op: string) {
    op in {"ne", "neq", "notEquals", "notContains", "notIn"}
  }

  predicate Relates(lib: Lib, op: string, actual: string, operand: string) {
    if op in {"contains", "notContains"} then Text.Contains(actual, operand)
    else if op in {"containsCi", "icontains"} then Text.Contains(lib.toLower(actual), lib.toLower(operand))
    else if op == "startsWith" then Text.HasPrefix(actual, operand)
    else if op == "endsWith" then Text.HasSuffix(actual, operand)
    else if op == "regex" then lib.regexMatches(operand, actual)
    else operand == actual
  }

  /** The request attribute an authored field name stands for. */
  function Attribute(lib: Lib, req: Request, m: map<string, Json>, field: string): string {
    if field in {"uri.path", "uriPath"} then req.path
    else if field in {"uri.query", "uriQuery"} then req.query
    else if field in {"method", "http.method"} then req.httpMethod
    else if field in {"userAgent", "http.userAgent"} then req.userAgent
    else if field in {"country", "geo.country"} then req.country
    else if field in {"header", "http.header"} then
      req.header(lib.toLower(StringAt(m, if "param" in m then "param" else "header").GetOr("")))
    else req.clientIpText
  }

  /** An address is in a network, or is the one address that is written. */
  predicate InNetwork(lib: Lib, address: string, text: string) {
    ('/' in text && lib.cidrContains(text, address)) || ('/' !in text && lib.sameAddress(text, address))
  }

  /** One operand, with the attribute the field names. */
  predicate Satisfies(lib: Lib, req: Request, m: map<string, Json>, field: string, op: string, operand: string) {
    if field in {"ip.cidr", "sourceIpCidr"} then InNetwork(lib, req.clientIp, operand)
    else Relates(lib, op, Attribute(lib, req, m, field), operand)
  }

  /** A number or a boolean is compared as the text it is written with. */
  function WrittenText(j: Json): string {
    match j
    case Str(s) => s
    case Num(t) => t
    case Bool(true) => "true"
    case Bool(false) => "false"
    case _ => ""
  }

  predicate TestHolds(lib: Lib, req: Request, m: map<string, Json>) {
    var field, op := StringAt(m, "field").GetOr(""), StringAt(m, "op").GetOr("");
    var positive :=
      if op in {"in", "notIn"} then
        && "values" in m && m["values"].Arr?
        && exists i | 0 <= i < |m["values"].items| ::
             IsText(m["values"].items[i]) && Satisfies(lib, req, m, field, op, WrittenText(m["values"].items[i]))
      else "value" in m && Satisfies(lib, req, m, field, op, WrittenText(m["value"]));
    positive != Negates(op)
  }

  predicate IsText(j: Json) { j.Str? || j.Null? }

  /** Whether a request satisfies an authored condition. */
  predicate Holds(lib: Lib, req: Request, j: Json) {
    match j
    case Obj(m) =>
      if "all" in m then
        m["all"].Arr? ==> forall i | 0 <= i < |m["all"].items| :: Holds(lib, req, m["all"].items[i])
      else if "any" in m then
        m["any"].Arr? && exists i | 0 <= i < |m["any"].items| :: Holds(lib, req, m["any"].items[i])
      else if "not" in m then !Holds(lib, req, m["not"])
      else TestHolds(lib, req, m)
    case _ => true
  }

  predicate ConditionHolds(lib: Lib, req: Request, condition: Option<Json>) {
    condition.None? || Holds(lib, req, condition.value)
  }

  /** What the operator name denotes, for one operand. */
  lemma OpMeaning(lib: Lib, req: Request, name: string, p: Predicate, operand: string)
    requires OpFrom(name) == Some(p.op) && p.field != SourceIpCidr
    requires p.op == Regex ==> lib.regexCompiles(operand)
    requires if p.op == In || p.op == NotIn then p.values == [operand] else p.value == Some(operand)
    ensures EvalPredicate(lib, req, p) == (Relates(lib, name, FieldValue(req, p), operand) != Negates(name))
  {
  }

  lemma NegatedOps(name: string)
    requires OpFrom(name).Some?
    ensures Negates(name) <==> OpFrom(name).value in {NotEq, NotIn, NotContains}
    ensures name in {"in", "notIn"} <==> OpFrom(name).value in {In, NotIn}
  {
  }

  lemma AttributeMeaning(lib: Lib, req: Request, m: map<string, Json>, name: string, p: Predicate)
    requires FieldFrom(name) == Some(p.field) && p.field != SourceIpCidr
    requires p.param == ParamOf(lib, m) && (p.field == Header ==> p.param.Some?)
    ensures Attribute(lib, req, m, name) == FieldValue(req, p)
  {
  }

  /** A bare address is compared, a network is searched; a library that knows which is which settles the rest. */
  lemma NetworkMeaning(lib: Lib, address: string, text: string)
    ensures IpInCidr(lib, address, text) <==> InNetwork(lib, address, text)
    ensures (lib.cidrContains(text, address) ==> '/' in text) && (lib.sameAddress(text, address) ==> '/' !in text) ==>
      (IpInCidr(lib, address, text) <==> lib.cidrContains(text, address) || lib.sameAddress(text, address))
  {
  }

  lemma CidrNames(name: string)
    requires FieldFrom(name).Some?
    ensures FieldFrom(name) == Some(SourceIpCidr) <==> name in {"ip.cidr", "sourceIpCidr"}
  {
  }

  /** The decoded operand list holds exactly the textual elements. */
  lemma {:induction false} DecodedOperands(items: seq<Json>, text: string)
    ensures text in StringsOf(items) <==> exists i :: 0 <= i < |items| && IsText(items[i]) && WrittenText(items[i]) == text
  {
    if items != [] {
      var last := items[|items| - 1];
      DecodedOperands(items[..|items| - 1], text);
      if IsText(last) && WrittenText(last) == text {
        assert items[|items| - 1] == last;
      }
    }
  }

  lemma ListSatisfied(lib: Lib, req: Request, m: map<string, Json>, field: string, op: string)
    requires "values" in m && m["values"].Arr?
    ensures var items := m["values"].items;
      (exists i :: 0 <= i < |items| && IsText(items[i]) && Satisfies(lib, req, m, field, op, WrittenText(items[i])))
      <==> exists k :: 0 <= k < |ValuesOf(m)| && Satisfies(lib, req, m, field, op, ValuesOf(m)[k])
  {
    var items, values := m["values"].items, ValuesOf(m);
    if i :| 0 <= i < |items| && IsText(items[i]) && Satisfies(lib, req, m, field, op, WrittenText(items[i])) {
      DecodedOperands(items, WrittenText(items[i]));
    }
    if k :| 0 <= k < |values| && Satisfies(lib, req, m, field, op, values[k]) {
      DecodedOperands(items, values[k]);
    }
  }

  lemma ListTestMeaning(lib: Lib, req: Request, m: map<string, Json>, field: string, name: string, p: Predicate)
    requires name in {"in", "notIn"} && OpFrom(name) == Some(p.op) && p.op in {In, NotIn}
    requires p.field == SourceIpCidr <==> field in {"ip.cidr", "sourceIpCidr"}
    requires p.field != SourceIpCidr ==> Attribute(lib, req, m, field) == FieldValue(req, p)
    requires "values" in m && m["values"].Arr? && p.values == ValuesOf(m)
    ensures var items := m["values"].items;
      EvalPredicate(lib, req, p)
        == ((exists i :: 0 <= i < |items| && IsText(items[i]) && Satisfies(lib, req, m, field, name, WrittenText(items[i]))) != Negates(name))
  {
    NegatedOps(name);
    ListSatisfied(lib, req, m, field, name);
    if p.field != SourceIpCidr {
      MembershipMeaning(lib, name, FieldValue(req, p), p.values);
    }
  }

  lemma ValueTestMeaning(lib: Lib, req: Request, m: map<string, Json>, field: string, name: string, p: Predicate)
    requires OpFrom(name) == Some(p.op) && p.op !in {In, NotIn} && p.value.Some?
    requires p.op == Regex ==> lib.regexCompiles(p.value.value)
    requires p.field == SourceIpCidr <==> field in {"ip.cidr", "sourceIpCidr"}
    requires p.field != SourceIpCidr ==> Attribute(lib, req, m, field) == FieldValue(req, p)
    ensures EvalPredicate(lib, req, p) == (Satisfies(lib, req, m, field, name, p.value.value) != Negates(name))
  {
    NegatedOps(name);
    if p.field != SourceIpCidr {
      OpMeaning(lib, req, name, p, p.value.value);
    }
  }

  lemma TestMeaning(lib: Lib, req: Request, m: map<string, Json>, p: Predicate)
    requires ParsedTest(lib, m) == Some(Test(p))
    ensures EvalPredicate(lib, req, p) == TestHolds(lib, req, m)
  {
    var field, name := StringAt(m, "field").value, StringAt(m, "op").value;
    NegatedOps(name);
    CidrNames(field);
    if p.field != SourceIpCidr {
      AttributeMeaning(lib, req, m, field, p);
    }
    if p.op == In || p.op == NotIn {
      ListTestMeaning(lib, req, m, field, name, p);
    } else {
      ValueTestMeaning(lib, req, m, field, name, p);
    }
  }

  lemma MembershipMeaning(lib: Lib, name: string, actual: string, operands: seq<string>)
    requires name in {"in", "notIn"}
    ensures actual in operands <==> exists i :: 0 <= i < |operands| && Relates(lib, name, actual, operands[i])
  {
    forall i | 0 <= i < |operands| ensures Relates(lib, name, actual, operands[i]) <==> operands[i] == actual {
    }
  }

  /** Evaluating the compiled condition is deciding the authored one. */
  lemma {:induction false} ParsedMeaning(lib: Lib, req: Request, j: Json)
    requires Parsed(lib, j).Some?
    ensures EvalMatch(lib, req, Parsed(lib, j).value) == Holds(lib, req, j)
  {
    match j
    case Null =>
    case Obj(m) =>
      if "all" in m {
        if m["all"].Arr? {
          var items := m["all"].items;
          var es := ParsedEach(lib, items).value;
          forall i | 0 <= i < |items| ensures EvalMatch(lib, req, es[i]) == Holds(lib, req, items[i]) {
            ParsedMeaning(lib, req, items[i]);
          }
          assert Parsed(lib, j) == Some(All(es));
        }
      } else if "any" in m {
        if m["any"].Arr? {
          var items := m["any"].items;
          var es := ParsedEach(lib, items).value;
          forall i | 0 <= i < |items| ensures EvalMatch(lib, req, es[i]) == Holds(lib, req, items[i]) {
            ParsedMeaning(lib, req, items[i]);
          }
          assert Parsed(lib, j) == Some(Any(es));
        }
      } else if "not" in m {
        ParsedMeaning(lib, req, m["not"]);
      } else {
        TestMeaning(lib, req, m, ParsedTest(lib, m).value.test);
      }
    case _ =>
  }

  /** Nothing the compiler emits is refused by the edge. */
  lemma {:induction false} ParsedTravels(lib: Lib, j: Json)
    requires Parsed(lib, j).Some?
    ensures MatchTravels(Parsed(lib, j).value)
  {
    match j
    case Obj(m) =>
      if "all" in m {
        if m["all"].Arr? {
          forall i | 0 <= i < |m["all"].items| {
            ParsedTravels(lib, m["all"].items[i]);
          }
        }
      } else if "any" in m {
        if m["any"].Arr? {
          forall i | 0 <= i < |m["any"].items| {
            ParsedTravels(lib, m["any"].items[i]);
          }
        }
      } else if "not" in m {
        ParsedTravels(lib, m["not"]);
      }
    case _ =>
  }

  /**
   The whole path of a condition: authored, compiled, published, read back at the edge and evaluated.
   What the edge decides is what the author wrote.
   */
  lemma ConditionMeaning(lib: Lib, req: Request, condition: Option<Json>)
    requires ParsedCondition(lib, condition).Some?
    ensures var e := ParsedCondition(lib, condition).value;
      ReadMatch(WriteMatch(e)) == Some(e) && EvalMatch(lib, req, e) == ConditionHolds(lib, req, condition)
  {
    var e := ParsedCondition(lib, condition).value;
    if condition.Some? {
      ParsedMeaning(lib, req, condition.value);
      ParsedTravels(lib, condition.value);
    }
    MatchRoundTrip(e);
  }

  /** The names on the wire are names an author may use, but for the one of inequality, and say the same. */
  lemma WireNamesAreAuthored(f: Field, o: Op)
    ensures f != NoField ==> FieldFrom(FieldName(f)) == Some(f)
    ensures o != NoOp && o != NotEq ==> OpFrom(OpName(o)) == Some(o)
    ensures OpName(NotEq) == "notEq" && OpFrom("notEq") == None
  {
  }
}
