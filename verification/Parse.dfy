/** `ParseMatch`: from the condition an author wrote to the compiled grammar. */
module Parse {
  import opened Wrappers
  import opened Json
  import opened Library
  import opened Ruleset

  function FieldFrom(raw: string): Option<Field> {
    if raw == "uri.path" || raw == "uriPath" then Some(UriPath)
    else if raw == "uri.query" || raw == "uriQuery" then Some(UriQuery)
    else if raw == "method" || raw == "http.method" then Some(Method)
    else if raw == "header" || raw == "http.header" then Some(Header)
    else if raw == "ip" || raw == "source.ip" || raw == "sourceIp" then Some(SourceIp)
    else if raw == "ip.cidr" || raw == "sourceIpCidr" then Some(SourceIpCidr)
    else if raw == "country" || raw == "geo.country" then Some(Country)
    else if raw == "userAgent" || raw == "http.userAgent" then Some(UserAgent)
    else None
  }

  function OpFrom(raw: string): Option<Op> {
    if raw == "eq" || raw == "equals" then Some(Eq)
    else if raw == "ne" || raw == "neq" || raw == "notEquals" then Some(NotEq)
    else if raw == "contains" then Some(Contains)
    else if raw == "notContains" then Some(NotContains)
    else if raw == "containsCi" || raw == "icontains" then Some(ContainsCi)
    else if raw == "startsWith" then Some(StartsWith)
    else if raw == "endsWith" then Some(EndsWith)
    else if raw == "in" then Some(In)
    else if raw == "notIn" then Some(NotIn)
    else if raw == "regex" then Some(Regex)
    else None
  }

  /** A string member; None when it is missing or of another type. */
  function StringAt(m: map<string, Json>, key: string): Option<string> {
    if key in m then AsString(m[key]) else None
  }

  /** A scalar as text; `null` decodes into the empty string. */
  function ScalarText(j: Json): Option<string> {
    match j
    case Null => Some("")
    case Str(s) => Some(s)
    case Num(t) => Some(t)
    case Bool(b) => Some(if b then "true" else "false")
    case _ => None
  }

  function ValueOf(m: map<string, Json>): Option<string> {
    if "value" in m then ScalarText(m["value"]) else None
  }

  /** The elements that decode as strings, in order; the others are skipped. */
  function StringsOf(items: seq<Json>): seq<string> {
    if items == [] then []
    else
      var last := AsString(items[|items| - 1]);
      StringsOf(items[..|items| - 1]) + (if last.Some? then [last.value] else [])
  }

  function ValuesOf(m: map<string, Json>): seq<string> {
    if "values" in m && m["values"].Arr? then StringsOf(m["values"].items) else []
  }

  /** `header` is read only when `param` is missing, not when `param` has another type. */
  function ParamOf(lib: Lib, m: map<string, Json>): Option<string> {
    var raw := if "param" in m then StringAt(m, "param") else StringAt(m, "header");
    if raw.Some? then Some(lib.toLower(raw.value)) else None
  }

  function FieldAt(m: map<string, Json>): Option<Field> {
    var name := StringAt(m, "field");
    if name.Some? then FieldFrom(name.value) else None
  }

  function OpAt(m: map<string, Json>): Option<Op> {
    var name := StringAt(m, "op");
    if name.Some? then OpFrom(name.value) else None
  }

  /** The rest of a test once its field and operator are known. */
  function TestOf(lib: Lib, m: map<string, Json>, field: Field, op: Op): Option<MatchExpr> {
    var value, values, param := ValueOf(m), ValuesOf(m), ParamOf(lib, m);
    if (if op == In || op == NotIn then values == [] else value.None?) then None
    else if field == Header && param.None? then None
    else if op == Regex && !lib.regexCompiles(value.value) then None
    else Some(Test(Predicate(field, op, value, values, param)))
  }

  function ParsedTest(lib: Lib, m: map<string, Json>): Option<MatchExpr> {
    if FieldAt(m).None? || OpAt(m).None? then None else TestOf(lib, m, FieldAt(m).value, OpAt(m).value)
  }

  /** What `ParseMatch` returns: None for anything the compiled grammar cannot represent. */
  function Parsed(lib: Lib, raw: Json): Option<MatchExpr> {
    match raw
    case Null => Some(Always)
    case Obj(m) =>
      if "all" in m then
        if m["all"].Null? then Some(All([]))
        else if m["all"].Arr? then
          match ParsedEach(lib, m["all"].items) {
            case Some(es) => Some(All(es))
            case None => None
          }
        else None
      else if "any" in m then
        if m["any"].Null? then Some(Any([]))
        else if m["any"].Arr? then
          match ParsedEach(lib, m["any"].items) {
            case Some(es) => Some(Any(es))
            case None => None
          }
        else None
      else if "not" in m then
        match Parsed(lib, m["not"]) {
          case Some(e) => Some(Not(e))
          case None => None
        }
      else ParsedTest(lib, m)
    case _ => None
  }

  function ParsedEach(lib: Lib, items: seq<Json>): Option<seq<MatchExpr>> {
    if forall i | 0 <= i < |items| :: Parsed(lib, items[i]).Some?
    then Some(seq(|items|, i requires 0 <= i < |items| && Parsed(lib, items[i]).Some? => Parsed(lib, items[i]).value))
    else None
  }

  /** A missing condition matches every request. */
  function ParsedCondition(lib: Lib, raw: Option<Json>): Option<MatchExpr> {
    if raw.None? then Some(Always) else Parsed(lib, raw.value)
  }

  method ParseList(lib: Lib, items: seq<Json>) returns (r: Option<seq<MatchExpr>>)
    ensures r == ParsedEach(lib, items)
    decreases items, 0
  {
    var parsed: seq<MatchExpr> := [];
    for i := 0 to |items|
      invariant |parsed| == i
      invariant forall k :: 0 <= k < i ==> Parsed(lib, items[k]) == Some(parsed[k])
    {
      var expr := ParseMatch(lib, items[i]);
      if expr.None? {
        return None;
      }
      parsed := parsed + [expr.value];
    }
    assert parsed == ParsedEach(lib, items).value;
    return Some(parsed);
  }

  method DecodeValues(m: map<string, Json>) returns (values: seq<string>)
    ensures values == ValuesOf(m)
  {
    values := [];
    if "values" in m && m["values"].Arr? {
      var raw := m["values"].items;
      for i := 0 to |raw|
        invariant values == StringsOf(raw[..i])
      {
        assert raw[..i + 1][..i] == raw[..i];
        match AsString(raw[i]) {
          case Some(s) => values := values + [s];
          case None =>
        }
      }
      assert raw[..|raw|] == raw;
    }
  }

  method ParseMatch(lib: Lib, raw: Json) returns (r: Option<MatchExpr>)
    ensures r == Parsed(lib, raw)
    decreases raw
  {
    if raw.Null? {
      return Some(Always);
    }
    if !raw.Obj? {
      return None;
    }
    var authored := raw.fields;
    if "all" in authored {
      var list := authored["all"];
      if list.Null? {
        return Some(All([]));
      }
      if !list.Arr? {
        return None;
      }
      var parsed := ParseList(lib, list.items);
      return if parsed.Some? then Some(All(parsed.value)) else None;
    }
    if "any" in authored {
      var list := authored["any"];
      if list.Null? {
        return Some(Any([]));
      }
      if !list.Arr? {
        return None;
      }
      var parsed := ParseList(lib, list.items);
      return if parsed.Some? then Some(Any(parsed.value)) else None;
    }
    if "not" in authored {
      var inner := ParseMatch(lib, authored["not"]);
      return if inner.Some? then Some(Not(inner.value)) else None;
    }
    if FieldAt(authored).None? || OpAt(authored).None? {
      return None;
    }
    var field, op := FieldAt(authored).value, OpAt(authored).value;
    var values := DecodeValues(authored);
    var value := ValueOf(authored);
    if op == In || op == NotIn {
      if |values| == 0 {
        return None;
      }
    } else if value.None? {
      return None;
    }
    var param := ParamOf(lib, authored);
    if field == Header && param.None? {
      return None;
    }
    if op == Regex && !lib.regexCompiles(value.value) {
      return None;
    }
    return Some(Test(Predicate(field, op, value, values, param)));
  }
}
