/**
 The save-time validator: a second implementation of the authoring grammar, which only answers yes or
 no. Where it disagrees with the compiler, a saved rule silently disappears or a good rule is refused.
 */
module Validator {
  import opened Wrappers
  import opened Json
  import opened Library
  import opened Ruleset
  import opened Parse

  predicate KnownField(name: string) {
    name in {"uri.path", "uriPath", "uri.query", "uriQuery", "method", "http.method", "header", "http.header",
             "ip", "source.ip", "sourceIp", "ip.cidr", "sourceIpCidr", "country", "geo.country",
             "userAgent", "http.userAgent"}
  }

  predicate KnownOp(name: string) {
    name in {"eq", "equals", "ne", "neq", "notEquals", "contains", "notContains", "containsCi", "icontains",
             "startsWith", "endsWith", "in", "notIn", "regex"}
  }

  predicate IsValidTest(lib: Lib, m: map<string, Json>) {
    && "field" in m && m["field"].Str? && KnownField(m["field"].s)
    && "op" in m && m["op"].Str? && KnownOp(m["op"].s)
    && AreValidOperands(lib, m, m["field"].s, m["op"].s)
  }

  predicate AreValidOperands(lib: Lib, m: map<string, Json>, field: string, op: string) {
    && (if op == "in" || op == "notIn"
        then "values" in m && m["values"].Arr? && m["values"].items != []
        else "value" in m && !m["value"].Null?)
    && (field == "header" || field == "http.header" ==>
          ("param" in m && m["param"].Str?) || ("header" in m && m["header"].Str?))
    && (op == "regex" ==> "value" in m && m["value"].Str? && lib.regexCompiles(m["value"].s))
  }

  predicate IsValid(lib: Lib, j: Json) {
    match j
    case Null => true
    case Obj(m) =>
      if "all" in m && m["all"].Arr? then forall i | 0 <= i < |m["all"].items| :: IsValid(lib, m["all"].items[i])
      else if "any" in m && m["any"].Arr? then forall i | 0 <= i < |m["any"].items| :: IsValid(lib, m["any"].items[i])
      else if "not" in m then IsValid(lib, m["not"])
      else IsValidTest(lib, m)
    case _ => false
  }

  /** Every number, wherever it stands, is within the range of a float64. */
  predicate Decodes(lib: Lib, j: Json) {
    match j
    case Num(text) => lib.truncatedFloat(text).Some?
    case Arr(items) => forall i | 0 <= i < |items| :: Decodes(lib, items[i])
    case Obj(m) => forall k | k in m :: Decodes(lib, m[k])
    case _ => true
  }

  /** `IsValidMatchCondition`: an absent condition is valid, one that does not decode is not. */
  predicate IsValidCondition(lib: Lib, condition: Option<Json>) {
    condition.None? || (Decodes(lib, condition.value) && IsValid(lib, condition.value))
  }

  // ---------------------------------------------------------------- agreement on well-typed conditions

  predicate TypedTest(m: map<string, Json>) {
    && ("values" in m ==> m["values"].Arr? && forall i | 0 <= i < |m["values"].items| :: m["values"].items[i].Str?)
    && ("value" in m ==> m["value"].Str? || ((m["value"].Num? || m["value"].Bool?) && ("op" in m ==> m["op"] != Str("regex"))))
    && ("param" in m ==> m["param"].Str?)
    && ("header" in m ==> m["header"].Str?)
  }

  /** Every `all` and `any` is an array, every test has members of the expected types. */
  predicate WellTyped(j: Json) {
    match j
    case Obj(m) =>
      if "all" in m then m["all"].Arr? && forall i | 0 <= i < |m["all"].items| :: WellTyped(m["all"].items[i])
      else if "any" in m then m["any"].Arr? && forall i | 0 <= i < |m["any"].items| :: WellTyped(m["any"].items[i])
      else if "not" in m then WellTyped(m["not"])
      else TypedTest(m)
    case _ => true
  }

  lemma {:induction false} SomeString(items: seq<Json>)
    ensures StringsOf(items) != [] <==> exists i :: 0 <= i < |items| && AsString(items[i]).Some?
  {
    if items != [] {
      SomeString(items[..|items| - 1]);
      var last := |items| - 1;
      if AsString(items[last]).Some? {
      }
    }
  }

  /** The two vocabularies are the same set of names. */
  lemma SameVocabulary(name: string)
    ensures KnownField(name) <==> FieldFrom(name).Some?
    ensures KnownOp(name) <==> OpFrom(name).Some?
    ensures FieldFrom(name) == Some(Header) <==> name == "header" || name == "http.header"
    ensures OpFrom(name) == Some(Regex) <==> name == "regex"
    ensures OpFrom(name) == Some(In) || OpFrom(name) == Some(NotIn) <==> name == "in" || name == "notIn"
  {
  }

  /** What a field or operator name denotes, as far as operands are concerned. */
  predicate Denotes(field: string, op: string, f: Field, o: Op) {
    && (f == Header <==> field == "header" || field == "http.header")
    && (o == Regex <==> op == "regex")
    && (o == In || o == NotIn <==> op == "in" || op == "notIn")
  }

  lemma OperandAgreement(lib: Lib, m: map<string, Json>, field: string, op: string, f: Field, o: Op)
    requires TypedTest(m) && "op" in m && m["op"] == Str(op) && Denotes(field, op, f, o)
    ensures AreValidOperands(lib, m, field, op) <==> TestOf(lib, m, f, o).Some?
  {
    if "values" in m {
      SomeString(m["values"].items);
    }
  }

  lemma TypedTestAgreement(lib: Lib, m: map<string, Json>)
    requires TypedTest(m)
    ensures IsValidTest(lib, m) <==> ParsedTest(lib, m).Some?
  {
    SameVocabulary("");
    if StringAt(m, "field").Some? && StringAt(m, "op").Some? {
      var field, op := StringAt(m, "field").value, StringAt(m, "op").value;
      SameVocabulary(field);
      SameVocabulary(op);
      if KnownField(field) && KnownOp(op) {
        OperandAgreement(lib, m, field, op, FieldFrom(field).value, OpFrom(op).value);
      }
    }
  }

  /** On a well-typed condition of any depth the validator says yes exactly when the compiler compiles. */
  lemma {:induction false} ValidatorAgrees(lib: Lib, j: Json)
    requires WellTyped(j)
    ensures IsValid(lib, j) <==> Parsed(lib, j).Some?
  {
    match j
    case Obj(m) =>
      if "all" in m {
        forall i | 0 <= i < |m["all"].items| {
          ValidatorAgrees(lib, m["all"].items[i]);
        }
      } else if "any" in m {
        forall i | 0 <= i < |m["any"].items| {
          ValidatorAgrees(lib, m["any"].items[i]);
        }
      } else if "not" in m {
        ValidatorAgrees(lib, m["not"]);
      } else {
        TypedTestAgreement(lib, m);
      }
    case _ =>
  }

  /**
   What may be saved is what will be compiled, for well-typed conditions whose numbers fit a float64; with a
   larger number the validator refuses what the compiler, which keeps numbers as text, compiles.
   */
  lemma SavableIsCompilable(lib: Lib, condition: Option<Json>)
    requires condition.Some? ==> WellTyped(condition.value)
    ensures IsValidCondition(lib, condition)
      <==> ParsedCondition(lib, condition).Some? && (condition.Some? ==> Decodes(lib, condition.value))
  {
    if condition.Some? {
      ValidatorAgrees(lib, condition.value);
    }
  }

  // ---------------------------------------------------------------- disagreement, exactly

  /** A test the validator accepts although the compiler cannot read its operand or its header name. */
  predicate UnreadableTest(m: map<string, Json>) {
    || ("op" in m && m["op"] in {Str("in"), Str("notIn")}
        && "values" in m && m["values"].Arr? && forall i | 0 <= i < |m["values"].items| :: AsString(m["values"].items[i]).None?)
    || ("op" in m && m["op"] !in {Str("in"), Str("notIn")}
        && "value" in m && (m["value"].Arr? || m["value"].Obj?))
    || ("field" in m && m["field"] in {Str("header"), Str("http.header")}
        && "param" in m && AsString(m["param"]).None?)
  }

  /** Somewhere in the condition: a combinator of the wrong type, or an unreadable test. */
  predicate Unreadable(j: Json) {
    match j
    case Obj(m) =>
      if "all" in m then !m["all"].Null? && (m["all"].Arr? ==> exists i | 0 <= i < |m["all"].items| :: Unreadable(m["all"].items[i]))
      else if "any" in m then !m["any"].Null? && (m["any"].Arr? ==> exists i | 0 <= i < |m["any"].items| :: Unreadable(m["any"].items[i]))
      else if "not" in m then Unreadable(m["not"])
      else UnreadableTest(m)
    case _ => false
  }

  lemma OperandDropped(lib: Lib, m: map<string, Json>, field: string, op: string, f: Field, o: Op)
    requires "field" in m && m["field"] == Str(field) && "op" in m && m["op"] == Str(op) && Denotes(field, op, f, o)
    requires AreValidOperands(lib, m, field, op)
    ensures TestOf(lib, m, f, o).None? <==> UnreadableTest(m)
  {
    if "values" in m && m["values"].Arr? {
      SomeString(m["values"].items);
    }
  }

  lemma TestDroppedAfterSaving(lib: Lib, m: map<string, Json>)
    requires IsValidTest(lib, m)
    ensures ParsedTest(lib, m).None? <==> UnreadableTest(m)
  {
    var field, op := m["field"].s, m["op"].s;
    SameVocabulary(field);
    SameVocabulary(op);
    OperandDropped(lib, m, field, op, FieldFrom(field).value, OpFrom(op).value);
  }

  /** A condition the validator accepted is dropped by the compiler if and only if it is unreadable. */
  lemma {:induction false} DroppedAfterSaving(lib: Lib, j: Json)
    requires IsValid(lib, j)
    ensures Parsed(lib, j).None? <==> Unreadable(j)
  {
    match j
    case Obj(m) =>
      if "all" in m {
        if m["all"].Arr? {
          forall i | 0 <= i < |m["all"].items| {
            DroppedAfterSaving(lib, m["all"].items[i]);
          }
        }
      } else if "any" in m {
        if m["any"].Arr? {
          forall i | 0 <= i < |m["any"].items| {
            DroppedAfterSaving(lib, m["any"].items[i]);
          }
        }
      } else if "not" in m {
        DroppedAfterSaving(lib, m["not"]);
      } else {
        TestDroppedAfterSaving(lib, m);
      }
    case _ =>
  }

  /** An input: a country list of numbers may be saved and is dropped. */
  lemma NumbersInAListAreDropped(lib: Lib, m: map<string, Json>)
    requires m == map["field" := Str("country"), "op" := Str("in"), "values" := Arr([Num("5")])]
    ensures IsValid(lib, Obj(m)) && Parsed(lib, Obj(m)).None?
  {
    assert m["field"] == Str("country") && m["op"] == Str("in") && m["values"] == Arr([Num("5")]);
    assert "all" !in m && "any" !in m && "not" !in m;
    assert IsValidTest(lib, m) && UnreadableTest(m);
    TestDroppedAfterSaving(lib, m);
  }

  // ---------------------------------------------------------------- the other way round, exactly

  /**
   A test the compiler reads although the validator refuses it: a null operand, a pattern that is not a
   string, or a header without a string to name it.
   */
  predicate RefusedTest(m: map<string, Json>) {
    || ("op" in m && m["op"] !in {Str("in"), Str("notIn")} && "value" in m && m["value"].Null?)
    || ("op" in m && m["op"] == Str("regex") && "value" in m && !m["value"].Str?)
    || ("field" in m && m["field"] in {Str("header"), Str("http.header")}
        && !("param" in m && m["param"].Str?) && !("header" in m && m["header"].Str?))
  }

  /** What the validator goes on with when it passes over a combinator that is not an array. */
  function Beside(m: map<string, Json>): Json {
    Obj(if "all" in m then m - {"all"} else m - {"any"})
  }

  /**
   Somewhere in the condition: a refused test, or a null `all` or `any` (an empty list to the compiler) beside
   which there is no valid condition.
   */
  predicate Refused(lib: Lib, j: Json) {
    match j
    case Obj(m) =>
      if "all" in m && m["all"].Arr? then exists i | 0 <= i < |m["all"].items| :: Refused(lib, m["all"].items[i])
      else if "all" in m then !IsValid(lib, Beside(m))
      else if "any" in m && m["any"].Arr? then exists i | 0 <= i < |m["any"].items| :: Refused(lib, m["any"].items[i])
      else if "any" in m then !IsValid(lib, Beside(m))
      else if "not" in m then Refused(lib, m["not"])
      else RefusedTest(m)
    case _ => false
  }

  lemma OperandRefused(lib: Lib, m: map<string, Json>, field: string, op: string, f: Field, o: Op)
    requires "field" in m && AsString(m["field"]) == Some(field) && m["field"].Str?
    requires "op" in m && AsString(m["op"]) == Some(op) && m["op"].Str?
    requires Denotes(field, op, f, o) && TestOf(lib, m, f, o).Some?
    ensures !AreValidOperands(lib, m, field, op) <==> RefusedTest(m)
  {
    if "values" in m && m["values"].Arr? {
      SomeString(m["values"].items);
    }
  }

  lemma TestRefused(lib: Lib, m: map<string, Json>)
    requires ParsedTest(lib, m).Some?
    ensures !IsValidTest(lib, m) <==> RefusedTest(m)
  {
    var field, op := StringAt(m, "field").value, StringAt(m, "op").value;
    SameVocabulary(field);
    SameVocabulary(op);
    SameVocabulary("");
    OperandRefused(lib, m, field, op, FieldFrom(field).value, OpFrom(op).value);
  }

  lemma SameTest(lib: Lib, m: map<string, Json>, rest: map<string, Json>)
    requires forall k :: k !in {"all", "any"} ==> (k in rest <==> k in m) && (k in m ==> rest[k] == m[k])
    ensures IsValidTest(lib, m) <==> IsValidTest(lib, rest)
    ensures "not" in m <==> "not" in rest
    ensures "not" in m ==> rest["not"] == m["not"]
  {
    assert "field" !in {"all", "any"} && "op" !in {"all", "any"} && "value" !in {"all", "any"} && "values" !in {"all", "any"};
    assert "param" !in {"all", "any"} && "header" !in {"all", "any"} && "not" !in {"all", "any"};
  }

  /** The validator passes over a combinator that is not an array as if it were not there. */
  lemma PassedOver(lib: Lib, m: map<string, Json>)
    requires if "all" in m then !m["all"].Arr? else "any" in m && !m["any"].Arr?
    ensures IsValid(lib, Obj(m)) <==> IsValid(lib, Beside(m))
  {
    var rest := Beside(m).fields;
    SameTest(lib, m, rest);
    assert "all" !in rest;
    assert "all" in m ==> ("any" in rest <==> "any" in m) && ("any" in m ==> rest["any"] == m["any"]);
  }

  /** A condition that compiles is refused by the validator if and only if `Refused` says so. */
  lemma {:induction false} RefusedThoughCompilable(lib: Lib, j: Json)
    requires Parsed(lib, j).Some?
    ensures !IsValid(lib, j) <==> Refused(lib, j)
  {
    match j
    case Obj(m) =>
      if "all" in m {
        if m["all"].Arr? {
          forall i | 0 <= i < |m["all"].items| {
            RefusedThoughCompilable(lib, m["all"].items[i]);
          }
        } else {
          PassedOver(lib, m);
        }
      } else if "any" in m {
        if m["any"].Arr? {
          forall i | 0 <= i < |m["any"].items| {
            RefusedThoughCompilable(lib, m["any"].items[i]);
          }
        } else {
          PassedOver(lib, m);
        }
      } else if "not" in m {
        RefusedThoughCompilable(lib, m["not"]);
      } else {
        TestRefused(lib, m);
      }
    case _ =>
  }

  /** The validator and the compiler part ways. */
  predicate Drifts(lib: Lib, j: Json) {
    Parsed(lib, j).Some? && !IsValid(lib, j)
  }

  lemma DriftingTest(lib: Lib, m: map<string, Json>)
    requires "all" !in m && "any" !in m && "not" !in m && ParsedTest(lib, m).Some? && RefusedTest(m)
    ensures Drifts(lib, Obj(m))
  {
    TestRefused(lib, m);
  }

  /** A null operand drifts. */
  lemma NullOperandDrifts(lib: Lib)
    ensures Drifts(lib, Obj(map["field" := Str("country"), "op" := Str("eq"), "value" := Null]))
  {
    var m := map["field" := Str("country"), "op" := Str("eq"), "value" := Null];
    assert m["field"] == Str("country") && m["op"] == Str("eq") && m["value"] == Null;
    DriftingTest(lib, m);
  }

  /** A number where a pattern is expected drifts. */
  lemma NumericPatternDrifts(lib: Lib)
    requires lib.regexCompiles("5")
    ensures Drifts(lib, Obj(map["field" := Str("country"), "op" := Str("regex"), "value" := Num("5")]))
  {
    var m := map["field" := Str("country"), "op" := Str("regex"), "value" := Num("5")];
    assert m["field"] == Str("country") && m["op"] == Str("regex") && m["value"] == Num("5");
    DriftingTest(lib, m);
  }

  /** A null header name drifts. */
  lemma NullHeaderNameDrifts(lib: Lib)
    ensures Drifts(lib, Obj(map["field" := Str("header"), "op" := Str("eq"), "value" := Str(""), "param" := Null]))
  {
    var m := map["field" := Str("header"), "op" := Str("eq"), "value" := Str(""), "param" := Null];
    assert m["field"] == Str("header") && m["op"] == Str("eq") && m["value"] == Str("") && m["param"] == Null;
    DriftingTest(lib, m);
  }

  /** So does a null list of conditions. */
  lemma NullListDrifts(lib: Lib)
    ensures Drifts(lib, Obj(map["all" := Null]))
  {
    var m := map["all" := Null];
    assert Beside(m) == Obj(map[]);
    PassedOver(lib, m);
  }
}
