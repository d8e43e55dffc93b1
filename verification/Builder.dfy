/** The portal's rule builder: an editor over flat conditions, and what saving a condition back keeps. */
module Builder {
  import opened Wrappers
  import opened Json
  import opened Library
  import opened Ruleset
  import opened Matching
  import opened Parse
  import opened Meaning

  datatype Combinator = AllOf | AnyOf

  datatype Row = Row(field: string, op: string, value: string, values: seq<string>, param: string)

  datatype BuilderState = BuilderState(combinator: Combinator, rows: seq<Row>)

  predicate IsField(name: string) {
    name in {"uri.path", "uri.query", "method", "header", "sourceIp", "sourceIpCidr", "country", "userAgent"}
  }

  predicate IsOp(name: string) {
    name in {"eq", "ne", "contains", "notContains", "containsCi", "startsWith", "endsWith", "in", "notIn", "regex"}
  }

  predicate IsList(op: string) { op == "in" || op == "notIn" }

  predicate IsRow(r: Row) { IsField(r.field) && IsOp(r.op) }

  function StrItems(vs: seq<string>): seq<Json> {
    seq(|vs|, i requires 0 <= i < |vs| => Str(vs[i]))
  }

  function RowToJson(r: Row): Json {
    Obj(map["field" := Str(r.field), "op" := Str(r.op)]
        + (if IsList(r.op) then map["values" := Arr(StrItems(r.values))] else map["value" := Str(r.value)])
        + (if r.field == "header" then map["param" := Str(r.param)] else map[]))
  }

  function BuilderToJson(b: BuilderState): Json {
    if b.rows == [] then Null
    else if |b.rows| == 1 then RowToJson(b.rows[0])
    else
      var items := seq(|b.rows|, i requires 0 <= i < |b.rows| => RowToJson(b.rows[i]));
      match b.combinator
      case AllOf => Obj(map["all" := Arr(items)])
      case AnyOf => Obj(map["any" := Arr(items)])
  }

  /** Array elements that are strings, in order. */
  function StringItems(items: seq<Json>): seq<string> {
    if items == [] then []
    else (if items[0].Str? then [items[0].s] else []) + StringItems(items[1..])
  }

  function ValueText(lib: Lib, m: map<string, Json>): string {
    if "value" !in m then ""
    else
      match m["value"]
      case Str(s) => s
      case Null => ""
      case Bool(b) => if b then "true" else "false"
      case other => lib.jsText(other)
  }

  function ParamText(m: map<string, Json>): string {
    if "param" in m && m["param"].Str? then m["param"].s
    else if "header" in m && m["header"].Str? then m["header"].s
    else ""
  }

  function JsonToRow(lib: Lib, j: Json): Option<Row> {
    match j
    case Obj(m) =>
      if "field" in m && m["field"].Str? && IsField(m["field"].s) && "op" in m && m["op"].Str? && IsOp(m["op"].s)
      then
        var values := if "values" in m && m["values"].Arr? then StringItems(m["values"].items) else [];
        Some(Row(m["field"].s, m["op"].s, ValueText(lib, m), values, ParamText(m)))
      else None
    case _ => None
  }

  function JsonToRows(lib: Lib, items: seq<Json>): Option<seq<Row>> {
    if items != [] && forall i | 0 <= i < |items| :: JsonToRow(lib, items[i]).Some?
    then Some(seq(|items|, i requires 0 <= i < |items| && JsonToRow(lib, items[i]).Some? => JsonToRow(lib, items[i]).value))
    else None
  }

  function JsonToBuilder(lib: Lib, j: Json): Option<BuilderState> {
    match j
    case Null => Some(BuilderState(AllOf, []))
    case Obj(m) =>
      if "all" in m && m["all"].Arr? then
        match JsonToRows(lib, m["all"].items) {
          case Some(rows) => Some(BuilderState(AllOf, rows))
          case None => None
        }
      else if "any" in m && m["any"].Arr? then
        match JsonToRows(lib, m["any"].items) {
          case Some(rows) => Some(BuilderState(AnyOf, rows))
          case None => None
        }
      else
        match JsonToRow(lib, j) {
          case Some(row) => Some(BuilderState(AllOf, [row]))
          case None => None
        }
    case _ => None
  }

  // ---------------------------------------------------------------- saving, then opening again

  /** What a row keeps: the operand its operator uses, and a header name only for a header. */
  function NormalRow(r: Row): Row {
    Row(r.field, r.op,
        if IsList(r.op) then "" else r.value,
        if IsList(r.op) then r.values else [],
        if r.field == "header" then r.param else "")
  }

  /** With fewer than two rows the combinator is not kept either. */
  function Normal(b: BuilderState): BuilderState {
    BuilderState(
      if |b.rows| < 2 then AllOf else b.combinator,
      seq(|b.rows|, i requires 0 <= i < |b.rows| => NormalRow(b.rows[i])))
  }

  lemma {:induction false} StringItemsOf(vs: seq<string>)
    ensures StringItems(StrItems(vs)) == vs
  {
    if vs != [] {
      StringItemsOf(vs[1..]);
      assert StrItems(vs)[1..] == StrItems(vs[1..]);
      assert [vs[0]] + vs[1..] == vs;
    }
  }

  /** The members a saved row has. */
  lemma SavedRow(r: Row)
    ensures var m := RowToJson(r).fields;
      && "field" in m && m["field"] == Str(r.field)
      && "op" in m && m["op"] == Str(r.op)
      && ("values" in m <==> IsList(r.op)) && ("values" in m ==> m["values"] == Arr(StrItems(r.values)))
      && ("value" in m <==> !IsList(r.op)) && ("value" in m ==> m["value"] == Str(r.value))
      && ("param" in m <==> r.field == "header") && ("param" in m ==> m["param"] == Str(r.param))
      && "header" !in m && "all" !in m && "any" !in m && "not" !in m
  {
  }

  lemma RowReopens(lib: Lib, r: Row)
    requires IsRow(r)
    ensures JsonToRow(lib, RowToJson(r)) == Some(NormalRow(r))
  {
    SavedRow(r);
    StringItemsOf(r.values);
  }

  lemma OneReopens(lib: Lib, b: BuilderState)
    requires |b.rows| == 1 && JsonToRow(lib, RowToJson(b.rows[0])) == Some(NormalRow(b.rows[0]))
    ensures JsonToBuilder(lib, RowToJson(b.rows[0])) == Some(Normal(b))
  {
    SavedRow(b.rows[0]);
    assert Normal(b).rows == [NormalRow(b.rows[0])];
  }

  lemma ListReopens(lib: Lib, b: BuilderState, items: seq<Json>)
    requires |b.rows| >= 2 && |items| == |b.rows|
    requires forall i :: 0 <= i < |items| ==> JsonToRow(lib, items[i]) == Some(NormalRow(b.rows[i]))
    ensures JsonToRows(lib, items) == Some(Normal(b).rows)
  {
    assert JsonToRows(lib, items).value == Normal(b).rows;
  }

  /** Opening what was saved gives the normal form of what was edited. */
  lemma {:induction false} BuilderReopens(lib: Lib, b: BuilderState)
    requires forall i :: 0 <= i < |b.rows| ==> IsRow(b.rows[i])
    ensures JsonToBuilder(lib, BuilderToJson(b)) == Some(Normal(b))
  {
    forall i | 0 <= i < |b.rows| ensures JsonToRow(lib, RowToJson(b.rows[i])) == Some(NormalRow(b.rows[i])) {
      RowReopens(lib, b.rows[i]);
    }
    if |b.rows| == 0 {
      assert Normal(b).rows == [];
    } else if |b.rows| == 1 {
      OneReopens(lib, b);
    } else {
      ListReopens(lib, b, seq(|b.rows|, i requires 0 <= i < |b.rows| => RowToJson(b.rows[i])));
    }
  }

  // ---------------------------------------------------------------- opening, then saving

  /**
   The members that a row's operator and field use read the same in the builder and in the compiler: no null
   among the listed values, a number that JavaScript renders as it was written, no null `param` that hides
   another `header` name.
   */
  predicate UsedReadAlike(lib: Lib, m: map<string, Json>, r: Row) {
    && (IsList(r.op) && "values" in m && m["values"].Arr? ==> Null !in m["values"].items)
    && (!IsList(r.op) && "value" in m && m["value"].Num? ==> lib.jsText(m["value"]) == m["value"].text)
    && (r.field == "header" && "param" in m && m["param"].Null? && "header" in m && m["header"].Str? ==>
          lib.toLower(m["header"].s) == lib.toLower(""))
  }

  /** A flat test that can be opened: no combinator key beside the predicate keys, and its row reads alike. */
  predicate PlainTest(lib: Lib, j: Json) {
    && (j.Obj? ==> "all" !in j.fields && "any" !in j.fields && "not" !in j.fields)
    && (JsonToRow(lib, j).Some? ==> UsedReadAlike(lib, j.fields, JsonToRow(lib, j).value))
  }

  /** No object mixes combinator and predicate keys, no `all` or `any` is anything but an array. */
  predicate Plain(lib: Lib, j: Json) {
    match j
    case Obj(m) =>
      if "all" in m then m["all"].Arr? && forall i | 0 <= i < |m["all"].items| :: PlainTest(lib, m["all"].items[i])
      else if "any" in m then m["any"].Arr? && forall i | 0 <= i < |m["any"].items| :: PlainTest(lib, m["any"].items[i])
      else PlainTest(lib, j)
    case _ => true
  }

  lemma {:induction false} StringItemsSame(items: seq<Json>)
    requires Null !in items
    ensures StringItems(items) == StringsOf(items)
  {
    if items != [] {
      var last := |items| - 1;
      StringItemsSame(items[..last]);
      assert items == items[..last] + [items[last]];
      StringItemsSnoc(items[..last], items[last]);
    }
  }

  lemma {:induction false} StringItemsSnoc(items: seq<Json>, x: Json)
    ensures StringItems(items + [x]) == StringItems(items) + (if x.Str? then [x.s] else [])
  {
    if items == [] {
      assert items + [x] == [x];
    } else {
      StringItemsSnoc(items[1..], x);
      assert (items + [x])[1..] == items[1..] + [x];
    }
  }

  lemma {:induction false} StringsOfStr(vs: seq<string>)
    ensures StringsOf(StrItems(vs)) == vs
  {
    if vs != [] {
      var last := |vs| - 1;
      StringsOfStr(vs[..last]);
      assert StrItems(vs)[..last] == StrItems(vs[..last]);
      assert vs[..last] + [vs[last]] == vs;
    }
  }

  /** What the compiler reads from a saved row: the operand of its operator, and a header's name. */
  lemma SavedReads(lib: Lib, r: Row)
    ensures var m := RowToJson(r).fields;
      && ValueOf(m) == (if IsList(r.op) then None else Some(r.value))
      && ValuesOf(m) == (if IsList(r.op) then r.values else [])
      && ParamOf(lib, m) == (if r.field == "header" then Some(lib.toLower(r.param)) else None)
  {
    SavedRow(r);
    StringsOfStr(r.values);
  }

  /** A null among the listed values is one operand more to the compiler than to the builder. */
  lemma {:induction false} NullsAreDropped(items: seq<Json>)
    ensures |StringItems(items)| <= |StringsOf(items)|
    ensures Null in items ==> |StringItems(items)| < |StringsOf(items)|
  {
    if items != [] {
      var last := |items| - 1;
      NullsAreDropped(items[..last]);
      assert items == items[..last] + [items[last]];
      StringItemsSnoc(items[..last], items[last]);
    }
  }

  lemma ListReadsAlike(m: map<string, Json>, values: seq<string>)
    requires "values" in m && m["values"].Arr? && values == StringItems(m["values"].items)
    ensures ValuesOf(m) == values <==> Null !in m["values"].items
  {
    if Null in m["values"].items {
      NullsAreDropped(m["values"].items);
    } else {
      StringItemsSame(m["values"].items);
    }
  }

  lemma ValueReadsAlike(lib: Lib, m: map<string, Json>)
    requires ValueOf(m).Some?
    ensures ValueOf(m).value == ValueText(lib, m) <==> (m["value"].Num? ==> lib.jsText(m["value"]) == m["value"].text)
  {
  }

  lemma ParamReadsAlike(lib: Lib, m: map<string, Json>)
    requires ParamOf(lib, m).Some?
    ensures ParamOf(lib, m).value == lib.toLower(ParamText(m))
      <==> ("param" in m && m["param"].Null? && "header" in m && m["header"].Str? ==> lib.toLower(m["header"].s) == lib.toLower(""))
  {
  }

  /** A test without the members that its operator and field do not use. */
  function Used(p: Predicate): Predicate {
    Predicate(p.field, p.op,
              if p.op in {In, NotIn} then None else p.value,
              if p.op in {In, NotIn} then p.values else [],
              if p.field == Header then p.param else None)
  }

  /** Saving an opened test gives the same test, without its unused members, if and only if the used ones read alike. */
  lemma SavedTest(lib: Lib, m: map<string, Json>, r: Row, saved: map<string, Json>, f: Field, o: Op)
    requires IsList(r.op) <==> o in {In, NotIn}
    requires r.field == "header" <==> f == Header
    requires r.value == ValueText(lib, m) && r.param == ParamText(m)
    requires r.values == if "values" in m && m["values"].Arr? then StringItems(m["values"].items) else []
    requires TestOf(lib, m, f, o).Some?
    requires saved == RowToJson(r).fields
    ensures TestOf(lib, saved, f, o) == Some(Test(Used(TestOf(lib, m, f, o).value.test))) <==> UsedReadAlike(lib, m, r)
  {
    SavedReads(lib, r);
    if IsList(r.op) {
      ListReadsAlike(m, r.values);
    } else {
      ValueReadsAlike(lib, m);
    }
    if f == Header {
      ParamReadsAlike(lib, m);
    }
  }

  lemma ListOps(op: string)
    requires IsOp(op)
    ensures OpFrom(op).Some? && (IsList(op) <==> OpFrom(op).value in {In, NotIn})
  {
  }

  lemma HeaderField(field: string)
    requires IsField(field)
    ensures FieldFrom(field).Some? && (field == "header" <==> FieldFrom(field) == Some(Header))
  {
  }

  /** Dropping the members its operator and field do not use changes no verdict of a test. */
  lemma UnusedMembers(lib: Lib, req: Request, p: Predicate, q: Predicate)
    requires p.field == q.field && p.op == q.op
    requires p.op in {In, NotIn} ==> p.values == q.values
    requires p.op !in {In, NotIn} ==> p.value == q.value
    requires p.field == Header ==> p.param == q.param
    ensures EvalPredicate(lib, req, p) == EvalPredicate(lib, req, q)
  {
  }

  /** The compiler's view of a flat test with a known field and operator. */
  lemma FlatTest(lib: Lib, m: map<string, Json>, field: string, op: string, f: Field, o: Op)
    requires "all" !in m && "any" !in m && "not" !in m
    requires "field" in m && m["field"] == Str(field) && "op" in m && m["op"] == Str(op)
    requires FieldFrom(field) == Some(f) && OpFrom(op) == Some(o)
    ensures Parsed(lib, Obj(m)) == TestOf(lib, m, f, o)
  {
  }

  /**
   Opening an accepted flat test and saving it: the compiled test is the same, up to unused members, if and
   only if the members it uses read alike.
   */
  lemma SavedRowExactly(lib: Lib, m: map<string, Json>, r: Row)
    requires "all" !in m && "any" !in m && "not" !in m
    requires JsonToRow(lib, Obj(m)) == Some(r) && Parsed(lib, Obj(m)).Some?
    ensures Parsed(lib, Obj(m)).value.Test?
    ensures Parsed(lib, RowToJson(r)) == Some(Test(Used(Parsed(lib, Obj(m)).value.test))) <==> UsedReadAlike(lib, m, r)
  {
    var saved := RowToJson(r).fields;
    SavedRow(r);
    ListOps(r.op);
    HeaderField(r.field);
    var f, o := FieldFrom(r.field).value, OpFrom(r.op).value;
    FlatTest(lib, m, r.field, r.op, f, o);
    FlatTest(lib, saved, r.field, r.op, f, o);
    SavedTest(lib, m, r, saved, f, o);
  }

  // ---------------------------------------------------------------- whole conditions, exactly

  function UsedLeaf(e: MatchExpr): MatchExpr {
    if e.Test? then Test(Used(e.test)) else e
  }

  function UsedLeaves(es: seq<MatchExpr>): seq<MatchExpr> {
    seq(|es|, i requires 0 <= i < |es| => UsedLeaf(es[i]))
  }

  /** The builder writes a list of one test as the test. */
  function Combined(c: Combinator, es: seq<MatchExpr>): MatchExpr {
    if |es| == 1 then es[0] else if c.AllOf? then All(es) else Any(es)
  }

  /** What saving should leave of a compiled condition: its tests without their unused members. */
  function UsedTree(e: MatchExpr): MatchExpr {
    match e
    case All(es) => Combined(AllOf, UsedLeaves(es))
    case Any(es) => Combined(AnyOf, UsedLeaves(es))
    case _ => UsedLeaf(e)
  }

  lemma SavedIsTest(lib: Lib, r: Row)
    ensures Parsed(lib, RowToJson(r)).Some? ==> Parsed(lib, RowToJson(r)).value.Test?
  {
    SavedRow(r);
  }

  /** One row of a condition keeps its test if and only if it is a plain test. */
  lemma RowExactly(lib: Lib, item: Json, r: Row)
    requires JsonToRow(lib, item) == Some(r) && Parsed(lib, item).Some?
    ensures Parsed(lib, RowToJson(r)) == Some(UsedLeaf(Parsed(lib, item).value)) <==> PlainTest(lib, item)
  {
    var m := item.fields;
    if "all" in m || "any" in m || "not" in m {
      SavedIsTest(lib, r);
    } else {
      SavedRowExactly(lib, m, r);
    }
  }

  lemma SavedOne(b: BuilderState, saved: Json)
    requires |b.rows| == 1 && saved == RowToJson(b.rows[0])
    ensures BuilderToJson(b) == saved
  {
  }

  lemma SavedMany(b: BuilderState, saved: seq<Json>)
    requires |b.rows| > 1 && |saved| == |b.rows| && forall i :: 0 <= i < |saved| ==> saved[i] == RowToJson(b.rows[i])
    ensures BuilderToJson(b) == if b.combinator.AllOf? then Obj(map["all" := Arr(saved)]) else Obj(map["any" := Arr(saved)])
  {
    assert seq(|b.rows|, i requires 0 <= i < |b.rows| => RowToJson(b.rows[i])) == saved;
  }

  lemma ParsedListOf(lib: Lib, c: Combinator, saved: seq<Json>)
    ensures Parsed(lib, if c.AllOf? then Obj(map["all" := Arr(saved)]) else Obj(map["any" := Arr(saved)]))
      == match ParsedEach(lib, saved) {
           case Some(es) => Some(if c.AllOf? then All(es) else Any(es))
           case None => None
         }
  {
  }

  lemma EachExactly(lib: Lib, saved: seq<Json>, es: seq<MatchExpr>)
    requires |saved| == |es|
    ensures ParsedEach(lib, saved) == Some(es) <==> forall i :: 0 <= i < |es| ==> Parsed(lib, saved[i]) == Some(es[i])
  {
    if forall i :: 0 <= i < |es| ==> Parsed(lib, saved[i]) == Some(es[i]) {
      assert ParsedEach(lib, saved).value == es;
    }
  }

  lemma ManyParse(lib: Lib, c: Combinator, saved: seq<Json>, es: seq<MatchExpr>)
    requires |saved| == |es| > 1
    ensures Parsed(lib, if c.AllOf? then Obj(map["all" := Arr(saved)]) else Obj(map["any" := Arr(saved)])) == Some(Combined(c, es))
      <==> EachParses(lib, saved, es)
  {
    ParsedListOf(lib, c, saved);
    EachExactly(lib, saved, es);
  }

  predicate EachParses(lib: Lib, items: seq<Json>, es: seq<MatchExpr>)
    requires |items| == |es|
  {
    forall i | 0 <= i < |es| :: Parsed(lib, items[i]) == Some(es[i])
  }

  /** What the compiler makes of saved rows. */
  lemma OneParses(lib: Lib, c: Combinator, saved: seq<Json>, es: seq<MatchExpr>)
    requires |es| == |saved| == 1
    ensures Parsed(lib, saved[0]) == Some(Combined(c, es)) <==> EachParses(lib, saved, es)
  {
  }

  lemma SavedParses(lib: Lib, b: BuilderState, saved: seq<Json>, es: seq<MatchExpr>, j: Json)
    requires b.rows != [] && |es| == |saved| == |b.rows| && j == BuilderToJson(b)
    requires forall i :: 0 <= i < |saved| ==> saved[i] == RowToJson(b.rows[i])
    ensures Parsed(lib, j) == Some(Combined(b.combinator, es)) <==> EachParses(lib, saved, es)
  {
    if |b.rows| == 1 {
      SavedOne(b, saved[0]);
      OneParses(lib, b.combinator, saved, es);
    } else {
      SavedMany(b, saved);
      ManyParse(lib, b.combinator, saved, es);
    }
  }

  lemma ListExactly(lib: Lib, items: seq<Json>, b: BuilderState, es: seq<MatchExpr>)
    requires JsonToRows(lib, items) == Some(b.rows) && ParsedEach(lib, items) == Some(es)
    ensures Parsed(lib, BuilderToJson(b)) == Some(Combined(b.combinator, UsedLeaves(es)))
      <==> forall i :: 0 <= i < |items| ==> PlainTest(lib, items[i])
  {
    var saved := seq(|b.rows|, i requires 0 <= i < |b.rows| => RowToJson(b.rows[i]));
    SavedParses(lib, b, saved, UsedLeaves(es), BuilderToJson(b));
    forall i | 0 <= i < |items|
      ensures Parsed(lib, saved[i]) == Some(UsedLeaves(es)[i]) <==> PlainTest(lib, items[i])
    {
      RowExactly(lib, items[i], b.rows[i]);
    }
  }

  /** A null `all` or `any` compiles to an empty list; the builder passes over it and saves rows. */
  lemma NullListIsLost(lib: Lib, m: map<string, Json>, b: BuilderState, e: MatchExpr)
    requires JsonToBuilder(lib, Obj(m)) == Some(b) && Parsed(lib, Obj(m)) == Some(e)
    requires ("all" in m && m["all"].Null?) || ("all" !in m && "any" in m && m["any"].Null?)
    ensures Parsed(lib, BuilderToJson(b)) != Some(UsedTree(e))
  {
    assert e == All([]) || e == Any([]);
    assert UsedLeaves([]) == [];
    assert b.rows != [];
    if |b.rows| == 1 {
      SavedOne(b, RowToJson(b.rows[0]));
      SavedIsTest(lib, b.rows[0]);
    } else {
      var saved := seq(|b.rows|, i requires 0 <= i < |b.rows| => RowToJson(b.rows[i]));
      SavedMany(b, saved);
      ParsedListOf(lib, b.combinator, saved);
    }
  }

  /**
   Opening an accepted condition and saving it gives the same compiled condition, up to unused members and
   lists of one, if and only if the condition is plain.
   */
  lemma SavedConditionExactly(lib: Lib, j: Json, b: BuilderState)
    requires Parsed(lib, j).Some? && JsonToBuilder(lib, j) == Some(b)
    ensures Parsed(lib, BuilderToJson(b)) == Some(UsedTree(Parsed(lib, j).value)) <==> Plain(lib, j)
  {
    match j
    case Obj(m) =>
      if "all" in m && m["all"].Arr? {
        ListExactly(lib, m["all"].items, b, ParsedEach(lib, m["all"].items).value);
      } else if "all" !in m && "any" in m && m["any"].Arr? {
        ListExactly(lib, m["any"].items, b, ParsedEach(lib, m["any"].items).value);
      } else if "all" in m || "any" in m {
        NullListIsLost(lib, m, b, Parsed(lib, j).value);
      } else {
        RowExactly(lib, j, b.rows[0]);
        SavedOne(b, RowToJson(b.rows[0]));
      }
    case _ =>
  }

  lemma UsedMeaning(lib: Lib, req: Request, p: Predicate)
    ensures EvalPredicate(lib, req, Used(p)) == EvalPredicate(lib, req, p)
  {
    UnusedMembers(lib, req, p, Used(p));
  }

  lemma LeafMeaning(lib: Lib, req: Request, e: MatchExpr)
    ensures EvalMatch(lib, req, UsedLeaf(e)) == EvalMatch(lib, req, e)
  {
    if e.Test? {
      UsedMeaning(lib, req, e.test);
    }
  }

  lemma LeavesMeaning(lib: Lib, req: Request, es: seq<MatchExpr>)
    ensures EvalMatch(lib, req, Combined(AllOf, UsedLeaves(es))) == EvalMatch(lib, req, All(es))
    ensures EvalMatch(lib, req, Combined(AnyOf, UsedLeaves(es))) == EvalMatch(lib, req, Any(es))
  {
    var us := UsedLeaves(es);
    forall i | 0 <= i < |es| ensures EvalMatch(lib, req, us[i]) == EvalMatch(lib, req, es[i]) {
      LeafMeaning(lib, req, es[i]);
    }
  }

  /** Leaving out unused members, and lists of one, changes no verdict. */
  lemma TreeMeaning(lib: Lib, req: Request, e: MatchExpr)
    ensures EvalMatch(lib, req, UsedTree(e)) == EvalMatch(lib, req, e)
  {
    match e
    case All(es) => LeavesMeaning(lib, req, es);
    case Any(es) => LeavesMeaning(lib, req, es);
    case _ => LeafMeaning(lib, req, e);
  }

  /** So opening a plain condition in the builder and saving it keeps it compilable and keeps its meaning. */
  lemma {:induction false} EditingKeepsMeaning(lib: Lib, req: Request, j: Json, b: BuilderState)
    requires Parsed(lib, j).Some? && JsonToBuilder(lib, j) == Some(b) && Plain(lib, j)
    ensures Parsed(lib, BuilderToJson(b)).Some?
    ensures Holds(lib, req, BuilderToJson(b)) == Holds(lib, req, j)
  {
    SavedConditionExactly(lib, j, b);
    TreeMeaning(lib, req, Parsed(lib, j).value);
    ParsedMeaning(lib, req, j);
    ParsedMeaning(lib, req, BuilderToJson(b));
  }

  // ---------------------------------------------------------------- an input for each way of losing meaning

  /** What an accepted flat test says, through the compiler. */
  lemma FlatMeaning(lib: Lib, req: Request, m: map<string, Json>, field: string, op: string, f: Field, o: Op)
    requires "all" !in m && "any" !in m && "not" !in m
    requires "field" in m && m["field"] == Str(field) && "op" in m && m["op"] == Str(op)
    requires FieldFrom(field) == Some(f) && OpFrom(op) == Some(o) && TestOf(lib, m, f, o).Some?
    ensures Parsed(lib, Obj(m)).Some?
    ensures Holds(lib, req, Obj(m)) == EvalPredicate(lib, req, TestOf(lib, m, f, o).value.test)
  {
    FlatTest(lib, m, field, op, f, o);
    ParsedMeaning(lib, req, Obj(m));
  }

  /** What a saved row says. */
  lemma SavedMeaning(lib: Lib, req: Request, r: Row, f: Field, o: Op)
    requires FieldFrom(r.field) == Some(f) && OpFrom(r.op) == Some(o) && o != Regex
    requires (IsList(r.op) <==> o in {In, NotIn}) && (r.field == "header" <==> f == Header)
    requires IsList(r.op) ==> r.values != []
    ensures Holds(lib, req, RowToJson(r)) == EvalPredicate(lib, req, Predicate(
      f, o,
      if IsList(r.op) then None else Some(r.value),
      if IsList(r.op) then r.values else [],
      if f == Header then Some(lib.toLower(r.param)) else None))
  {
    SavedRow(r);
    SavedReads(lib, r);
    FlatMeaning(lib, req, RowToJson(r).fields, r.field, r.op, f, o);
  }

  /** Opening the test and saving it changes what it says about the request. */
  predicate EditingLoses(lib: Lib, req: Request, j: Json) {
    && Parsed(lib, j).Some? && JsonToBuilder(lib, j).Some?
    && Holds(lib, req, j) != Holds(lib, req, BuilderToJson(JsonToBuilder(lib, j).value))
  }

  lemma LosesByRow(lib: Lib, req: Request, m: map<string, Json>, r: Row)
    requires "all" !in m && "any" !in m && JsonToRow(lib, Obj(m)) == Some(r)
    requires Parsed(lib, Obj(m)).Some? && Holds(lib, req, Obj(m)) != Holds(lib, req, RowToJson(r))
    ensures EditingLoses(lib, req, Obj(m))
  {
    SavedOne(BuilderState(AllOf, [r]), RowToJson(r));
  }

  /** A flat test with these members and no others that are read. */
  predicate HasMembers(m: map<string, Json>, field: string, op: string, operands: string, operand: Json) {
    && "all" !in m && "any" !in m && "not" !in m
    && "field" in m && m["field"] == Str(field) && "op" in m && m["op"] == Str(op)
    && operands in {"value", "values"} && operands in m && m[operands] == operand
    && ("value" in m <==> operands == "value") && ("values" in m <==> operands == "values")
  }

  lemma TextThenNull(text: string)
    ensures StringsOf([Str(text), Null]) == [text, ""] && StringItems([Str(text), Null]) == [text]
  {
    var items := [Str(text), Null];
    assert items[1..] == [Null] && items[..1] == [Str(text)];
    assert StringsOf([Str(text)]) == [text];
    assert [Null][1..] == [] && StringItems([Null]) == [];
  }

  lemma NullOperandRead(lib: Lib, req: Request, m: map<string, Json>)
    requires HasMembers(m, "country", "in", "values", Arr([Str("VN"), Null])) && "param" !in m && "header" !in m
    requires req.country == ""
    ensures Parsed(lib, Obj(m)).Some? && Holds(lib, req, Obj(m))
    ensures JsonToRow(lib, Obj(m)) == Some(Row("country", "in", "", ["VN"], ""))
  {
    TextThenNull("VN");
    var p := Predicate(Country, In, None, ["VN", ""], None);
    assert TestOf(lib, m, Country, In) == Some(Test(p));
    FlatMeaning(lib, req, m, "country", "in", Country, In);
    CountryListSays(lib, req, p);
    assert p.values[1] == "";
  }

  lemma CountryListSays(lib: Lib, req: Request, p: Predicate)
    requires p.field == Country && p.op == In
    ensures EvalPredicate(lib, req, p) == (req.country in p.values)
  {
  }

  lemma NullOperandSaved(lib: Lib, req: Request, r: Row)
    requires r.field == "country" && r.op == "in" && r.values == ["VN"] && req.country == ""
    ensures !Holds(lib, req, RowToJson(r))
  {
    CountryListSays(lib, req, Predicate(Country, In, None, r.values, None));
    SavedMeaning(lib, req, r, Country, In);
  }

  /** A null among the values: an empty operand to the compiler, nothing to the builder. */
  lemma NullOperandIsLost(lib: Lib, req: Request, m: map<string, Json>)
    requires m == map["field" := Str("country"), "op" := Str("in"), "values" := Arr([Str("VN"), Null])]
    requires req.country == ""
    ensures EditingLoses(lib, req, Obj(m))
  {
    var r := Row("country", "in", "", ["VN"], "");
    NullOperandRead(lib, req, m);
    NullOperandSaved(lib, req, r);
    LosesByRow(lib, req, m, r);
  }

  lemma NumberRead(lib: Lib, req: Request, m: map<string, Json>)
    requires HasMembers(m, "country", "eq", "value", Num("1.0")) && "param" !in m && "header" !in m
    requires req.country == "1.0" && lib.jsText(Num("1.0")) == "1"
    ensures Parsed(lib, Obj(m)).Some? && Holds(lib, req, Obj(m))
    ensures JsonToRow(lib, Obj(m)) == Some(Row("country", "eq", "1", [], ""))
  {
    FlatMeaning(lib, req, m, "country", "eq", Country, Eq);
  }

  lemma NumberSaved(lib: Lib, req: Request, r: Row)
    requires r.field == "country" && r.op == "eq" && r.value == "1" && req.country == "1.0"
    ensures !Holds(lib, req, RowToJson(r))
  {
    SavedMeaning(lib, req, r, Country, Eq);
  }

  /** A number that JavaScript writes in another way: the compiler keeps the text of the author. */
  lemma NumberIsRewritten(lib: Lib, req: Request, m: map<string, Json>)
    requires m == map["field" := Str("country"), "op" := Str("eq"), "value" := Num("1.0")]
    requires req.country == "1.0" && lib.jsText(Num("1.0")) == "1"
    ensures EditingLoses(lib, req, Obj(m))
  {
    var r := Row("country", "eq", "1", [], "");
    NumberRead(lib, req, m);
    NumberSaved(lib, req, r);
    LosesByRow(lib, req, m, r);
  }

  lemma NullParamRead(lib: Lib, req: Request, m: map<string, Json>)
    requires HasMembers(m, "header", "eq", "value", Str("secret"))
    requires "param" in m && m["param"] == Null && "header" in m && m["header"] == Str("x-token")
    requires req.header(lib.toLower("")) == ""
    ensures Parsed(lib, Obj(m)).Some? && !Holds(lib, req, Obj(m))
    ensures JsonToRow(lib, Obj(m)) == Some(Row("header", "eq", "secret", [], "x-token"))
  {
    FlatMeaning(lib, req, m, "header", "eq", Header, Eq);
  }

  lemma HeaderSays(lib: Lib, req: Request, p: Predicate)
    requires p.field == Header && p.op == Eq && p.value.Some? && p.param.Some?
    ensures EvalPredicate(lib, req, p) == (req.header(p.param.value) == p.value.value)
  {
  }

  lemma NullParamSaved(lib: Lib, req: Request, r: Row)
    requires r.field == "header" && r.op == "eq" && r.value == "secret" && r.param == "x-token"
    requires req.header(lib.toLower("x-token")) == "secret"
    ensures Holds(lib, req, RowToJson(r))
  {
    HeaderSays(lib, req, Predicate(Header, Eq, Some(r.value), [], Some(lib.toLower(r.param))));
    SavedMeaning(lib, req, r, Header, Eq);
  }

  /** A null `param` hides `header` from the compiler, not from the builder. */
  lemma NullParamUncoversHeader(lib: Lib, req: Request, m: map<string, Json>)
    requires m == map["field" := Str("header"), "op" := Str("eq"), "value" := Str("secret"), "param" := Null, "header" := Str("x-token")]
    requires req.header(lib.toLower("")) == "" && req.header(lib.toLower("x-token")) == "secret"
    ensures EditingLoses(lib, req, Obj(m))
  {
    var r := Row("header", "eq", "secret", [], "x-token");
    NullParamRead(lib, req, m);
    NullParamSaved(lib, req, r);
    LosesByRow(lib, req, m, r);
  }

  lemma CombinatorBesideRead(lib: Lib, req: Request, m: map<string, Json>)
    requires "all" !in m && "any" !in m && "not" in m && m["not"] == Null
    requires "field" in m && m["field"] == Str("country") && "op" in m && m["op"] == Str("eq")
    requires "value" in m && m["value"] == Str("VN") && "values" !in m && "param" !in m && "header" !in m
    ensures Parsed(lib, Obj(m)).Some? && !Holds(lib, req, Obj(m))
    ensures JsonToRow(lib, Obj(m)) == Some(Row("country", "eq", "VN", [], ""))
  {
  }

  lemma CountrySays(lib: Lib, req: Request, p: Predicate)
    requires p.field == Country && p.op == Eq && p.value.Some?
    ensures EvalPredicate(lib, req, p) == (req.country == p.value.value)
  {
  }

  lemma CountrySaved(lib: Lib, req: Request, r: Row)
    requires r.field == "country" && r.op == "eq" && req.country == r.value
    ensures Holds(lib, req, RowToJson(r))
  {
    CountrySays(lib, req, Predicate(Country, Eq, Some(r.value), [], None));
    SavedMeaning(lib, req, r, Country, Eq);
  }

  /** A `not` beside a test: the compiler reads the combinator, the builder the test. */
  lemma CombinatorBesideIsLost(lib: Lib, req: Request, m: map<string, Json>)
    requires m == map["field" := Str("country"), "op" := Str("eq"), "value" := Str("VN"), "not" := Null]
    requires req.country == "VN"
    ensures EditingLoses(lib, req, Obj(m))
  {
    var r := Row("country", "eq", "VN", [], "");
    CombinatorBesideRead(lib, req, m);
    CountrySaved(lib, req, r);
    LosesByRow(lib, req, m, r);
  }

  /** Every field and operator of the compiled grammar has a name in the builder. */
  lemma EveryNameThere(f: Field, o: Op)
    ensures f != NoField ==> IsField(FieldNameOf(f)) && FieldFrom(FieldNameOf(f)) == Some(f)
    ensures o != NoOp ==> IsOp(OpNameOf(o)) && OpFrom(OpNameOf(o)) == Some(o)
  {
  }

  lemma FieldNamed(name: string)
    requires IsField(name)
    ensures FieldFrom(name).Some? && FieldNameOf(FieldFrom(name).value) == name
  {
  }

  lemma OpNamed(name: string)
    requires IsOp(name)
    ensures OpFrom(name).Some? && OpNameOf(OpFrom(name).value) == name
  {
  }

  /** And no two names of the builder mean the same. */
  lemma OneNameEach(name: string, other: string)
    ensures IsField(name) && IsField(other) && FieldFrom(name) == FieldFrom(other) ==> name == other
    ensures IsOp(name) && IsOp(other) && OpFrom(name) == OpFrom(other) ==> name == other
  {
    if IsField(name) && IsField(other) {
      FieldNamed(name);
      FieldNamed(other);
    }
    if IsOp(name) && IsOp(other) {
      OpNamed(name);
      OpNamed(other);
    }
  }

  function FieldNameOf(f: Field): string {
    match f
    case UriPath => "uri.path"
    case UriQuery => "uri.query"
    case Method => "method"
    case Header => "header"
    case SourceIp => "sourceIp"
    case SourceIpCidr => "sourceIpCidr"
    case Country => "country"
    case UserAgent => "userAgent"
    case NoField => ""
  }

  function OpNameOf(o: Op): string {
    match o
    case Eq => "eq"
    case NotEq => "ne"
    case Contains => "contains"
    case NotContains => "notContains"
    case ContainsCi => "containsCi"
    case StartsWith => "startsWith"
    case EndsWith => "endsWith"
    case In => "in"
    case NotIn => "notIn"
    case Regex => "regex"
    case NoOp => ""
  }
}
