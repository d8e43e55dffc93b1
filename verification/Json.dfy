/**
 JSON values (RFC 8259, section 3) as trees, and Go's decoding of one value into a typed target.
 A number keeps its literal text. Decoding `null` leaves the target's zero value and succeeds.
 */
module Json {
  import opened Wrappers

  datatype Json =
    | Null
    | Bool(b: bool)
    | Num(text: string)
    | Str(s: string)
    | Arr(items: seq<Json>)
    | Obj(fields: map<string, Json>)

  /** Decoding into a `string`. */
  function AsString(j: Json): Option<string> {
    match j
    case Null => Some("")
    case Str(s) => Some(s)
    case _ => None
  }

  /** Decoding into a `bool`. */
  function AsBool(j: Json): Option<bool> {
    match j
    case Null => Some(false)
    case Bool(b) => Some(b)
    case _ => None
  }

  /** Decoding into a slice of raw values. */
  function AsList(j: Json): Option<seq<Json>> {
    match j
    case Null => Some([])
    case Arr(items) => Some(items)
    case _ => None
  }

  /** Decoding into a map or a struct. */
  function AsObject(j: Json): Option<map<string, Json>> {
    match j
    case Null => Some(map[])
    case Obj(fields) => Some(fields)
    case _ => None
  }

  /** Decoding into a `*string`: `null` is the nil pointer. */
  function AsOptString(j: Json): Option<Option<string>> {
    match j
    case Null => Some(None)
    case Str(s) => Some(Some(s))
    case _ => None
  }

  /** Decoding one struct field: a missing key leaves the zero value. */
  function Member<T>(m: map<string, Json>, key: string, decode: Json -> Option<T>, zero: T): Option<T> {
    if key in m then decode(m[key]) else Some(zero)
  }

  /** Decoding a slice, element by element; one bad element fails the whole slice. */
  function AsListOf<T>(items: seq<Json>, decode: Json -> Option<T>): (r: Option<seq<T>>)
    ensures r.Some? ==> |r.value| == |items|
    ensures r.Some? ==> forall i :: 0 <= i < |items| ==> decode(items[i]) == Some(r.value[i])
  {
    if items == [] then Some([]) else
      match decode(items[0]) {
        case None => None
        case Some(v) =>
          match AsListOf(items[1..], decode)
          case None => None
          case Some(vs) => Some([v] + vs)
      }
  }

  /** The other direction of `AsListOf`: a slice whose every element decodes is decoded whole. */
  lemma {:induction false} DecodedWhole<T>(items: seq<Json>, decode: Json -> Option<T>, vs: seq<T>)
    requires |vs| == |items|
    requires forall i :: 0 <= i < |items| ==> decode(items[i]) == Some(vs[i])
    ensures AsListOf(items, decode) == Some(vs)
  {
    if items != [] {
      DecodedWhole(items[1..], decode, vs[1..]);
      assert vs == [vs[0]] + vs[1..];
    }
  }

  /** `null` decodes into the zero value of every target, and no other kind of value is converted. */
  lemma DecodesExactly(j: Json)
    ensures AsString(j) == if j.Str? then Some(j.s) else if j.Null? then Some("") else None
    ensures AsBool(j) == if j.Bool? then Some(j.b) else if j.Null? then Some(false) else None
    ensures AsList(j) == if j.Arr? then Some(j.items) else if j.Null? then Some([]) else None
    ensures AsObject(j) == if j.Obj? then Some(j.fields) else if j.Null? then Some(map[]) else None
    ensures AsOptString(j) == if j.Str? then Some(Some(j.s)) else if j.Null? then Some(None) else None
  {
  }
}
