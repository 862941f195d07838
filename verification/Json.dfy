/** JSON values as the department payloads carry them. */
module JsonModel {
  import opened Text

  datatype Option<+T> = None | Some(value: T)

  datatype Result<+T> = Success(value: T) | Failure

  datatype Json =
    | Null
    | Bool(b: bool)
    | Num(n: real)
    | Str(s: string)
    | Arr(items: seq<Json>)
    | Obj(fields: map<string, Json>)

  type Dict = map<string, Json>

  /** Python truthiness. */
  predicate Truthy(v: Json) {
    match v
    case Null => false
    case Bool(b) => b
    case Num(n) => n != 0.0
    case Str(s) => s != ""
    case Arr(items) => items != []
    case Obj(fields) => fields != map[]
  }

  /** Only null, false, zero and the empty text, list and dictionary are not true. */
  lemma FalsyMeaning(v: Json)
    ensures !Truthy(v) <==> v == Null || v == Bool(false) || v == Num(0.0) || v == Str("") || v == Arr([]) || v == Obj(map[])
  {
  }

  /** `d.get(key)`: a missing key reads as null. */
  function Get(d: Dict, key: string): Json {
    if key in d then d[key] else Null
  }

  /** The value reached from `v` along `path`; null as soon as a step is impossible. */
  function Walk(v: Json, path: seq<string>): Json
    decreases |path|
  {
    if path == [] then v
    else if v.Obj? then Walk(Get(v.fields, path[0]), path[1..])
    else Null
  }

  lemma {:induction false} WalkNull(path: seq<string>)
    ensures Walk(Null, path) == Null
  {
  }

  /** `part` occurs in `v`, at any depth. */
  ghost predicate Within(v: Json, part: Json)
    decreases v
  {
    || v == part
    || match v
       case Obj(fields) => exists key | key in fields :: Within(fields[key], part)
       case Arr(items) => exists i | 0 <= i < |items| :: Within(items[i], part)
       case _ => false
  }
}
