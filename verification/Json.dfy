/** JSON documents as Python reads them, with one kind of number. */
module Json {
  import opened Wrappers

  datatype Json =
    | Null
    | Bool(b: bool)
    | Num(n: real)
    | Str(s: string)
    | Arr(items: seq<Json>)
    | Obj(fields: map<string, Json>)

  /** `d.get(key)`, for the fields of an object. */
  function Get(fields: map<string, Json>, key: string): Option<Json> {
    if key in fields then Some(fields[key]) else None
  }

  /** `bool(v)` */
  predicate Truthy(v: Json) {
    match v
    case Null => false
    case Bool(b) => b
    case Num(n) => n != 0.0
    case Str(s) => s != ""
    case Arr(items) => items != []
    case Obj(fields) => fields != map[]
  }

  /** Lists and dictionaries cannot be members of a set or keys. */
  predicate Hashable(v: Json) {
    !v.Arr? && !v.Obj?
  }

  function Trunc(r: real): int {
    if r >= 0.0 then r.Floor else -((-r).Floor)
  }

  predicate Integral(r: real) {
    r.Floor as real == r
  }

  /** Truncation does not fall short of the number exactly for whole and for non-positive numbers. */
  lemma TruncReaches(r: real)
    ensures Trunc(r) as real >= r <==> r <= 0.0 || Integral(r)
    ensures Integral(Trunc(r) as real)
  {
  }
}
