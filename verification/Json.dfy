/** JSON values as json.loads returns them, with Python's truthiness. */
module Json {

  datatype Json =
    | Null
    | Bool(b: bool)
    | Int(i: int)
    | Float(x: real)
    | Str(s: string)
    | Arr(items: seq<Json>)
    | Obj(fields: map<string, Json>)

  type Payload = map<string, Json>

  /** p.get(k): an absent key reads as null. */
  function Get(p: Payload, k: string): Json {
    if k in p then p[k] else Null
  }

  lemma AbsentIsNull(p: Payload, k: string)
    ensures k in p ==> Get(p, k) == p[k]
    ensures k !in p ==> Get(p, k) == Null
  {
  }

  predicate Truthy(j: Json) {
    match j
    case Null => false
    case Bool(b) => b
    case Int(i) => i != 0
    case Float(x) => x != 0.0
    case Str(s) => s != ""
    case Arr(items) => items != []
    case Obj(fields) => fields != map[]
  }

  /** a or b */
  function Or(a: Json, b: Json): Json {
    if Truthy(a) then a else b
  }
}
