/** The untyped JavaScript values that the LSIF validators receive. */
module JsonValues {

  /** A JSON-like JavaScript value. Numbers are exact; a key that an object
      does not have is absent from `fields`, which keeps "absent" apart from
      "present and holding undefined". */
  datatype Json =
    | Undefined
    | Null
    | Bool(b: bool)
    | Num(n: real)
    | Str(s: string)
    | Arr(items: seq<Json>)
    | Obj(fields: map<string, Json>)

  /** `value.hasOwnProperty(key)`: only objects have own keys among the
      field names the schema uses. */
  predicate HasOwn(v: Json, key: string)
  {
    v.Obj? && key in v.fields
  }

  /** `value[key]` for a value that is neither undefined nor null: an own key
      reads its value, anything else reads undefined. */
  function Field(v: Json, key: string): Json
  {
    if v.Obj? && key in v.fields then v.fields[key] else Undefined
  }

  /** A key holding undefined and an absent key read alike; only
      `hasOwnProperty` tells them apart. */
  lemma AbsentAndUndefinedReadAlike(m: map<string, Json>, k: string)
    ensures Field(Obj(m[k := Undefined]), k) == Field(Obj(m - {k}), k) == Undefined
    ensures HasOwn(Obj(m[k := Undefined]), k) && !HasOwn(Obj(m - {k}), k)
  {
  }

  /** JavaScript truthiness (the number NaN is not modelled). */
  predicate Truthy(v: Json)
  {
    match v
    case Undefined => false
    case Null => false
    case Bool(b) => b
    case Num(n) => n != 0.0
    case Str(s) => s != ""
    case Arr(_) => true
    case Obj(_) => true
  }
}
