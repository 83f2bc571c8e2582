/**
 * A JSON document after parsing. Text parsing itself belongs to the JSON
 * library and is not part of this model; the descriptor and status schemas
 * are decoded from values of this type.
 */
module Json {
  /**
   * A JSON number as the JSON library reads it: `Int` for an integer
   * literal (no fraction, no exponent, and not `-0`, which is read as a
   * float), `Frac` for any other (the value it denotes).
   */
  datatype Number = Int(i: int) | Frac(x: real)

  /**
   * Object keys are unique. A repeated key that a schema names is refused
   * as a duplicate field; repeated keys a schema ignores are not represented.
   */
  datatype Value =
    | Null
    | Bool(b: bool)
    | Num(n: Number)
    | Str(s: string)
    | Arr(items: seq<Value>)
    | Obj(fields: map<string, Value>)
}
