/** The Python values that flow through the core: field values, request
    arguments, handler results and configuration entries. Floats and arbitrary
    objects are opaque; dictionaries are string-keyed, as every dictionary the
    core builds or inspects is. */
module PyValue {

  type byte = x: int | 0 <= x < 256

  datatype Value =
    | PyNone
    | Bool(b: bool)
    | Int(i: int)
    | Float(repr: string)
    | Str(s: string)
    | Bytes(data: seq<byte>)
    | Tuple(items: seq<Value>)
    | List(items: seq<Value>)
    | Dict(entries: map<string, Value>)
    | Object(kind: string)

  /** `isinstance(v, int)`: in Python `bool` is a subclass of `int`. */
  predicate IsInt(v: Value) {
    v.Int? || v.Bool?
  }

  /** The integer an `int` (or `bool`) value denotes. */
  function IntValue(v: Value): int
    requires IsInt(v)
  {
    if v.Int? then v.i else if v.b then 1 else 0
  }
}
