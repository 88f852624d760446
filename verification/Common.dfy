/** Values shared by the tracker, the relay and the configuration loader. */
module Common {

  datatype Option<+T> = None | Some(value: T)

  datatype Result<+T, +E> = Ok(value: T) | Err(error: E)

  /** A decoded msgpack (or JSON) value, as the Python libraries hand it over:
      `None`, `bool`, `int`, `str`, `list` and `dict` with string keys. */
  datatype Value =
    | Nil
    | Bool(b: bool)
    | Int(i: int)
    | Str(s: string)
    | Arr(items: seq<Value>)
    | Dict(fields: map<string, Value>)

  /** Python's `v == k` for an integer literal `k`: `True == 1` and `False == 0` hold too. */
  predicate EqualsInt(v: Value, k: int)
  {
    match v
    case Int(i) => i == k
    case Bool(b) => (if b then 1 else 0) == k
    case _ => false
  }
}
