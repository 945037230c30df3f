/**
  Go's dynamic values (`interface{}`) as the plugin sees them in its loosely
  typed configuration and parameter maps, and the failure wrappers that stand
  for Go's `(value, error)` returns.
 */
module GoValues {

  datatype Option<+T> = None | Some(value: T)

  /** The errors the plugin returns. Configuration errors carry the plugin's own
      message; errors coming back from the array client are passed on verbatim. */
  datatype Error =
    | ConfigError(msg: string)
    | ClientError(reason: string)

  /** A Go `(T, error)` pair where exactly one side is meaningful. */
  datatype Result<+T> = Ok(value: T) | Err(error: Error)

  /** A value of static type `interface{}`. `Int64` holds Go's `int64`; its field is an
      unbounded integer, and the members that build or accept one say where
      it is known to lie in the int64 range;
      `Object` is `map[string]interface{}`, `List` is `[]interface{}`, and
      `Opaque` stands for a value of any other dynamic type. */
  datatype Value =
    | Nil
    | Str(s: string)
    | Int64(i: int)
    | Bool(b: bool)
    | Object(fields: map<string, Value>)
    | List(items: seq<Value>)
    | Opaque(tag: nat)

  /** Go's `m[k]` on a `map[string]interface{}`: the nil interface when `k` is missing. */
  function Index(m: map<string, Value>, k: string): Value
  {
    if k in m then m[k] else Nil
  }

  /** Go's comma-ok assertion `v.(string)`. */
  function AsString(v: Value): Option<string>
  {
    if v.Str? then Some(v.s) else None
  }

  /** `v, exist := m[k]; exist && v != ""`: the key is present and its value is
      not the empty string. A value of any other dynamic type is unequal to "". */
  predicate Present(m: map<string, Value>, k: string)
  {
    k in m && m[k] != Str("")
  }

  /** `v, exist := m[k].(string); exist && v != ""`: the non-empty string held at `k`. */
  function NonEmptyString(m: map<string, Value>, k: string): (r: Option<string>)
    ensures r.Some? <==> (k in m && m[k].Str? && m[k].s != "")
    ensures r.Some? ==> m[k] == Str(r.value)
  {
    match AsString(Index(m, k))
    case Some(v) => if v != "" then Some(v) else None
    case None => None
  }
}
