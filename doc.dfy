/**
 * A decoded configuration or payload tree: what `tomllib` or a JSON decoder
 * hands back, as a tagged value.  Tables keep their keys in document order.
 */
module Doc {
  import opened Wrappers
  import opened Text
  import opened Assoc

  datatype Value =
    | Str(s: string)
    | Bool(b: bool)
    | Int(i: int)
    | List(items: seq<Value>)
    | Table(entries: Dict<string, Value>)
      /** Anything else (a date, a float, ...): how `str` prints it and whether it is truthy. */
    | Other(text: string, truthy: bool)

  /** Python's `bool(value)`. */
  predicate Truthy(v: Value) {
    match v
    case Str(s) => s != []
    case Bool(b) => b
    case Int(i) => i != 0
    case List(items) => items != []
    case Table(entries) => entries != []
    case Other(_, t) => t
  }

  /** Python's `str(value)`: a string is itself, everything else is printed as `repr` would. */
  function ToStr(v: Value): (r: string)
    ensures v.Str? ==> r == v.s
  {
    if v.Str? then v.s else Repr(v)
  }

  /** `repr(value)`, without the escaping of quotes and control characters inside strings. */
  function Repr(v: Value): string
    decreases v, 1
  {
    match v
    case Str(s) => "'" + s + "'"
    case Bool(b) => if b then "True" else "False"
    case Int(i) => IntToString(i)
    case List(items) => "[" + ReprItems(v, 0) + "]"
    case Table(entries) => "{" + ReprEntries(v, 0) + "}"
    case Other(text, _) => text
  }

  function ReprItems(v: Value, i: nat): string
    requires v.List?
    decreases v, 0, |v.items| - i
  {
    if i >= |v.items| then ""
    else (if i == 0 then "" else ", ") + Repr(v.items[i]) + ReprItems(v, i + 1)
  }

  function ReprEntries(v: Value, i: nat): string
    requires v.Table?
    decreases v, 0, |v.entries| - i
  {
    if i >= |v.entries| then ""
    else
      (if i == 0 then "" else ", ") + "'" + v.entries[i].0 + "': "
      + Repr(v.entries[i].1) + ReprEntries(v, i + 1)
  }

  /** `value if isinstance(value, Mapping) else {}`. */
  function EntriesOf(v: Option<Value>): Dict<string, Value> {
    if v.Some? && v.value.Table? then v.value.entries else []
  }

  /** `cfg.get(key, default)` on a table. */
  function Lookup(d: Dict<string, Value>, key: string, default: Value): Value {
    GetOr(d, key, default)
  }
}
