/** JSON values as the behaviour-tree codec and the command id rewriter see them.

    An object is a map: equality of two objects ignores the order of their keys. The order in
    which a map is WALKED is a property of the `Env` below. */
module Json {
  import opened Decimals
  import opened Numerals
  import opened Wrappers

  /** The integers that are kept as integers: signed or unsigned 64-bit ones. */
  type JsonInt = i: int | -I64_MAX - 1 <= i <= U64_MAX

  /** serde_json keeps integers and floating-point numbers apart. */
  datatype Number = IntNum(i: JsonInt) | FloatNum(d: Decimal) {
    /** `as_f64`, without its rounding. */
    function AsDecimal(): Decimal {
      match this
      case IntNum(i) => FromInt(i)
      case FloatNum(d) => d
    }
  }

  datatype Json =
    | Null
    | Bool(b: bool)
    | Num(number: Number)
    | Str(s: string)
    | Arr(items: seq<Json>)
    | Obj(fields: map<string, Json>)

  /** The library functions the source calls and this model does not look into: JSON text, decimal
      text of fractional numbers, and the order in which a JSON object is iterated. Every theorem
      holds for all of them that satisfy `Lawful`. */
  datatype Env = Env(
    showJson: Json -> string,
    readJson: string -> Option<Json>,
    decimals: DecimalText,
    order: set<string> -> seq<string>)
  {
    ghost predicate Lawful() {
      && decimals.Lawful()
      && (forall v :: readJson(showJson(v)) == Some(v))
      && (forall keys :: Enumerates(order(keys), keys))
    }
  }

  /** `names` lists every key once. */
  ghost predicate Enumerates(names: seq<string>, keys: set<string>) {
    && (forall i :: 0 <= i < |names| ==> names[i] in keys)
    && (forall k :: k in keys ==> k in names)
    && (forall i, j :: 0 <= i < j < |names| ==> names[i] != names[j])
  }

  function Get(m: map<string, Json>, key: string): Option<Json> {
    if key in m then Some(m[key]) else None
  }

  /** `v.get(key)`: nothing, on anything but an object. */
  function Field(v: Json, key: string): Option<Json> {
    if v.Obj? then Get(v.fields, key) else None
  }

  /** `obj.get(key).and_then(Value::as_str)`. */
  function GetStr(m: map<string, Json>, key: string): Option<string> {
    if key in m && m[key].Str? then Some(m[key].s) else None
  }

  /** `obj.get(key).and_then(Value::as_array)`. */
  function GetArr(m: map<string, Json>, key: string): Option<seq<Json>> {
    if key in m && m[key].Arr? then Some(m[key].items) else None
  }
}
