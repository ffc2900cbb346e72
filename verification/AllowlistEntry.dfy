/** Values and entries of the accessibility allowlist, as the loader's `coerce` produces them. */
module AllowlistEntry {
  import opened JsText

  datatype Value = Null | Bool(b: bool) | Int(n: int) | Str(s: string)

  type Entry = map<string, Value>

  /** Property read; a missing property behaves like null in every test the gate makes. */
  function Field(e: Entry, key: string): (v: Value) {
    if key in e then e[key] else Null
  }

  predicate Truthy(v: Value)
    ensures Truthy(v) <==> v !in [Null, Bool(false), Int(0), Str("")]
  {
    match v
    case Null => false
    case Bool(b) => b
    case Int(n) => n != 0
    case Str(s) => s != ""
  }

  /** `String(v)`. */
  function AsString(v: Value): (s: string) {
    match v
    case Null => "null"
    case Bool(b) => if b then "true" else "false"
    case Int(n) => Decimal(n)
    case Str(s) => s
  }
}
