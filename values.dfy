/**
 * The loosely typed JSON scalars the weather feed delivers in its free-text
 * fields, with Python's truthiness and `str()` on them.
 */
module Values {
  import opened Text

  /** A JSON scalar as Python sees it after `json.load`; `Null` also stands
      for a key that `dict.get` does not find. */
  datatype Scalar = Null | Bool(b: bool) | Int(i: int) | Str(s: string)

  /** Python's truthiness: `None`, `False`, `0` and `""` are false. */
  predicate Truthy(v: Scalar) {
    match v
    case Null => false
    case Bool(b) => b
    case Int(i) => i != 0
    case Str(s) => s != ""
  }

  /** Python's `str(v)`. */
  function ToText(v: Scalar): string {
    match v
    case Null => "None"
    case Bool(b) => if b then "True" else "False"
    case Int(i) => IntToText(i)
    case Str(s) => s
  }
}
