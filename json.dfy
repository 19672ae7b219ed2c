/**
 * JSON values as Python's json module hands them to the modelled code, with
 * the Python semantics that code applies to them: truthiness, str() and int().
 */
module Json {
  import opened Wrappers
  import opened PyStr

  /** A decoded JSON document (floating-point numbers are not modelled). */
  datatype Value =
    | Null
    | Bool(b: bool)
    | Int(i: int)
    | Str(s: string)
    | List(items: seq<Value>)
    | Dict(fields: map<string, Value>)

  /** Python truthiness: None, False, 0, "", [] and {} are false. */
  predicate Truthy(v: Value) {
    match v
    case Null => false
    case Bool(b) => b
    case Int(i) => i != 0
    case Str(s) => s != ""
    case List(items) => |items| > 0
    case Dict(fields) => |fields| > 0
  }

  /**
   * Python's str(v). Strings, None, booleans and ints are rendered here; the
   * repr of a list or a dict is left to the parameter `repr`.
   */
  function Show(v: Value, repr: Value -> string): string {
    match v
    case Str(s) => s
    case Null => "None"
    case Bool(b) => if b then "True" else "False"
    case Int(i) => IntToString(i)
    case _ => repr(v)
  }

  /** The three outcomes of Python's int(x). */
  datatype IntConversion = Converted(n: int) | ValueErr | TypeErr

  /** int(v) for a decoded JSON value: ints pass, booleans give 0 or 1, strings are parsed. */
  function PyInt(v: Value): (r: IntConversion)
    ensures r.TypeErr? <==> v.Null? || v.List? || v.Dict?
  {
    match v
    case Int(i) => Converted(i)
    case Bool(b) => Converted(if b then 1 else 0)
    case Str(s) => (match ParseInt(s) case Some(n) => Converted(n) case None => ValueErr)
    case _ => TypeErr
  }
}
