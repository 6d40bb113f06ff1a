/**
 * The JavaScript values a parsed TLS report is made of, with the three
 * operations the handlers apply to them: property access (which throws on
 * null and undefined), truthiness, and conversion to a string (what a
 * template literal, String.prototype.replace or the Date constructor does
 * with a value), which throws on an object carrying its own `toString`.
 */
module Json {
  import opened Decimal

  /**
   * A JavaScript value as JSON.parse produces it, plus `undefined` (what a
   * missing property reads as). Numbers are integral; an object is the map
   * JSON.parse builds, where a repeated key keeps its last value.
   */
  datatype Value =
    | Undefined
    | Null
    | Bool(b: bool)
    | Num(n: int)
    | Str(s: string)
    | Arr(items: seq<Value>)
    | Obj(fields: map<string, Value>)

  /** `null` and `undefined`: the values whose properties cannot be read. */
  predicate Nullish(v: Value) {
    v.Undefined? || v.Null?
  }

  /**
   * `v[key]` (or a destructuring of `v`) for a value that is not nullish.
   * Only own keys of a parsed object are found; the keys this program reads
   * are never properties of strings, numbers, booleans or arrays.
   */
  function Get(v: Value, key: string): (r: Value)
    requires !Nullish(v)
    ensures r != Undefined ==> v.Obj? && key in v.fields && r == v.fields[key]
    ensures v.Obj? && key in v.fields ==> r == v.fields[key]
  {
    match v
    case Obj(fields) => if key in fields then fields[key] else Undefined
    case _ => Undefined
  }

  /** JavaScript truthiness (every number here is integral, so NaN does not arise). */
  predicate Truthy(v: Value) {
    match v
    case Undefined => false
    case Null => false
    case Bool(b) => b
    case Num(n) => n != 0
    case Str(s) => s != ""
    case Arr(_) => true
    case Obj(_) => true
  }

  /**
   * String(v) does not throw. A parsed object with an own `toString` field
   * makes it throw a TypeError: that field is not callable, and `valueOf`
   * gives back the object itself, so no primitive is found. An array is
   * converted element by element, null and undefined becoming empty.
   */
  predicate Stringable(v: Value)
    decreases v
  {
    match v
    case Obj(fields) => "toString" !in fields
    case Arr(items) => forall i :: 0 <= i < |items| ==> Stringable(items[i])
    case _ => true
  }

  /** Array.prototype.join(",") of the stringified elements; null and undefined become "". */
  function JoinElements(items: seq<Value>): string
    requires forall i :: 0 <= i < |items| ==> Stringable(items[i])
    decreases items
  {
    if items == [] then ""
    else
      var first := if Nullish(items[0]) then "" else ToStr(items[0]);
      if |items| == 1 then first else first + "," + JoinElements(items[1..])
  }

  /** String(v): what `${v}` in a template literal and a replacement value become, where that does not throw. */
  function ToStr(v: Value): (s: string)
    requires Stringable(v)
    ensures v.Str? ==> s == v.s
    ensures v.Undefined? ==> s == "undefined"
    decreases v, 1
  {
    match v
    case Undefined => "undefined"
    case Null => "null"
    case Bool(b) => if b then "true" else "false"
    case Num(n) => IntToString(n)
    case Str(s) => s
    case Arr(items) => JoinElements(items)
    case Obj(_) => "[object Object]"
  }
}
