/**
 * The JavaScript values the pages read from JSON records where a boolean is
 * expected but the field may also be missing or `null`, and the three ways
 * the pages turn such a value into text or a condition.
 */
module JsValues {
  /** A JSON field that should hold a boolean. */
  datatype Flag = Undefined | Null | Bool(b: bool)

  /** `String(v)`. */
  function FlagString(f: Flag): (r: string)
    ensures r == "true" <==> f == Bool(true)
    ensures r == "false" <==> f == Bool(false)
    ensures r != ""
  {
    match f
    case Undefined => "undefined"
    case Null => "null"
    case Bool(b) => if b then "true" else "false"
  }

  /** How `Array.prototype.join` writes the value: `undefined` and `null` become empty. */
  function FlagJoinText(f: Flag): (r: string)
    ensures r == "" <==> !f.Bool?
    ensures f.Bool? ==> r == FlagString(f)
  {
    match f
    case Bool(b) => if b then "true" else "false"
    case _ => ""
  }

  /** Truthiness (`!!v`, `v || false`). */
  predicate Truthy(f: Flag) {
    f == Bool(true)
  }
}
