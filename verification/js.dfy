/** JavaScript values as the body-frame server sees them.
 *
 *  Only what the server inspects is distinguished: `typeof` (number or
 *  string, for the enum tables), truthiness (for `if (!body)`, `if (!j)` and
 *  `filter(Boolean)`), and nullishness of depth coordinates (`!= null`).
 *  Objects, arrays, functions and symbols are all one opaque `Compound`.
 */
module Js {

  datatype Option<+T> = None | Some(value: T)

  datatype Value =
    | Undefined
    | Null
    | Bool(b: bool)
    | Num(n: real)
    | Str(s: string)
    | Compound

  /** JavaScript's ToBoolean. */
  predicate Truthy(v: Value) {
    match v
    case Undefined => false
    case Null => false
    case Bool(b) => b
    case Num(n) => n != 0.0
    case Str(s) => s != ""
    case Compound => true
  }

  /** `undefined`, `null`, `false`, `0` and `""`. */
  type FalsyValue = v: Value | !Truthy(v) witness Undefined

  /** A plain object: its own enumerable string-keyed properties, in
      `Object.keys` order. */
  type Entries<V> = seq<(string, V)>

  /** The keys of an object, in `Object.keys` order. */
  function Keys<V>(obj: Entries<V>): seq<string> {
    seq(|obj|, i requires 0 <= i < |obj| => obj[i].0)
  }

  /** What every real object satisfies: no key occurs twice. */
  predicate DistinctKeys<V>(obj: Entries<V>) {
    forall i, j :: 0 <= i < j < |obj| ==> obj[i].0 != obj[j].0
  }
}
