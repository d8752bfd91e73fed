/** The dynamic values that `json.load` produces and the configuration stores
    hold: `None`, booleans, integers, floats, strings, lists and dictionaries. */
module Json {
  import opened PyDict

  datatype Value =
    | Null
    | Bool(b: bool)
    | Int(i: int)
    | Float(f: real)
    | Str(s: string)
    | List(items: seq<Value>)
    | Object(fields: Dict<string, Value>)

  /** Python truthiness (`if value:`): `None`, `False`, zero and empty containers are false. */
  predicate Truthy(v: Value) {
    match v
    case Null => false
    case Bool(b) => b
    case Int(i) => i != 0
    case Float(f) => f != 0.0
    case Str(s) => s != []
    case List(xs) => xs != []
    case Object(fs) => fs != []
  }

  /** A value that can be a dictionary key or the left operand of `in` on a
      dictionary; lists and dictionaries raise `TypeError` there. */
  predicate Hashable(v: Value) {
    !v.List? && !v.Object?
  }

  /** Every dictionary inside `v` has distinct keys, as every dictionary that
      `json.load` builds does. */
  predicate WellFormed(v: Value) {
    match v
    case List(xs) => forall i :: 0 <= i < |xs| ==> WellFormed(xs[i])
    case Object(fs) => DistinctKeys(fs) && forall i :: 0 <= i < |fs| ==> WellFormed(fs[i].1)
    case _ => true
  }

  /** The result of a Python call that either returns a value or lets an
      exception escape to its caller. */
  datatype Outcome<+T> = Returns(value: T) | Raises

  /** What reading a JSON file as UTF-8 gave: no file, a file that cannot be
      read or is not valid JSON (`IOError`, `json.JSONDecodeError`), a file
      whose bytes are not UTF-8 (`UnicodeDecodeError`, which is neither of
      those), or a parsed document. */
  datatype FileState = Missing | Unreadable | Undecodable | Parsed(doc: Value)
}
