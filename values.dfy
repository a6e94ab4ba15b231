/** The values a document holds and the outcomes its operations report. */
module Values {

  /** A scalar leaf: a string, a number or a boolean. */
  datatype Literal = Str(s: string) | Num(n: int) | Bool(b: bool)

  /** A document value: Java's null, a scalar, a list, or a nested map. */
  datatype Value =
    | Null
    | Scalar(lit: Literal)
    | List(items: seq<Value>)
    | Obj(fields: map<string, Value>)

  /** The exceptions the document operations can raise. */
  datatype Error =
    | EmptySource    // checkState in the constructor
    | CastFailure    // ClassCastException: a path walks through a non-map value
    | MissingField   // checkState in getField: the path does not resolve
    | NullElement    // NullPointerException: Collectors.toMap meets a null list element

  datatype Result<+T> = Ok(value: T) | Err(error: Error)

  datatype Outcome = Pass | Fail(error: Error)

  /** The classes a caller can pass to hasField(path, clazz). */
  datatype Kind = ObjectKind | StringKind | NumberKind | BooleanKind | ListKind | MapKind

  /** clazz.isInstance(v) for the kinds above; null is an instance of nothing. */
  predicate IsInstance(k: Kind, v: Value)
  {
    match k
    case ObjectKind => v != Null
    case StringKind => v.Scalar? && v.lit.Str?
    case NumberKind => v.Scalar? && v.lit.Num?
    case BooleanKind => v.Scalar? && v.lit.Bool?
    case ListKind => v.List?
    case MapKind => v.Obj?
  }

  /** Map.get: a missing key reads as null. */
  function Get(m: map<string, Value>, k: string): Value
  {
    if k in m then m[k] else Null
  }
}
