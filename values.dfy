/** The decoded JSON tree the patch engine works on, and the engine's errors.
    Go's `interface{}` documents become the closed variant `Json`; Go's panics
    become `Panic` errors so that every outcome is a value. */
module Values {

  /** A decoded JSON value. Numbers are kept as integers (the engine never
      does arithmetic on them). */
  datatype Json =
    | JNull
    | JBool(b: bool)
    | JNum(n: int)
    | JStr(s: string)
    | JArr(elems: seq<Json>)
    | JObj(members: map<string, Json>)
  {
    /** Neither an array nor an object: nothing can be stored under it. */
    predicate Scalar() {
      !JArr? && !JObj?
    }
  }

  /** Why the Go code would panic at that point. */
  datatype Fault =
    | MalformedPointer     // a path segment that does not start with '/'
    | NotAnIndex           // an array token that strconv.Atoi rejects, during traversal
    | IndexOutOfRange      // a slice index or bound outside the slice
    | UnknownType          // traversal or edit through a scalar or null
    | EmptyPointer         // pointer[:len(pointer)-1] on an empty pointer
    | NilPointer           // a nil dereference: the nil parent of a one-token pointer,
                           // or the nil reference of a parent path that does not resolve
    | RootInsert           // refPointer.Insert
    | RootRemove           // refPointer.Remove
    | ArrayRemove          // arrayPointer.Remove
    | TopLevelArray        // arrayPointer.Insert with no enclosing map
    | Uncomparable         // `!=` on two slices or two maps

  datatype Error =
    | InvalidJsonPath            // ErrorInvalidJSONPath
    | Panic(fault: Fault)
    | NotAnInteger(token: string) // the error strconv.Atoi returns, when it is returned
    | FragmentPointer            // a '#' pointer, whose percent-decoding is not modelled
    | TestFailed                 // "test condition failed"
    | UnknownOperation           // "rfc6902: unknown operation"
    | EmptyDocument              // "rfc6902: empty JSON document"
    | MissingOp(pos: nat)        // "rfc6902: missing op at <pos>"
    | MissingPath(pos: nat)      // "rfc6902: missing path at <pos>"
    | MissingAddValue            // "rfc6902: missing value for add op"

  datatype Option<T> = None | Some(value: T)

  datatype Result<T> = Ok(value: T) | Err(error: Error)

  /** A result whose error the Go caller drops (`p.remove()` with its error
      unused): the error becomes success with the document as it was. Panics
      are not errors and still propagate. */
  function IgnoreError(r: Result<Json>, doc: Json): (s: Result<Json>)
    ensures s.Err? ==> r.Err? && r.error.Panic? && s == r
    ensures r.Ok? ==> s == r
    ensures r.Err? && !r.error.Panic? ==> s == Ok(doc)
  {
    match r
    case Ok(_) => r
    case Err(Panic(_)) => r
    case Err(_) => Ok(doc)
  }
}
