/** The parts of a parsed JSON request body that the sync code inspects. */
module Json {

  /** A JSON value, down to what `typeof` and `Array.isArray` tell apart. An
      absent object member (`undefined`) is represented by `JNull`: the code
      never treats the two differently where this type is used. */
  datatype Value = JNull | JBool(b: bool) | JNumber | JString(s: string) | JArray | JObject

  /** A member that the code reads through `Array.isArray(x) ? x : []`. */
  datatype Field<T> = Array(elems: seq<T>) | NotArray

  /** The elements of an array member; anything that is not an array reads as empty. */
  function Elements<T>(f: Field<T>): (r: seq<T>)
    ensures f.NotArray? ==> r == []
  {
    match f
    case Array(elems) => elems
    case NotArray => []
  }
}
