/**
 * Python values as the webhook code sees them: the result of parsing a JSON
 * request body (`dict`, `list`, `str`, numbers, `True`/`False`, `None`),
 * Python truthiness, and the three lookups the code chains together
 * (`d.get(k)`, `d.get(k, default)`, `x[k]` and `x[0]`), each with the
 * exception Python raises when the value has the wrong shape.
 */
module PyJson {

  datatype Option<+T> = None | Some(value: T)

  /** The exceptions the modelled code can raise. */
  datatype PyError =
    | KeyError        // `d[k]` on a dict without `k` (also `d[0]`: JSON keys are strings)
    | IndexError      // `[][0]`, `""[0]`
    | TypeError       // subscripting a value that does not support it; bytes(None, ...)
    | AttributeError  // `.get` / `.upper` on a value that has no such method
    | UnicodeError    // UnicodeEncodeError / UnicodeDecodeError

  /** A Python computation: a value, or the exception it raised. */
  datatype PyResult<+T> = Ok(value: T) | Raise(error: PyError) {
    predicate IsFailure() { Raise? }
    function PropagateFailure<U>(): PyResult<U>
      requires Raise?
    {
      Raise(error)
    }
    function Extract(): T
      requires Ok?
    {
      value
    }
  }

  /** A parsed JSON document; JSON numbers are kept as exact reals. */
  datatype Json =
    | JNull
    | JBool(b: bool)
    | JNum(n: real)
    | JStr(s: string)
    | JArr(items: seq<Json>)
    | JObj(fields: map<string, Json>)

  /** Python truthiness: None, False, zero, "", [] and {} are false. */
  predicate Truthy(j: Json) {
    match j
    case JNull => false
    case JBool(b) => b
    case JNum(n) => n != 0.0
    case JStr(s) => s != []
    case JArr(xs) => xs != []
    case JObj(m) => m != map[]
  }

  /** `j.get(k)`: the value under `k`, None when absent; only a dict has `.get`. */
  function Get(j: Json, k: string): (r: PyResult<Json>)
    ensures r.Ok? <==> j.JObj?
    ensures r.Ok? && k in j.fields ==> r.value == j.fields[k]
    ensures r.Ok? && k !in j.fields ==> r.value == JNull
    ensures r.Raise? ==> r.error == AttributeError
  {
    GetOr(j, k, JNull)
  }

  /** `j.get(k, default)`. */
  function GetOr(j: Json, k: string, default: Json): (r: PyResult<Json>)
    ensures r.Ok? <==> j.JObj?
    ensures r.Raise? ==> r.error == AttributeError
    ensures r.Ok? ==> r.value == if k in j.fields then j.fields[k] else default
  {
    match j
    case JObj(m) => Ok(if k in m then m[k] else default)
    case _ => Raise(AttributeError)
  }

  /** `j[k]` with a string key. */
  function Item(j: Json, k: string): (r: PyResult<Json>)
    ensures r.Ok? <==> j.JObj? && k in j.fields
    ensures r.Ok? ==> r.value == j.fields[k]
    ensures r.Raise? ==> r.error == (if j.JObj? then KeyError else TypeError)
  {
    match j
    case JObj(m) => if k in m then Ok(m[k]) else Raise(KeyError)
    case _ => Raise(TypeError)
  }

  /** `j[0]`: the first element of a list, the first character of a string. */
  function First(j: Json): (r: PyResult<Json>)
    ensures r.Ok? <==> (j.JArr? && j.items != []) || (j.JStr? && j.s != [])
    ensures r.Ok? && j.JArr? ==> r.value == j.items[0]
    ensures r.Ok? && j.JStr? ==> r.value == JStr([j.s[0]])
    ensures r.Raise? ==> r.error == (if j.JObj? then KeyError
      else if j.JArr? || j.JStr? then IndexError
      else TypeError)
  {
    match j
    case JArr(xs) => if xs != [] then Ok(xs[0]) else Raise(IndexError)
    case JStr(s) => if s != [] then Ok(JStr([s[0]])) else Raise(IndexError)
    case JObj(_) => Raise(KeyError)
    case _ => Raise(TypeError)
  }

  /** The value under `k`, or JNull: a total lookup used by specifications. */
  function Lookup(j: Json, k: string): Json {
    if j.JObj? && k in j.fields then j.fields[k] else JNull
  }

  /** A non-empty list whose first element is a dict. */
  predicate FirstIsDict(j: Json) {
    j.JArr? && j.items != [] && j.items[0].JObj?
  }

  /** The dict a key holds, present and of dict type. */
  predicate HasKey(j: Json, k: string) {
    j.JObj? && k in j.fields
  }
}
