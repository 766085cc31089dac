/** Values shared by the whole model: decoded JSON values, Python truthiness,
    the failure-compatible Option and Result wrappers, and the exceptions the
    core can raise. */
module Values {

  datatype Option<+T> = None | Some(value: T)

  /** The Python exceptions that the core lets escape to its caller. */
  datatype Error =
    | AttributeError          // `.get` or `.keys` on a value that is not a dict
    | TypeError               // `in` on a non-container, indexing a non-dict, json.loads of a non-string
    | KeyError(key: string)   // a missing dict key
    | ValueError              // strptime mismatch, JSON decode failure
    | DateConversionError     // dateutil could not turn a date value into a timestamp
    | ParamValidationError    // the DynamoDB client rejected a request parameter before sending it

  datatype Result<+T> = Ok(value: T) | Err(error: Error) {
    predicate IsFailure() { Err? }

    function PropagateFailure<U>(): Result<U>
      requires Err?
    {
      Err(error)
    }

    function Extract(): T
      requires Ok?
    {
      value
    }
  }

  /** A decoded JSON value, as `json.loads` returns it and as DynamoDB
      attribute values arrive through boto3. Numbers are integers. */
  datatype Json =
    | JNull
    | JBool(b: bool)
    | JNum(n: int)
    | JStr(s: string)
    | JArr(elems: seq<Json>)
    | JObj(fields: map<string, Json>)

  /** Python's truth value of a decoded JSON value. */
  predicate Truthy(v: Json)
  {
    match v
    case JNull => false
    case JBool(b) => b
    case JNum(n) => n != 0
    case JStr(s) => s != ""
    case JArr(es) => es != []
    case JObj(m) => m != map[]
  }

  /** Python's truth value of an optional dict (`None` or empty is false). */
  predicate DictTruthy(d: Option<map<string, Json>>)
  {
    d.Some? && d.value != map[]
  }

  /** Python's truth value of an optional int (`None` or 0 is false). */
  predicate IntTruthy(n: Option<int>)
  {
    n.Some? && n.value != 0
  }
}
