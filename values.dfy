/** Python values as they appear in a decoded Lambda event, and the Python
    exceptions that reading them can raise. */
module Values {

  /** A value of the decoded JSON event: what `json.loads` produces. */
  datatype Json =
    | Null
    | Bool(b: bool)
    | Num(n: int)
    | Str(s: string)
    | Arr(elems: seq<Json>)
    | Obj(fields: map<string, Json>)
  {
    /** Python accepts the value as a dict key: lists and dicts are unhashable. */
    predicate Hashable() {
      !Arr? && !Obj?
    }
  }

  /** A value usable as a key of a Python dict. */
  type Key = k: Json | k.Hashable() witness Null

  /** The Lambda event: a dict with string keys. */
  type Event = map<string, Json>

  /** The exceptions the handler lets escape. */
  datatype PyError =
    | KeyError(key: string)   // `d[key]` on a dict without `key`
    | TypeError               // not iterable, not subscriptable by a str, or unhashable
    | AttributeError          // `.get` on a value that is not a dict

  /** Either the value a Python expression produces or the exception it raises. */
  datatype Result<+T> = Ok(value: T) | Err(error: PyError) {
    predicate IsFailure() {
      Err?
    }

    function PropagateFailure<U>(): Result<U>
      requires Err?
    {
      Err(error)
    }

    function Extract(): T
      requires Ok?
    {
      value
    }
  }

  datatype Option<+T> = None | Some(value: T)

  /** `event[key]`. */
  function Subscript(event: Event, key: string): Result<Json> {
    if key in event then Ok(event[key]) else Err(KeyError(key))
  }

  /** `container.get(key, default)`: only a dict has a `get` method. */
  function GetOr(container: Json, key: string, default: Json): Result<Json> {
    match container
    case Obj(fields) => Ok(if key in fields then fields[key] else default)
    case _ => Err(AttributeError)
  }
}
