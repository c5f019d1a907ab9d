/** The Python values that flow through the OWL/XML parser, and the
    built-in dictionary operations its classifier relies on. */
module Python {

  datatype Option<+T> = None | Some(value: T)

  /** A value or the exception that interrupted its computation. */
  datatype Result<+T, +E> = Ok(value: T) | Err(error: E) {
    predicate IsFailure() {
      Err?
    }

    function PropagateFailure<U>(): Result<U, E>
      requires Err?
    {
      Err(error)
    }

    function Extract(): T
      requires Ok?
    {
      value
    }
  }

  /** The kinds of Python value that can reach a term record:
      `None`, `str`, `list` and `dict` with `str` keys. */
  datatype PyValue =
    | PyNone
    | PyStr(s: string)
    | PyList(items: seq<PyValue>)
    | PyDict(entries: map<string, PyValue>)

  /** The built-in exceptions the dictionary operations below can raise. */
  datatype Exception = KeyError(key: string) | TypeError | AttributeError

  /** Python truth testing: `None` and empty containers are false. */
  predicate Truthy(v: PyValue) {
    match v
    case PyNone => false
    case PyStr(s) => s != ""
    case PyList(xs) => xs != []
    case PyDict(m) => m != map[]
  }

  /** An optional string (`str` or `None`) as a Python value. */
  function FromOptional(s: Option<string>): PyValue {
    match s
    case None => PyNone
    case Some(t) => PyStr(t)
  }

  /** Python's `a or b` on two optional strings. */
  function OrElse(a: Option<string>, b: Option<string>): Option<string> {
    if a.Some? && a.value != "" then a else b
  }

  /** `container[key] = v`, which only a `dict` accepts with a `str` key. */
  function SetItem(container: PyValue, key: string, v: PyValue): Result<PyValue, Exception> {
    match container
    case PyDict(m) => Ok(PyDict(m[key := v]))
    case _ => Err(TypeError)
  }

  /** `container[key].append(v)`: the lookup needs a `dict` holding `key`,
      and the value found there must be a `list`. */
  function AppendItem(container: PyValue, key: string, v: PyValue): Result<PyValue, Exception> {
    match container
    case PyDict(m) =>
      if key !in m then Err(KeyError(key))
      else if m[key].PyList? then Ok(PyDict(m[key := PyList(m[key].items + [v])]))
      else Err(AttributeError)
    case _ => Err(TypeError)
  }
}
