/**
 * The dynamically typed host: a Python object as the outbound classifier sees
 * it (its type name, whether its type is exactly a built-in one, its `str()`
 * text and its built-in payload), and the Python values the inbound decoder
 * builds.
 */
module Python {
  import opened Primitives

  /** What built-in class, if any, an object is an instance of, with the data pyo3 extracts from it. */
  datatype Payload =
    | Str(s: string)
    | Int(i: int)
    | Bool(b: bool)
    | Float(f: Float64)
    | Bytes(bytes: seq<Byte>)
    | List(items: seq<PyObject>)
    /** A set or set subclass, with its elements in iteration order. */
    | Set(items: seq<PyObject>)
    | FrozenSet(items: seq<PyObject>)
    | Tuple(items: seq<PyObject>)
    | Dict(entries: seq<(PyObject, PyObject)>)
    /** An instance of no built-in class above (a `uuid.UUID`, an `ipaddress` object, a user class, ...). */
    | Opaque

  /**
   * A Python object. `typeName` is `type(o).__name__`; `exact` says whether
   * `type(o)` is the built-in class of the payload itself rather than a
   * subclass of it; `text` is what `str(o)` returns. Objects are finite
   * trees: a collection cannot contain itself.
   */
  datatype PyObject = PyObject(typeName: string, exact: bool, text: string, payload: Payload)

  // Capability tests, as pyo3's `is_instance_of` / `is_exact_instance_of` answer them.

  predicate IsStr(o: PyObject) { o.payload.Str? }

  /** `bool` is a subclass of `int`, so every bool passes the int test. */
  predicate IsInt(o: PyObject) { o.payload.Int? || o.payload.Bool? }

  predicate IsBool(o: PyObject) { o.payload.Bool? }

  predicate IsFloat(o: PyObject) { o.payload.Float? }

  predicate IsBytes(o: PyObject) { o.payload.Bytes? }

  predicate IsListInstance(o: PyObject) { o.payload.List? }

  predicate IsExactTuple(o: PyObject) { o.payload.Tuple? && o.exact }

  predicate IsExactSet(o: PyObject) { o.payload.Set? && o.exact }

  predicate IsDictInstance(o: PyObject) { o.payload.Dict? }

  /** The integer an int (or bool) object denotes: `True` is 1, `False` is 0. */
  function IntValue(o: PyObject): (n: int)
    requires IsInt(o)
  {
    if o.payload.Int? then o.payload.i else if o.payload.b then 1 else 0
  }

  /** The values the inbound decoder hands to Python. */
  datatype HostValue =
    | HNone
    | HStr(s: string)
    | HInt(i: int)
    | HBool(b: bool)
    | HFloat(f: Float64)
    | HBytes(bytes: seq<Byte>)
    | HList(items: seq<HostValue>)
    | HSet(elems: set<HostValue>)
    | HDict(entries: map<HostValue, HostValue>)
    | HTuple(items: seq<HostValue>)
    /** `uuid.UUID(hex)`. */
    | HUuid(hex: string)
    /** `datetime.timedelta(microseconds=micros)`. */
    | HTimedelta(micros: int)
    /** `datetime.date.fromisoformat(iso)`. */
    | HDate(iso: string)
    /** The Python object pyo3 makes of an `IpAddr`. */
    | HInet(addr: IpAddr)

  /** Whether Python can hash the value: lists, sets and dicts cannot, tuples only if their items can. */
  predicate Hashable(h: HostValue) {
    match h
    case HList(_) => false
    case HSet(_) => false
    case HDict(_) => false
    case HTuple(items) => forall i :: 0 <= i < |items| ==> Hashable(items[i])
    case _ => true
  }
}
