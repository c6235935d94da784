/**
 * `py_to_value`: classifies a query parameter given as a Python object into
 * the tagged union `PyToValue` the driver serialises. The tests run in a
 * fixed order and the first that holds decides the variant; lists, exact
 * tuples and exact sets are classified element by element.
 */
module Encoder {
  import opened Wrappers
  import opened Errors
  import P = Primitives
  import Py = Python

  /** `PyToValue` (src/utils.rs:34-46). */
  datatype Value =
    | String(text: string)
    | BigInt(int64: P.Int64)
    | Int(int32: P.Int32)
    | SmallInt(int16: P.Int16)
    | Bool(boolean: bool)
    | Double(double: P.Float64)
    | Float(float: P.Float32)
    | Bytes(bytes: seq<P.Byte>)
    | Uuid(uuid: P.Uuid)
    | Inet(inet: P.IpAddr)
    | List(items: seq<Value>)

  /**
   * The two foreign text parsers the classifier calls on `str(o)`:
   * `uuid::Uuid::parse_str` and `IpAddr::from_str`. Each answers `None` when
   * it rejects the text.
   */
  datatype Parsers = Parsers(parseUuid: string -> Option<P.Uuid>, parseAddr: string -> Option<P.IpAddr>)

  predicate IsCollection(o: Py.PyObject)
  {
    Py.IsListInstance(o) || Py.IsExactTuple(o) || Py.IsExactSet(o)
  }

  /** The classifier proper (src/utils.rs `py_to_value`). */
  function Classify(p: Parsers, o: Py.PyObject): Result<Value, Error>
    decreases o
  {
    if Py.IsStr(o) then Ok(String(o.payload.s))
    else if Py.IsInt(o) then
      var n := Py.IntValue(o);
      if P.InI64(n) then Ok(BigInt(n)) else Err(IntOverflow)
    else if Py.IsBool(o) then
      // every bool already passed the int test above
      Ok(Bool(o.payload == Py.Payload.Bool(true)))
    else if Py.IsFloat(o) then Ok(Double(o.payload.f))
    else if Py.IsBytes(o) then Ok(Bytes(o.payload.bytes))
    else if o.typeName == "UUID" then
      match p.parseUuid(o.text)
      case Some(u) => Ok(Uuid(u))
      case None => Err(UuidSyntax(o.text))
    else if o.typeName == "IPv4Address" || o.typeName == "IPv6Address" then
      match p.parseAddr(o.text)
      case Some(a) => Ok(Inet(a))
      case None => Err(AddrSyntax(o.text))
    else if IsCollection(o) then
      var vs :- ClassifyAll(p, o.payload.items);
      Ok(List(vs))
    else Err(UnsupportedParameter(o.typeName))
  }

  /** The elements of a collection, classified in iteration order; the first failure wins. */
  function ClassifyAll(p: Parsers, items: seq<Py.PyObject>): Result<seq<Value>, Error>
    decreases items
  {
    if items == [] then Ok([])
    else
      var v :- Classify(p, items[0]);
      var rest :- ClassifyAll(p, items[1..]);
      Ok([v] + rest)
  }

  lemma ClassifyAllStep(p: Parsers, items: seq<Py.PyObject>, acc: seq<Value>)
    requires items != []
    ensures Classify(p, items[0]).Err? ==>
      Prepend(acc, ClassifyAll(p, items)) == Err(Classify(p, items[0]).error)
    ensures Classify(p, items[0]).Ok? ==>
      Prepend(acc, ClassifyAll(p, items)) == Prepend(acc + [Classify(p, items[0]).value], ClassifyAll(p, items[1..]))
  {
    var v := Classify(p, items[0]);
    if v.Ok? {
      match ClassifyAll(p, items[1..]) {
        case Ok(rest) => assert acc + ([v.value] + rest) == (acc + [v.value]) + rest;
        case Err(_) =>
      }
    }
  }

  /** `py_to_value` with its push loop over a collection's elements (src/utils.rs:99-102). */
  method PyToValue(p: Parsers, o: Py.PyObject) returns (r: Result<Value, Error>)
    ensures r == Classify(p, o)
    decreases o
  {
    if !IsCollection(o) || Py.IsStr(o) || Py.IsInt(o) || Py.IsFloat(o) || Py.IsBytes(o)
      || o.typeName == "UUID" || o.typeName == "IPv4Address" || o.typeName == "IPv6Address"
    {
      return Classify(p, o);
    }
    var elems := o.payload.items;
    var items: seq<Value> := [];
    var i := 0;
    assert elems[0..] == elems;
    match ClassifyAll(p, elems) {
      case Ok(vs) => assert [] + vs == vs;
      case Err(_) =>
    }
    while i < |elems|
      invariant 0 <= i <= |elems|
      invariant ClassifyAll(p, elems) == Prepend(items, ClassifyAll(p, elems[i..]))
    {
      assert elems[i] in o.payload.items;
      var v := PyToValue(p, elems[i]);
      ClassifyAllStep(p, elems[i..], items);
      assert elems[i..][1..] == elems[i + 1..];
      if v.Err? {
        return Err(v.error);
      }
      items := items + [v.value];
      i := i + 1;
    }
    assert elems[i..] == [];
    assert items + [] == items;
    return Ok(List(items));
  }
}
