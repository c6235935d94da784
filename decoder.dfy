/**
 * `cql_to_py`: rebuilds the Python value of a result column from the
 * declared column type and the decoded protocol value. An absent value is
 * Python's `None` whatever the type; otherwise the column type decides, and
 * the value is read through that type's accessor.
 */
module Decoder {
  import opened Wrappers
  import opened Errors
  import opened Python
  import P = Primitives
  import Cql

  type ColumnType = Cql.ColumnType
  type CqlValue = Cql.CqlValue
  type Dict = map<HostValue, HostValue>

  /** `.ok_or(anyhow!(msg))`. */
  function OkOr<T>(o: Option<T>, msg: string): Result<T, Error>
  {
    match o
    case Some(x) => Ok(x)
    case None => Err(Message(msg))
  }

  /** The common tail of the messages for column types without a conversion. */
  const NotYetSupported: string := "not yet supported."

  /** The decoder proper (src/utils.rs `cql_to_py`). */
  function Decode(t: ColumnType, v: Option<CqlValue>): Result<HostValue, Error>
    decreases t, 1
  {
    match v
    case None => Ok(HNone)
    case Some(x) =>
      match t
      case Ascii =>
        var s :- OkOr(Cql.AsAscii(x), "Cannot parse"); Ok(HStr(s))
      case Boolean =>
        var b :- OkOr(Cql.AsBoolean(x), "Cannot parse"); Ok(HBool(b))
      case Blob =>
        var bytes :- OkOr(Cql.AsBlob(x), "Cannot parse"); Ok(HBytes(bytes))
      case Double =>
        var f :- OkOr(Cql.AsDouble(x), "Cannot parse"); Ok(HFloat(f))
      case Float =>
        // a float column is read through the double accessor
        var f :- OkOr(Cql.AsDouble(x), "Cannot parse"); Ok(HFloat(f))
      case Int =>
        var n :- OkOr(Cql.AsInt(x), "Cannot parse"); Ok(HInt(n))
      case BigInt =>
        var n :- OkOr(Cql.AsBigInt(x), "Cannot parse"); Ok(HInt(n))
      case Text =>
        var s :- OkOr(Cql.AsText(x), "Cannot parse"); Ok(HStr(s))
      case List(_) =>
        var items :- OkOr(Cql.AsList(x), "Cannot parse");
        var hs :- DecodeItems(t, items);
        Ok(HList(hs))
      case Map(_, _) =>
        var pairs :- OkOr(Cql.AsMap(x), "Cannot parse");
        var decoded :- DecodePairs(t, pairs);
        var d :- DictFromPairs(decoded);
        Ok(HDict(d))
      case Set(_) =>
        var items :- OkOr(Cql.AsSet(x), "Cannot parse");
        var hs :- DecodeItems(t, items);
        NewSet(hs)
      case SmallInt =>
        var n :- OkOr(Cql.AsSmallInt(x), "Cannot parse"); Ok(HInt(n))
      case TinyInt =>
        var n :- OkOr(Cql.AsTinyInt(x), "Cannot parse"); Ok(HInt(n))
      case Uuid =>
        var u :- OkOr(Cql.AsUuid(x), ""); Ok(HUuid(P.Simple(u)))
      case Timeuuid =>
        var u :- OkOr(Cql.AsTimeuuid(x), "Cannot parse timeuuid"); Ok(HUuid(P.Simple(u)))
      case Duration =>
        var d :- OkOr(Cql.AsDuration(x), "Cannot parse duration");
        (match P.NumMicroseconds(d)
         case Some(us) => Ok(HTimedelta(us))
         case None => Err(TimedeltaNone))
      case Timestamp =>
        var d :- OkOr(Cql.AsDuration(x), "Cannot parse timestamp"); Ok(HInt(P.NumMilliseconds(d)))
      case Inet =>
        var a :- OkOr(Cql.AsInet(x), "Cannot parse inet addres"); Ok(HInet(a))
      case Date =>
        var d :- OkOr(Cql.AsDate(x), "Cannot parse date"); Ok(HDate(P.FormatDate(d)))
      case Tuple(types) =>
        if x.Tuple? then
          var hs :- DecodeZip(types, x.tupleFields); Ok(HTuple(hs))
        else
          Err(Message("Cannot parse as tuple."))
      case Time => Err(Message("Time is " + NotYetSupported))
      case Counter => Err(Message("Counter is " + NotYetSupported))
      case Custom(_) => Err(Message("Custom types are " + NotYetSupported))
      case Varint => Err(Message("Variant is " + NotYetSupported))
      case Decimal => Err(Message("Decimals are " + NotYetSupported))
      case UserDefinedType(_, _, _) => Err(Message("UDT is " + NotYetSupported))
  }

  /** The elements of a list or set column, each decoded against the element type; the first failure wins. */
  function DecodeItems(t: ColumnType, items: seq<CqlValue>): Result<seq<HostValue>, Error>
    requires t.List? || t.Set?
    decreases t, 0, |items|
  {
    if items == [] then Ok([])
    else
      var h :- Decode(t.elem, Some(items[0]));
      var rest :- DecodeItems(t, items[1..]);
      Ok([h] + rest)
  }

  /** The entries of a map column, key then value, in order; the first failure wins. */
  function DecodePairs(t: ColumnType, pairs: seq<(CqlValue, CqlValue)>): Result<seq<(HostValue, HostValue)>, Error>
    requires t.Map?
    decreases t, 0, |pairs|
  {
    if pairs == [] then Ok([])
    else
      var k :- Decode(t.key, Some(pairs[0].0));
      var v :- Decode(t.value, Some(pairs[0].1));
      var rest :- DecodePairs(t, pairs[1..]);
      Ok([(k, v)] + rest)
  }

  /** `types.iter().zip(data)`: position by position, stopping at the shorter of the two. */
  function DecodeZip(types: seq<ColumnType>, data: seq<Option<CqlValue>>): Result<seq<HostValue>, Error>
    decreases types
  {
    if types == [] || data == [] then Ok([])
    else
      var h :- Decode(types[0], data[0]);
      var rest :- DecodeZip(types[1..], data[1..]);
      Ok([h] + rest)
  }

  /** `PyDict::set_item` applied to each pair in turn, starting from `d`. */
  function InsertAll(d: Dict, pairs: seq<(HostValue, HostValue)>): Result<Dict, Error>
    decreases |pairs|
  {
    if pairs == [] then Ok(d)
    else if !Hashable(pairs[0].0) then Err(Unhashable)
    else InsertAll(d[pairs[0].0 := pairs[0].1], pairs[1..])
  }

  /** The dict built from decoded map entries: a fresh `PyDict` filled by `set_item`. */
  function DictFromPairs(pairs: seq<(HostValue, HostValue)>): Result<Dict, Error>
  {
    InsertAll(map[], pairs)
  }

  /** `PySet::new(items)`. */
  function NewSet(items: seq<HostValue>): Result<HostValue, Error>
  {
    if forall i :: 0 <= i < |items| ==> Hashable(items[i]) then Ok(HSet(set h | h in items)) else Err(Unhashable)
  }

  /** The `set_item` loop of the map branch (src/utils.rs:191-194). */
  method BuildDict(pairs: seq<(HostValue, HostValue)>) returns (r: Result<Dict, Error>)
    ensures r == DictFromPairs(pairs)
  {
    var resMap: Dict := map[];
    var i := 0;
    while i < |pairs|
      invariant 0 <= i <= |pairs|
      invariant InsertAll(resMap, pairs[i..]) == DictFromPairs(pairs)
    {
      var (key, value) := pairs[i];
      if !Hashable(key) {
        return Err(Unhashable);
      }
      assert pairs[i..][1..] == pairs[i + 1..];
      resMap := resMap[key := value];
      i := i + 1;
    }
    return Ok(resMap);
  }

  lemma DecodeZipStep(types: seq<ColumnType>, data: seq<Option<CqlValue>>, acc: seq<HostValue>)
    requires types != [] && data != []
    ensures Decode(types[0], data[0]).Err? ==>
      Prepend(acc, DecodeZip(types, data)) == Err(Decode(types[0], data[0]).error)
    ensures Decode(types[0], data[0]).Ok? ==>
      Prepend(acc, DecodeZip(types, data)) == Prepend(acc + [Decode(types[0], data[0]).value], DecodeZip(types[1..], data[1..]))
  {
    var h := Decode(types[0], data[0]);
    if h.Ok? {
      match DecodeZip(types[1..], data[1..]) {
        case Ok(rest) => assert acc + ([h.value] + rest) == (acc + [h.value]) + rest;
        case Err(_) =>
      }
    }
  }

  /** The push loop of the tuple branch (src/utils.rs:275-278). */
  method DecodeTupleFields(types: seq<ColumnType>, data: seq<Option<CqlValue>>) returns (r: Result<seq<HostValue>, Error>)
    ensures r == DecodeZip(types, data)
  {
    var dumped: seq<HostValue> := [];
    var n := if |types| < |data| then |types| else |data|;
    var i := 0;
    assert types[0..] == types && data[0..] == data;
    match DecodeZip(types, data) {
      case Ok(rs) => assert [] + rs == rs;
      case Err(_) =>
    }
    while i < n
      invariant 0 <= i <= n
      invariant DecodeZip(types, data) == Prepend(dumped, DecodeZip(types[i..], data[i..]))
    {
      var h := Decode(types[i], data[i]);
      DecodeZipStep(types[i..], data[i..], dumped);
      assert types[i..][1..] == types[i + 1..] && data[i..][1..] == data[i + 1..];
      if h.Err? {
        return Err(h.error);
      }
      dumped := dumped + [h.value];
      i := i + 1;
    }
    assert types[i..] == [] || data[i..] == [];
    assert dumped + [] == dumped;
    return Ok(dumped);
  }
}
