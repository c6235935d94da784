/**
 * The protocol side of the inbound decoder: the column type descriptor the
 * server declares (`ColumnType`) and the already decoded value the driver
 * hands over (`CqlValue`), with the typed accessors the decoder reads values
 * through. An accessor answers `None` when the value's tag is not its own.
 */
module Cql {
  import opened Wrappers
  import P = Primitives

  datatype ColumnType =
    | Custom(className: string)
    | Ascii
    | Boolean
    | Blob
    | Counter
    | Date
    | Decimal
    | Double
    | Duration
    | Float
    | Int
    | BigInt
    | Text
    | Timestamp
    | Inet
    | List(elem: ColumnType)
    | Map(key: ColumnType, value: ColumnType)
    | Set(elem: ColumnType)
    | UserDefinedType(typeName: string, keyspace: string, fieldTypes: seq<(string, ColumnType)>)
    | SmallInt
    | TinyInt
    | Time
    | Timeuuid
    | Tuple(types: seq<ColumnType>)
    | Uuid
    | Varint

  datatype CqlValue =
    | Ascii(ascii: string)
    | Boolean(boolean: bool)
    | Blob(blob: seq<P.Byte>)
    | Counter(counter: P.Int64)
    | Decimal(unscaled: int, scale: P.Int32)
    /** The calendar date the driver's `as_date` yields for the stored day count. */
    | Date(date: P.NaiveDate)
    | Double(double: P.Float64)
    | Duration(months: P.Int32, days: P.Int32, nanoseconds: P.Int64)
    | Empty
    | Float(float: P.Float32)
    | Int(int32: P.Int32)
    | BigInt(int64: P.Int64)
    | Text(text: string)
    /** Milliseconds since the epoch, held as a chrono `Duration`. */
    | Timestamp(sinceEpoch: P.ChronoDuration)
    | Inet(inet: P.IpAddr)
    | List(list: seq<CqlValue>)
    | Map(pairs: seq<(CqlValue, CqlValue)>)
    | Set(setItems: seq<CqlValue>)
    | UserDefinedType(keyspace: string, typeName: string, fields: seq<(string, Option<CqlValue>)>)
    | SmallInt(int16: P.Int16)
    | TinyInt(int8: P.Int8)
    /** Time of day, held as a chrono `Duration`. */
    | Time(sinceMidnight: P.ChronoDuration)
    | Timeuuid(timeuuid: P.Uuid)
    | Tuple(tupleFields: seq<Option<CqlValue>>)
    | Uuid(uuid: P.Uuid)
    | Varint(varint: int)

  function AsAscii(v: CqlValue): Option<string> { if v.Ascii? then Some(v.ascii) else None }

  function AsBoolean(v: CqlValue): Option<bool> { if v.Boolean? then Some(v.boolean) else None }

  function AsBlob(v: CqlValue): Option<seq<P.Byte>> { if v.Blob? then Some(v.blob) else None }

  function AsDouble(v: CqlValue): Option<P.Float64> { if v.Double? then Some(v.double) else None }

  function AsInt(v: CqlValue): Option<P.Int32> { if v.Int? then Some(v.int32) else None }

  function AsBigInt(v: CqlValue): Option<P.Int64> { if v.BigInt? then Some(v.int64) else None }

  function AsText(v: CqlValue): Option<string> { if v.Text? then Some(v.text) else None }

  function AsList(v: CqlValue): Option<seq<CqlValue>> { if v.List? then Some(v.list) else None }

  function AsMap(v: CqlValue): Option<seq<(CqlValue, CqlValue)>> { if v.Map? then Some(v.pairs) else None }

  function AsSet(v: CqlValue): Option<seq<CqlValue>> { if v.Set? then Some(v.setItems) else None }

  function AsSmallInt(v: CqlValue): Option<P.Int16> { if v.SmallInt? then Some(v.int16) else None }

  function AsTinyInt(v: CqlValue): Option<P.Int8> { if v.TinyInt? then Some(v.int8) else None }

  function AsUuid(v: CqlValue): Option<P.Uuid> { if v.Uuid? then Some(v.uuid) else None }

  function AsTimeuuid(v: CqlValue): Option<P.Uuid> { if v.Timeuuid? then Some(v.timeuuid) else None }

  /**
   * `as_duration`: the chrono `Duration` held by a `Timestamp` or a `Time`
   * value. A `Duration` value holds months, days and nanoseconds instead and
   * is not one of them.
   */
  function AsDuration(v: CqlValue): Option<P.ChronoDuration>
  {
    match v
    case Timestamp(d) => Some(d)
    case Time(d) => Some(d)
    case _ => None
  }

  function AsInet(v: CqlValue): Option<P.IpAddr> { if v.Inet? then Some(v.inet) else None }

  function AsDate(v: CqlValue): Option<P.NaiveDate> { if v.Date? then Some(v.date) else None }
}
