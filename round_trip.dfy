/**
 * Binding and reading back: a parameter the classifier produced, stored
 * unchanged in a column of the matching type and read back through the
 * decoder, comes out as the Python value it stands for.
 */
module RoundTrip {
  import opened Wrappers
  import opened Errors
  import P = Primitives
  import Py = Python
  import Cql
  import opened Encoder
  import opened EncoderLemmas
  import Decoder
  import DecoderLemmas

  /** The column type that stores a parameter value unchanged. */
  predicate Fits(t: Cql.ColumnType, v: Value)
  {
    match v
    case String(_) => t.Text?
    case BigInt(_) => t.BigInt?
    case Int(_) => t.Int?
    case SmallInt(_) => t.SmallInt?
    case Bool(_) => t.Boolean?
    case Double(_) => t.Double?
    case Float(_) => t.Float?
    case Bytes(_) => t.Blob?
    case Uuid(_) => t.Uuid?
    case Inet(_) => t.Inet?
    case List(items) => t.List? && forall i :: 0 <= i < |items| ==> Fits(t.elem, items[i])
  }

  /** The protocol value the server hands back for a stored parameter. */
  function Stored(v: Value): Cql.CqlValue
  {
    match v
    case String(s) => Cql.CqlValue.Text(s)
    case BigInt(n) => Cql.CqlValue.BigInt(n)
    case Int(n) => Cql.CqlValue.Int(n)
    case SmallInt(n) => Cql.CqlValue.SmallInt(n)
    case Bool(b) => Cql.CqlValue.Boolean(b)
    case Double(f) => Cql.CqlValue.Double(f)
    case Float(f) => Cql.CqlValue.Float(f)
    case Bytes(b) => Cql.CqlValue.Blob(b)
    case Uuid(u) => Cql.CqlValue.Uuid(u)
    case Inet(a) => Cql.CqlValue.Inet(a)
    case List(items) => Cql.CqlValue.List(seq(|items|, i requires 0 <= i < |items| => Stored(items[i])))
  }

  /** The Python value a produced parameter stands for. */
  function HostOf(v: Value): Py.HostValue
    requires Produced(v)
  {
    match v
    case String(s) => Py.HStr(s)
    case BigInt(n) => Py.HInt(n)
    case Double(f) => Py.HFloat(f)
    case Bytes(b) => Py.HBytes(b)
    case Uuid(u) => Py.HUuid(P.Simple(u))
    case Inet(a) => Py.HInet(a)
    case List(items) => Py.HList(seq(|items|, i requires 0 <= i < |items| => HostOf(items[i])))
  }

  /** Every value the classifier produces reads back as the Python value it stands for. */
  lemma {:induction false} ReadBack(t: Cql.ColumnType, v: Value)
    requires Produced(v) && Fits(t, v)
    ensures Decoder.Decode(t, Some(Stored(v))) == Ok(HostOf(v))
    decreases v
  {
    if v.List? {
      var items := Stored(v).list;
      DecoderLemmas.DecodeItemsSpec(t, items);
      forall i | 0 <= i < |items| ensures Decoder.Decode(t.elem, Some(items[i])) == Ok(HostOf(v.items[i])) {
        ReadBack(t.elem, v.items[i]);
      }
      assert Decoder.DecodeItems(t, items).value == HostOf(v).items;
    }
  }

  /**
   * A string bound to a text column reads back as the same string, and an int
   * bound to a bigint column as the same int; a bool is bound as an int, so
   * it reads back as 0 or 1, not as a bool.
   */
  lemma ScalarReadBack(p: Parsers, o: Py.PyObject)
    ensures Py.IsStr(o) ==>
      Decoder.Decode(Cql.ColumnType.Text, Some(Stored(Classify(p, o).value))) == Ok(Py.HStr(o.payload.s))
    ensures Py.IsInt(o) && P.InI64(Py.IntValue(o)) ==>
      Decoder.Decode(Cql.ColumnType.BigInt, Some(Stored(Classify(p, o).value))) == Ok(Py.HInt(Py.IntValue(o)))
    ensures Py.IsBool(o) ==>
      Decoder.Decode(Cql.ColumnType.BigInt, Some(Stored(Classify(p, o).value))) == Ok(Py.HInt(if o.payload.b then 1 else 0))
  {
  }

  /**
   * Any object the classifier accepts, stored in a column whose type fits the
   * classified value, reads back as that value's Python counterpart.
   */
  lemma ClassifiedReadBack(p: Parsers, o: Py.PyObject, t: Cql.ColumnType)
    requires Classify(p, o).Ok? && Fits(t, Classify(p, o).value)
    ensures Produced(Classify(p, o).value)
    ensures Decoder.Decode(t, Some(Stored(Classify(p, o).value))) == Ok(HostOf(Classify(p, o).value))
  {
    ClassifyProduced(p, o);
    ReadBack(t, Classify(p, o).value);
  }

  /** A float column never decodes a stored `f32`: the decoder reads it through the double accessor. */
  lemma FloatColumnRejectsFloat(f: P.Float32)
    ensures Decoder.Decode(Cql.ColumnType.Float, Some(Stored(Float(f)))) == Err(Message("Cannot parse"))
  {
  }
}
