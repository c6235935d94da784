/** What the classifier promises, and what its test order implies. */
module EncoderLemmas {
  import opened Wrappers
  import opened Errors
  import P = Primitives
  import Py = Python
  import opened Encoder

  /** Whether a `Bool` variant occurs anywhere in a classified value. */
  predicate ContainsBool(v: Value)
  {
    match v
    case Bool(_) => true
    case List(items) => exists i :: 0 <= i < |items| && ContainsBool(items[i])
    case _ => false
  }

  /** Index `j` is the first element the classifier rejects. */
  predicate FirstFailing(p: Parsers, items: seq<Py.PyObject>, j: int)
  {
    0 <= j < |items| && Classify(p, items[j]).Err? &&
    forall k :: 0 <= k < j ==> Classify(p, items[k]).Ok?
  }

  /**
   * A collection's elements: the result is `Ok` exactly when every element
   * classifies, and then holds their values in iteration order; otherwise it
   * carries the error of the first element that fails.
   */
  lemma {:induction false} ClassifyAllSpec(p: Parsers, items: seq<Py.PyObject>)
    ensures ClassifyAll(p, items).Ok? <==> forall i :: 0 <= i < |items| ==> Classify(p, items[i]).Ok?
    ensures ClassifyAll(p, items).Ok? ==>
      |ClassifyAll(p, items).value| == |items| &&
      forall i :: 0 <= i < |items| ==> ClassifyAll(p, items).value[i] == Classify(p, items[i]).value
    ensures ClassifyAll(p, items).Err? ==>
      exists j :: FirstFailing(p, items, j) && ClassifyAll(p, items).error == Classify(p, items[j]).error
    decreases items
  {
    if items != [] {
      ClassifyAllSpec(p, items[1..]);
      if Classify(p, items[0]).Err? {
        assert FirstFailing(p, items, 0);
      } else if ClassifyAll(p, items[1..]).Err? {
        var j :| FirstFailing(p, items[1..], j) && ClassifyAll(p, items[1..]).error == Classify(p, items[1..][j]).error;
        assert FirstFailing(p, items, j + 1);
      } else {
        assert forall i :: 1 <= i < |items| ==> items[i] == items[1..][i - 1];
      }
    }
  }

  /**
   * A Python bool passes the int test first and becomes a 64-bit integer:
   * `True` is `BigInt(1)`, `False` is `BigInt(0)`.
   */
  lemma BoolBecomesBigInt(p: Parsers, o: Py.PyObject)
    requires Py.IsBool(o)
    ensures Classify(p, o) == Ok(BigInt(if o.payload.b then 1 else 0))
  {
  }

  /**
   * The variants the classifier can produce, at any depth: strings, 64-bit
   * integers, doubles, bytes, UUIDs, addresses and lists of these. `Int`,
   * `SmallInt`, `Bool` and `Float` are never produced.
   */
  predicate Produced(v: Value)
  {
    match v
    case String(_) => true
    case BigInt(_) => true
    case Double(_) => true
    case Bytes(_) => true
    case Uuid(_) => true
    case Inet(_) => true
    case List(items) => forall i :: 0 <= i < |items| ==> Produced(items[i])
    case _ => false
  }

  lemma {:induction false} ClassifyProduced(p: Parsers, o: Py.PyObject)
    ensures Classify(p, o).Ok? ==> Produced(Classify(p, o).value)
    decreases o
  {
    if Classify(p, o).Ok? && IsCollection(o) && !Py.IsStr(o) && !Py.IsInt(o) && !Py.IsFloat(o) && !Py.IsBytes(o)
      && o.typeName != "UUID" && o.typeName != "IPv4Address" && o.typeName != "IPv6Address"
    {
      var items := o.payload.items;
      ClassifyAllSpec(p, items);
      forall i | 0 <= i < |items| ensures Produced(Classify(p, items[i]).value) {
        ClassifyProduced(p, items[i]);
      }
    }
  }

  lemma {:induction false} ProducedHasNoBool(v: Value)
    requires Produced(v)
    ensures !ContainsBool(v)
  {
    if v.List? {
      forall i | 0 <= i < |v.items| ensures !ContainsBool(v.items[i]) {
        ProducedHasNoBool(v.items[i]);
      }
    }
  }

  /** No classification ever yields the `Bool` variant, at any depth. */
  lemma NeverBool(p: Parsers, o: Py.PyObject)
    ensures Classify(p, o).Ok? ==> !ContainsBool(Classify(p, o).value)
  {
    ClassifyProduced(p, o);
    if Classify(p, o).Ok? {
      ProducedHasNoBool(Classify(p, o).value);
    }
  }

  /**
   * An int (or bool) becomes `BigInt` of its value when that value fits in a
   * signed 64-bit integer, and an overflow error otherwise.
   */
  lemma IntClassify(p: Parsers, o: Py.PyObject)
    requires Py.IsInt(o)
    ensures P.InI64(Py.IntValue(o)) ==> Classify(p, o) == Ok(BigInt(Py.IntValue(o)))
    ensures !P.InI64(Py.IntValue(o)) <==> Classify(p, o) == Err(IntOverflow)
  {
  }

  /**
   * A list (or list subclass), exact tuple or exact set becomes `List` of its
   * elements' values, in iteration order, exactly when every element
   * classifies; otherwise the first failing element's error is the result.
   */
  lemma CollectionClassify(p: Parsers, o: Py.PyObject)
    requires IsCollection(o)
    requires o.typeName != "UUID" && o.typeName != "IPv4Address" && o.typeName != "IPv6Address"
    ensures Classify(p, o).Ok? <==> forall i :: 0 <= i < |o.payload.items| ==> Classify(p, o.payload.items[i]).Ok?
    ensures Classify(p, o).Ok? ==>
      Classify(p, o).value.List? &&
      |Classify(p, o).value.items| == |o.payload.items| &&
      forall i :: 0 <= i < |o.payload.items| ==> Classify(p, o).value.items[i] == Classify(p, o.payload.items[i]).value
    ensures Classify(p, o).Err? ==>
      exists j :: FirstFailing(p, o.payload.items, j) && Classify(p, o).error == Classify(p, o.payload.items[j]).error
  {
    ClassifyAllSpec(p, o.payload.items);
  }

  /**
   * Tuple and set subclasses, frozensets, dicts and objects of no built-in
   * class (other than `UUID` and the two address types) are refused with the
   * unsupported-type error naming their type.
   */
  lemma Unsupported(p: Parsers, o: Py.PyObject)
    requires o.typeName != "UUID" && o.typeName != "IPv4Address" && o.typeName != "IPv6Address"
    requires (o.payload.Tuple? && !o.exact) || (o.payload.Set? && !o.exact) || o.payload.FrozenSet?
      || o.payload.Dict? || o.payload.Opaque?
    ensures Classify(p, o) == Err(UnsupportedParameter(o.typeName))
  {
  }

  /**
   * A float becomes `Double` of its value and a bytes object becomes `Bytes`
   * of its content, whatever the object's type is named.
   */
  lemma FloatBytesClassify(p: Parsers, o: Py.PyObject)
    ensures Py.IsFloat(o) ==> Classify(p, o) == Ok(Double(o.payload.f))
    ensures Py.IsBytes(o) ==> Classify(p, o) == Ok(Bytes(o.payload.bytes))
  {
  }

  /**
   * An object whose type is named `UUID` and that is none of the built-in
   * scalars is parsed from its `str()` text; a rejection is the error.
   */
  lemma UuidClassify(p: Parsers, o: Py.PyObject)
    requires o.typeName == "UUID"
    requires !Py.IsStr(o) && !Py.IsInt(o) && !Py.IsFloat(o) && !Py.IsBytes(o)
    ensures p.parseUuid(o.text).Some? ==> Classify(p, o) == Ok(Uuid(p.parseUuid(o.text).value))
    ensures p.parseUuid(o.text).None? <==> Classify(p, o) == Err(UuidSyntax(o.text))
  {
  }

  /** The same for `IPv4Address` and `IPv6Address` objects and the address parser. */
  lemma InetClassify(p: Parsers, o: Py.PyObject)
    requires o.typeName == "IPv4Address" || o.typeName == "IPv6Address"
    requires !Py.IsStr(o) && !Py.IsInt(o) && !Py.IsFloat(o) && !Py.IsBytes(o)
    ensures p.parseAddr(o.text).Some? ==> Classify(p, o) == Ok(Inet(p.parseAddr(o.text).value))
    ensures p.parseAddr(o.text).None? <==> Classify(p, o) == Err(AddrSyntax(o.text))
  {
  }

  /**
   * The built-in scalar tests come before the type-name tests: a `str`
   * subclass named `UUID` is still a string parameter.
   */
  lemma StrBeforeTypeName(p: Parsers, o: Py.PyObject)
    requires Py.IsStr(o)
    ensures Classify(p, o) == Ok(String(o.payload.s))
  {
  }
}
