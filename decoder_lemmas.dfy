/** What `cql_to_py` promises, stated over the `Decoder` model. */
module DecoderLemmas {
  import opened Wrappers
  import opened Errors
  import opened Python
  import P = Primitives
  import Cql
  import opened Decoder

  function Min(a: nat, b: nat): nat { if a < b then a else b }

  // ---------------------------------------------------------------------------
  // Absent values and the types with no conversion

  /** An absent value decodes to `None` before the column type is looked at. */
  lemma AbsentIsNone(t: ColumnType)
    ensures Decode(t, None) == Ok(HNone)
  {
  }

  predicate Unimplemented(t: ColumnType) {
    t.Time? || t.Counter? || t.Custom? || t.Varint? || t.Decimal? || t.UserDefinedType?
  }

  predicate EndsWith(s: string, suffix: string) {
    |suffix| <= |s| && s[|s| - |suffix|..] == suffix
  }

  lemma EndsWithAppended(s: string, suffix: string)
    ensures EndsWith(s + suffix, suffix)
  {
    assert (s + suffix)[|s|..] == suffix;
  }

  /** A present value of a type without a conversion always fails with a "not yet supported." message. */
  lemma NotYetSupportedFails(t: ColumnType, x: CqlValue)
    requires Unimplemented(t)
    ensures Decode(t, Some(x)).Err?
    ensures Decode(t, Some(x)).error.Message?
    ensures EndsWith(Decode(t, Some(x)).error.text, NotYetSupported)
  {
    match t {
      case Time => EndsWithAppended("Time is ", NotYetSupported);
      case Counter => EndsWithAppended("Counter is ", NotYetSupported);
      case Custom(_) => EndsWithAppended("Custom types are ", NotYetSupported);
      case Varint => EndsWithAppended("Variant is ", NotYetSupported);
      case Decimal => EndsWithAppended("Decimals are ", NotYetSupported);
      case UserDefinedType(_, _, _) => EndsWithAppended("UDT is ", NotYetSupported);
    }
  }

  // ---------------------------------------------------------------------------
  // Scalar columns

  predicate IsScalar(t: ColumnType) {
    t.Ascii? || t.Boolean? || t.Blob? || t.Double? || t.Float? || t.Int? || t.BigInt? || t.Text? || t.SmallInt? || t.TinyInt?
  }

  /** The value tag a scalar column's accessor accepts; a `Float` column accepts only doubles. */
  predicate Accepts(t: ColumnType, x: CqlValue)
    requires IsScalar(t)
  {
    match t
    case Ascii => x.Ascii?
    case Boolean => x.Boolean?
    case Blob => x.Blob?
    case Double => x.Double?
    case Float => x.Double?
    case Int => x.Int?
    case BigInt => x.BigInt?
    case Text => x.Text?
    case SmallInt => x.SmallInt?
    case TinyInt => x.TinyInt?
  }

  /**
   * A scalar column decodes exactly the values its accessor accepts, to the
   * Python value of the same content: text to `str`, integers of every width
   * to `int`, doubles to `float`, blobs to `bytes`. Any other value fails
   * with "Cannot parse".
   */
  lemma ScalarDecode(t: ColumnType, x: CqlValue)
    requires IsScalar(t)
    ensures Decode(t, Some(x)).Ok? <==> Accepts(t, x)
    ensures !Accepts(t, x) ==> Decode(t, Some(x)) == Err(Message("Cannot parse"))
    ensures t.Ascii? && x.Ascii? ==> Decode(t, Some(x)) == Ok(HStr(x.ascii))
    ensures t.Text? && x.Text? ==> Decode(t, Some(x)) == Ok(HStr(x.text))
    ensures t.Boolean? && x.Boolean? ==> Decode(t, Some(x)) == Ok(HBool(x.boolean))
    ensures t.Blob? && x.Blob? ==> Decode(t, Some(x)) == Ok(HBytes(x.blob))
    ensures (t.Double? || t.Float?) && x.Double? ==> Decode(t, Some(x)) == Ok(HFloat(x.double))
    ensures t.BigInt? && x.BigInt? ==> Decode(t, Some(x)) == Ok(HInt(x.int64))
    ensures t.Int? && x.Int? ==> Decode(t, Some(x)) == Ok(HInt(x.int32))
    ensures t.SmallInt? && x.SmallInt? ==> Decode(t, Some(x)) == Ok(HInt(x.int16))
    ensures t.TinyInt? && x.TinyInt? ==> Decode(t, Some(x)) == Ok(HInt(x.int8))
  {
  }

  // ---------------------------------------------------------------------------
  // Lists and sets

  /** Item j is the first of `items` that fails to decode against `et`. */
  predicate FirstFailing(et: ColumnType, items: seq<CqlValue>, j: int) {
    && 0 <= j < |items|
    && Decode(et, Some(items[j])).Err?
    && forall i :: 0 <= i < j ==> Decode(et, Some(items[i])).Ok?
  }

  /** Decoding the items of a list or set: all succeed, in order and one for one, or the first failure is reported. */
  lemma {:induction false} DecodeItemsSpec(t: ColumnType, items: seq<CqlValue>)
    requires t.List? || t.Set?
    ensures DecodeItems(t, items).Ok? <==> forall i :: 0 <= i < |items| ==> Decode(t.elem, Some(items[i])).Ok?
    ensures DecodeItems(t, items).Ok? ==>
      |DecodeItems(t, items).value| == |items| &&
      forall i :: 0 <= i < |items| ==> DecodeItems(t, items).value[i] == Decode(t.elem, Some(items[i])).value
    ensures DecodeItems(t, items).Err? ==>
      exists j :: FirstFailing(t.elem, items, j) && Decode(t.elem, Some(items[j])) == Err(DecodeItems(t, items).error)
    decreases |items|
  {
    if items != [] {
      DecodeItemsSpec(t, items[1..]);
      var r := DecodeItems(t, items);
      var h := Decode(t.elem, Some(items[0]));
      if h.Ok? {
        var rest := DecodeItems(t, items[1..]);
        assert forall i :: 1 <= i < |items| ==> items[1..][i - 1] == items[i];
        if rest.Err? {
          var j :| FirstFailing(t.elem, items[1..], j) && Decode(t.elem, Some(items[1..][j])) == Err(rest.error);
          assert Decode(t.elem, Some(items[j + 1])) == Err(r.error);
          assert FirstFailing(t.elem, items, j + 1);
        }
      }
    }
  }

  /** A list column keeps length and order: element i is element i of the value, decoded against the element type. */
  lemma ListDecode(et: ColumnType, x: CqlValue)
    ensures !x.List? ==> Decode(Cql.ColumnType.List(et), Some(x)) == Err(Message("Cannot parse"))
    ensures x.List? ==>
      (Decode(Cql.ColumnType.List(et), Some(x)).Ok? <==> forall i :: 0 <= i < |x.list| ==> Decode(et, Some(x.list[i])).Ok?)
    ensures Decode(Cql.ColumnType.List(et), Some(x)).Ok? ==>
      var h := Decode(Cql.ColumnType.List(et), Some(x)).value;
      h.HList? && |h.items| == |x.list| &&
      forall i :: 0 <= i < |x.list| ==> h.items[i] == Decode(et, Some(x.list[i])).value
    ensures x.List? ==> forall j :: FirstFailing(et, x.list, j) ==>
      Decode(Cql.ColumnType.List(et), Some(x)) == Err(Decode(et, Some(x.list[j])).error)
  {
    if x.List? {
      DecodeItemsSpec(Cql.ColumnType.List(et), x.list);
      FirstFailure(Cql.ColumnType.List(et), x.list);
    }
  }

  /**
   * A set column needs a set value. It fails with the first element that
   * fails to decode, or when a decoded element cannot be hashed; otherwise it
   * is the set of the decoded elements.
   */
  lemma SetDecode(et: ColumnType, x: CqlValue)
    ensures !x.Set? ==> Decode(Cql.ColumnType.Set(et), Some(x)) == Err(Message("Cannot parse"))
    ensures x.Set? ==> forall j :: FirstFailing(et, x.setItems, j) ==>
      Decode(Cql.ColumnType.Set(et), Some(x)) == Err(Decode(et, Some(x.setItems[j])).error)
    ensures x.Set? && (forall i :: 0 <= i < |x.setItems| ==> Decode(et, Some(x.setItems[i])).Ok?) ==>
      var r := Decode(Cql.ColumnType.Set(et), Some(x));
      && (r.Ok? <==> forall i :: 0 <= i < |x.setItems| ==> Hashable(Decode(et, Some(x.setItems[i])).value))
      && (r.Err? ==> r.error == Unhashable)
      && (r.Ok? ==> r.value.HSet?)
      && (r.Ok? ==> forall h :: h in r.value.elems <==>
            exists i :: 0 <= i < |x.setItems| && Decode(et, Some(x.setItems[i])).value == h)
  {
    if x.Set? {
      var t := Cql.ColumnType.Set(et);
      DecodeItemsSpec(t, x.setItems);
      FirstFailure(t, x.setItems);
    }
  }

  /** Among the items, the first that fails to decode decides the error. */
  lemma FirstFailure(t: ColumnType, items: seq<CqlValue>)
    requires t.List? || t.Set?
    ensures forall j :: FirstFailing(t.elem, items, j) ==>
      DecodeItems(t, items) == Err(Decode(t.elem, Some(items[j])).error)
  {
    DecodeItemsSpec(t, items);
    forall j | FirstFailing(t.elem, items, j)
      ensures DecodeItems(t, items) == Err(Decode(t.elem, Some(items[j])).error)
    {
      var k :| FirstFailing(t.elem, items, k) && Decode(t.elem, Some(items[k])) == Err(DecodeItems(t, items).error);
      assert k == j;
    }
  }

  // ---------------------------------------------------------------------------
  // Maps

  /** The keys a run of `set_item` calls inserts. */
  function KeysOf(pairs: seq<(HostValue, HostValue)>): set<HostValue>
  {
    set i | 0 <= i < |pairs| :: pairs[i].0
  }

  /** Whether pair i is the last pair with its key. */
  predicate LastWithKey(pairs: seq<(HostValue, HostValue)>, i: int)
    requires 0 <= i < |pairs|
  {
    forall j :: i < j < |pairs| ==> pairs[j].0 != pairs[i].0
  }

  lemma {:induction false} InsertAllSpec(d: Dict, pairs: seq<(HostValue, HostValue)>)
    ensures InsertAll(d, pairs).Ok? <==> forall i :: 0 <= i < |pairs| ==> Hashable(pairs[i].0)
    ensures InsertAll(d, pairs).Err? ==> InsertAll(d, pairs).error == Unhashable
    ensures InsertAll(d, pairs).Ok? ==>
      var m := InsertAll(d, pairs).value;
      && m.Keys == d.Keys + KeysOf(pairs)
      && (forall k :: k in d && k !in KeysOf(pairs) ==> m[k] == d[k])
      && (forall i :: 0 <= i < |pairs| && LastWithKey(pairs, i) ==> m[pairs[i].0] == pairs[i].1)
    decreases |pairs|
  {
    if pairs != [] {
      var k0, v0 := pairs[0].0, pairs[0].1;
      var tail := pairs[1..];
      InsertAllSpec(d[k0 := v0], tail);
      assert forall i :: 1 <= i < |pairs| ==> tail[i - 1] == pairs[i];
      assert KeysOf(pairs) == {k0} + KeysOf(tail) by {
        forall k | k in KeysOf(pairs) ensures k in {k0} + KeysOf(tail) {
          var i :| 0 <= i < |pairs| && pairs[i].0 == k;
          if i > 0 { assert tail[i - 1].0 == k; }
        }
      }
      if InsertAll(d, pairs).Ok? {
        var m := InsertAll(d, pairs).value;
        forall i | 0 <= i < |pairs| && LastWithKey(pairs, i)
          ensures m[pairs[i].0] == pairs[i].1
        {
          if i == 0 {
            assert pairs[0].0 !in KeysOf(tail);
          } else {
            assert LastWithKey(tail, i - 1);
          }
        }
      }
    }
  }

  /** The dict of a map column is last-write-wins over the decoded entries; it fails only on an unhashable key. */
  lemma DictLastWriteWins(pairs: seq<(HostValue, HostValue)>)
    ensures DictFromPairs(pairs).Ok? <==> forall i :: 0 <= i < |pairs| ==> Hashable(pairs[i].0)
    ensures DictFromPairs(pairs).Err? ==> DictFromPairs(pairs).error == Unhashable
    ensures DictFromPairs(pairs).Ok? ==>
      var m := DictFromPairs(pairs).value;
      && m.Keys == KeysOf(pairs)
      && (forall i :: 0 <= i < |pairs| && LastWithKey(pairs, i) ==> m[pairs[i].0] == pairs[i].1)
  {
    InsertAllSpec(map[], pairs);
  }

  /** Whether both the key and the value of a map entry decode. */
  predicate EntryDecodes(t: ColumnType, entry: (CqlValue, CqlValue))
    requires t.Map?
  {
    Decode(t.key, Some(entry.0)).Ok? && Decode(t.value, Some(entry.1)).Ok?
  }

  /** The error of an entry that fails: its key's when the key fails, else its value's. */
  function EntryError(t: ColumnType, entry: (CqlValue, CqlValue)): Error
    requires t.Map? && !EntryDecodes(t, entry)
  {
    if Decode(t.key, Some(entry.0)).Err? then Decode(t.key, Some(entry.0)).error
    else Decode(t.value, Some(entry.1)).error
  }

  /** Entry j is the first of `pairs` that fails to decode. */
  predicate FirstFailingEntry(t: ColumnType, pairs: seq<(CqlValue, CqlValue)>, j: int)
    requires t.Map?
  {
    && 0 <= j < |pairs|
    && !EntryDecodes(t, pairs[j])
    && forall k :: 0 <= k < j ==> EntryDecodes(t, pairs[k])
  }

  /**
   * Decoding the entries of a map: all keys and values decode, in order and
   * one pair per entry, or the first failing entry's error is reported, the
   * key's before the value's.
   */
  lemma {:induction false} DecodePairsSpec(t: ColumnType, pairs: seq<(CqlValue, CqlValue)>)
    requires t.Map?
    ensures DecodePairs(t, pairs).Ok? <==> forall i :: 0 <= i < |pairs| ==> EntryDecodes(t, pairs[i])
    ensures DecodePairs(t, pairs).Ok? ==>
      |DecodePairs(t, pairs).value| == |pairs| &&
      forall i :: 0 <= i < |pairs| ==>
        DecodePairs(t, pairs).value[i] == (Decode(t.key, Some(pairs[i].0)).value, Decode(t.value, Some(pairs[i].1)).value)
    ensures DecodePairs(t, pairs).Err? ==>
      exists j :: FirstFailingEntry(t, pairs, j) && DecodePairs(t, pairs).error == EntryError(t, pairs[j])
    decreases |pairs|
  {
    if pairs != [] {
      DecodePairsSpec(t, pairs[1..]);
      assert forall i :: 1 <= i < |pairs| ==> pairs[1..][i - 1] == pairs[i];
      if !EntryDecodes(t, pairs[0]) {
        assert FirstFailingEntry(t, pairs, 0);
      } else if DecodePairs(t, pairs[1..]).Err? {
        var j :| FirstFailingEntry(t, pairs[1..], j) && DecodePairs(t, pairs[1..]).error == EntryError(t, pairs[1..][j]);
        assert FirstFailingEntry(t, pairs, j + 1);
      }
    }
  }

  /** Among the entries, the first that fails to decode decides the error. */
  lemma FirstFailingEntryWins(t: ColumnType, pairs: seq<(CqlValue, CqlValue)>)
    requires t.Map?
    ensures forall j :: FirstFailingEntry(t, pairs, j) ==> DecodePairs(t, pairs) == Err(EntryError(t, pairs[j]))
  {
    DecodePairsSpec(t, pairs);
    forall j | FirstFailingEntry(t, pairs, j) ensures DecodePairs(t, pairs) == Err(EntryError(t, pairs[j])) {
      var k :| FirstFailingEntry(t, pairs, k) && DecodePairs(t, pairs).error == EntryError(t, pairs[k]);
      assert k == j;
    }
  }

  /** What a map value decodes to when one of its entries fails. */
  lemma MapEntryFails(kt: ColumnType, vt: ColumnType, x: CqlValue)
    requires x.Map?
    ensures forall j :: FirstFailingEntry(Cql.ColumnType.Map(kt, vt), x.pairs, j) ==>
      Decode(Cql.ColumnType.Map(kt, vt), Some(x)) == Err(EntryError(Cql.ColumnType.Map(kt, vt), x.pairs[j]))
  {
    var t := Cql.ColumnType.Map(kt, vt);
    var r := DecodePairs(t, x.pairs);
    if r.Err? {
      assert Decode(t, Some(x)) == Err(r.error);
      FirstFailingEntryWins(t, x.pairs);
    } else {
      DecodePairsSpec(t, x.pairs);
    }
  }

  /** Once the entries of a map value decode, the column's result is the dict built from them. */
  lemma MapBuildsDict(kt: ColumnType, vt: ColumnType, x: CqlValue)
    requires x.Map? && DecodePairs(Cql.ColumnType.Map(kt, vt), x.pairs).Ok?
    ensures
      var d := DictFromPairs(DecodePairs(Cql.ColumnType.Map(kt, vt), x.pairs).value);
      Decode(Cql.ColumnType.Map(kt, vt), Some(x)) == if d.Ok? then Ok(HDict(d.value)) else Err(d.error)
  {
  }

  /** What a map value decodes to when all of its entries decode. */
  lemma MapEntriesDecode(kt: ColumnType, vt: ColumnType, x: CqlValue)
    requires x.Map? && DecodePairs(Cql.ColumnType.Map(kt, vt), x.pairs).Ok?
    ensures
      var decoded := DecodePairs(Cql.ColumnType.Map(kt, vt), x.pairs).value;
      var r := Decode(Cql.ColumnType.Map(kt, vt), Some(x));
      && |decoded| == |x.pairs|
      && (forall i :: 0 <= i < |x.pairs| ==>
            && Decode(kt, Some(x.pairs[i].0)).Ok? && Decode(vt, Some(x.pairs[i].1)).Ok?
            && decoded[i] == (Decode(kt, Some(x.pairs[i].0)).value, Decode(vt, Some(x.pairs[i].1)).value))
      && (r.Ok? <==> forall i :: 0 <= i < |decoded| ==> Hashable(decoded[i].0))
      && (r.Err? ==> r.error == Unhashable)
      && (r.Ok? ==>
            && r.value.HDict?
            && r.value.entries.Keys == KeysOf(decoded)
            && forall i :: 0 <= i < |decoded| && LastWithKey(decoded, i) ==> r.value.entries[decoded[i].0] == decoded[i].1)
  {
    var t := Cql.ColumnType.Map(kt, vt);
    var decoded := DecodePairs(t, x.pairs).value;
    MapBuildsDict(kt, vt, x);
    DecodePairsSpec(t, x.pairs);
    DictLastWriteWins(decoded);
  }

  /**
   * A map column needs a map value. It decodes every entry before building
   * the dict, so the first entry that fails to decode (its key before its
   * value) decides the error, ahead of any unhashable key; on success the dict
   * is last-write-wins over the decoded entries.
   */
  lemma MapDecode(kt: ColumnType, vt: ColumnType, x: CqlValue)
    ensures !x.Map? ==> Decode(Cql.ColumnType.Map(kt, vt), Some(x)) == Err(Message("Cannot parse"))
    ensures x.Map? ==> forall j :: FirstFailingEntry(Cql.ColumnType.Map(kt, vt), x.pairs, j) ==>
      Decode(Cql.ColumnType.Map(kt, vt), Some(x)) == Err(EntryError(Cql.ColumnType.Map(kt, vt), x.pairs[j]))
    ensures x.Map? && DecodePairs(Cql.ColumnType.Map(kt, vt), x.pairs).Ok? ==>
      var decoded := DecodePairs(Cql.ColumnType.Map(kt, vt), x.pairs).value;
      var r := Decode(Cql.ColumnType.Map(kt, vt), Some(x));
      && |decoded| == |x.pairs|
      && (forall i :: 0 <= i < |x.pairs| ==>
            && Decode(kt, Some(x.pairs[i].0)).Ok? && Decode(vt, Some(x.pairs[i].1)).Ok?
            && decoded[i] == (Decode(kt, Some(x.pairs[i].0)).value, Decode(vt, Some(x.pairs[i].1)).value))
      && (r.Ok? <==> forall i :: 0 <= i < |decoded| ==> Hashable(decoded[i].0))
      && (r.Err? ==> r.error == Unhashable)
      && (r.Ok? ==>
            && r.value.HDict?
            && r.value.entries.Keys == KeysOf(decoded)
            && forall i :: 0 <= i < |decoded| && LastWithKey(decoded, i) ==> r.value.entries[decoded[i].0] == decoded[i].1)
  {
    if x.Map? {
      MapEntryFails(kt, vt, x);
      if DecodePairs(Cql.ColumnType.Map(kt, vt), x.pairs).Ok? {
        MapEntriesDecode(kt, vt, x);
      }
    }
  }

  // ---------------------------------------------------------------------------
  // Tuples

  /** Position j is the first of a zipped tuple that fails to decode. */
  predicate FirstFailingPos(types: seq<ColumnType>, data: seq<Option<CqlValue>>, j: int)
  {
    && 0 <= j < Min(|types|, |data|)
    && Decode(types[j], data[j]).Err?
    && forall k :: 0 <= k < j ==> Decode(types[k], data[k]).Ok?
  }

  /**
   * Zipped decoding succeeds exactly when every position below the shorter
   * length decodes, and then holds those values in order; otherwise the first
   * failing position's error is the result.
   */
  lemma {:induction false} DecodeZipSpec(types: seq<ColumnType>, data: seq<Option<CqlValue>>)
    ensures DecodeZip(types, data).Ok? <==> forall i :: 0 <= i < Min(|types|, |data|) ==> Decode(types[i], data[i]).Ok?
    ensures DecodeZip(types, data).Ok? ==>
      |DecodeZip(types, data).value| == Min(|types|, |data|) &&
      forall i :: 0 <= i < Min(|types|, |data|) ==> DecodeZip(types, data).value[i] == Decode(types[i], data[i]).value
    ensures forall j :: FirstFailingPos(types, data, j) ==> DecodeZip(types, data) == Err(Decode(types[j], data[j]).error)
    decreases types
  {
    if types != [] && data != [] {
      DecodeZipSpec(types[1..], data[1..]);
      assert forall i :: 1 <= i < Min(|types|, |data|) ==> types[1..][i - 1] == types[i] && data[1..][i - 1] == data[i];
      forall j | FirstFailingPos(types, data, j)
        ensures DecodeZip(types, data) == Err(Decode(types[j], data[j]).error)
      {
        if j > 0 {
          assert FirstFailingPos(types[1..], data[1..], j - 1);
        }
      }
    }
  }

  /**
   * A tuple column needs a tuple value; it then decodes position by position
   * up to the shorter of the type list and the value list (an arity mismatch
   * truncates, it does not fail), and an absent position becomes `None`.
   * The first position that fails to decode decides the error.
   */
  lemma TupleDecode(types: seq<ColumnType>, x: CqlValue)
    ensures !x.Tuple? ==> Decode(Cql.ColumnType.Tuple(types), Some(x)) == Err(Message("Cannot parse as tuple."))
    ensures x.Tuple? ==>
      (Decode(Cql.ColumnType.Tuple(types), Some(x)).Ok? <==>
        forall i :: 0 <= i < Min(|types|, |x.tupleFields|) ==> Decode(types[i], x.tupleFields[i]).Ok?)
    ensures x.Tuple? && Decode(Cql.ColumnType.Tuple(types), Some(x)).Ok? ==>
      var h := Decode(Cql.ColumnType.Tuple(types), Some(x)).value;
      && h.HTuple?
      && |h.items| == Min(|types|, |x.tupleFields|)
      && (forall i :: 0 <= i < |h.items| ==> h.items[i] == Decode(types[i], x.tupleFields[i]).value)
      && (forall i :: 0 <= i < |h.items| && x.tupleFields[i].None? ==> h.items[i] == HNone)
    ensures x.Tuple? ==> forall j :: FirstFailingPos(types, x.tupleFields, j) ==>
      Decode(Cql.ColumnType.Tuple(types), Some(x)) == Err(Decode(types[j], x.tupleFields[j]).error)
  {
    if x.Tuple? {
      DecodeZipSpec(types, x.tupleFields);
    }
  }

  /** A `tuple<int, text, int>` column holding the two-field value `(5, "x")` decodes to `(5, "x")`. */
  lemma TupleArityMismatchTruncates()
    ensures Decode(Cql.ColumnType.Tuple([Cql.ColumnType.Int, Cql.ColumnType.Text, Cql.ColumnType.Int]),
                   Some(Cql.CqlValue.Tuple([Some(Cql.CqlValue.Int(5)), Some(Cql.CqlValue.Text("x"))])))
            == Ok(HTuple([HInt(5), HStr("x")]))
  {
    var types := [Cql.ColumnType.Int, Cql.ColumnType.Text, Cql.ColumnType.Int];
    var data := [Some(Cql.CqlValue.Int(5)), Some(Cql.CqlValue.Text("x"))];
    var types1 := [Cql.ColumnType.Text, Cql.ColumnType.Int];
    var data1 := [Some(Cql.CqlValue.Text("x"))];
    assert Decode(types[0], data[0]) == Ok(HInt(5));
    assert Decode(types1[0], data1[0]) == Ok(HStr("x"));
    assert DecodeZip(types1[1..], data1[1..]) == Ok([]);
    assert [HStr("x")] + [] == [HStr("x")];
    assert DecodeZip(types1, data1) == Ok([HStr("x")]);
    assert types[1..] == types1 && data[1..] == data1;
    assert DecodeZip(types[1..], data[1..]) == Ok([HStr("x")]);
    assert [HInt(5)] + [HStr("x")] == [HInt(5), HStr("x")];
    assert DecodeZip(types, data) == Ok([HInt(5), HStr("x")]);
    var x := Cql.CqlValue.Tuple(data);
    assert x.Tuple? && x.tupleFields == data;
    assert Decode(Cql.ColumnType.Tuple(types), Some(x)) == Ok(HTuple([HInt(5), HStr("x")]));
  }

  // ---------------------------------------------------------------------------
  // Temporal columns, UUIDs and dates

  /**
   * A duration column reads the chrono duration of a timestamp or time value
   * and yields a timedelta of its whole microseconds, truncated toward zero;
   * any other value, a protocol duration value included, fails.
   */
  lemma DurationDecode(x: CqlValue)
    ensures !(x.Timestamp? || x.Time?) ==> Decode(Cql.ColumnType.Duration, Some(x)) == Err(Message("Cannot parse duration"))
    ensures x.Timestamp? || x.Time? ==> (
      var n := if x.Timestamp? then x.sinceEpoch else x.sinceMidnight;
      var r := Decode(Cql.ColumnType.Duration, Some(x));
      && (r.Ok? <==> P.InI64(P.DivTrunc(n, 1000)))
      && (r.Err? ==> r.error == TimedeltaNone)
      && (r.Ok? ==> r.value.HTimedelta?)
      && (r.Ok? && n >= 0 ==> 0 <= r.value.micros * 1000 <= n < (r.value.micros + 1) * 1000)
      && (r.Ok? && n < 0 ==> (r.value.micros - 1) * 1000 < n <= r.value.micros * 1000 <= 0))
  {
  }

  /** 1.5 ms, and 1.5 ms plus 999 ns, both decode to 1500 microseconds: truncated, not rounded. */
  lemma DurationTruncates()
    ensures Decode(Cql.ColumnType.Duration, Some(Cql.CqlValue.Timestamp(1_500_000))) == Ok(HTimedelta(1500))
    ensures Decode(Cql.ColumnType.Duration, Some(Cql.CqlValue.Timestamp(1_500_999))) == Ok(HTimedelta(1500))
    ensures Decode(Cql.ColumnType.Duration, Some(Cql.CqlValue.Timestamp(-1_500_999))) == Ok(HTimedelta(-1500))
  {
  }

  /** A timestamp column yields the whole milliseconds of the chrono duration, truncated toward zero. */
  lemma TimestampDecode(x: CqlValue)
    ensures !(x.Timestamp? || x.Time?) ==> Decode(Cql.ColumnType.Timestamp, Some(x)) == Err(Message("Cannot parse timestamp"))
    ensures x.Timestamp? || x.Time? ==> (
      var n := if x.Timestamp? then x.sinceEpoch else x.sinceMidnight;
      var r := Decode(Cql.ColumnType.Timestamp, Some(x));
      && r.Ok? && r.value.HInt? && P.InI64(r.value.i)
      && (n >= 0 ==> 0 <= r.value.i * 1_000_000 <= n < (r.value.i + 1) * 1_000_000)
      && (n < 0 ==> (r.value.i - 1) * 1_000_000 < n <= r.value.i * 1_000_000 <= 0))
  {
  }

  /**
   * UUID and timeuuid columns accept only their own tag and build `uuid.UUID`
   * from the 32 lower-case hex digits of the UUID, from which it can be read back.
   */
  lemma UuidDecode(x: CqlValue)
    ensures Decode(Cql.ColumnType.Uuid, Some(x)).Ok? <==> x.Uuid?
    ensures !x.Uuid? ==> Decode(Cql.ColumnType.Uuid, Some(x)) == Err(Message(""))
    ensures Decode(Cql.ColumnType.Timeuuid, Some(x)).Ok? <==> x.Timeuuid?
    ensures !x.Timeuuid? ==> Decode(Cql.ColumnType.Timeuuid, Some(x)) == Err(Message("Cannot parse timeuuid"))
    ensures x.Uuid? || x.Timeuuid? ==>
      var u := if x.Uuid? then x.uuid else x.timeuuid;
      var h := Decode(if x.Uuid? then Cql.ColumnType.Uuid else Cql.ColumnType.Timeuuid, Some(x)).value;
      && h.HUuid? && |h.hex| == 32
      && (forall i :: 0 <= i < 32 ==> P.IsLowerHex(h.hex[i]))
      && P.UnHex(h.hex) == Some(u)
  {
    if x.Uuid? { P.SimpleForm(x.uuid); }
    if x.Timeuuid? { P.SimpleForm(x.timeuuid); }
  }

  /** An inet column gives the address object; any other value fails with the inet message. */
  lemma InetDecode(x: CqlValue)
    ensures !x.Inet? ==> Decode(Cql.ColumnType.Inet, Some(x)) == Err(Message("Cannot parse inet addres"))
    ensures x.Inet? ==> Decode(Cql.ColumnType.Inet, Some(x)) == Ok(HInet(x.inet))
  {
  }

  /** A date column builds `date.fromisoformat` from a `YYYY-MM-DD` text that reads back as the date, for years 0 to 9999. */
  lemma DateDecode(x: CqlValue)
    ensures !x.Date? ==> Decode(Cql.ColumnType.Date, Some(x)) == Err(Message("Cannot parse date"))
    ensures x.Date? ==> Decode(Cql.ColumnType.Date, Some(x)).Ok? && Decode(Cql.ColumnType.Date, Some(x)).value.HDate?
    ensures x.Date? && 0 <= x.date.year <= 9999 ==>
      var s := Decode(Cql.ColumnType.Date, Some(x)).value.iso;
      P.IsFullDate(s) && P.ParseFullDate(s) == Some(x.date)
  {
    if x.Date? && 0 <= x.date.year <= 9999 {
      P.FormatDateRoundTrip(x.date);
    }
  }

  // ---------------------------------------------------------------------------
  // Shape: what each column type can decode to

  /**
   * The Python values a column type can produce: the decoder's typing
   * discipline, stated independently of how it decodes. Tuple positions may
   * be `None`; set elements and dict keys are hashable.
   */
  predicate Conforms(t: ColumnType, h: HostValue)
    decreases t
  {
    match t
    case Ascii => h.HStr?
    case Text => h.HStr?
    case Boolean => h.HBool?
    case Blob => h.HBytes?
    case Double => h.HFloat?
    case Float => h.HFloat?
    case Int => h.HInt? && -0x8000_0000 <= h.i < 0x8000_0000
    case BigInt => h.HInt? && P.InI64(h.i)
    case SmallInt => h.HInt? && -0x8000 <= h.i < 0x8000
    case TinyInt => h.HInt? && -0x80 <= h.i < 0x80
    case Timestamp => h.HInt? && P.InI64(h.i)
    case Duration => h.HTimedelta? && P.InI64(h.micros)
    case Uuid => h.HUuid? && |h.hex| == 32 && forall i :: 0 <= i < 32 ==> P.IsLowerHex(h.hex[i])
    case Timeuuid => h.HUuid? && |h.hex| == 32 && forall i :: 0 <= i < 32 ==> P.IsLowerHex(h.hex[i])
    case Inet => h.HInet?
    case Date => h.HDate?
    case List(et) => h.HList? && forall i :: 0 <= i < |h.items| ==> Conforms(et, h.items[i])
    case Set(et) => h.HSet? && forall e :: e in h.elems ==> Hashable(e) && Conforms(et, e)
    case Map(kt, vt) =>
      h.HDict? && forall k :: k in h.entries ==> Hashable(k) && Conforms(kt, k) && Conforms(vt, h.entries[k])
    case Tuple(ts) =>
      h.HTuple? && |h.items| <= |ts| && forall i :: 0 <= i < |h.items| ==> h.items[i] == HNone || Conforms(ts[i], h.items[i])
    case _ => false
  }

  /** Every entry of a dict built by `set_item` calls comes from the starting dict or from one of the pairs. */
  lemma {:induction false} InsertAllFrom(d: Dict, pairs: seq<(HostValue, HostValue)>)
    ensures InsertAll(d, pairs).Ok? ==>
      forall k :: k in InsertAll(d, pairs).value ==>
        (k in d && InsertAll(d, pairs).value[k] == d[k]) ||
        (exists i :: 0 <= i < |pairs| && pairs[i] == (k, InsertAll(d, pairs).value[k]))
    decreases |pairs|
  {
    if pairs != [] && Hashable(pairs[0].0) {
      var d' := d[pairs[0].0 := pairs[0].1];
      InsertAllFrom(d', pairs[1..]);
      if InsertAll(d, pairs).Ok? {
        var m := InsertAll(d, pairs).value;
        forall k | k in m
          ensures (k in d && m[k] == d[k]) || (exists i :: 0 <= i < |pairs| && pairs[i] == (k, m[k]))
        {
          if k in d' && m[k] == d'[k] {
            if k == pairs[0].0 {
              assert pairs[0] == (k, m[k]);
            }
          } else {
            var i :| 0 <= i < |pairs[1..]| && pairs[1..][i] == (k, m[k]);
            assert pairs[i + 1] == (k, m[k]);
          }
        }
      }
    }
  }

  /**
   * Whatever the decoder returns conforms to the column type: `None` for an
   * absent value, and otherwise a value of the shape the type describes, all
   * the way down.
   */
  lemma {:induction false} DecodeConforms(t: ColumnType, v: Option<CqlValue>)
    ensures Decode(t, v).Ok? && v.None? ==> Decode(t, v).value == HNone
    ensures Decode(t, v).Ok? && v.Some? ==> Conforms(t, Decode(t, v).value)
    decreases t
  {
    if v.Some? && Decode(t, v).Ok? {
      var x := v.value;
      var h := Decode(t, v).value;
      match t {
        case List(et) =>
          DecodeItemsSpec(t, x.list);
          forall i | 0 <= i < |x.list| ensures Conforms(et, h.items[i]) {
            DecodeConforms(et, Some(x.list[i]));
          }
        case Set(et) =>
          var hs := DecodeItems(t, x.setItems).value;
          DecodeItemsSpec(t, x.setItems);
          forall e | e in h.elems ensures Hashable(e) && Conforms(et, e) {
            var i :| 0 <= i < |hs| && hs[i] == e;
            DecodeConforms(et, Some(x.setItems[i]));
          }
        case Map(kt, vt) =>
          var ds := DecodePairs(t, x.pairs).value;
          DecodePairsSpec(t, x.pairs);
          InsertAllSpec(map[], ds);
          InsertAllFrom(map[], ds);
          forall k | k in h.entries ensures Hashable(k) && Conforms(kt, k) && Conforms(vt, h.entries[k]) {
            var i :| 0 <= i < |ds| && ds[i] == (k, h.entries[k]);
            DecodeConforms(kt, Some(x.pairs[i].0));
            DecodeConforms(vt, Some(x.pairs[i].1));
          }
        case Tuple(ts) =>
          DecodeZipSpec(ts, x.tupleFields);
          forall i | 0 <= i < |h.items| ensures h.items[i] == HNone || Conforms(ts[i], h.items[i]) {
            DecodeConforms(ts[i], x.tupleFields[i]);
          }
        case Uuid => P.SimpleForm(x.uuid);
        case Timeuuid => P.SimpleForm(x.timeuuid);
        case _ =>
      }
    }
  }
}
