# scyllaft value marshalling, in Dafny

This project models the layer of the scyllaft Python driver that moves values
between Python and the Scylla/Cassandra driver. It also proves what that layer
promises.

- **Outbound classifier `py_to_value`.** It turns a Python query parameter
  into the tagged union `PyToValue` that the driver serialises. It runs a
  first-match chain of type tests and recurses into lists, tuples and sets.
  The model is `Encoder.Classify`, and `Encoder.PyToValue` is the same
  function written as a method with its push loop.
- **Inbound decoder `cql_to_py`.** It rebuilds a Python value from a column's
  declared `ColumnType` and its decoded `CqlValue`. It recurses through lists,
  sets, maps and tuples. The model is `Decoder.Decode`, with the `set_item`
  loop (`Decoder.BuildDict`) and the tuple push loop
  (`Decoder.DecodeTupleFields`) as methods.
- **Row mapper `map_rows`.** It calls a user class once per result row, with
  the row dict as keyword arguments, and stops at the first failure. The
  model is `Rows.MapRows`.
- **Consistency table.** It maps the nine consistency levels of the Python API
  to the driver's consistency enum. The model is `Consistency.ToDriver`.

Supporting modules:

- `Wrappers`: `Option` and `Result`.
- `Errors`: the anyhow errors, with their fixed texts.
- `Primitives`: fixed-width integers, UUIDs and their 32-hex-digit simple
  form, chrono's `%Y-%m-%d` date rendering, and chrono `Duration` unit
  conversions truncating toward zero.
- `Python`: host objects, described by the built-in class they are an
  instance of (exactly or through a subclass), their type name and their
  `str()` text, plus the Python values the decoder builds.
- `Cql`: column types, protocol values and their accessors.

`RoundTrip` connects the two directions. A value the classifier produces,
stored unchanged in a column of the matching type and read back through the
decoder, comes out as the Python value it stands for.

The foreign text parsers `uuid::Uuid::parse_str` and `IpAddr::from_str` are
parameters of the classifier (`Encoder.Parsers`). Each is a total function
answering `None` on rejection. The user class given to `map_rows` is likewise
a parameter: a function from the row dict to a result.

Behaviour a reader might not expect:

- **A bool parameter is bound as an integer.** The int test
  (src/utils.rs:79) comes before the bool test (src/utils.rs:81), and
  Python's `bool` is a subclass of `int`. So `True`/`False` are bound as
  `BigInt(1)`/`BigInt(0)`, and the `Bool` variant is never produced
  (`EncoderLemmas.BoolBecomesBigInt`, `EncoderLemmas.NeverBool`).
- **Tuple arity mismatches truncate.** A tuple column zips its types with the
  stored values (src/utils.rs:276), which stops at the shorter of the two
  without an error (`DecoderLemmas.TupleArityMismatchTruncates`).
- **UUIDs are passed in the simple form.** UUID and timeuuid columns hand
  `uuid.UUID` the hyphen-less 32-digit form of the UUID (src/utils.rs:219,
  src/utils.rs:227). Python reads it back as the same UUID
  (`DecoderLemmas.UuidDecode`).
- **Float columns read through the double accessor** (src/utils.rs:153-156).
  A stored `f32` value therefore never decodes
  (`RoundTrip.FloatColumnRejectsFloat`).
- **Duration columns use `as_duration`** (src/utils.rs:239). That accessor
  answers only for timestamp and time values, so a protocol duration value
  (months, days, nanoseconds) fails with "Cannot parse duration"
  (`DecoderLemmas.DurationDecode`).
- **Timedelta overflow is a TypeError.** When `num_microseconds()` overflows,
  `None` is passed as `microseconds` (src/utils.rs:242), and
  `timedelta(microseconds=None)` raises a TypeError (`Errors.TimedeltaNone`).
- **Booleans do not round-trip.** A boolean column yields a Python bool
  (src/utils.rs:141-144, `DecoderLemmas.ScalarDecode`), but a bool
  parameter written by this same layer is bound as an integer
  (`RoundTrip.ScalarReadBack`).

## Model

| member | source | states |
|---|---|---|
| Encoder.PyToValue | src/utils.rs:76-110 | the classifier with its element push loop computes exactly `Classify`: same variant, same elements, same first error |
| EncoderLemmas.ClassifyAllSpec | src/utils.rs:99-103 | a collection's elements classify to `Ok` iff every element does; then one value per element, in iteration order; otherwise the error of the first failing element |
| EncoderLemmas.BoolBecomesBigInt | src/utils.rs:79-82 | a Python bool passes the int test first and is bound as `BigInt(1)` or `BigInt(0)` |
| EncoderLemmas.ClassifyProduced | src/utils.rs:76-110 | every successful classification, at every depth, is a string, 64-bit integer, double, bytes, UUID, address or list of these; `Int`, `SmallInt`, `Bool` and `Float` never occur |
| EncoderLemmas.NeverBool | src/utils.rs:79-82 | the `Bool` variant occurs nowhere in any classified value |
| EncoderLemmas.IntClassify | src/utils.rs:79-80 | an int becomes `BigInt` of its value when it fits in i64, and the overflow error exactly when it does not |
| EncoderLemmas.CollectionClassify | src/utils.rs:95-103 | a list (or list subclass), exact tuple or exact set becomes `List` of its elements' values in order iff every element classifies; otherwise the first failing element's error |
| EncoderLemmas.Unsupported | src/utils.rs:95-109 | tuple and set subclasses, frozensets, dicts and objects of no handled class fail with the unsupported-type error naming their type |
| EncoderLemmas.FloatBytesClassify | src/utils.rs:83-86 | a float is bound as `Double` of its value and a bytes object as `Bytes` of its content, whatever its type name |
| EncoderLemmas.UuidClassify | src/utils.rs:87-90 | an object whose type is named `UUID` is parsed from its `str()` text; the parse result is bound, and a rejection is the error |
| EncoderLemmas.InetClassify | src/utils.rs:91-94 | `IPv4Address`/`IPv6Address` objects are parsed from their `str()` text; the address is bound, and a rejection is the error |
| EncoderLemmas.StrBeforeTypeName | src/utils.rs:77-78 | any `str` instance is a string parameter, whatever its type name |
| Decoder.BuildDict | src/utils.rs:191-194 | the `set_item` loop computes the dict of `DictFromPairs`: last write wins, and an unhashable key fails |
| Decoder.DecodeTupleFields | src/utils.rs:273-279 | the tuple push loop computes `DecodeZip`: positions up to the shorter list, stopping at the first error |
| DecoderLemmas.AbsentIsNone | src/utils.rs:133-135 | an absent value decodes to `None` for every column type, the unsupported ones included |
| DecoderLemmas.NotYetSupportedFails | src/utils.rs:284-293 | a present value of a time, counter, custom, varint, decimal or user-defined type always fails with a "not yet supported." message |
| DecoderLemmas.ScalarDecode | src/utils.rs:137-168 | a scalar column decodes exactly the values its accessor accepts (a float column only doubles), to the Python value of the same content: ascii and text to `str`, boolean to `bool`, blob to `bytes`, double to `float`, and every integer width to `int`; any other value fails with "Cannot parse" |
| DecoderLemmas.DecodeItemsSpec | src/utils.rs:169-175 | list and set items decode to `Ok` iff every item does; then one value per item, in order; otherwise the first failing item's error |
| DecoderLemmas.ListDecode | src/utils.rs:169-177 | a list column needs a list value; it keeps length and order, item i decoded against the element type, and the first failing item decides the error |
| DecoderLemmas.SetDecode | src/utils.rs:197-206 | a set column fails with "Cannot parse" on a non-set value, with the first failing item's error, or when a decoded item is unhashable; otherwise it is exactly the set of decoded items |
| DecoderLemmas.FirstFailingEntryWins | src/utils.rs:179-189 | among the entries of a map, the first that fails to decode gives the error, its key's before its value's |
| DecoderLemmas.FirstFailure | src/utils.rs:169-175 | the first item that fails to decode is the one whose error is reported |
| DecoderLemmas.InsertAllSpec | src/utils.rs:191-194 | `set_item` over pairs succeeds iff every key is hashable, and otherwise fails with the unhashable error; the keys are the old keys plus the inserted ones, untouched keys keep their values, and the last pair with a key wins |
| DecoderLemmas.DictLastWriteWins | src/utils.rs:191-195 | the dict built from decoded entries fails only with the unhashable error; on success it has exactly their keys, each mapped to the value of the last entry with that key |
| DecoderLemmas.DecodePairsSpec | src/utils.rs:179-189 | map entries decode to `Ok` iff every key and value decodes; then pair i is the decoded key and value of entry i; otherwise the error is that of the first failing entry, its key's before its value's |
| DecoderLemmas.MapDecode | src/utils.rs:178-196 | a map column fails with "Cannot parse" on a non-map value; the first entry that fails to decode decides the error (its key's before its value's), ahead of any unhashable key; on success the dict is last-write-wins over the decoded entries |
| DecoderLemmas.DecodeZipSpec | src/utils.rs:276-278 | zip decoding succeeds iff each position below min(#types, #values) decodes; the result has that length and position i decoded against type i; otherwise the first failing position's error is the result |
| DecoderLemmas.TupleDecode | src/utils.rs:273-283 | a tuple column needs a tuple value; otherwise the result has min(#types, #values) positions, each decoded against its type, an absent position is `None`, and the first position that fails to decode decides the error |
| DecoderLemmas.TupleArityMismatchTruncates | src/utils.rs:276 | a `tuple<int, text, int>` column holding `(5, "x")` decodes to `(5, "x")` rather than failing |
| DecoderLemmas.DurationDecode | src/utils.rs:231-247 | a duration column needs a timestamp or time value; it yields a timedelta of the whole microseconds truncated toward zero, or the TypeError when that overflows i64 |
| DecoderLemmas.DurationTruncates | src/utils.rs:231-247 | 1 500 000 ns and 1 500 999 ns decode to 1500 µs, and -1 500 999 ns to -1500 µs |
| DecoderLemmas.TimestampDecode | src/utils.rs:248-256 | a timestamp column needs a timestamp or time value and yields its whole milliseconds, truncated toward zero, as an int that fits i64 |
| DecoderLemmas.UuidDecode | src/utils.rs:215-230 | uuid and timeuuid columns accept only their own tag (with the "" and "Cannot parse timeuuid" errors); the text given to `uuid.UUID` is 32 lowercase hex digits that read back as the UUID |
| DecoderLemmas.InetDecode | src/utils.rs:257-261 | an inet column yields the stored address, and any other value fails with "Cannot parse inet addres" |
| DecoderLemmas.DateDecode | src/utils.rs:262-272 | a date column needs a date value; for years 0 to 9999 the text given to `fromisoformat` is an RFC 3339 full-date that reads back as the date |
| DecoderLemmas.InsertAllFrom | src/utils.rs:191-194 | every entry of the built dict comes from the starting dict or from one of the inserted pairs |
| DecoderLemmas.DecodeConforms | src/utils.rs:128-295 | every successful decode of a present value has the shape its column type describes, all the way down (element types, hashable set items and keys, tuple arity at most the type's); an absent value gives `None` |
| Primitives.SimpleForm | src/utils.rs:219 | the simple form of a UUID is 32 lowercase hex digits that read back as the UUID |
| Primitives.SimpleInjective | src/utils.rs:219 | distinct UUIDs have distinct simple forms |
| Primitives.FormatDateRoundTrip | src/utils.rs:266 | `%Y-%m-%d` of a date with year 0 to 9999 is an RFC 3339 full-date that reads back as the same date |
| Primitives.FormatDateSignedYear | src/utils.rs:266 | outside years 0 to 9999 the rendering starts with a sign and is not a full-date |
| Primitives.NumMicroseconds | src/utils.rs:242 | `num_microseconds` is `None` exactly when the duration is at least (i64::MAX + 1) µs or at most (i64::MIN - 1) µs; otherwise it is the duration truncated toward zero to whole microseconds |
| Primitives.NumMilliseconds | src/utils.rs:253 | `num_milliseconds` is the duration truncated toward zero to whole milliseconds |
| Primitives.DivTrunc | src/utils.rs:242 | integer division rounds toward zero: the quotient times the divisor lies between zero and the dividend, within one divisor |
| Rows.MapEachSpec | src/utils.rs:314-326 | the rows map to `Ok` iff every row is a dict and its constructor call succeeds; then one result per row, in order; otherwise the first failing row's error and no partial result |
| Rows.MapRowsSpec | src/utils.rs:308-329 | a non-list fails with "Cannot downcast rows to list."; otherwise as above, a non-dict row failing with "Cannot preapre kwargs for mapping." |
| RoundTrip.ReadBack | src/utils.rs:128-295 | any produced value stored in a column whose type fits it reads back as its Python counterpart (strings, ints, floats, bytes, UUIDs in simple form, addresses, lists of these) |
| RoundTrip.ClassifiedReadBack | src/utils.rs:76-110 | any object the classifier accepts, stored in a fitting column, reads back as the Python counterpart of its classified value |
| RoundTrip.ScalarReadBack | src/utils.rs:77-82 | a string reads back from a text column as the same string, an in-range int from a bigint column as the same int, and a bool as 0 or 1 |
| RoundTrip.FloatColumnRejectsFloat | src/utils.rs:153-156 | a float column never decodes a stored `f32` value |
| Consistency.LevelsComplete | src/consistency.rs:11-21 | the nine levels are each listed exactly once |
| Consistency.ToDriverInjective | src/consistency.rs:26-37 | the table is total, and distinct levels map to distinct driver values |
| Consistency.NineImages | src/consistency.rs:28-36 | the nine images are pairwise different, and neither serial level is among them |
| Consistency.FromDriverInverts | src/consistency.rs:26-37 | the reverse lookup undoes the table, and it is undefined exactly on the two serial levels |
| Consistency.SnakeName | src/consistency.rs:11-21 | each level's Python name is its words in upper snake case |
| Consistency.NameForName | src/consistency.rs:28-36 | each level maps to the driver value named by its words in camel case (`ANY` to `Any`, `LOCAL_QUORUM` to `LocalQuorum`) |

## Left out

- The byte layout of `Value::serialize`. Each arm delegates to the driver's serialisers, which are not part of this model.
- `anyhow_py_future`: the bridge from Rust futures to Python awaitables, which is concurrency plumbing.
- The GIL, object lifetimes and reference counting.
- Failures of host calls the code makes with `?` but that cannot fail for the inputs modelled: `extract` of a str with lone surrogates, `str()` and `get_type().name()` raising, iteration raising, and `import`/`getattr` of `uuid` and `datetime`.
- Failures inside the host constructors: `date.fromisoformat` is given chrono's text unchecked, and it rejects years outside 1 to 9999.
- Shared and self-containing collections. Host objects are finite trees, so a list, exact tuple or exact set that contains itself, on which `py_to_value` recurses without end (src/utils.rs:100-101), is not modelled.
- Python key equality across types (`1 == True == 1.0`). Dict keys and set elements are compared as modelled values, so a set of `{1, True}` keeps both.
- The insertion order of a Python dict. A decoded dict is a map.
- The day-count to calendar conversion of `as_date`. A protocol date value carries its calendar date.
- Floating-point payloads. They are carried as bit patterns, with no arithmetic.
- The Python object `to_object` builds for an address. It is carried as the address itself.
- The contents of the foreign text parsers. They are parameters, with failure propagated.
- The user class of `map_rows` is a pure function of the row, so the model has no order of side effects between calls. It does state that the first failing row decides the error.
- The round trip of the `Ascii`, `Int`, `SmallInt` and `TinyInt` column types for classified values. The classifier never produces those variants.
- The error path in `map_rows` passes through a Python exception and back to an anyhow error. The model keeps only its text.
