/**
 * `map_rows`: turns result rows, each a Python dict of column values, into
 * instances of a caller-supplied class by calling it once per row with the
 * row as keyword arguments. The first row that fails aborts the mapping.
 */
module Rows {
  import opened Wrappers
  import opened Errors
  import Py = Python

  /** A Python callable invoked with a dict of keyword arguments; it may raise. */
  type Constructor = Py.PyObject -> Result<Py.PyObject, Error>

  /** `map_rows` (src/utils.rs:308-329). */
  function MapRows(rows: Py.PyObject, construct: Constructor): Result<seq<Py.PyObject>, Error>
  {
    if !Py.IsListInstance(rows) then Err(Message("Cannot downcast rows to list."))
    else MapEach(rows.payload.items, construct)
  }

  /** The `map(...).collect()` pipeline: each row downcast to a dict and passed to the constructor, in order. */
  function MapEach(rows: seq<Py.PyObject>, construct: Constructor): Result<seq<Py.PyObject>, Error>
    decreases |rows|
  {
    if rows == [] then Ok([])
    else if !Py.IsDictInstance(rows[0]) then Err(Message("Cannot preapre kwargs for mapping."))
    else
      var obj :- construct(rows[0]);
      var rest :- MapEach(rows[1..], construct);
      Ok([obj] + rest)
  }

  /** What mapping one row gives: the downcast error, or the constructor's outcome. */
  function MapOne(row: Py.PyObject, construct: Constructor): Result<Py.PyObject, Error>
  {
    if Py.IsDictInstance(row) then construct(row) else Err(Message("Cannot preapre kwargs for mapping."))
  }

  /** Row `j` is the first whose mapping fails. */
  predicate FirstFailing(rows: seq<Py.PyObject>, construct: Constructor, j: int)
  {
    0 <= j < |rows| && MapOne(rows[j], construct).Err? &&
    forall k :: 0 <= k < j ==> MapOne(rows[k], construct).Ok?
  }

  /**
   * The rows map successfully exactly when every row is a dict and its
   * constructor call succeeds; the results then come one per row, in row
   * order. Otherwise the error is that of the first row that fails, and no
   * partial result is returned.
   */
  lemma {:induction false} MapEachSpec(rows: seq<Py.PyObject>, construct: Constructor)
    ensures MapEach(rows, construct).Ok? <==> forall i :: 0 <= i < |rows| ==> MapOne(rows[i], construct).Ok?
    ensures MapEach(rows, construct).Ok? ==>
      |MapEach(rows, construct).value| == |rows| &&
      forall i :: 0 <= i < |rows| ==> MapEach(rows, construct).value[i] == construct(rows[i]).value
    ensures MapEach(rows, construct).Err? ==>
      exists j :: FirstFailing(rows, construct, j) && MapEach(rows, construct).error == MapOne(rows[j], construct).error
    decreases |rows|
  {
    if rows != [] {
      MapEachSpec(rows[1..], construct);
      if MapOne(rows[0], construct).Err? {
        assert FirstFailing(rows, construct, 0);
      } else if MapEach(rows[1..], construct).Err? {
        var j :| FirstFailing(rows[1..], construct, j) && MapEach(rows[1..], construct).error == MapOne(rows[1..][j], construct).error;
        assert FirstFailing(rows, construct, j + 1);
      } else {
        assert forall i :: 1 <= i < |rows| ==> rows[i] == rows[1..][i - 1];
      }
    }
  }

  /** `map_rows` in full: the list check first, then the per-row mapping above. */
  lemma MapRowsSpec(rows: Py.PyObject, construct: Constructor)
    ensures !Py.IsListInstance(rows) ==> MapRows(rows, construct) == Err(Message("Cannot downcast rows to list."))
    ensures MapRows(rows, construct).Ok? <==>
      Py.IsListInstance(rows) && forall i :: 0 <= i < |rows.payload.items| ==> MapOne(rows.payload.items[i], construct).Ok?
    ensures MapRows(rows, construct).Ok? ==>
      |MapRows(rows, construct).value| == |rows.payload.items| &&
      forall i :: 0 <= i < |rows.payload.items| ==>
        MapRows(rows, construct).value[i] == construct(rows.payload.items[i]).value
    ensures MapRows(rows, construct).Err? && Py.IsListInstance(rows) ==>
      exists j :: FirstFailing(rows.payload.items, construct, j) &&
        MapRows(rows, construct).error == MapOne(rows.payload.items[j], construct).error
  {
    if Py.IsListInstance(rows) {
      MapEachSpec(rows.payload.items, construct);
    }
  }
}
