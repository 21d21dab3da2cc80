/**
 * `DbQuery.Iter`: the iterator over a query's result rows.  Creating it runs the
 * query; `hasNext` reads one row ahead into a buffered record, `next` hands the
 * buffered record out (reading one first if none is buffered), and the result set
 * is closed when a read finds no more rows.
 *
 * The rows the database returns are a parameter: the result set is the sequence
 * of rows not read yet, or `None` once it is closed.
 */
module Iterators {

  import opened Wrappers
  import opened DbTypes
  import opened Holders
  import opened Records
  import opened Queries

  datatype Iter = Iter(
    names: seq<string>,
    types: seq<DbType>,
    results: Option<seq<seq<Cell>>>,  // rows still to read; None once closed
    nextRecord: Option<Record>)       // the record read ahead, if any

  /** Every row has a column for each selected field. */
  predicate Fits(names: seq<string>, types: seq<DbType>, rows: seq<seq<Cell>>) {
    |names| == |types| && forall i :: 0 <= i < |rows| ==> |names| <= |rows[i]|
  }

  predicate Valid(it: Iter) {
    |it.names| == |it.types| && (it.results.Some? ==> Fits(it.names, it.types, it.results.value))
  }

  /** `catch (SQLException e) { throw new RuntimeException(e); }`: unchecked exceptions pass through. */
  function Rethrow(e: Error): (r: Error)
    ensures e.SqlError? ==> r == Unchecked(e)
    ensures !e.SqlError? ==> r == e
  {
    if e.SqlError? then Unchecked(e) else e
  }

  /** The records of all the rows, in order, or the failure of the first row that cannot be read. */
  function RowRecords(rows: seq<seq<Cell>>, names: seq<string>, types: seq<DbType>): Result<seq<Record>>
    requires Fits(names, types, rows)
    decreases |rows|
  {
    if |rows| == 0 then Ok([])
    else
      assert forall i :: 1 <= i < |rows| ==> rows[i] == rows[1..][i - 1];
      var rec :- NewRecord(rows[0], names, types);
      var rest :- RowRecords(rows[1..], names, types);
      Ok([rec] + rest)
  }

  /** The records of the rows, in order, when every one can be built. */
  lemma {:induction false} RowRecordsValues(rows: seq<seq<Cell>>, names: seq<string>, types: seq<DbType>)
    requires Fits(names, types, rows)
    ensures var r := RowRecords(rows, names, types);
      r.Ok? ==> |r.value| == |rows| && forall i :: 0 <= i < |rows| ==> NewRecord(rows[i], names, types) == Ok(r.value[i])
    decreases |rows|
  {
    if |rows| > 0 {
      RowRecordsStep(rows, names, types);
      RowRecordsValues(rows[1..], names, types);
    }
  }

  /** Reading the rows fails exactly when some row's record cannot be built. */
  lemma {:induction false} RowRecordsFailure(rows: seq<seq<Cell>>, names: seq<string>, types: seq<DbType>)
    requires Fits(names, types, rows)
    ensures RowRecords(rows, names, types).Fail? <==> exists i :: 0 <= i < |rows| && NewRecord(rows[i], names, types).Fail?
    decreases |rows|
  {
    if |rows| > 0 {
      RowRecordsStep(rows, names, types);
      RowRecordsFailure(rows[1..], names, types);
      if NewRecord(rows[0], names, types).Fail? {
        assert RowRecords(rows, names, types).Fail?;
      } else if RowRecords(rows[1..], names, types).Fail? {
        var i :| 0 <= i < |rows[1..]| && NewRecord(rows[1..][i], names, types).Fail?;
        assert NewRecord(rows[i + 1], names, types).Fail?;
        assert RowRecords(rows, names, types).Fail?;
      } else {
        assert RowRecords(rows, names, types).Ok?;
        forall i | 0 <= i < |rows|
          ensures NewRecord(rows[i], names, types).Ok?
        {
          if i > 0 {
            assert rows[i] == rows[1..][i - 1];
          }
        }
      }
    }
  }

  /** One row's worth of `RowRecords`. */
  lemma {:induction false} RowRecordsStep(rows: seq<seq<Cell>>, names: seq<string>, types: seq<DbType>)
    requires Fits(names, types, rows) && |rows| > 0
    ensures Fits(names, types, rows[1..])
    ensures forall i :: 1 <= i < |rows| ==> rows[i] == rows[1..][i - 1]
    ensures var first := NewRecord(rows[0], names, types);
      var rest := RowRecords(rows[1..], names, types);
      RowRecords(rows, names, types) ==
        if first.Fail? then Fail(first.error) else if rest.Fail? then rest else Ok([first.value] + rest.value)
  {
  }

  /**
   * `getNextRecord`: move to the next row and build its record, or close the result
   * set when there is none.  A row whose record cannot be built is still consumed.
   */
  function Advance(it: Iter): (r: (Iter, Outcome))
    requires Valid(it) && it.results.Some? && it.nextRecord.None?
    ensures Valid(r.0) && r.0.names == it.names && r.0.types == it.types
    ensures |it.results.value| == 0 <==> r.0.results.None?
    ensures r.0.results.Some? ==> r.0.results.value == it.results.value[1..]
    ensures r.1.Pass? <==> (|it.results.value| == 0 || NewRecord(it.results.value[0], it.names, it.types).Ok?)
    ensures r.1.Pass? && |it.results.value| > 0 ==>
      NewRecord(it.results.value[0], it.names, it.types).Ok? &&
      r.0.nextRecord == Some(NewRecord(it.results.value[0], it.names, it.types).value)
    ensures r.1.Failed? ==> r.0.nextRecord.None? && r.1.error == Rethrow(NewRecord(it.results.value[0], it.names, it.types).error)
    ensures r.0.nextRecord.Some? ==> r.1.Pass?
    ensures |it.results.value| == 0 ==> r.0.nextRecord.None?
  {
    var rows := it.results.value;
    if |rows| == 0 then (it.(results := None), Pass)
    else
      var rest := it.(results := Some(rows[1..]));
      match NewRecord(rows[0], it.names, it.types)
      case Ok(rec) => (rest.(nextRecord := Some(rec)), Pass)
      case Fail(e) => (rest, Failed(Rethrow(e)))
  }

  /** `hasNext`: read ahead when nothing is buffered and the result set is open. */
  function HasNext(it: Iter): (r: (Iter, Result<bool>))
    requires Valid(it)
    ensures Valid(r.0) && r.0.names == it.names && r.0.types == it.types
    ensures r.1.Ok? ==> (r.1.value <==> r.0.nextRecord.Some?)
    ensures it.nextRecord.Some? ==> r == (it, Ok(true))
    ensures it.results.None? ==> r == (it, Ok(it.nextRecord.Some?))
    ensures r.1.Ok? && !r.1.value ==> r.0.results.None?
  {
    if it.nextRecord.None? && it.results.Some? then
      var (it1, o) := Advance(it);
      if o.Failed? then (it1, Fail(o.error)) else (it1, Ok(it1.nextRecord.Some?))
    else (it, Ok(it.nextRecord.Some?))
  }

  function PastEnd(): Error {
    NoSuchElement("Attempt to read past end of query.")
  }

  /** `next`: the buffered record, reading one ahead first if none is buffered. */
  function Next(it: Iter): (r: (Iter, Result<Record>))
    requires Valid(it)
    ensures Valid(r.0) && r.0.names == it.names && r.0.types == it.types
    ensures r.0.nextRecord.None?
    ensures it.nextRecord.Some? ==> r == (it.(nextRecord := None), Ok(it.nextRecord.value))
    ensures it.nextRecord.None? && it.results.None? ==> r == (it, Fail(PastEnd()))
  {
    var (it1, o) :=
      if it.nextRecord.None? && it.results.Some? then Advance(it) else (it, Pass);
    if o.Failed? then (it1, Fail(o.error))
    else if it1.nextRecord.None? then (it1, Fail(PastEnd()))
    else (it1.(nextRecord := None), Ok(it1.nextRecord.value))
  }

  /** `close`: release the result set; a record already read ahead stays buffered. */
  function CloseIter(it: Iter): (r: Iter)
    ensures r.results.None?
    ensures r == it.(results := r.results)
  {
    it.(results := None)
  }

  /**
   * `iterator()`: run the query and start reading its rows.  A failure to run it
   * surfaces unchecked, since an iterator cannot throw `SQLException`.
   */
  function Open(q: Query, rows: seq<seq<Cell>>): (r: (Query, Result<Iter>))
    requires Fits(q.names, q.types, rows)
    ensures r.1.Fail? <==> StartQuery(q).1.Failed?
    ensures r.1.Fail? ==> r == (q, Fail(Unchecked(NoFields())))
    ensures r.1.Ok? ==> r.0 == StartQuery(q).0 && r.1.value == Iter(q.names, q.types, Some(rows), None)
    ensures r.1.Ok? ==> Valid(r.1.value)
  {
    var (q1, o) := StartQuery(q);
    if o.Failed? then (q1, Fail(Rethrow(o.error)))
    else (q1, Ok(Iter(q.names, q.types, Some(rows), None)))
  }

  // ---------------------------------------------------------------------
  // Iterator protocol
  // ---------------------------------------------------------------------

  /** Asking `hasNext` again changes nothing and gives the same answer. */
  lemma {:induction false} HasNextIdempotent(it: Iter)
    requires Valid(it)
    requires HasNext(it).1.Ok?
    ensures HasNext(HasNext(it).0) == HasNext(it)
  {
  }

  /** Calling `hasNext` before `next` does not change what `next` returns, nor the state after it. */
  lemma {:induction false} HasNextThenNext(it: Iter)
    requires Valid(it)
    requires HasNext(it).1.Ok?
    ensures Next(HasNext(it).0) == Next(it)
  {
  }

  /** Once the rows are exhausted and nothing is buffered, `next` fails and changes nothing. */
  lemma {:induction false} ReadPastEnd(it: Iter)
    requires Valid(it) && it.results.None? && it.nextRecord.None?
    ensures Next(it) == (it, Fail(PastEnd()))
    ensures HasNext(it) == (it, Ok(false))
  {
  }

  /** A `hasNext` that says no has closed the result set, and every later `next` fails. */
  lemma {:induction false} NoMoreAfterFalse(it: Iter)
    requires Valid(it)
    requires HasNext(it).1 == Ok(false)
    ensures Next(HasNext(it).0) == (HasNext(it).0, Fail(PastEnd()))
  {
    ReadPastEnd(HasNext(it).0);
  }

  function Prepend(recs: seq<Record>, r: Result<seq<Record>>): Result<seq<Record>> {
    if r.Ok? then Ok(recs + r.value) else r
  }

  /** Reading one row moves its record from the rows still to read to the records read. */
  lemma {:induction false} PrependStep(recs: seq<Record>, rows: seq<seq<Cell>>, names: seq<string>, types: seq<DbType>)
    requires Fits(names, types, rows) && |rows| > 0 && NewRecord(rows[0], names, types).Ok?
    ensures Fits(names, types, rows[1..])
    ensures Prepend(recs, RowRecords(rows, names, types)) ==
      Prepend(recs + [NewRecord(rows[0], names, types).value], RowRecords(rows[1..], names, types))
  {
    assert forall i :: 0 <= i < |rows[1..]| ==> rows[1..][i] == rows[i + 1];
    var rec := NewRecord(rows[0], names, types).value;
    var rest := RowRecords(rows[1..], names, types);
    assert RowRecords(rows, names, types) == if rest.Ok? then Ok([rec] + rest.value) else rest;
    if rest.Ok? {
      assert recs + ([rec] + rest.value) == recs + [rec] + rest.value;
    }
  }

  /** One round of the loop on an open iterator with nothing buffered. */
  lemma {:induction false} LoopStep(cur: Iter)
    requires Valid(cur) && cur.results.Some? && cur.nextRecord.None?
    ensures var rows := cur.results.value;
      var h := HasNext(cur);
      && (h.1 == Ok(false) <==> |rows| == 0)
      && (h.1.Fail? <==> |rows| > 0 && NewRecord(rows[0], cur.names, cur.types).Fail?)
      && (h.1.Fail? ==> h.1.error == Rethrow(NewRecord(rows[0], cur.names, cur.types).error))
      && (h.1 == Ok(true) ==>
            && NewRecord(rows[0], cur.names, cur.types).Ok?
            && Next(h.0) == (cur.(results := Some(rows[1..])), Ok(NewRecord(rows[0], cur.names, cur.types).value)))
  {
  }

  /**
   * A for-each loop over the iterator: `hasNext`, then `next`, until `hasNext` says no.
   * It yields the record of every row in order, or stops at the first row whose
   * record cannot be built.
   */
  method Drain(it: Iter) returns (r: Iter, recs: seq<Record>, o: Outcome)
    requires Valid(it) && it.results.Some? && it.nextRecord.None?
    ensures r.names == it.names && r.types == it.types
    ensures o.Pass? <==> RowRecords(it.results.value, it.names, it.types).Ok?
    ensures o.Pass? ==> recs == RowRecords(it.results.value, it.names, it.types).value
    ensures o.Pass? ==> r.results.None? && r.nextRecord.None?
    ensures o.Failed? ==> o.error == Rethrow(RowRecords(it.results.value, it.names, it.types).error)
  {
    var all := it.results.value;
    var names, types := it.names, it.types;
    var cur := it;
    recs := [];
    var k := 0;
    DrainStart(all, names, types);
    while true
      invariant 0 <= k <= |all|
      invariant cur == Iter(names, types, Some(all[k..]), None)
      invariant Valid(cur)
      invariant RowRecords(all, names, types) == Prepend(recs, RowRecords(all[k..], names, types))
      decreases |all| - k
    {
      DrainStep(cur, all, k, recs);
      var h := HasNext(cur);
      if h.1.Fail? || !h.1.value {
        r, o := h.0, if h.1.Fail? then Failed(h.1.error) else Pass;
        return;
      }
      var n := Next(h.0);
      recs := recs + [n.1.value];
      cur := n.0;
      k := k + 1;
    }
  }

  /** Before the loop nothing has been read. */
  lemma {:induction false} DrainStart(all: seq<seq<Cell>>, names: seq<string>, types: seq<DbType>)
    requires Fits(names, types, all)
    ensures all[0..] == all
    ensures RowRecords(all, names, types) == Prepend([], RowRecords(all[0..], names, types))
  {
    assert all[0..] == all;
    if RowRecords(all, names, types).Ok? {
      assert [] + RowRecords(all, names, types).value == RowRecords(all, names, types).value;
    }
  }

  /** One round of the for-each loop, stated against the records of all the rows. */
  lemma {:induction false} DrainStep(cur: Iter, all: seq<seq<Cell>>, k: nat, recs: seq<Record>)
    requires Fits(cur.names, cur.types, all) && k <= |all|
    requires cur == Iter(cur.names, cur.types, Some(all[k..]), None)
    requires RowRecords(all, cur.names, cur.types) == Prepend(recs, RowRecords(all[k..], cur.names, cur.types))
    ensures Valid(cur)
    ensures var names, types := cur.names, cur.types;
      var h := HasNext(cur);
      && (h.1.Fail? ==> RowRecords(all, names, types).Fail? && h.1.error == Rethrow(RowRecords(all, names, types).error))
      && (h.1 == Ok(false) ==> RowRecords(all, names, types) == Ok(recs) && h.0.results.None? && h.0.nextRecord.None?)
      && (h.1 == Ok(true) ==>
            && k < |all| && Next(h.0).1.Ok?
            && Next(h.0).0 == cur.(results := Some(all[k + 1..]))
            && RowRecords(all, names, types) == Prepend(recs + [Next(h.0).1.value], RowRecords(all[k + 1..], names, types)))
  {
    var names, types := cur.names, cur.types;
    assert forall i :: 0 <= i < |all[k..]| ==> all[k..][i] == all[k + i];
    LoopStep(cur);
    var h := HasNext(cur);
    if h.1.Fail? {
      assert RowRecords(all[k..], names, types) == Fail(NewRecord(all[k], names, types).error);
    } else if !h.1.value {
      assert all[k..] == [];
      assert recs + [] == recs;
    } else {
      assert all[k..][1..] == all[k + 1..];
      PrependStep(recs, all[k..], names, types);
    }
  }
}
