/**
 * `DbRecord`: one result row, as a holder per selected field.  The holders are kept
 * in select order and reached by field spec ("table.field") through a hash map
 * filled in the same order, so a spec selected twice names its later holder.
 */
module Records {

  import opened Wrappers
  import opened JavaInts
  import opened DbTypes
  import opened Locations
  import opened DoubleArrays
  import opened Holders
  import opened Assocs
  import opened Strings
  import opened Adapters
  import opened SqlBuffers
  import opened Tables
  import opened Driver
  import opened Connections

  datatype Record = Record(names: seq<string>, holders: seq<Holder>)

  /** The (spec, holder) pairs in the order the constructor puts them. */
  function Puts(names: seq<string>, holders: seq<Holder>): (ps: seq<(string, Holder)>)
    requires |names| == |holders|
    ensures |ps| == |names| && forall i :: 0 <= i < |names| ==> ps[i] == (names[i], holders[i])
  {
    seq(|names|, i requires 0 <= i < |names| => (names[i], holders[i]))
  }

  /** The record's spec-to-holder map. */
  function ValueMap(r: Record): map<string, Holder>
    requires |r.names| == |r.holders|
  {
    Assoc(Puts(r.names, r.holders))
  }

  /** Column `i + 1` of the row read into a fresh holder of field `i`'s type. */
  function FetchColumn(column: (DbType, Cell)): Result<Holder> {
    Fetch(Create(column.0), column.1)
  }

  function Columns(types: seq<DbType>, row: seq<Cell>): (cs: seq<(DbType, Cell)>)
    requires |types| <= |row|
    ensures |cs| == |types| && forall i :: 0 <= i < |types| ==> cs[i] == (types[i], row[i])
  {
    seq(|types|, i requires 0 <= i < |types| => (types[i], row[i]))
  }

  /**
   * `new DbRecord(results, names, types)`: a fresh holder per type, each filled from
   * its column of the current row (column `i + 1` for field `i`).  A column its holder
   * cannot decode aborts the construction with that holder's error.
   */
  function NewRecord(row: seq<Cell>, names: seq<string>, types: seq<DbType>): (r: Result<Record>)
    requires |names| == |types| <= |row|
    ensures r.Ok? ==> r.value.names == names && |r.value.holders| == |names|
  {
    var cols := Columns(types, row);
    var holders :- MapAll(cols, FetchColumn);
    Ok(Record(names, holders))
  }

  /**
   * A record holds, for each field, what a fresh holder of its type decoded from its
   * column; it cannot be built exactly when some column cannot be decoded, and then
   * the error is that column's.
   */
  lemma {:induction false} NewRecordMeaning(row: seq<Cell>, names: seq<string>, types: seq<DbType>)
    requires |names| == |types| <= |row|
    ensures var r := NewRecord(row, names, types);
      && (r.Ok? ==> forall i :: 0 <= i < |names| ==>
            Kind(r.value.holders[i]) == types[i] && Fetch(Create(types[i]), row[i]) == Ok(r.value.holders[i]))
      && (r.Fail? <==> exists i :: 0 <= i < |names| && Fetch(Create(types[i]), row[i]).Fail?)
      && (r.Fail? ==> exists i :: 0 <= i < |names| && Fetch(Create(types[i]), row[i]) == Fail(r.error))
  {
  }

  /** The message for a spec the record does not hold. */
  function NotPresent(field: string): Error {
    SqlError("Field \"" + field + "\" is not present in this query.")
  }

  /** `getField(spec)` / `getValue(spec)`: the holder of a spec, or the not-present error. */
  function GetField(r: Record, field: string): (res: Result<Holder>)
    requires |r.names| == |r.holders|
    ensures res.Ok? <==> field in r.names
    ensures res.Fail? ==> res.error == NotPresent(field)
  {
    assert Firsts(Puts(r.names, r.holders)) == r.names;
    var m := ValueMap(r);
    if field in m then Ok(m[field]) else Fail(NotPresent(field))
  }

  /**
   * A spec names the holder of its last occurrence in the select list; for a list
   * without repeats, simply the holder in the same position.
   */
  lemma {:induction false} FieldOfSpec(r: Record, i: nat)
    requires |r.names| == |r.holders| && i < |r.names|
    requires forall j :: i < j < |r.names| ==> r.names[j] != r.names[i]
    ensures GetField(r, r.names[i]) == Ok(r.holders[i])
  {
    var ps := Puts(r.names, r.holders);
    assert LastPut(ps, i);
    AssocLastPut(ps, i);
  }

  /** Lift a lookup failure into an accessor result. */
  function WithField<T>(r: Record, field: string, f: Holder -> Conv<T>): (res: Conv<T>)
    requires |r.names| == |r.holders|
    ensures GetField(r, field).Fail? ==> res == Raised(NotPresent(field))
    ensures GetField(r, field).Ok? ==> res == f(GetField(r, field).value)
  {
    match GetField(r, field)
    case Ok(h) => f(h)
    case Fail(e) => Raised(e)
  }

  /** `isNull(spec)`. */
  function IsNull(r: Record, field: string): (res: Conv<bool>)
    requires |r.names| == |r.holders|
    ensures res.Got? <==> field in r.names
    ensures res.Got? ==> res.value == GetField(r, field).value.isNull
  {
    WithField(r, field, (h: Holder) => Got(h.isNull))
  }

  /** `getString(spec)`: the holder's string form. */
  function RecordString(r: Record, field: string): (res: Conv<Option<string>>)
    requires |r.names| == |r.holders|
    ensures field !in r.names ==> res == Raised(NotPresent(field))
    ensures field in r.names ==> res == GetString(GetField(r, field).value)
  {
    WithField(r, field, GetString)
  }

  /** `getReportString(spec)`: the string form with a null string reported as "". */
  function ReportString(r: Record, field: string): (res: Conv<string>)
    requires |r.names| == |r.holders|
    ensures RecordString(r, field) == Got(None) ==> res == Got("")
    ensures RecordString(r, field).Got? && RecordString(r, field).value.Some? ==>
      res == Got(RecordString(r, field).value.value)
    ensures RecordString(r, field).Raised? ==> res == Raised(RecordString(r, field).error)
  {
    match RecordString(r, field)
    case Got(s) => Got(if s.None? then "" else s.value)
    case Raised(e) => Raised(e)
    case Unmodelled => Unmodelled
  }

  /** `getInt(spec)`. */
  function RecordInt(r: Record, field: string): (res: Conv<Int32>)
    requires |r.names| == |r.holders|
    ensures field !in r.names ==> res == Raised(NotPresent(field))
    ensures field in r.names ==> res == GetInt(GetField(r, field).value)
  {
    WithField(r, field, GetInt)
  }

  /** `getDouble(spec)`. */
  function RecordDouble(r: Record, field: string): (res: Conv<Bits64>)
    requires |r.names| == |r.holders|
    ensures field !in r.names ==> res == Raised(NotPresent(field))
    ensures field in r.names ==> res == GetDouble(GetField(r, field).value)
  {
    WithField(r, field, GetDouble)
  }

  /**
   * The refusal of the typed accessors.  The source uses the date message for all
   * three of them.
   */
  function NotADate(field: string): Error {
    SqlError("Field " + field + " is not a date.")
  }

  /** `getDate(spec)`: the stored instant of a date holder, whatever its null flag. */
  function RecordDate(r: Record, field: string): (res: Conv<int>)
    requires |r.names| == |r.holders|
    ensures res.Got? <==> field in r.names && Kind(GetField(r, field).value) == Date
    ensures res.Got? ==> res.value == GetField(r, field).value.payload.epochSecond
    ensures field in r.names && Kind(GetField(r, field).value) != Date ==> res == Raised(NotADate(field))
    ensures field !in r.names ==> res == Raised(NotPresent(field))
  {
    WithField(r, field, (h: Holder) => if h.payload.DateValue? then Got(h.payload.epochSecond) else Raised(NotADate(field)))
  }

  /** `getLocation(spec)`: the stored location of a location holder. */
  function RecordLocation(r: Record, field: string): (res: Conv<Loc>)
    requires |r.names| == |r.holders|
    ensures res.Got? <==> field in r.names && Kind(GetField(r, field).value) == Location
    ensures res.Got? ==> res.value == GetField(r, field).value.payload.loc
    ensures field in r.names && Kind(GetField(r, field).value) != Location ==> res == Raised(NotADate(field))
    ensures field !in r.names ==> res == Raised(NotPresent(field))
  {
    WithField(r, field, (h: Holder) => if h.payload.LocationValue? then Got(h.payload.loc) else Raised(NotADate(field)))
  }

  /** `getDoubleArray(spec)`: the stored array of an array holder. */
  function RecordDoubleArray(r: Record, field: string): (res: Conv<seq<Bits64>>)
    requires |r.names| == |r.holders|
    ensures res.Got? <==> field in r.names && Kind(GetField(r, field).value) == DoubleArray
    ensures res.Got? ==> res.value == GetField(r, field).value.payload.a
    ensures field in r.names && Kind(GetField(r, field).value) != DoubleArray ==> res == Raised(NotADate(field))
    ensures field !in r.names ==> res == Raised(NotPresent(field))
  {
    WithField(r, field, (h: Holder) => if h.payload.DoubleArrayValue? then Got(h.payload.a) else Raised(NotADate(field)))
  }

  /** `getBool(spec)`: false for a null field, else whether its integer form is non-zero. */
  function RecordBool(r: Record, field: string): (res: Conv<bool>)
    requires |r.names| == |r.holders|
    ensures res == Got(true) <==>
      field in r.names && !GetField(r, field).value.isNull &&
      GetInt(GetField(r, field).value).Got? && GetInt(GetField(r, field).value).value != 0
    ensures field in r.names && GetField(r, field).value.isNull ==> res == Got(false)
    ensures field !in r.names ==> res == Raised(NotPresent(field))
  {
    WithField(r, field, (h: Holder) =>
      if h.isNull then Got(false)
      else match GetInt(h)
        case Got(i) => Got(i != 0)
        case Raised(e) => Raised(e)
        case Unmodelled => Unmodelled)
  }

  /**
   * A row whose columns read back what a list of holders bound reproduces those
   * holders: each field's accessor sees the value that was stored (locations with
   * the contig padded to its width, dates through the floating-point trip).
   */
  lemma {:induction false} RecordRoundTrip(names: seq<string>, hs: seq<Holder>, row: seq<Cell>, trip: DayTrip)
    requires |names| == |hs| <= |row|
    requires forall i :: 0 <= i < |hs| ==> !hs[i].isNull && Storable(hs[i])
    requires forall i :: 0 <= i < |hs| ==> row[i] == Echo(Store(hs[i], i + 1), trip)
    ensures var types := seq(|hs|, i requires 0 <= i < |hs| => Kind(hs[i]));
      NewRecord(row, names, types) == Ok(Record(names, seq(|hs|, i requires 0 <= i < |hs| => Reloaded(hs[i], trip))))
  {
    var types := seq(|hs|, i requires 0 <= i < |hs| => Kind(hs[i]));
    var expected := seq(|hs|, i requires 0 <= i < |hs| => Reloaded(hs[i], trip));
    forall i | 0 <= i < |hs|
      ensures Fetch(Create(types[i]), row[i]) == Ok(expected[i])
    {
      StoreFetchRoundTrip(hs[i], i + 1, trip);
    }
    NewRecordMeaning(row, names, types);
    var r := NewRecord(row, names, types);
    assert r.Ok?;
    assert r.value.holders == expected;
  }

  /** `getBool` agrees with a boolean field's stored value when it is not null. */
  lemma {:induction false} BoolOfBoolean(r: Record, field: string)
    requires |r.names| == |r.holders| && field in r.names
    requires Kind(GetField(r, field).value) == Boolean
    ensures RecordBool(r, field) == Got(!GetField(r, field).value.isNull && GetField(r, field).value.payload.b)
  {
  }

  /**
   * `getRecord(table, key)`: the prepared select of every field, the key holder bound
   * to its one slot, the query run and the statement closed.  `row` is the first result
   * row, if any: no row gives no record.
   */
  function GetRecord(c: Conn, table: string, desc: Option<Table>, key: Holder, row: Option<seq<Cell>>)
    : (r: (Conn, Result<Option<Record>>))
    requires desc.Some? ==> Valid(desc.value)
    requires row.Some? && desc.Some? ==> |desc.value.fields| <= |row.value|
    ensures GetRecordStmt(c.engine, table, desc).Fail? ==>
      r == (c, Fail(GetRecordStmt(c.engine, table, desc).error))
    ensures GetRecordStmt(c.engine, table, desc).Ok? ==> var (b, names, types) := GetRecordStmt(c.engine, table, desc).value;
      && r.0 == c.(trace := c.trace + [Prepare(b.text), Bound(Store(key, 1)), ExecuteQuery, CloseStatement])
      && (row.None? ==> r.1 == Ok(None))
      && (row.Some? ==> (r.1.Ok? <==> NewRecord(row.value, names, types).Ok?))
      && (row.Some? && r.1.Ok? ==> r.1.value == Some(NewRecord(row.value, names, types).value))
  {
    match GetRecordStmt(c.engine, table, desc)
    case Fail(e) => (c, Fail(e))
    case Ok((b, names, types)) =>
      var c' := c.(trace := c.trace + [Prepare(b.text), Bound(Store(key, 1)), ExecuteQuery, CloseStatement]);
      if row.None? then (c', Ok(None))
      else
        match NewRecord(row.value, names, types)
        case Ok(rec) => (c', Ok(Some(rec)))
        case Fail(e) => (c', Fail(e))
  }

  /**
   * In a record returned by `getRecord`, every field of the table is reached by its
   * "table.field" spec, and holds what its column of the row decoded to.
   */
  lemma {:induction false} GetRecordFields(c: Conn, table: string, desc: Option<Table>, key: Holder, row: seq<Cell>, rec: Record, i: nat)
    requires desc.Some? && Valid(desc.value) && |desc.value.fields| <= |row|
    requires GetRecord(c, table, desc, key, Some(row)).1 == Ok(Some(rec))
    requires i < |GetFields(desc.value)|
    ensures |rec.names| == |rec.holders| == |GetFields(desc.value)|
    ensures GetField(rec, table + "." + GetFields(desc.value)[i].name) == Ok(rec.holders[i])
    ensures Fetch(Create(GetFields(desc.value)[i].dbType), row[i]) == Ok(rec.holders[i])
  {
    var fields := GetFields(desc.value);
    var (b, names, types) := GetRecordStmt(c.engine, table, desc).value;
    assert rec == NewRecord(row, names, types).value;
    NewRecordMeaning(row, names, types);
    SpecsDistinct(table, fields, names, i);
    FieldOfSpec(rec, i);
  }

  /** Qualifying distinct, sorted field names by one table keeps them distinct. */
  lemma {:induction false} SpecsDistinct(table: string, fields: seq<Field>, names: seq<string>, i: nat)
    requires StrictlySorted(Names(fields)) && |names| == |fields| && i < |names|
    requires forall k :: 0 <= k < |fields| ==> names[k] == table + "." + fields[k].name
    ensures forall j :: i < j < |names| ==> names[j] != names[i]
  {
    var prefix := table + ".";
    forall j | i < j < |names|
      ensures names[j] != names[i]
    {
      assert Less(Names(fields)[i], Names(fields)[j]);
      LessIrreflexive(fields[i].name);
      assert (prefix + fields[i].name)[|prefix|..] == fields[i].name;
      assert (prefix + fields[j].name)[|prefix|..] == fields[j].name;
    }
  }
}
