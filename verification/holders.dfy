/**
 * The value holders: one mutable typed cell per field type, with a null flag.
 * A holder binds itself into a statement slot (a NULL of its SQL type when the
 * flag is set) and fetches itself from a result column, re-reading the null flag
 * from the driver's was-null signal after the raw read.
 *
 * The driver side is abstract: binding produces a `Bind` event, and a result
 * column is a `Cell` giving what each typed getter of the driver would return.
 */
module Holders {

  import opened Wrappers
  import opened JavaInts
  import opened Strings
  import opened DbTypes
  import opened Locations
  import opened DoubleArrays

  /** The payload of a holder, one variant per holder class. */
  datatype Payload =
    | IntegerValue(i: Int32)                 // DbInteger
    | DoubleValue(bits: Bits64)              // DbDouble, as its bit pattern
    | StringValue(s: Option<string>)         // DbString; a fetched NULL is a null string
    | DoubleArrayValue(a: seq<Bits64>)       // DbDoubleArray
    | DateValue(epochSecond: int)            // DbDate: the instant's epoch second
    | BooleanValue(b: bool)                  // DbBoolean
    | LocationValue(loc: Loc)                // DbLocation

  datatype Holder = Holder(payload: Payload, isNull: bool)

  /** The field type a payload belongs to. */
  function KindOf(p: Payload): DbType {
    match p
    case IntegerValue(_) => Integer
    case DoubleValue(_) => Double
    case StringValue(_) => String
    case DoubleArrayValue(_) => DoubleArray
    case DateValue(_) => Date
    case BooleanValue(_) => Boolean
    case LocationValue(_) => Location
  }

  function Kind(h: Holder): DbType {
    KindOf(h.payload)
  }

  /** The value a freshly created holder of each type carries. */
  function DefaultPayload(t: DbType): (p: Payload)
    ensures KindOf(p) == t
  {
    match t
    case Integer => IntegerValue(0)
    case Double => DoubleValue(0)
    case String => StringValue(Some(""))
    case DoubleArray => DoubleArrayValue([])
    case Date => DateValue(0)
    case Boolean => BooleanValue(false)
    case Location => LocationValue(DefaultLoc)
  }

  /** `DbType.create()`: a non-null holder of the type with its default value. */
  function Create(t: DbType): (h: Holder)
    ensures Kind(h) == t && !h.isNull
    ensures t == Integer ==> h.payload.i == 0
    ensures t == String ==> h.payload.s == Some("")
    ensures t == Boolean ==> !h.payload.b
    ensures t == Date ==> h.payload.epochSecond == 0
    ensures t == DoubleArray ==> h.payload.a == []
  {
    Holder(DefaultPayload(t), false)
  }

  /**
   * A typed `set` as written: `DbDate.set` and `DbDoubleArray.set` clear the null
   * flag, `DbBoolean.set` leaves it as it was.  The integer, string, double and
   * location holders' `set` follows the newer revision and clears it too.
   */
  function SetValueAsWritten(h: Holder, p: Payload): (r: Holder)
    requires KindOf(p) == Kind(h)
    ensures Kind(r) == Kind(h) && r.payload == p
    ensures r.isNull <==> p.BooleanValue? && h.isNull
  {
    Holder(p, if p.BooleanValue? then h.isNull else false)
  }

  /** A typed `set`: the new value, and the holder is no longer null. */
  function SetValue(h: Holder, p: Payload): (r: Holder)
    requires KindOf(p) == Kind(h)
    ensures Kind(r) == Kind(h) && r.payload == p && !r.isNull
    ensures r == SetValueAsWritten(h, p) <==> !(p.BooleanValue? && h.isNull)
  {
    Holder(p, false)
  }

  /** `setNull()`: the flag is raised and the payload is left as it was. */
  function SetNull(h: Holder): (r: Holder)
    ensures r.isNull && r.payload == h.payload
  {
    h.(isNull := true)
  }

  /** What a holder asks the statement to do for one parameter slot. */
  datatype Bind =
    | SetInt(slot: nat, i: Int32)
    | SetDouble(slot: nat, bits: Bits64)
    | SetString(slot: nat, s: Option<string>)
    | SetBytes(slot: nat, bytes: seq<Byte>)
    | SetDays(slot: nat, epochSecond: int)   // setDouble of the fractional day count
    | SetSqlNull(slot: nat, kind: DbType)    // setNull with the type's SQL type code

  function BindSlot(b: Bind): nat {
    match b
    case SetInt(s, _) => s
    case SetDouble(s, _) => s
    case SetString(s, _) => s
    case SetBytes(s, _) => s
    case SetDays(s, _) => s
    case SetSqlNull(s, _) => s
  }

  /**
   * `store(stmt, idx)`: a null holder binds an SQL NULL of its type; otherwise the
   * payload is bound in the type's storage form (booleans as 1/0, arrays as blobs,
   * locations as their fixed-width text).
   */
  function Store(h: Holder, slot: nat): (b: Bind)
    ensures BindSlot(b) == slot
    ensures h.isNull <==> b.SetSqlNull?
    ensures h.isNull ==> b.kind == Kind(h)
  {
    if h.isNull then SetSqlNull(slot, Kind(h))
    else match h.payload
      case IntegerValue(i) => SetInt(slot, i)
      case DoubleValue(d) => SetDouble(slot, d)
      case StringValue(s) => SetString(slot, s)
      case DoubleArrayValue(a) => SetBytes(slot, DoubleToBytes(a))
      case DateValue(sec) => SetDays(slot, sec)
      case BooleanValue(v) => SetInt(slot, if v then 1 else 0)
      case LocationValue(l) => SetString(slot, Some(LocToString(l)))
  }

  /**
   * One column of the current result row, as the driver's typed getters see it.
   * `asSeconds` is the epoch second `DbDate` derives from the column's fractional
   * day count.
   */
  datatype Cell = Cell(
    asInt: Int32,
    asDouble: Bits64,
    asString: Option<string>,
    asBytes: Option<seq<Byte>>,
    asSeconds: int,
    wasNull: bool)

  /**
   * `fetch(results, idx)`: read the payload with the type's getter, then take the
   * null flag from the driver.  A null blob or a null or malformed location string
   * raises an exception and the holder keeps its old state.
   */
  function Fetch(h: Holder, c: Cell): (r: Result<Holder>)
    ensures r.Ok? ==> Kind(r.value) == Kind(h) && r.value.isNull == c.wasNull
    ensures r.Fail? ==> Kind(h) in {DoubleArray, Location}
  {
    match h.payload
    case IntegerValue(_) => Ok(Holder(IntegerValue(c.asInt), c.wasNull))
    case DoubleValue(_) => Ok(Holder(DoubleValue(c.asDouble), c.wasNull))
    case StringValue(_) => Ok(Holder(StringValue(c.asString), c.wasNull))
    case DoubleArrayValue(_) =>
      if c.asBytes.None? then Fail(NullPointer)
      else Ok(Holder(DoubleArrayValue(BytesToDouble(c.asBytes.value)), c.wasNull))
    case DateValue(_) => Ok(Holder(DateValue(c.asSeconds), c.wasNull))
    case BooleanValue(_) => Ok(Holder(BooleanValue(c.asInt != 0), c.wasNull))
    case LocationValue(_) =>
      var l :- StringToLoc(c.asString);
      Ok(Holder(LocationValue(l), c.wasNull))
  }

  /**
   * What becomes of a date's epoch second on its way through the database: `DbDate`
   * binds `seconds / 86400.0` and reads back `(long) (days * 86400)`.  Both steps
   * round in floating point and the cast truncates, so the second read back can be
   * one lower than the one stored; floating point is not modelled, and this
   * conversion is a parameter.
   */
  type DayTrip = int -> int

  /**
   * A result column that reads back what one bind wrote: every value exactly except
   * a date, whose second goes through `trip`.
   */
  function Echo(b: Bind, trip: DayTrip): Cell {
    match b
    case SetInt(_, i) => Cell(i, 0, None, None, 0, false)
    case SetDouble(_, d) => Cell(0, d, None, None, 0, false)
    case SetString(_, s) => Cell(0, 0, s, None, 0, s.None?)
    case SetBytes(_, bytes) => Cell(0, 0, None, Some(bytes), 0, false)
    case SetDays(_, sec) => Cell(0, 0, None, None, trip(sec), false)
    case SetSqlNull(_, _) => Cell(0, 0, None, None, 0, true)
  }

  /** The value a non-null holder comes back with after a store and a fetch. */
  function Reloaded(h: Holder, trip: DayTrip): Holder {
    match h.payload
    case LocationValue(l) => h.(payload := LocationValue(l.(contig := PadRight(l.contig, ContigWidth))))
    case DateValue(sec) => h.(payload := DateValue(trip(sec)))
    case _ => h
  }

  predicate Storable(h: Holder) {
    match h.payload
    case LocationValue(l) => InRange(l) && ':' !in l.contig && l.dir != ':'
    case StringValue(s) => s.Some?
    case _ => true
  }

  /**
   * Storing a non-null holder and fetching it back from a column that returns the
   * bound value gives the same holder: integers, doubles, strings, booleans and
   * arrays exactly, locations with the contig padded to its field width, and dates
   * with the second the floating-point trip gives back.
   */
  lemma {:induction false} StoreFetchRoundTrip(h: Holder, slot: nat, trip: DayTrip)
    requires !h.isNull && Storable(h)
    ensures Fetch(Create(Kind(h)), Echo(Store(h, slot), trip)) == Ok(Reloaded(h, trip))
    ensures Kind(h) !in {Location, Date} ==> Reloaded(h, trip) == h
  {
    match h.payload
    case DoubleArrayValue(a) =>
      DecodeEncode(a);
    case LocationValue(l) =>
      LocRoundTrip(l);
    case _ =>
  }

  /**
   * Storing a null holder and fetching the NULL back sets the null flag, except that
   * an array or location holder cannot decode a null and fails.
   */
  lemma {:induction false} StoreFetchNull(h: Holder, slot: nat, trip: DayTrip)
    requires h.isNull
    ensures Kind(h) !in {DoubleArray, Location} ==>
      Fetch(Create(Kind(h)), Echo(Store(h, slot), trip)).Ok? &&
      Fetch(Create(Kind(h)), Echo(Store(h, slot), trip)).value.isNull
    ensures Kind(h) in {DoubleArray, Location} ==>
      Fetch(Create(Kind(h)), Echo(Store(h, slot), trip)) == Fail(NullPointer)
  {
  }

  /** After a corrected `set`, the holder binds the value it was given, whatever its type. */
  lemma {:induction false} SetThenStore(h: Holder, p: Payload, slot: nat)
    requires KindOf(p) == Kind(h)
    ensures !Store(SetValue(h, p), slot).SetSqlNull?
    ensures Store(SetValue(h, p), slot) == Store(Holder(p, false), slot)
  {
  }

  /** As written, a boolean holder once set null keeps binding NULL whatever it is set to. */
  lemma {:induction false} BooleanSetKeepsNull(h: Holder, v: bool, slot: nat)
    requires h.isNull && Kind(h) == Boolean
    ensures Store(SetValueAsWritten(h, BooleanValue(v)), slot) == SetSqlNull(slot, Boolean)
    ensures Store(SetValue(h, BooleanValue(v)), slot) == SetInt(slot, if v then 1 else 0)
  {
  }

  // ---------------------------------------------------------------------
  // Conversions
  // ---------------------------------------------------------------------

  /**
   * The outcome of an accessor conversion: a value, an exception, or a conversion
   * whose code is not part of this model.
   */
  datatype Conv<+T> = Got(value: T) | Raised(error: Error) | Unmodelled

  /** `getInt()`. */
  function GetInt(h: Holder): (r: Conv<Int32>)
    ensures Kind(h) == Boolean ==> r == Got(if h.payload.b then 1 else 0)
    ensures Kind(h) == DoubleArray ==>
      r == Raised(SqlError("Cannot represent a DOUBLE_ARRAY value as an integer."))
    ensures Kind(h) == Integer ==> r == Got(h.payload.i)
  {
    match h.payload
    case IntegerValue(i) => Got(i)
    case BooleanValue(v) => Got(if v then 1 else 0)
    case DateValue(sec) => Got(WrapInt32(TruncDiv(sec, SecondsPerDay)))
    case DoubleArrayValue(_) => Raised(SqlError("Cannot represent a DOUBLE_ARRAY value as an integer."))
    case _ => Unmodelled
  }

  const SecondsPerDay: int := 24 * 60 * 60

  /**
   * A date's integer form is its whole number of days since the epoch, rounded
   * toward the epoch (Java `long` division), then narrowed to `int`.  For dates
   * before 1970 that are not exactly midnight this is one more than the floor.
   */
  lemma {:induction false} DateDays(sec: int)
    requires IntMin * SecondsPerDay <= sec <= IntMax * SecondsPerDay
    ensures var d := GetInt(Holder(DateValue(sec), false)).value;
      (sec >= 0 ==> d * SecondsPerDay <= sec < (d + 1) * SecondsPerDay) &&
      (sec < 0 ==> (d - 1) * SecondsPerDay < sec <= d * SecondsPerDay) &&
      (sec < 0 && sec % SecondsPerDay != 0 ==> d == sec / SecondsPerDay + 1)
  {
    TruncDivBracket(sec, SecondsPerDay);
    var q := TruncDiv(sec, SecondsPerDay);
    assert IntMin <= q <= IntMax by {
      if sec >= 0 {
        assert q * SecondsPerDay <= sec;
      } else {
        assert (q - 1) * SecondsPerDay < sec;
        assert q <= 0;
      }
    }
  }

  /** `getString()`. */
  function GetString(h: Holder): (r: Conv<Option<string>>)
    ensures Kind(h) == Boolean ==> r == Got(Some(if h.payload.b then "Y" else ""))
    ensures Kind(h) == DoubleArray ==>
      r == Raised(SqlError("Cannot represent a DOUBLE_ARRAY value as a string."))
    ensures Kind(h) == String ==> r == Got(h.payload.s)
  {
    match h.payload
    case StringValue(s) => Got(s)
    case BooleanValue(v) => Got(Some(if v then "Y" else ""))
    case DoubleArrayValue(_) => Raised(SqlError("Cannot represent a DOUBLE_ARRAY value as a string."))
    case _ => Unmodelled
  }

  /** The message `DbDoubleArray.getDouble` raises. */
  const ArrayNotDouble := "Cannot represent a DOUBLE_ARRAY value as a floating-point."

  /** `getDouble()`: only the array holder's refusal is modelled. */
  function GetDouble(h: Holder): (r: Conv<Bits64>)
    ensures Kind(h) == DoubleArray ==> r == Raised(SqlError(ArrayNotDouble))
    ensures Kind(h) != DoubleArray ==> r.Unmodelled?
  {
    match h.payload
    case DoubleArrayValue(_) => Raised(SqlError(ArrayNotDouble))
    case _ => Unmodelled
  }

  /**
   * An array holder has no scalar form: each of the three accessors raises, and
   * each with its own message, so the refusal names the conversion asked for.
   */
  lemma {:induction false} ArrayHasNoScalarForm(h: Holder)
    requires Kind(h) == DoubleArray
    ensures GetInt(h).Raised? && GetDouble(h).Raised? && GetString(h).Raised?
    ensures GetInt(h).error != GetDouble(h).error && GetDouble(h).error != GetString(h).error
    ensures GetInt(h).error != GetString(h).error
  {
  }

  /** A boolean's integer and string forms both say which value it holds. */
  lemma {:induction false} BooleanForms(h: Holder)
    requires Kind(h) == Boolean
    ensures GetInt(h).value != 0 <==> h.payload.b
    ensures GetString(h).value == Some("Y") <==> h.payload.b
    ensures Fetch(h, Echo(Store(h.(isNull := false), 1), x => x)).value.payload == h.payload
  {
  }

  /** The name of a type's holder class, as `Class.toString` prints it. */
  function HolderClass(t: DbType): string {
    "class org.theseed.java.erdb.types." +
      match t
      case Integer => "DbInteger"
      case Double => "DbDouble"
      case String => "DbString"
      case DoubleArray => "DbDoubleArray"
      case Date => "DbDate"
      case Boolean => "DbBoolean"
      case Location => "DbLocation"
  }
}
