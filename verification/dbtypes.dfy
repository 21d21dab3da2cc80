/**
 * The closed set of field types the access layer understands, and the parser
 * for the custom type names kept in the `_fields` meta-table.
 */
module DbTypes {

  import opened Wrappers

  /** One variant per constant of the Java `DbType` enumeration. */
  datatype DbType = Integer | Double | String | DoubleArray | Date | Boolean | Location

  /** The enumeration constants in declaration order. */
  const AllTypes: seq<DbType> := [Integer, Double, String, DoubleArray, Date, Boolean, Location]

  /** The Java name of an enumeration constant. */
  function Name(t: DbType): (s: string)
    ensures |s| > 0
  {
    match t
    case Integer => "INTEGER"
    case Double => "DOUBLE"
    case String => "STRING"
    case DoubleArray => "DOUBLE_ARRAY"
    case Date => "DATE"
    case Boolean => "BOOLEAN"
    case Location => "LOCATION"
  }

  /** The types a `_fields` row may name: those no engine column type produces. */
  predicate IsCustom(t: DbType) {
    t == DoubleArray || t == Date || t == Boolean || t == Location
  }

  /**
   * `DbType.parse(String)`: a custom type name must be exactly the name of one of the
   * four custom constants; anything else is an `SQLException`.
   */
  function ParseCustom(s: string): (r: Result<DbType>)
    ensures r.Ok? ==> IsCustom(r.value) && Name(r.value) == s
    ensures r.Fail? ==> r.error == SqlError("Invalid custom type \"" + s + "\".")
    ensures r.Fail? <==> forall t :: IsCustom(t) ==> Name(t) != s
  {
    if s == "DOUBLE_ARRAY" then Ok(DoubleArray)
    else if s == "DATE" then Ok(Date)
    else if s == "BOOLEAN" then Ok(Boolean)
    else if s == "LOCATION" then Ok(Location)
    else Fail(SqlError("Invalid custom type \"" + s + "\"."))
  }

  /** The enumeration is closed, its listing is complete and its names are distinct. */
  lemma {:induction false} AllTypesComplete(t: DbType, u: DbType)
    ensures t in AllTypes && |AllTypes| == 7
    ensures Name(t) == Name(u) ==> t == u
  {
  }

  /** Parsing the name of a custom constant gives that constant; the other names are refused. */
  lemma {:induction false} ParseCustomName(t: DbType)
    ensures IsCustom(t) ==> ParseCustom(Name(t)) == Ok(t)
    ensures !IsCustom(t) ==> ParseCustom(Name(t)).Fail?
  {
  }
}
