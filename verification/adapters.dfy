/**
 * The two database engines: how each turns a native column type into a `DbType`,
 * how it quotes identifiers, which catalog and schema it reports, and (MySQL) how
 * the connect string and database name come from the configured URL.
 */
module Adapters {

  import opened Wrappers
  import opened Strings
  import opened DbTypes

  /** A connected engine: the SQLite database file, or the MySQL URL and database name. */
  datatype Engine = Sqlite(file: string) | Mysql(url: string, dbName: string)

  // ---------------------------------------------------------------------
  // Connection set-up
  // ---------------------------------------------------------------------

  /** The SQLite constructor refuses a missing database file. */
  function OpenSqlite(file: Option<string>): (r: Result<Engine>)
    ensures r.Ok? <==> file.Some?
    ensures r.Ok? ==> r.value == Sqlite(file.value)
    ensures r.Fail? ==> r.error == SqlError("Database file is required for SQLITE databases.")
  {
    match file
    case None => Fail(SqlError("Database file is required for SQLITE databases."))
    case Some(f) => Ok(Sqlite(f))
  }

  const MysqlProtocol: string := "jdbc:mysql://"

  /** `buildConnector`: the protocol, the URL, then `?` and the parameters when there are any. */
  function ConnectString(url: string, parms: Option<string>): (c: string)
    ensures StartsWith(c, MysqlProtocol)
    ensures parms.None? ==> c == MysqlProtocol + url
    ensures parms.Some? ==> c == MysqlProtocol + url + "?" + parms.value
  {
    MysqlProtocol + url + (if parms.Some? then "?" + parms.value else "")
  }

  /** Reads the URL back from a connect string: the text between the protocol and the first `?`. */
  function ConnectUrl(c: string): string
    requires StartsWith(c, MysqlProtocol)
  {
    SubstringBefore(c[|MysqlProtocol|..], '?')
  }

  /** The MySQL constructor refuses a missing URL and names the database after the URL's last `/`. */
  function OpenMysql(url: Option<string>, parms: Option<string>): (r: Result<(Engine, string)>)
    ensures r.Ok? <==> url.Some?
    ensures r.Ok? ==> r.value.0.Mysql? && r.value.0.url == url.value
    ensures r.Ok? ==> '/' !in r.value.0.dbName
    ensures r.Ok? && '/' in url.value ==> EndsWith(url.value, "/" + r.value.0.dbName)
    ensures r.Ok? && '/' !in url.value ==> r.value.0.dbName == ""
    ensures r.Ok? ==> r.value.1 == ConnectString(url.value, parms)
    ensures r.Fail? ==> r.error == SqlError("Database URL is required for MySQL.")
  {
    match url
    case None => Fail(SqlError("Database URL is required for MySQL."))
    case Some(u) => Ok((Mysql(u, SubstringAfterLast(u, '/')), ConnectString(u, parms)))
  }

  /** A URL without `?` is recovered from its connect string, whatever the parameters. */
  lemma {:induction false} ConnectStringRoundTrip(url: string, parms: Option<string>)
    requires '?' !in url
    ensures ConnectUrl(ConnectString(url, parms)) == url
  {
    var c := ConnectString(url, parms);
    var rest := c[|MysqlProtocol|..];
    if parms.Some? {
      assert rest == url + ['?'] + parms.value;
      assert rest[..|url|] == url;
      IndexOfFirst(rest, '?', |url|);
    } else {
      assert rest == url;
      IndexOfAbsent(rest, '?');
    }
  }

  // ---------------------------------------------------------------------
  // Native type names
  // ---------------------------------------------------------------------

  /**
   * SQLite's `parseType`: substring tests in a fixed order, so any name containing
   * `INT` is an integer; the fallback is `DOUBLE` and the parse never fails.
   */
  function SqliteParseType(s: string): (t: DbType)
    ensures Contains(s, "INT") ==> t == Integer
    ensures t == String <==>
      !Contains(s, "INT") && (Contains(s, "CHAR") || Contains(s, "CLOB") || Contains(s, "TEXT"))
    ensures t == DoubleArray <==>
      !Contains(s, "INT") && !Contains(s, "CHAR") && !Contains(s, "CLOB") && !Contains(s, "TEXT")
      && !Contains(s, "BOOLEAN") && Contains(s, "BLOB")
    ensures t == Integer <==> (Contains(s, "INT") ||
      (!Contains(s, "CHAR") && !Contains(s, "CLOB") && !Contains(s, "TEXT") && Contains(s, "BOOLEAN")))
    ensures t in {Integer, String, DoubleArray, Double}
  {
    if Contains(s, "INT") then Integer
    else if Contains(s, "CHAR") || Contains(s, "CLOB") || Contains(s, "TEXT") then String
    else if Contains(s, "BOOLEAN") then Integer
    else if Contains(s, "BLOB") then DoubleArray
    else Double
  }

  /** A column type name SQLite would report for each type its parser can produce. */
  function SqliteTypeName(t: DbType): string {
    match t
    case Integer => "INTEGER"
    case String => "TEXT"
    case DoubleArray => "BLOB"
    case _ => "REAL"
  }

  /** SQLite reads each of its own type names back as the type it stands for. */
  lemma {:induction false} SqliteTypeNameRoundTrip(t: DbType)
    requires t in {Integer, String, DoubleArray, Double}
    ensures SqliteParseType(SqliteTypeName(t)) == t
  {
    var s := SqliteTypeName(t);
    match t
    case Integer =>
      ContainsAt(s, "INT", 0);
    case String =>
      NotContainsChar(s, "INT", 0);
      ContainsAt(s, "TEXT", 0);
    case DoubleArray =>
      NotContainsChar(s, "INT", 0);
      NotContainsChar(s, "CHAR", 1);
      NotContainsChar(s, "CLOB", 0);
      NotContainsChar(s, "TEXT", 0);
      NotContainsChar(s, "BOOLEAN", 6);
      ContainsAt(s, "BLOB", 0);
    case Double =>
      NotContainsChar(s, "INT", 0);
      NotContainsChar(s, "CHAR", 0);
      NotContainsChar(s, "CLOB", 0);
      NotContainsChar(s, "TEXT", 0);
      NotContainsChar(s, "BOOLEAN", 0);
      NotContainsChar(s, "BLOB", 0);
  }

  /** The upper-cased primitive MySQL matches on: the type name up to its length modifier. */
  function MysqlPrimitive(s: string): (p: string)
    ensures |p| <= |s| && '(' !in p
  {
    ToUpper(SubstringBefore(s, '('))
  }

  /**
   * MySQL's `parseType`: the upper-cased primitive must be one of the listed
   * string, integer or floating-point names; anything else is an `SQLException`.
   */
  function MysqlParseType(s: string): (r: Result<DbType>)
    ensures r == Ok(String) <==> MysqlPrimitive(s) in {"VARCHAR", "CHAR", "TEXT"}
    ensures r == Ok(Integer) <==>
      MysqlPrimitive(s) in {"BIT", "INT", "INTEGER", "SMALLINT", "TINYINT", "MEDIUMINT"}
    ensures r == Ok(Double) <==> MysqlPrimitive(s) in {"FLOAT", "DOUBLE"}
    ensures r.Ok? ==> r.value in {String, Integer, Double}
    ensures r.Fail? ==> r.error == SqlError("Unsupported field type " + MysqlPrimitive(s) + ".")
  {
    var p := MysqlPrimitive(s);
    if p == "VARCHAR" || p == "CHAR" || p == "TEXT" then Ok(String)
    else if p == "BIT" || p == "INT" || p == "INTEGER" || p == "SMALLINT" || p == "TINYINT"
      || p == "MEDIUMINT" then Ok(Integer)
    else if p == "FLOAT" || p == "DOUBLE" then Ok(Double)
    else Fail(SqlError("Unsupported field type " + p + "."))
  }

  /** A column type name MySQL would report for each type its parser can produce. */
  function MysqlTypeName(t: DbType): (s: string)
    ensures '(' !in s
  {
    match t
    case Integer => "INT"
    case String => "VARCHAR"
    case _ => "DOUBLE"
  }

  predicate NoLowerCase(s: string) {
    forall i :: 0 <= i < |s| ==> !('a' <= s[i] <= 'z')
  }

  lemma {:induction false} ToUpperNoLowerCase(s: string)
    requires NoLowerCase(s)
    ensures ToUpper(s) == s
  {
  }

  lemma {:induction false} ToUpperOfLower(s: string)
    requires NoLowerCase(s)
    ensures ToUpper(ToLower(s)) == s
  {
  }

  /** The primitive of an upper-case name is the name, with or without modifier, in either case. */
  lemma {:induction false} MysqlPrimitiveOf(p: string, modifier: string)
    requires '(' !in p && NoLowerCase(p)
    ensures MysqlPrimitive(p) == p
    ensures MysqlPrimitive(p + "(" + modifier) == p
    ensures MysqlPrimitive(ToLower(p)) == p
  {
    ToUpperNoLowerCase(p);
    IndexOfAbsent(p, '(');
    var m := p + "(" + modifier;
    assert m[..|p|] == p;
    IndexOfFirst(m, '(', |p|);
    var l := ToLower(p);
    assert '(' !in l;
    IndexOfAbsent(l, '(');
    ToUpperOfLower(p);
  }

  /**
   * MySQL reads its own type names back, whatever length modifier follows them
   * and in either case.
   */
  lemma {:induction false} MysqlTypeNameRoundTrip(t: DbType, modifier: string)
    requires t in {String, Integer, Double}
    ensures MysqlParseType(MysqlTypeName(t)) == Ok(t)
    ensures MysqlParseType(MysqlTypeName(t) + "(" + modifier) == Ok(t)
    ensures MysqlParseType(ToLower(MysqlTypeName(t))) == Ok(t)
  {
    MysqlPrimitiveOf(MysqlTypeName(t), modifier);
  }

  /** `DbType.parse(db, s)`: the connected engine's own parser. */
  function ParseType(e: Engine, s: string): (r: Result<DbType>)
    ensures e.Sqlite? ==> r == Ok(SqliteParseType(s))
    ensures e.Mysql? ==> r == MysqlParseType(s)
  {
    match e
    case Sqlite(_) => Ok(SqliteParseType(s))
    case Mysql(_, _) => MysqlParseType(s)
  }

  // ---------------------------------------------------------------------
  // Identifier quoting, catalog and schema
  // ---------------------------------------------------------------------

  function OpenQuote(e: Engine): char {
    if e.Sqlite? then '[' else '`'
  }

  function CloseQuote(e: Engine): char {
    if e.Sqlite? then ']' else '`'
  }

  /** `quote(buffer, name)`: the name between the engine's quote characters, unescaped. */
  function Quote(e: Engine, name: string): (q: string)
    ensures |q| == |name| + 2
    ensures q[0] == OpenQuote(e) && q[|q| - 1] == CloseQuote(e)
    ensures q[1..|q| - 1] == name
  {
    [OpenQuote(e)] + name + [CloseQuote(e)]
  }

  /** Strips the engine's quote characters. */
  function Unquote(e: Engine, q: string): Option<string> {
    if |q| >= 2 && q[0] == OpenQuote(e) && q[|q| - 1] == CloseQuote(e)
    then Some(q[1..|q| - 1]) else None
  }

  /** Quoting and unquoting are inverse to each other. */
  lemma {:induction false} QuoteRoundTrip(e: Engine, name: string, q: string)
    ensures Unquote(e, Quote(e, name)) == Some(name)
    ensures Unquote(e, q) == Some(name) ==> Quote(e, name) == q
  {
  }

  /** Neither engine names a catalog. */
  function Catalog(e: Engine): (c: Option<string>)
    ensures c.None?
  {
    None
  }

  /** SQLite reports no schema; MySQL's schema is the database name. */
  function Schema(e: Engine): (s: Option<string>)
    ensures e.Sqlite? <==> s.None?
    ensures e.Mysql? ==> s == Some(e.dbName)
  {
    if e.Sqlite? then None else Some(e.dbName)
  }
}
