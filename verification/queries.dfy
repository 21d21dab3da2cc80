/**
 * `DbQuery`: a query built from a table path, then extended with selected fields,
 * filters and an ordering, compiled into one prepared statement the first time it
 * runs, and re-run with the current parameter values each time.
 *
 * A query is a value.  Operations that can fail return the new query together with
 * an `Outcome`, so that what the Java object had already changed before it threw is
 * kept: a `setParm` that fails half-way leaves its earlier slots written, and a
 * table spec looked up by a filter stays registered even if the filter fails.
 *
 * Three helpers of the source are not part of this model and are parameters here
 * (`Env`): the schema the connection reads descriptors from, `DbType.isComparable`,
 * and `Link.store`, which writes a join condition between two table aliases.
 */
module Queries {

  import opened Wrappers
  import opened JavaInts
  import opened Strings
  import opened DbTypes
  import opened Relops
  import opened Adapters
  import opened SqlBuffers
  import opened Tables
  import opened Holders
  import opened Driver
  import opened Connections
  import opened Paths

  datatype Env = Env(
    schema: string -> Metadata,
    comparable: DbType -> bool,
    joinOn: (string, string, string) -> string)  // (link, anchor alias, new alias) to join condition

  datatype Query = Query(
    conn: Conn,
    tables: map<string, Table>,  // descriptors by table spec (name or alias)
    from: SqlBuffer,             // FROM clause
    where: SqlBuffer,            // WHERE clause, a list delimited by " AND "
    orderBy: SqlBuffer,          // ORDER BY clause
    names: seq<string>,          // selected field specs, in select order
    types: seq<DbType>,          // their types, in the same order
    used: set<string>,           // the specs already selected
    parms: seq<Holder>,          // parameter holders; holder i binds slot i + 1
    stmt: Option<string>)        // the compiled statement, once the query has run

  predicate Distinct(xs: seq<string>) {
    forall i, j :: 0 <= i < j < |xs| ==> xs[i] != xs[j]
  }

  /** Every registered spec names the descriptor the connection caches for its real table. */
  ghost predicate Registered(q: Query) {
    TablesCached(q.tables, q.conn.cache)
  }

  ghost predicate TablesCached(tables: map<string, Table>, cache: map<string, Table>) {
    forall a :: a in tables ==> ToLower(RealName(a)) in cache && cache[ToLower(RealName(a))] == tables[a]
  }

  /**
   * The invariants every reachable query keeps: the selected names and types are
   * parallel and free of repeats, and there is one parameter holder per `?` mark of
   * the WHERE clause, none of them null (a query creates its holders and never sets
   * one null).
   */
  ghost predicate Wellformed(q: Query) {
    && Selection(q.names, q.types, q.used)
    && |q.parms| == q.where.marks
    && NoNulls(q.parms)
    && Registered(q)
    && CacheValid(q.conn)
  }

  /** Selected names and types are parallel, free of repeats, and `used` holds exactly the names. */
  ghost predicate Selection(names: seq<string>, types: seq<DbType>, used: set<string>) {
    |names| == |types| && (forall x :: x in used <==> x in names) && Distinct(names)
  }

  predicate NoNulls(hs: seq<Holder>) {
    forall i :: 0 <= i < |hs| ==> !hs[i].isNull
  }

  /** Two queries agree on everything but the table registrations and the parameters. */
  predicate SameClauses(q: Query, r: Query) {
    && r.from == q.from && r.where == q.where && r.orderBy == q.orderBy
    && r.names == q.names && r.types == q.types && r.used == q.used && r.stmt == q.stmt
  }

  /** `init(db)`: no tables, no fields, no parameters and no statement yet. */
  function Init(c: Conn): (q: Query)
    requires CacheValid(c)
    ensures Wellformed(q)
    ensures q.tables == map[] && q.names == [] && q.parms == [] && q.stmt.None?
    ensures q.where.marks == 0 && q.where.text == "" && q.where.delim == " AND " && q.where.atListStart
  {
    Query(c, map[], New(c.engine), StartList(New(c.engine), " AND "), New(c.engine), [], [], {}, [], None)
  }

  // ---------------------------------------------------------------------
  // Table specs
  // ---------------------------------------------------------------------

  function NumericName(): Error {
    SqlError("Invalid numeric table name specified in table path.")
  }

  function NotFound(tableName: string): Error {
    SqlError("Cannot find table \"" + tableName + "\" in this database.")
  }

  /**
   * `findTable(spec)`: the descriptor of the real table behind the spec, obtained
   * through the connection's cache, registered under the full spec.
   */
  function FindTable(q: Query, env: Env, spec: string): (r: (Query, Result<Table>))
    ensures r.0 == q.(conn := r.0.conn, tables := r.0.tables)
    ensures r.0.conn.engine == q.conn.engine && r.0.conn.trace == q.conn.trace
    ensures r.0.conn.autoCommit == q.conn.autoCommit
    ensures forall k :: k in q.conn.cache ==> k in r.0.conn.cache && r.0.conn.cache[k] == q.conn.cache[k]
    ensures RealName(spec) == "" ==> r == (q, Fail(NumericName()))
    ensures r.1.Fail? ==> r.0.tables == q.tables
    ensures r.1.Ok? ==> r.0.tables == q.tables[spec := r.1.value]
    ensures r.1.Ok? ==> (
      var key := ToLower(RealName(spec));
      key in r.0.conn.cache && r.0.conn.cache[key] == r.1.value)
    ensures (RealName(spec) != "" && ToLower(RealName(spec)) !in q.conn.cache &&
      Load(q.conn.engine, RealName(spec), env.schema(RealName(spec))) == Ok(None)) ==>
      r.1 == Fail(NotFound(RealName(spec)))
    ensures CacheValid(q.conn) ==> CacheValid(r.0.conn)
  {
    var realName := RealName(spec);
    if realName == "" then (q, Fail(NumericName()))
    else
      var (c, found) := GetTable(q.conn, env.schema, realName);
      GetTableKeepsValid(q.conn, env.schema, realName);
      assert ToLower(realName) in q.conn.cache ==> c == q.conn;
      var q1 := q.(conn := c);
      match found
      case Fail(e) => (q1, Fail(e))
      case Ok(None) => (q1, Fail(NotFound(realName)))
      case Ok(Some(t)) => (q1.(tables := q1.tables[spec := t]), Ok(t))
  }

  /** Looking up a spec keeps every registration in step with the connection's cache. */
  lemma {:induction false} FindTableRegisters(q: Query, env: Env, spec: string)
    requires Registered(q)
    ensures Registered(FindTable(q, env, spec).0)
    ensures forall a :: a in q.tables ==> (
      var r := FindTable(q, env, spec).0;
      a in r.tables && r.tables[a] == q.tables[a])
  {
    var (r, found) := FindTable(q, env, spec);
    forall a | a in r.tables
      ensures ToLower(RealName(a)) in r.conn.cache && r.conn.cache[ToLower(RealName(a))] == r.tables[a]
    {
      if a != spec || found.Fail? {
        assert a in q.tables;
      }
    }
    forall a | a in q.tables
      ensures a in r.tables && r.tables[a] == q.tables[a]
    {
      if a == spec && found.Ok? {
        assert ToLower(RealName(a)) in q.conn.cache;
      }
    }
  }

  /** The alias part of a table entry: `AS spec` when the spec is not the table's own name. */
  function AliasText(e: Engine, spec: string, t: Table): string {
    if t.name == spec then "" else " AS " + Quote(e, spec)
  }

  /** `addTable`: the real table name, then the alias when there is one. */
  function AddTable(b: SqlBuffer, spec: string, t: Table): (r: SqlBuffer)
    ensures r.text == b.text + " " + Quote(b.engine, t.name) + AliasText(b.engine, spec, t)
    ensures r.marks == b.marks && r.engine == b.engine
  {
    var r := QuoteName(Append(b, " "), t.name);
    if t.name == spec then r else QuoteName(Append(r, " AS "), spec)
  }

  function JoinWord(j: Join): string
    requires j != Detached
  {
    if j == Inner then " INNER JOIN" else " LEFT OUTER JOIN"
  }

  function NoPath(anchor: string, spec: string): Error {
    SqlError("No path from " + anchor + " to " + spec + ".")
  }

  /**
   * One table of the path after the first.  Its spec is looked up (and registered)
   * whatever the delimiter; for a join, the FROM clause receives the join keyword,
   * the table entry and the join condition from the anchor's link to the new table's
   * real name.  `&` writes nothing.
   */
  function JoinStep(q: Query, env: Env, anchor: string, at: Table, st: Step): (r: (Query, Result<Table>))
    ensures r.0 == q.(conn := r.0.conn, tables := r.0.tables, from := r.0.from)
    ensures r.0.from.marks == q.from.marks && r.0.from.engine == q.from.engine
    ensures FindTable(q, env, st.spec).1.Fail? ==> r == FindTable(q, env, st.spec)
    ensures FindTable(q, env, st.spec).1.Ok? ==> r.0.(from := q.from) == FindTable(q, env, st.spec).0
    ensures st.join == Detached ==> r == FindTable(q, env, st.spec)
    ensures r.1.Ok? ==> r.1 == FindTable(q, env, st.spec).1
    ensures r.1.Ok? && st.join != Detached ==> (
      var t := r.1.value;
      var e := q.from.engine;
      && t.name in at.links
      && r.0.from.text == q.from.text + JoinWord(st.join) + " " + Quote(e, t.name) + AliasText(e, st.spec, t)
           + " ON " + env.joinOn(at.links[t.name], anchor, st.spec))
    ensures (FindTable(q, env, st.spec).1.Ok? && st.join != Detached &&
      FindTable(q, env, st.spec).1.value.name !in at.links) ==> r.1 == Fail(NoPath(anchor, st.spec))
  {
    var (q1, found) := FindTable(q, env, st.spec);
    match found
    case Fail(e) => (q1, Fail(e))
    case Ok(t) =>
      if st.join == Detached then (q1, Ok(t))
      else
        var from := AddTable(Append(q1.from, JoinWord(st.join)), st.spec, t);
        match GetLink(at, t.name)
        case None => (q1.(from := from), Fail(NoPath(anchor, st.spec)))
        case Some(link) => (q1.(from := Append(Append(from, " ON "), env.joinOn(link, anchor, st.spec))), Ok(t))
  }

  /** The rest of the path, each table becoming the anchor of the next whatever its delimiter. */
  function Walk(q: Query, env: Env, anchor: string, at: Table, steps: seq<Step>): (r: (Query, Outcome))
    ensures r.0 == q.(conn := r.0.conn, tables := r.0.tables, from := r.0.from)
    decreases |steps|
  {
    if |steps| == 0 then (q, Pass)
    else
      var (q1, found) := JoinStep(q, env, anchor, at, steps[0]);
      match found
      case Fail(e) => (q1, Failed(e))
      case Ok(t) => Walk(q1, env, steps[0].spec, t, steps[1..])
  }

  /** The spec the table at step `i` joins to: the token just before it, whatever its delimiter. */
  function Prev(anchor: string, steps: seq<Step>, i: nat): string
    requires i < |steps|
  {
    if i == 0 then anchor else steps[i - 1].spec
  }

  /**
   * Every spec of the steps is registered, and every step that joins is backed by a
   * link from the descriptor of the token before it to the real table of its spec.
   */
  ghost predicate Backed(tables: map<string, Table>, anchor: string, steps: seq<Step>) {
    forall i :: 0 <= i < |steps| ==> (
      && steps[i].spec in tables
      && Prev(anchor, steps, i) in tables
      && (steps[i].join != Detached ==> tables[steps[i].spec].name in tables[Prev(anchor, steps, i)].links))
  }

  lemma {:induction false} BackedCons(tables: map<string, Table>, anchor: string, steps: seq<Step>)
    requires |steps| > 0 && anchor in tables && steps[0].spec in tables
    requires steps[0].join != Detached ==> tables[steps[0].spec].name in tables[anchor].links
    requires Backed(tables, steps[0].spec, steps[1..])
    ensures Backed(tables, anchor, steps)
  {
    forall i | 0 <= i < |steps|
      ensures steps[i].spec in tables && Prev(anchor, steps, i) in tables
      ensures steps[i].join != Detached ==> tables[steps[i].spec].name in tables[Prev(anchor, steps, i)].links
    {
      if i > 0 {
        assert steps[i] == steps[1..][i - 1];
        assert Prev(anchor, steps, i) == Prev(steps[0].spec, steps[1..], i - 1);
      }
    }
  }

  /**
   * A walk registers every spec it meets and never changes a descriptor already
   * registered; a successful walk leaves every join it wrote backed by a link.
   */
  lemma {:induction false} WalkJoins(q: Query, env: Env, anchor: string, at: Table, steps: seq<Step>)
    requires Registered(q) && anchor in q.tables && q.tables[anchor] == at
    ensures var (q2, o) := Walk(q, env, anchor, at, steps);
      && Registered(q2)
      && (CacheValid(q.conn) ==> CacheValid(q2.conn))
      && (forall a :: a in q.tables ==> a in q2.tables && q2.tables[a] == q.tables[a])
      && (o.Pass? ==> Backed(q2.tables, anchor, steps))
    decreases |steps|
  {
    if |steps| > 0 {
      var (q1, found) := JoinStep(q, env, anchor, at, steps[0]);
      FindTableRegisters(q, env, steps[0].spec);
      if found.Ok? {
        var t := found.value;
        assert q1.tables == q.tables[steps[0].spec := t];
        assert q1.tables[anchor] == at;
        assert steps[0].join != Detached ==> t.name in at.links;
        WalkJoins(q1, env, steps[0].spec, t, steps[1..]);
        var (q2, o) := Walk(q1, env, steps[0].spec, t, steps[1..]);
        assert Walk(q, env, anchor, at, steps) == (q2, o);
        assert q2.tables[anchor] == at && q2.tables[steps[0].spec] == t;
        if o.Pass? {
          BackedCons(q2.tables, anchor, steps);
        }
      }
    }
  }

  /**
   * `new DbQuery(db, path)`: the first table opens the FROM clause and every later
   * table is joined to the one before it.  On success every spec of the path is
   * registered and every join is backed by a foreign-key link.
   */
  function NewQuery(c: Conn, env: Env, path: string): (r: (Query, Outcome))
    requires CacheValid(c)
    ensures Wellformed(r.0)
    ensures r.0.names == [] && r.0.parms == [] && r.0.stmt.None? && r.0.where == Init(c).where
    ensures ParsePath(path).Fail? ==> r.1 == Failed(NoTables(path))
    ensures r.1.Pass? ==> (
      && ParsePath(path).Ok?
      && ParsePath(path).value.first in r.0.tables
      && Backed(r.0.tables, ParsePath(path).value.first, ParsePath(path).value.steps))
  {
    var q := Init(c);
    match ParsePath(path)
    case Fail(e) => (q, Failed(e))
    case Ok(p) =>
      var (q1, found) := FindTable(q, env, p.first);
      match found
      case Fail(e) => (q1, Failed(e))
      case Ok(t) =>
        FindTableRegisters(q, env, p.first);
        var q2 := q1.(from := AddTable(q1.from, p.first, t));
        WalkJoins(q2, env, p.first, t, p.steps);
        Walk(q2, env, p.first, t, p.steps)
  }

  // ---------------------------------------------------------------------
  // Selected fields
  // ---------------------------------------------------------------------

  function NotInQuery(table: string): Error {
    SqlError("Table \"" + table + "\" is not present in this query.")
  }

  /** `getSpecTable`: the descriptor registered under a spec. */
  function SpecTable(q: Query, table: string): (r: Result<Table>)
    ensures r.Ok? <==> table in q.tables
    ensures r.Ok? ==> r.value == q.tables[table]
    ensures r.Fail? ==> r.error == NotInQuery(table)
  {
    if table in q.tables then Ok(q.tables[table]) else Fail(NotInQuery(table))
  }

  function Spec(table: string, field: string): string {
    table + "." + field
  }

  /** `selectField`: adds the spec and its type unless the spec is already selected. */
  function SelectField(q: Query, table: string, f: Field): (r: Query)
    requires Wellformed(q)
    ensures Wellformed(r)
    ensures Spec(table, f.name) in r.names
    ensures Spec(table, f.name) in q.used ==> r == q
    ensures Spec(table, f.name) !in q.used ==>
      r.names == q.names + [Spec(table, f.name)] && r.types == q.types + [f.dbType]
    ensures r == q.(names := r.names, types := r.types, used := r.used)
  {
    var spec := Spec(table, f.name);
    if spec in q.used then q
    else q.(used := q.used + {spec}, names := q.names + [spec], types := q.types + [f.dbType])
  }

  /** Selecting a field a second time changes nothing. */
  lemma {:induction false} SelectFieldIdempotent(q: Query, table: string, f: Field)
    requires Wellformed(q)
    ensures SelectField(SelectField(q, table, f), table, f) == SelectField(q, table, f)
  {
  }

  /** The names selected so far stay, in place, and their types with them. */
  ghost predicate Extends(q: Query, r: Query) {
    && q.names <= r.names && q.types <= r.types
    && r == q.(names := r.names, types := r.types, used := r.used)
  }

  /** `select`'s loop: an unknown field name fails after the fields before it are added. */
  function SelectNamed(q: Query, table: string, t: Table, fields: seq<string>): (r: (Query, Outcome))
    requires Wellformed(q) && Valid(t)
    ensures Wellformed(r.0) && Extends(q, r.0)
    ensures r.1.Pass? <==> forall i :: 0 <= i < |fields| ==> fields[i] in t.fields
    ensures r.1.Failed? ==> r.1.error == NullPointer
    ensures r.1.Pass? ==> forall i :: 0 <= i < |fields| ==> Spec(table, fields[i]) in r.0.names
    decreases |fields|
  {
    if |fields| == 0 then (q, Pass)
    else
      match GetField(t, fields[0])
      case None => (q, Failed(NullPointer))
      case Some(f) =>
        var q1 := SelectField(q, table, f);
        assert t.fields[fields[0]] == f;
        var r := SelectNamed(q1, table, t, fields[1..]);
        assert forall i :: 1 <= i < |fields| ==> fields[i] == fields[1..][i - 1];
        assert r.1.Pass? ==> Spec(table, f.name) in r.0.names by {
          if r.1.Pass? {
            assert q1.names <= r.0.names;
          }
        }
        r
  }

  /**
   * `select(table, fields...)`: the table spec must be registered; each named field is
   * selected in turn.  A field the table does not have makes the source dereference a
   * null descriptor; the fields before it stay selected.
   */
  function Select(q: Query, table: string, fields: seq<string>): (r: (Query, Outcome))
    requires Wellformed(q)
    ensures Wellformed(r.0) && Extends(q, r.0)
    ensures table !in q.tables ==> r == (q, Failed(NotInQuery(table)))
    ensures table in q.tables ==> (r.1.Pass? <==> forall i :: 0 <= i < |fields| ==> fields[i] in q.tables[table].fields)
    ensures r.1.Pass? ==> forall i :: 0 <= i < |fields| ==> Spec(table, fields[i]) in r.0.names
  {
    match SpecTable(q, table)
    case Fail(e) => (q, Failed(e))
    case Ok(t) =>
      assert ToLower(RealName(table)) in q.conn.cache;
      SelectNamed(q, table, t, fields)
  }

  /** `selectAll`'s loop over the table's fields. */
  function SelectFields(q: Query, table: string, fs: seq<Field>): (r: Query)
    requires Wellformed(q)
    ensures Wellformed(r) && Extends(q, r)
    ensures forall i :: 0 <= i < |fs| ==> Spec(table, fs[i].name) in r.names
    ensures forall x :: x in r.names ==> x in q.names || exists i :: 0 <= i < |fs| && x == Spec(table, fs[i].name)
    decreases |fs|
  {
    if |fs| == 0 then q
    else
      var q1 := SelectField(q, table, fs[0]);
      var r := SelectFields(q1, table, fs[1..]);
      assert forall i :: 1 <= i < |fs| ==> fs[i] == fs[1..][i - 1];
      assert Spec(table, fs[0].name) in r.names by {
        assert q1.names <= r.names;
      }
      r
  }

  /**
   * `selectAll(table)`: every field of the registered table, in field-name order,
   * except those already selected.  Afterwards exactly the table's fields have been
   * added to the selection.
   */
  function SelectAll(q: Query, table: string): (r: (Query, Outcome))
    requires Wellformed(q)
    ensures Wellformed(r.0) && Extends(q, r.0)
    ensures r.1.Pass? <==> table in q.tables
    ensures r.1.Failed? ==> r == (q, Failed(NotInQuery(table)))
    ensures r.1.Pass? ==> forall f :: f in q.tables[table].fields ==> Spec(table, f) in r.0.names
    ensures r.1.Pass? ==> forall x :: x in r.0.names ==>
      x in q.names || exists f :: f in q.tables[table].fields && x == Spec(table, f)
  {
    match SpecTable(q, table)
    case Fail(e) => (q, Failed(e))
    case Ok(t) =>
      assert Valid(t) by {
        assert ToLower(RealName(table)) in q.conn.cache;
      }
      SelectedAll(q, table, t);
      (SelectFields(q, table, GetFields(t)), Pass)
  }

  lemma {:induction false} SelectedAll(q: Query, table: string, t: Table)
    requires Wellformed(q) && Valid(t)
    ensures var r := SelectFields(q, table, GetFields(t));
      && (forall f :: f in t.fields ==> Spec(table, f) in r.names)
      && (forall x :: x in r.names ==> x in q.names || exists f :: f in t.fields && x == Spec(table, f))
  {
    var fs := GetFields(t);
    var r := SelectFields(q, table, fs);
    CoversFields(table, t.fields, fs, q.names, r.names);
  }

  /** Selecting a list that names exactly a table's fields selects exactly those fields. */
  lemma {:induction false} CoversFields(table: string, fields: map<string, Field>, fs: seq<Field>, before: seq<string>, after: seq<string>)
    requires forall f :: f in fields <==> f in Names(fs)
    requires forall i :: 0 <= i < |fs| ==> Spec(table, fs[i].name) in after
    requires forall x :: x in after ==> x in before || exists i :: 0 <= i < |fs| && x == Spec(table, fs[i].name)
    ensures forall f :: f in fields ==> Spec(table, f) in after
    ensures forall x :: x in after ==> x in before || exists f :: f in fields && x == Spec(table, f)
  {
    forall f | f in fields
      ensures Spec(table, f) in after
    {
      assert f in Names(fs);
      var i :| 0 <= i < |fs| && fs[i].name == f;
    }
    forall x | x in after && x !in before
      ensures exists f :: f in fields && x == Spec(table, f)
    {
      var i :| 0 <= i < |fs| && x == Spec(table, fs[i].name);
      assert fs[i].name in Names(fs);
    }
  }

  // ---------------------------------------------------------------------
  // Filters and ordering
  // ---------------------------------------------------------------------

  function NoSuchField(field: string, t: Table): Error {
    SqlError("Field \"" + field + "\" not found in table " + t.name + ".")
  }

  function NotComparable(spec: string): Error {
    SqlError("Field \"" + spec + "\" cannot be used for sorting or filtering.")
  }

  /**
   * `findField(spec)`: the spec is split at its dots, empty pieces dropped; the first
   * piece is looked up as a table spec (and registered, whether or not it is on the
   * path), the second as a field of that table.  A spec without a first or a second
   * piece indexes past the end of the split.
   */
  function FindField(q: Query, env: Env, spec: string): (r: (Query, Result<Field>))
    ensures r.0 == q.(conn := r.0.conn, tables := r.0.tables)
    ensures CacheValid(q.conn) ==> CacheValid(r.0.conn)
    ensures Registered(q) ==> Registered(r.0)
    ensures |Split(spec, '.')| == 0 ==> r == (q, Fail(IndexOutOfBounds))
    ensures r.1.Ok? ==> (
      var parts := Split(spec, '.');
      && |parts| >= 2 && parts[0] in r.0.tables && parts[1] in r.0.tables[parts[0]].fields
      && r.1.value == r.0.tables[parts[0]].fields[parts[1]])
    ensures (|Split(spec, '.')| == 1 && FindTable(q, env, Split(spec, '.')[0]).1.Ok?) ==>
      r == (FindTable(q, env, Split(spec, '.')[0]).0, Fail(IndexOutOfBounds))
  {
    var parts := Split(spec, '.');
    if |parts| == 0 then (q, Fail(IndexOutOfBounds))
    else
      var (q1, found) := FindTable(q, env, parts[0]);
      assert Registered(q) ==> Registered(q1) by {
        if Registered(q) {
          FindTableRegisters(q, env, parts[0]);
        }
      }
      match found
      case Fail(e) => (q1, Fail(e))
      case Ok(t) =>
        if |parts| < 2 then (q1, Fail(IndexOutOfBounds))
        else
          match GetField(t, parts[1])
          case None => (q1, Fail(NoSuchField(parts[1], t)))
          case Some(f) => (q1, Ok(f))
  }

  /** `findComparableField(spec)`: a field that sorting and filtering accept. */
  function FindComparable(q: Query, env: Env, spec: string): (r: (Query, Result<Field>))
    ensures r.0 == FindField(q, env, spec).0
    ensures FindField(q, env, spec).1.Fail? ==> r.1 == FindField(q, env, spec).1
    ensures r.1.Ok? <==> FindField(q, env, spec).1.Ok? && env.comparable(FindField(q, env, spec).1.value.dbType)
    ensures r.1.Ok? ==> r.1 == FindField(q, env, spec).1
    ensures (FindField(q, env, spec).1.Ok? && !r.1.Ok?) ==> r.1 == Fail(NotComparable(spec))
  {
    var (q1, found) := FindField(q, env, spec);
    match found
    case Fail(e) => (q1, Fail(e))
    case Ok(f) => if env.comparable(f.dbType) then (q1, Ok(f)) else (q1, Fail(NotComparable(spec)))
  }

  /** `n` fresh holders of a type: what `addHolders` creates. */
  function Fresh(t: DbType, n: nat): (hs: seq<Holder>)
    ensures |hs| == n && forall i :: 0 <= i < n ==> hs[i] == Create(t)
  {
    seq(n, _ => Create(t))
  }

  /**
   * `addHolders(spec, count)`: one fresh holder of the field's type per mark the
   * caller is about to write; none for a count that is not positive.
   */
  function AddHolders(q: Query, env: Env, spec: string, count: int): (r: (Query, Result<Field>))
    ensures r.1 == FindComparable(q, env, spec).1
    ensures r.0.(parms := q.parms) == FindComparable(q, env, spec).0
    ensures SameClauses(q, r.0)
    ensures r.1.Fail? ==> r.0.parms == q.parms
    ensures r.1.Ok? ==> r.0.parms == q.parms + Fresh(r.1.value.dbType, Max(count, 0))
    ensures Registered(q) ==> Registered(r.0)
    ensures CacheValid(q.conn) ==> CacheValid(r.0.conn)
    ensures NoNulls(q.parms) ==> NoNulls(r.0.parms)
  {
    var (q1, found) := FindComparable(q, env, spec);
    match found
    case Fail(e) => (q1, Fail(e))
    case Ok(f) =>
      assert NoNulls(q.parms) ==> NoNulls(q1.parms + Fresh(f.dbType, Max(count, 0))) by {
        if NoNulls(q.parms) {
          FreshNoNulls(q1.parms, f.dbType, Max(count, 0));
        }
      }
      (q1.(parms := q1.parms + Fresh(f.dbType, Max(count, 0))), Ok(f))
  }

  /** Fresh holders are not null. */
  lemma {:induction false} FreshNoNulls(hs: seq<Holder>, t: DbType, n: nat)
    requires NoNulls(hs)
    ensures NoNulls(hs + Fresh(t, n))
  {
    var r := hs + Fresh(t, n);
    forall i | 0 <= i < |r|
      ensures !r[i].isNull
    {
      if i >= |hs| {
        assert r[i] == Create(t);
      }
    }
  }

  /**
   * `rel(spec, op)`: one holder and the filter `spec op ?`.  A query that keeps one
   * holder per mark still does, whether the filter is added or refused.
   */
  function Rel(q: Query, env: Env, spec: string, op: Relop): (r: (Query, Outcome))
    requires Wellformed(q)
    ensures Wellformed(r.0)
    ensures r.0.names == q.names && r.0.stmt == q.stmt && r.0.orderBy == q.orderBy && r.0.from == q.from
    ensures r.1.Pass? <==> FindComparable(q, env, spec).1.Ok?
    ensures r.1.Failed? ==> r.0.parms == q.parms && r.0.where == q.where
    ensures r.1.Pass? ==> (
      && |r.0.parms| == |q.parms| + 1
      && r.0.parms[|q.parms|] == Create(FindComparable(q, env, spec).1.value.dbType)
      && r.0.where.text == q.where.text + DelimOf(q.where) + SpecText(q.where.engine, spec) + Text(op) + "?")
  {
    var (q1, found) := AddHolders(q, env, spec, 1);
    match found
    case Fail(e) => (q1, Failed(e))
    case Ok(_) =>
      (q1.(where := AppendMark(AppendSpec(q1.where, spec, Text(op)))), Pass)
  }

  /** `between(spec)`: two holders and the filter `spec BETWEEN ? AND ?`. */
  function Between(q: Query, env: Env, spec: string): (r: (Query, Outcome))
    requires Wellformed(q)
    ensures Wellformed(r.0)
    ensures r.0.names == q.names && r.0.stmt == q.stmt && r.0.orderBy == q.orderBy && r.0.from == q.from
    ensures r.1.Pass? <==> FindComparable(q, env, spec).1.Ok?
    ensures r.1.Failed? ==> r.0.parms == q.parms && r.0.where == q.where
    ensures r.1.Pass? ==> (
      && |r.0.parms| == |q.parms| + 2
      && r.0.where.text == q.where.text + DelimOf(q.where) + SpecText(q.where.engine, spec) + " BETWEEN " + "?" + " AND " + "?")
  {
    var (q1, found) := AddHolders(q, env, spec, 2);
    match found
    case Fail(e) => (q1, Failed(e))
    case Ok(_) => (q1.(where := BetweenFilter(q1.where, spec)), Pass)
  }

  /** The filter `between` appends: `spec BETWEEN ? AND ?`, after the list's delimiter. */
  function BetweenFilter(b: SqlBuffer, spec: string): (r: SqlBuffer)
    ensures r.marks == b.marks + 2 && r.engine == b.engine && r.delim == b.delim && !r.atListStart
    ensures r.text == b.text + DelimOf(b) + SpecText(b.engine, spec) + " BETWEEN " + "?" + " AND " + "?"
  {
    var w := AppendSpec(b, spec, " BETWEEN ");
    AppendMark(Append(AppendMark(w), " AND "))
  }

  /**
   * `in(spec, count)`: `count` holders and the filter `spec IN (?, ..., ?)`.  A count
   * that is not positive creates no holder, but the filter's head has already been
   * written when the mark list refuses the count.
   */
  method In(q: Query, env: Env, spec: string, count: Int32) returns (r: Query, o: Outcome)
    requires Wellformed(q)
    ensures Wellformed(r)
    ensures r.names == q.names && r.stmt == q.stmt && r.orderBy == q.orderBy && r.from == q.from
    ensures o.Pass? <==> FindComparable(q, env, spec).1.Ok? && count > 0
    ensures FindComparable(q, env, spec).1.Fail? ==> r.parms == q.parms && r.where == q.where
    ensures o.Pass? ==> (
      && |r.parms| == |q.parms| + count
      && r.where.text == q.where.text + DelimOf(q.where) + SpecText(q.where.engine, spec) + " IN " + MarkList(count))
    ensures (FindComparable(q, env, spec).1.Ok? && count <= 0) ==> (
      && o == Failed(IllegalArgument("Mark count cannot be 0."))
      && r.parms == q.parms
      && r.where.text == q.where.text + DelimOf(q.where) + SpecText(q.where.engine, spec) + " IN ")
  {
    var (q1, found) := AddHolders(q, env, spec, count);
    if found.Fail? {
      return q1, Failed(found.error);
    }
    var head := AppendSpec(q1.where, spec, " IN ");
    var marked := AddMarkList(head, count);
    if marked.Fail? {
      return q1.(where := head), Failed(marked.error);
    }
    return q1.(where := marked.value), Pass;
  }

  function NotNullable(spec: string): Error {
    SqlError("Field " + spec + " is not nullable.")
  }

  /** `isNull(spec, flag)`: `spec IS NULL` or `spec IS NOT NULL`, on a nullable field, with no holder. */
  function IsNull(q: Query, env: Env, spec: string, flag: bool): (r: (Query, Outcome))
    requires Wellformed(q)
    ensures Wellformed(r.0)
    ensures r.0.names == q.names && r.0.stmt == q.stmt && r.0.orderBy == q.orderBy && r.0.from == q.from
    ensures r.0.parms == q.parms && r.0.where.marks == q.where.marks
    ensures r.1.Pass? <==> FindComparable(q, env, spec).1.Ok? && FindComparable(q, env, spec).1.value.nullable
    ensures (FindComparable(q, env, spec).1.Ok? && !r.1.Pass?) ==> r.1 == Failed(NotNullable(spec))
    ensures r.1.Failed? ==> r.0.where == q.where
    ensures r.1.Pass? ==>
      r.0.where.text == q.where.text + DelimOf(q.where) + SpecText(q.where.engine, spec)
        + " IS" + (if flag then "" else " NOT") + " NULL"
  {
    var (q1, found) := FindComparable(q, env, spec);
    match found
    case Fail(e) => (q1, Failed(e))
    case Ok(f) =>
      if !f.nullable then (q1, Failed(NotNullable(spec)))
      else (q1.(where := IsNullFilter(q1.where, spec, flag)), Pass)
  }

  /** The filter `isNull` appends: `spec IS NULL` or `spec IS NOT NULL`, after the list's delimiter. */
  function IsNullFilter(b: SqlBuffer, spec: string, flag: bool): (r: SqlBuffer)
    ensures r.marks == b.marks && r.engine == b.engine && r.delim == b.delim && !r.atListStart
    ensures r.text == b.text + DelimOf(b) + SpecText(b.engine, spec) + " IS" + (if flag then "" else " NOT") + " NULL"
  {
    var w := AppendSpec(b, spec, " IS");
    var w1 := if flag then w else Append(w, " NOT");
    assert w.text + "" == w.text;
    Append(w1, " NULL")
  }

  /** `orderBy(spec)`: one more comparable sort field, after a comma when there are others. */
  function OrderBy(q: Query, env: Env, spec: string): (r: (Query, Outcome))
    requires Wellformed(q)
    ensures Wellformed(r.0)
    ensures r.0.names == q.names && r.0.stmt == q.stmt && r.0.where == q.where && r.0.from == q.from
    ensures r.0.parms == q.parms
    ensures r.1.Pass? <==> FindComparable(q, env, spec).1.Ok?
    ensures r.1.Failed? ==> r.0.orderBy == q.orderBy
    ensures r.1.Pass? ==> r.0.orderBy.text == q.orderBy.text + DelimOf(q.orderBy) + SpecText(q.orderBy.engine, spec)
  {
    var (q1, found) := FindComparable(q, env, spec);
    match found
    case Fail(e) => (q1, Failed(e))
    case Ok(_) => (q1.(orderBy := QuoteSpec(AppendDelim(q1.orderBy), spec)), Pass)
  }

  // ---------------------------------------------------------------------
  // Parameter values
  // ---------------------------------------------------------------------

  function NoRoom(idx: int, length: int, size: int): Error {
    SqlError("Attempt to store " + ZeroPad(length, 0) + " parameters at position " + ZeroPad(idx, 0)
      + " but only " + ZeroPad(size, 0) + " slots available.")
  }

  function WrongKind(slot: int, t: DbType): Error {
    SqlError("Parameter " + ZeroPad(slot, 0) + " is not of type " + HolderClass(t))
  }

  /**
   * `after` is `before` with the first `m` values set into the holders of slots
   * `idx`, `idx + 1`, ... (holder `i` serves slot `i + 1`), and nothing else changed.
   */
  ghost predicate WrittenUpTo(before: seq<Holder>, after: seq<Holder>, idx: int, values: seq<Payload>, m: nat)
    requires m <= |values|
  {
    && |after| == |before|
    && forall i :: 0 <= i < |before| ==> (
      && (idx - 1 <= i < idx - 1 + m ==>
            Kind(before[i]) == KindOf(values[i - idx + 1]) && after[i] == SetValueAsWritten(before[i], values[i - idx + 1]))
      && (!(idx - 1 <= i < idx - 1 + m) ==> after[i] == before[i]))
  }

  /** Slot `slot` exists and its holder takes values of type `kind`. */
  predicate SlotFits(parms: seq<Holder>, slot: int, kind: DbType) {
    1 <= slot <= |parms| && Kind(parms[slot - 1]) == kind
  }

  /** Why writing slot `slot` fails: it is out of range, or its holder is of another type. */
  predicate SlotFailure(parms: seq<Holder>, slot: int, kind: DbType, err: Error) {
    if 1 <= slot <= |parms| then Kind(parms[slot - 1]) != kind && err == WrongKind(slot, kind)
    else err == IndexOutOfBounds
  }

  /**
   * `setParm(idx, values...)`, one overload per holder type `kind`.  The room check
   * computes `idx - 1 + length` in 32-bit arithmetic; then the slots are written in
   * order, each checked for range and holder type first, so a failure part-way leaves
   * the slots before it written.
   */
  method SetParm(q: Query, idx: Int32, kind: DbType, values: seq<Payload>) returns (r: Query, o: Outcome)
    requires kind != DoubleArray
    requires |values| <= IntMax
    requires forall j :: 0 <= j < |values| ==> KindOf(values[j]) == kind
    ensures r == q.(parms := r.parms)
    ensures |r.parms| == |q.parms| && forall i :: 0 <= i < |q.parms| ==> Kind(r.parms[i]) == Kind(q.parms[i])
    ensures NoNulls(q.parms) ==> NoNulls(r.parms)
    ensures WrapInt32(idx - 1 + |values|) > |q.parms| ==> r == q && o == Failed(NoRoom(idx, |values|, |q.parms|))
    ensures o.Pass? <==> (
      && WrapInt32(idx - 1 + |values|) <= |q.parms|
      && forall slot :: idx <= slot < idx + |values| ==> SlotFits(q.parms, slot, kind))
    ensures o.Pass? ==> WrittenUpTo(q.parms, r.parms, idx, values, |values|)
    ensures (o.Failed? && WrapInt32(idx - 1 + |values|) <= |q.parms|) ==>
      exists m :: 0 <= m < |values| && WrittenUpTo(q.parms, r.parms, idx, values, m) && SlotFailure(q.parms, idx + m, kind, o.error)
  {
    if WrapInt32(idx - 1 + |values|) > |q.parms| {
      return q, Failed(NoRoom(idx, |values|, |q.parms|));
    }
    var parms := q.parms;
    var j := 0;
    while j < |values|
      invariant 0 <= j <= |values|
      invariant WrittenUpTo(q.parms, parms, idx, values, j)
      invariant forall slot :: idx <= slot < idx + j ==> SlotFits(q.parms, slot, kind)
    {
      var slot := idx + j;
      if slot < 1 || slot > |parms| {
        assert !SlotFits(q.parms, slot, kind);
        return q.(parms := parms), Failed(IndexOutOfBounds);
      }
      assert Kind(parms[slot - 1]) == Kind(q.parms[slot - 1]);
      if Kind(parms[slot - 1]) != kind {
        assert !SlotFits(q.parms, slot, kind);
        return q.(parms := parms), Failed(WrongKind(slot, kind));
      }
      parms := parms[slot - 1 := SetValueAsWritten(parms[slot - 1], values[j])];
      j := j + 1;
    }
    return q.(parms := parms), Pass;
  }

  /** A slot number from 1 on, with no 32-bit wrap-around, passes the room check exactly when it fits. */
  lemma {:induction false} RoomCheck(idx: Int32, length: nat, size: nat)
    requires 1 <= idx && idx - 1 + length <= IntMax
    ensures WrapInt32(idx - 1 + length) <= size <==> idx - 1 + length <= size
  {
  }

  // ---------------------------------------------------------------------
  // Execution
  // ---------------------------------------------------------------------

  function NoFields(): Error {
    SqlError("Query does not have fields to select.")
  }

  function SpecTexts(e: Engine, names: seq<string>): (items: seq<string>)
    ensures |items| == |names| && forall i :: 0 <= i < |names| ==> items[i] == SpecText(e, names[i])
  {
    seq(|names|, i requires 0 <= i < |names| => SpecText(e, names[i]))
  }

  /** An optional clause: its keyword and text, or nothing when the clause is empty. */
  function Clause(keyword: string, b: SqlBuffer): string {
    if IsEmpty(b) then "" else keyword + b.text
  }

  /**
   * The statement `startQuery` assembles: the quoted select list, the FROM clause,
   * then the WHERE and ORDER BY clauses when they are not empty.  A query with
   * nothing selected has no statement.
   */
  function Compile(q: Query): (r: Result<string>)
    ensures r.Fail? <==> |q.names| == 0
    ensures r.Fail? ==> r.error == NoFields()
    ensures r.Ok? ==> (r.value == "SELECT " + Strings.Join(SpecTexts(q.conn.engine, q.names), ", ")
      + " FROM " + q.from.text + Clause(" WHERE ", q.where) + Clause(" ORDER BY ", q.orderBy))
  {
    if |q.names| == 0 then Fail(NoFields())
    else
      var e := q.conn.engine;
      var items := SpecTexts(e, q.names);
      var list := AppendItems(StartList(Append(New(e), "SELECT "), DefaultDelim), items);
      SelectList(e, items);
      var b := Append(Append(list, " FROM "), q.from.text);
      Ok(AppendClause(AppendClause(b, " WHERE ", q.where), " ORDER BY ", q.orderBy).text)
  }

  /** A clause's keyword and text, appended only when the clause is not empty. */
  function AppendClause(b: SqlBuffer, keyword: string, clause: SqlBuffer): (r: SqlBuffer)
    ensures r.text == b.text + Clause(keyword, clause)
  {
    if IsEmpty(clause) then b
    else
      Associative(b.text, keyword, clause.text);
      Append(Append(b, keyword), clause.text)
  }

  /**
   * `startQuery`: the statement is compiled and prepared on the first run only; every
   * run binds all the current parameter values and executes the query.
   */
  function StartQuery(q: Query): (r: (Query, Outcome))
    ensures r.1.Failed? <==> q.stmt.None? && |q.names| == 0
    ensures r.1.Failed? ==> r == (q, Failed(NoFields()))
    ensures r.1.Pass? ==> r.0 == q.(stmt := r.0.stmt, conn := q.conn.(trace := r.0.conn.trace))
    ensures r.1.Pass? && q.stmt.Some? ==> r.0.stmt == q.stmt
    ensures r.1.Pass? && q.stmt.None? ==> r.0.stmt == Some(Compile(q).value)
    ensures r.1.Pass? ==> (r.0.conn.trace ==
      q.conn.trace + (if q.stmt.None? then [Prepare(r.0.stmt.value)] else []) + Binds(q.parms) + [ExecuteQuery])
  {
    var compiled: Result<(string, seq<Event>)> :=
      if q.stmt.Some? then Ok((q.stmt.value, []))
      else match Compile(q)
        case Fail(e) => Fail(e)
        case Ok(sql) => Ok((sql, [Prepare(sql)]));
    match compiled
    case Fail(e) => (q, Failed(e))
    case Ok(c) =>
      (q.(stmt := Some(c.0), conn := q.conn.(trace := q.conn.trace + c.1 + Binds(q.parms) + [ExecuteQuery])), Pass)
  }

  /**
   * Running a query again prepares nothing and reuses the statement of the first
   * run, whatever parameters were set in between; only the binds and the execution
   * are repeated.
   */
  lemma {:induction false} CompiledOnce(q: Query, parms: seq<Holder>)
    requires StartQuery(q).1.Pass?
    ensures var q1 := StartQuery(q).0;
      var q2 := q1.(parms := parms);
      && StartQuery(q2).1.Pass?
      && StartQuery(q2).0.stmt == q1.stmt
      && StartQuery(q2).0.conn.trace == q1.conn.trace + Binds(parms) + [ExecuteQuery]
      && Prepare(q1.stmt.value) !in StartQuery(q2).0.conn.trace[|q1.conn.trace|..]
  {
    var q1 := StartQuery(q).0;
    var q2 := q1.(parms := parms);
    var t := StartQuery(q2).0.conn.trace;
    assert t[|q1.conn.trace|..] == Binds(parms) + [ExecuteQuery];
  }

  /**
   * The values a complete `setParm` wrote are what the next run binds: the value
   * given for slot `idx + j` is bound, not null, at slot `idx + j`.
   */
  lemma {:induction false} WrittenBinds(before: seq<Holder>, after: seq<Holder>, idx: int, values: seq<Payload>)
    requires NoNulls(before) && WrittenUpTo(before, after, idx, values, |values|)
    requires 1 <= idx && idx - 1 + |values| <= |before|
    ensures forall j :: 0 <= j < |values| ==>
      Binds(after)[idx - 1 + j] == Bound(Store(Holder(values[j], false), idx + j))
  {
    forall j | 0 <= j < |values|
      ensures Binds(after)[idx - 1 + j] == Bound(Store(Holder(values[j], false), idx + j))
    {
      var i := idx - 1 + j;
      assert i - idx + 1 == j;
      SetThenStore(before[i], values[j], idx + j);
    }
  }

  /** `close()`: the statement is closed if the query ever ran. */
  function Close(q: Query): (r: Query)
    ensures r == q.(conn := r.conn) && r.conn == q.conn.(trace := r.conn.trace)
    ensures q.stmt.Some? <==> r.conn.trace == q.conn.trace + [CloseStatement]
    ensures q.stmt.None? <==> r.conn.trace == q.conn.trace
  {
    if q.stmt.Some? then q.(conn := q.conn.(trace := q.conn.trace + [CloseStatement])) else q
  }
}
