/**
 * Connection-level logic of `DbConnection`: the table-descriptor cache, the table
 * list, the drop-everything operation, batched deletes, update scripts, the
 * commit-or-rollback transaction guard and the statements of the primary-key
 * operations.
 *
 * A connection is a value: its engine, its auto-commit mode, the descriptor cache
 * and the trace of driver calls made so far.  The database schema is a function
 * from a table name to the metadata rows the driver reports for it.
 */
module Connections {

  import opened Wrappers
  import opened Strings
  import opened DbTypes
  import opened Adapters
  import opened SqlBuffers
  import opened Tables
  import opened Holders
  import opened Driver

  datatype Conn = Conn(
    engine: Engine,
    autoCommit: bool,
    cache: map<string, Table>,   // descriptors by lower-cased table name
    trace: seq<Event>)

  // ---------------------------------------------------------------------
  // Descriptor cache
  // ---------------------------------------------------------------------

  /**
   * `getTable(name)`: the descriptor cached under the lower-cased name, else a fresh
   * load that is cached only when the table exists.
   */
  function GetTable(c: Conn, schema: string -> Metadata, tName: string): (r: (Conn, Result<Option<Table>>))
    ensures r.0.engine == c.engine && r.0.autoCommit == c.autoCommit && r.0.trace == c.trace
    ensures ToLower(tName) in c.cache ==> r == (c, Ok(Some(c.cache[ToLower(tName)])))
    ensures ToLower(tName) !in c.cache ==> r.1 == Load(c.engine, tName, schema(tName))
    ensures r.0.cache.Keys == c.cache.Keys || r.0.cache.Keys == c.cache.Keys + {ToLower(tName)}
    ensures r.0.cache != c.cache ==> r.1.Ok? && r.1.value.Some? && r.0.cache == c.cache[ToLower(tName) := r.1.value.value]
  {
    var key := ToLower(tName);
    if key in c.cache then (c, Ok(Some(c.cache[key])))
    else Remember(c, key, Load(c.engine, tName, schema(tName)))
  }

  /** A freshly loaded descriptor is cached under its key; a missing table or a failure is not. */
  function Remember(c: Conn, key: string, loaded: Result<Option<Table>>): (r: (Conn, Result<Option<Table>>))
    ensures r.1 == loaded && r.0.engine == c.engine && r.0.autoCommit == c.autoCommit && r.0.trace == c.trace
    ensures loaded.Ok? && loaded.value.Some? ==> r.0.cache == c.cache[key := loaded.value.value]
    ensures !(loaded.Ok? && loaded.value.Some?) ==> r.0 == c
  {
    if loaded.Ok? && loaded.value.Some? then (c.(cache := c.cache[key := loaded.value.value]), loaded)
    else (c, loaded)
  }

  /** Every cached descriptor is well formed. */
  ghost predicate CacheValid(c: Conn) {
    forall k :: k in c.cache ==> Valid(c.cache[k])
  }

  /** Looking a table up only ever caches well-formed descriptors. */
  lemma {:induction false} GetTableKeepsValid(c: Conn, schema: string -> Metadata, tName: string)
    ensures CacheValid(c) ==> CacheValid(GetTable(c, schema, tName).0)
  {
  }

  /**
   * Once a table has been found, asking again under any spelling with the same
   * lower-case form returns the same descriptor without a load and without changing
   * the connection, even if the schema has changed since.
   */
  lemma {:induction false} GetTableCached(c: Conn, schema: string -> Metadata, later: string -> Metadata, tName: string, alias: string)
    requires GetTable(c, schema, tName).1.Ok? && GetTable(c, schema, tName).1.value.Some?
    requires ToLower(alias) == ToLower(tName)
    ensures var (c1, r1) := GetTable(c, schema, tName);
      GetTable(c1, later, alias) == (c1, r1)
  {
  }

  /** A table that does not exist is not cached, so a later request loads it again. */
  lemma {:induction false} MissingTableNotCached(c: Conn, schema: string -> Metadata, tName: string)
    requires ToLower(tName) !in c.cache
    requires GetTable(c, schema, tName).1 == Ok(None)
    ensures GetTable(c, schema, tName).0 == c
    ensures forall later: string -> Metadata :: GetTable(c, later, tName).1 == Load(c.engine, tName, later(tName))
  {
  }

  // ---------------------------------------------------------------------
  // Table list
  // ---------------------------------------------------------------------

  /** `getTableNames()`: the reported table names, in order, without the `_` meta-tables. */
  function GetTableNames(names: seq<string>): (r: seq<string>)
    ensures forall x :: x in r <==> x in names && !StartsWith(x, "_")
    ensures |r| <= |names|
    decreases |names|
  {
    if |names| == 0 then []
    else
      var n := |names| - 1;
      var prev := GetTableNames(names[..n]);
      assert forall x :: x in names <==> x in names[..n] || x == names[n];
      if StartsWith(names[n], "_") then prev else prev + [names[n]]
  }

  /**
   * The table list keeps the reported order and repeats: it distributes over
   * concatenation, and a single name is kept exactly when it does not start with '_'.
   */
  lemma {:induction false} TableNamesInOrder(xs: seq<string>, ys: seq<string>)
    ensures GetTableNames(xs + ys) == GetTableNames(xs) + GetTableNames(ys)
    ensures forall x :: GetTableNames([x]) == [x] <==> !StartsWith(x, "_")
    ensures forall x :: GetTableNames([x]) == [] <==> StartsWith(x, "_")
  {
    TableNamesAppend(xs, ys);
    forall x: string ensures GetTableNames([x]) == (if StartsWith(x, "_") then [] else [x]) {
      assert [x][..0] == [];
    }
  }

  lemma {:induction false} TableNamesAppend(xs: seq<string>, ys: seq<string>)
    ensures GetTableNames(xs + ys) == GetTableNames(xs) + GetTableNames(ys)
    decreases |ys|
  {
    if |ys| == 0 {
      assert xs + ys == xs;
    } else {
      var n := |ys| - 1;
      var zs := xs + ys;
      assert zs[..|zs| - 1] == xs + ys[..n] && zs[|zs| - 1] == ys[n];
      TableNamesAppend(xs, ys[..n]);
      TableNamesLast(zs);
      TableNamesLast(ys);
      var p := GetTableNames(xs);
      var q := GetTableNames(ys[..n]);
      if !StartsWith(ys[n], "_") {
        assert (p + q) + [ys[n]] == p + (q + [ys[n]]);
      }
    }
  }

  /** The last reported name is appended to the list of the others unless it starts with '_'. */
  lemma {:induction false} TableNamesLast(names: seq<string>)
    requires |names| > 0
    ensures var n := |names| - 1;
      GetTableNames(names) ==
        if StartsWith(names[n], "_") then GetTableNames(names[..n]) else GetTableNames(names[..n]) + [names[n]]
  {
  }

  function Elems(xs: seq<string>): set<string> {
    set x | x in xs
  }

  // ---------------------------------------------------------------------
  // Transactions
  // ---------------------------------------------------------------------

  /** A `Transaction`: the auto-commit mode to restore and whether it was committed. */
  datatype Transaction = Transaction(oldCommit: bool, committed: bool)

  /** `new Transaction()`: remembers the auto-commit mode, then turns it off. */
  function Begin(c: Conn): (r: (Conn, Transaction))
    ensures r.1 == Transaction(c.autoCommit, false)
    ensures r.0 == c.(autoCommit := false, trace := c.trace + [SetAutoCommit(false)])
  {
    (c.(autoCommit := false, trace := c.trace + [SetAutoCommit(false)]), Transaction(c.autoCommit, false))
  }

  /** `commit()`: only marks the transaction as successful. */
  function MarkCommitted(x: Transaction): (r: Transaction)
    ensures r.committed && r.oldCommit == x.oldCommit
  {
    x.(committed := true)
  }

  /** `close()`: commit if marked, otherwise roll back; then restore the auto-commit mode. */
  function End(c: Conn, x: Transaction): (r: Conn)
    ensures r.autoCommit == x.oldCommit && r.cache == c.cache && r.engine == c.engine
    ensures r.trace == c.trace + [if x.committed then Commit else Rollback, SetAutoCommit(x.oldCommit)]
  {
    c.(autoCommit := x.oldCommit,
       trace := c.trace + [if x.committed then Commit else Rollback, SetAutoCommit(x.oldCommit)])
  }

  /**
   * A transaction commits at its close exactly when `commit()` was called, rolls back
   * otherwise, and either way leaves auto-commit as it found it.
   */
  lemma {:induction false} TransactionOutcome(c: Conn, work: seq<Event>, commit: bool)
    ensures var (c1, x) := Begin(c);
      var x2 := if commit then MarkCommitted(x) else x;
      var c2 := End(c1.(trace := c1.trace + work), x2);
      && c2.autoCommit == c.autoCommit
      && c2.trace == c.trace + [SetAutoCommit(false)] + work + [if commit then Commit else Rollback, SetAutoCommit(c.autoCommit)]
      && (Commit in c2.trace[|c.trace|..] <==> commit || Commit in work)
  {
    var (c1, x) := Begin(c);
    var x2 := if commit then MarkCommitted(x) else x;
    var c2 := End(c1.(trace := c1.trace + work), x2);
    assert c2.trace[|c.trace|..] == [SetAutoCommit(false)] + work + [if commit then Commit else Rollback, SetAutoCommit(c.autoCommit)];
  }

  // ---------------------------------------------------------------------
  // Dropping every table
  // ---------------------------------------------------------------------

  const CircularReferences: string := "Cannot drop all tables: circular references found."

  /**
   * A table may be dropped once no other table still present imports its key.
   * `dependents(t)` lists the importing tables the driver reports for `t`; a table
   * importing its own key does not count.
   */
  predicate SafeToDrop(t: string, remaining: set<string>, dependents: string -> seq<string>) {
    forall x :: x in dependents(t) && x != t ==> x !in remaining
  }

  /** The tables of `tables` not yet dropped by `dropped`. */
  function Remaining(tables: set<string>, dropped: seq<string>): set<string> {
    set x | x in tables && x !in dropped
  }

  /** `order` drops tables of `tables`, each once and only when it is safe. */
  ghost predicate DropsSafely(order: seq<string>, tables: set<string>, dependents: string -> seq<string>) {
    && (forall i, j :: 0 <= i < j < |order| ==> order[i] != order[j])
    && (forall x :: x in order ==> x in tables)
    && (forall k :: 0 <= k < |order| ==> SafeToDrop(order[k], Remaining(tables, order[..k]), dependents))
  }

  /** `order` drops every table once, each only when it is safe. */
  ghost predicate IsDropOrder(order: seq<string>, tables: set<string>, dependents: string -> seq<string>) {
    DropsSafely(order, tables, dependents) && forall x :: x in tables ==> x in order
  }

  /** Dropping one more safe table keeps the drops safe. */
  lemma {:induction false} DropStep(order: seq<string>, tables: set<string>, dependents: string -> seq<string>, t: string)
    requires DropsSafely(order, tables, dependents)
    requires t in Remaining(tables, order) && SafeToDrop(t, Remaining(tables, order), dependents)
    ensures DropsSafely(order + [t], tables, dependents)
    ensures Remaining(tables, order + [t]) == Remaining(tables, order) - {t}
  {
    var o := order + [t];
    assert o[..|order|] == order;
    forall k | 0 <= k < |order|
      ensures o[..k] == order[..k]
    {
    }
  }

  function DropStatement(e: Engine, t: string): string {
    QuoteName(Start(New(e), "DROP TABLE "), t).text
  }

  function DropEvents(e: Engine, order: seq<string>): (r: seq<Event>)
    ensures |r| == |order| && forall i :: 0 <= i < |order| ==> r[i] == Execute(DropStatement(e, order[i]))
  {
    seq(|order|, i requires 0 <= i < |order| => Execute(DropStatement(e, order[i])))
  }

  /** Emptying the two meta-tables, which are kept. */
  function ClearMetaTables(e: Engine): seq<Event> {
    [Execute(QuoteName(Start(New(e), "DELETE FROM "), "_fields").text),
     Execute(QuoteName(Start(New(e), "DELETE FROM "), "_diagram").text)]
  }

  /**
   * A non-empty set of tables each of which is imported by another member of the set
   * can never be dropped: there is no drop order at all.
   */
  lemma {:induction false} StuckSetBlocks(tables: set<string>, stuck: set<string>, dependents: string -> seq<string>, order: seq<string>)
    requires stuck != {} && stuck <= tables
    requires forall t :: t in stuck ==> !SafeToDrop(t, stuck, dependents)
    ensures !IsDropOrder(order, tables, dependents)
  {
    var s :| s in stuck;
    if s in order {
      var k := FirstIn(order, stuck, s);
      var t := order[k];
      var x :| x in dependents(t) && x != t && x in stuck;
      assert x !in order[..k];
      assert x in Remaining(tables, order[..k]);
      assert !SafeToDrop(t, Remaining(tables, order[..k]), dependents);
    } else {
      assert s in tables;
    }
  }

  /** The position of the first member of `stuck` in `order`. */
  lemma {:induction false} FirstIn(order: seq<string>, stuck: set<string>, s: string) returns (k: nat)
    requires s in order && s in stuck
    ensures k < |order| && order[k] in stuck
    ensures forall j :: 0 <= j < k ==> order[j] !in stuck
  {
    var m :| 0 <= m < |order| && order[m] == s;
    k := m;
    while exists j :: 0 <= j < k && order[j] in stuck
      invariant k < |order| && order[k] in stuck
      decreases k
    {
      var j :| 0 <= j < k && order[j] in stuck;
      k := j;
    }
  }

  /**
   * `clearTables()`.  Auto-commit is turned off and the non-meta tables are dropped one
   * at a time, each only after every table importing its key is gone.  On success the
   * meta-tables are emptied, the work is committed and the descriptor cache cleared; if
   * some tables remain and none of them is safe the drops are rolled back and the cache
   * is kept.  Either way auto-commit is restored.  The safe table dropped next is any
   * one of the safe tables (the source takes the first in hash order).
   */
  method ClearTables(c: Conn, names: seq<string>, dependents: string -> seq<string>)
    returns (c': Conn, r: Outcome, order: seq<string>)
    ensures c'.engine == c.engine && c'.autoCommit == c.autoCommit
    ensures r.Pass? ==> IsDropOrder(order, Elems(GetTableNames(names)), dependents)
    ensures r.Pass? ==> forall t :: t in order <==> t in names && !StartsWith(t, "_")
    ensures r.Pass? ==> c'.cache == map[]
    ensures r.Pass? ==> (c'.trace == c.trace + [SetAutoCommit(false)] + DropEvents(c.engine, order) +
      ClearMetaTables(c.engine) + [Commit, SetAutoCommit(c.autoCommit)])
    ensures r.Failed? ==> r.error == SqlError(CircularReferences) && c'.cache == c.cache
    ensures r.Failed? ==> (c'.trace == c.trace + [SetAutoCommit(false)] + DropEvents(c.engine, order) +
      [Rollback, SetAutoCommit(c.autoCommit)])
    ensures r.Failed? ==> forall o :: !IsDropOrder(o, Elems(GetTableNames(names)), dependents)
  {
    var tables := Elems(GetTableNames(names));
    var done;
    order, done := DropOrder(tables, dependents);
    if done {
      c' := c.(cache := map[], trace := c.trace + [SetAutoCommit(false)] + DropEvents(c.engine, order) +
        ClearMetaTables(c.engine) + [Commit, SetAutoCommit(c.autoCommit)]);
      r := Pass;
    } else {
      c' := c.(trace := c.trace + [SetAutoCommit(false)] + DropEvents(c.engine, order) + [Rollback, SetAutoCommit(c.autoCommit)]);
      r := Failed(SqlError(CircularReferences));
    }
  }

  /**
   * The drop loop of `clearTables()`: repeatedly drop some table that is safe to drop,
   * until none remain or none of those remaining is safe.
   */
  method DropOrder(tables: set<string>, dependents: string -> seq<string>) returns (order: seq<string>, done: bool)
    ensures DropsSafely(order, tables, dependents)
    ensures done ==> IsDropOrder(order, tables, dependents)
    ensures !done ==> forall o :: !IsDropOrder(o, tables, dependents)
  {
    var unDropped := tables;
    order := [];
    while unDropped != {}
      invariant unDropped == Remaining(tables, order)
      invariant DropsSafely(order, tables, dependents)
      decreases |unDropped|
    {
      if t :| t in unDropped && SafeToDrop(t, unDropped, dependents) {
        DropStep(order, tables, dependents, t);
        order := order + [t];
        unDropped := unDropped - {t};
      } else {
        StuckSetBlocksAll(tables, unDropped, dependents);
        return order, false;
      }
    }
    forall x | x in tables
      ensures x in order
    {
      assert x !in Remaining(tables, order);
    }
    done := true;
  }

  lemma {:induction false} StuckSetBlocksAll(tables: set<string>, stuck: set<string>, dependents: string -> seq<string>)
    requires stuck != {} && stuck <= tables
    requires forall t :: t in stuck ==> !SafeToDrop(t, stuck, dependents)
    ensures forall o :: !IsDropOrder(o, tables, dependents)
  {
    forall o
      ensures !IsDropOrder(o, tables, dependents)
    {
      StuckSetBlocks(tables, stuck, dependents, o);
    }
  }

  // ---------------------------------------------------------------------
  // Primary-key operations
  // ---------------------------------------------------------------------

  /**
   * The primary key a keyed operation uses.  A table that does not exist has no
   * descriptor and the source dereferences null; a table without a single-column key
   * is refused with the operation's name in the message.
   */
  function KeyFor(table: string, desc: Option<Table>, operation: string): (r: Result<string>)
    ensures r.Ok? <==> desc.Some? && desc.value.keyName.Some?
    ensures r.Ok? ==> r.value == desc.value.keyName.value
    ensures desc.None? ==> r == Fail(NullPointer)
    ensures desc.Some? && desc.value.keyName.None? ==>
      r == Fail(SqlError("Cannot do " + operation + " on table " + table + ", which has no primary key."))
  {
    if desc.None? then Fail(NullPointer)
    else if desc.value.keyName.None? then
      Fail(SqlError("Cannot do " + operation + " on table " + table + ", which has no primary key."))
    else Ok(desc.value.keyName.value)
  }

  /** ` WHERE key = ?`: the key test with its one parameter mark. */
  function WhereKey(b: SqlBuffer, key: string): (r: SqlBuffer)
    ensures r.text == b.text + " WHERE " + Quote(b.engine, key) + " = ?"
    ensures r.marks == b.marks + 1 && r.engine == b.engine
  {
    AppendMark(Append(QuoteName(Append(b, " WHERE "), key), " = "))
  }

  /** `buildDeleteStmt(table)`: `DELETE FROM table WHERE key = ?`. */
  function BuildDeleteStmt(e: Engine, table: string, desc: Option<Table>): (r: Result<SqlBuffer>)
    ensures r.Ok? <==> KeyFor(table, desc, "delete-record").Ok?
    ensures r.Fail? ==> r.error == KeyFor(table, desc, "delete-record").error
    ensures r.Ok? ==> (r.value.marks == 1 && r.value.text ==
      "DELETE FROM " + Quote(e, table) + " WHERE " + Quote(e, KeyFor(table, desc, "delete-record").value) + " = ?")
  {
    var key :- KeyFor(table, desc, "delete-record");
    Ok(WhereKey(QuoteName(Append(New(e), "DELETE FROM "), table), key))
  }

  /** The `checkForRecord` query: `SELECT key FROM table WHERE key = ?`. */
  function CheckForRecordStmt(e: Engine, table: string, desc: Option<Table>): (r: Result<SqlBuffer>)
    ensures r.Ok? <==> KeyFor(table, desc, "check-for-record").Ok?
    ensures r.Fail? ==> r.error == KeyFor(table, desc, "check-for-record").error
    ensures r.Ok? ==> var k := Quote(e, KeyFor(table, desc, "check-for-record").value);
      r.value.marks == 1 && r.value.text == "SELECT " + k + " FROM " + Quote(e, table) + " WHERE " + k + " = ?"
  {
    var key :- KeyFor(table, desc, "check-for-record");
    Ok(WhereKey(QuoteName(Append(QuoteName(Append(New(e), "SELECT "), key), " FROM "), table), key))
  }

  /** The `getKeys` query: `SELECT key FROM table`, refused like `checkForRecord`. */
  function KeysStmt(e: Engine, table: string, desc: Option<Table>): (r: Result<SqlBuffer>)
    ensures r.Ok? <==> KeyFor(table, desc, "check-for-record").Ok?
    ensures r.Fail? ==> r.error == KeyFor(table, desc, "check-for-record").error
    ensures r.Ok? ==> (r.value.marks == 0 &&
      r.value.text == "SELECT " + Quote(e, KeyFor(table, desc, "check-for-record").value) + " FROM " + Quote(e, table))
  {
    var key :- KeyFor(table, desc, "check-for-record");
    Ok(QuoteName(Append(QuoteName(Append(New(e), "SELECT "), key), " FROM "), table))
  }

  /** A quoted name holds a `?` only if the name does. */
  lemma {:induction false} QuoteNoMark(e: Engine, name: string)
    requires '?' !in name
    ensures '?' !in Quote(e, name)
  {
    assert Quote(e, name) == [OpenQuote(e)] + name + [CloseQuote(e)];
  }

  /**
   * The delete statement holds exactly as many `?` characters as it counts marks when
   * the table and key names contain none, so the driver sees one parameter.
   */
  lemma {:induction false} DeleteStatementMarks(e: Engine, table: string, desc: Option<Table>)
    requires BuildDeleteStmt(e, table, desc).Ok?
    requires '?' !in table && '?' !in desc.value.keyName.value
    ensures Count(BuildDeleteStmt(e, table, desc).value.text, '?') == BuildDeleteStmt(e, table, desc).value.marks
  {
    QuoteNoMark(e, table);
    QuoteNoMark(e, desc.value.keyName.value);
    var front := "DELETE FROM " + Quote(e, table) + " WHERE " + Quote(e, desc.value.keyName.value) + " = ";
    assert BuildDeleteStmt(e, table, desc).value.text == front + "?";
    CountAbsent(front, '?');
    CountConcat(front, "?", '?');
    CountSingle('?', '?');
  }

  /** The select-list items of `getRecord`: each field qualified by the quoted table. */
  function QualifiedItems(e: Engine, table: string, fields: seq<Field>): (items: seq<string>)
    ensures |items| == |fields|
    ensures forall i :: 0 <= i < |fields| ==> items[i] == Quote(e, table) + "." + Quote(e, fields[i].name)
  {
    seq(|fields|, i requires 0 <= i < |fields| => Quote(e, table) + "." + Quote(e, fields[i].name))
  }

  /**
   * The `getRecord` query: every field of the table, qualified by the table name and
   * in field order, then the key test.  The record's field specs are "table.field"
   * with the fields' types, in the same order.
   */
  function GetRecordStmt(e: Engine, table: string, desc: Option<Table>): (r: Result<(SqlBuffer, seq<string>, seq<DbType>)>)
    requires desc.Some? ==> Valid(desc.value)
    ensures r.Ok? <==> KeyFor(table, desc, "get-record").Ok?
    ensures r.Fail? ==> r.error == KeyFor(table, desc, "get-record").error
    ensures r.Ok? ==> var (b, names, types) := r.value;
      var fields := GetFields(desc.value);
      && |names| == |fields| == |types|
      && (forall i :: 0 <= i < |fields| ==> names[i] == table + "." + fields[i].name && types[i] == fields[i].dbType)
      && b.marks == 1
      && (|fields| > 0 ==>
            b.text == "SELECT " + Join(QualifiedItems(e, table, fields), ", ") + " FROM " + Quote(e, table) +
              " WHERE " + Quote(e, desc.value.keyName.value) + " = ?")
  {
    var key :- KeyFor(table, desc, "get-record");
    var fields := GetFields(desc.value);
    var (names, types) := RecordSpecs(table, fields);
    Ok((RecordSelect(e, table, key, fields), names, types))
  }

  /** The field specs "table.field" of a field list and their types, in field order. */
  function RecordSpecs(table: string, fields: seq<Field>): (r: (seq<string>, seq<DbType>))
    ensures |r.0| == |fields| == |r.1|
    ensures forall i :: 0 <= i < |fields| ==> r.0[i] == table + "." + fields[i].name && r.1[i] == fields[i].dbType
  {
    (seq(|fields|, i requires 0 <= i < |fields| => table + "." + fields[i].name),
     seq(|fields|, i requires 0 <= i < |fields| => fields[i].dbType))
  }

  /** The text of the `getRecord` query for a key and a field list. */
  function RecordSelect(e: Engine, table: string, key: string, fields: seq<Field>): (b: SqlBuffer)
    ensures b.marks == 1
    ensures |fields| > 0 ==>
      b.text == "SELECT " + Join(QualifiedItems(e, table, fields), ", ") + " FROM " + Quote(e, table) +
        " WHERE " + Quote(e, key) + " = ?"
  {
    var items := QualifiedItems(e, table, fields);
    var list := AppendItems(StartList(Append(New(e), "SELECT "), DefaultDelim), items);
    SelectList(e, items);
    WhereKey(QuoteName(Append(list, " FROM "), table), key)
  }

  lemma {:induction false} SelectList(e: Engine, items: seq<string>)
    ensures var list := AppendItems(StartList(Append(New(e), "SELECT "), DefaultDelim), items);
      list.marks == 0 && list.engine == e && (|items| > 0 ==> list.text == "SELECT " + Join(items, ", "))
  {
    var list := AppendItems(StartList(Append(New(e), "SELECT "), DefaultDelim), items);
    if |items| > 0 {
      DelimitedList(Append(New(e), "SELECT "), DefaultDelim, items);
    }
  }

  // ---------------------------------------------------------------------
  // Batched deletes
  // ---------------------------------------------------------------------

  const DeleteBatchSize: nat := 100

  /** The entries of the keys, in order. */
  function Entries(keys: seq<string>): (r: seq<Event>)
    ensures |r| == 2 * |keys|
    decreases |keys|
  {
    if |keys| == 0 then []
    else Entries(keys[..|keys| - 1]) + Entry(keys[|keys| - 1])
  }

  /** The reference batching: full batches of 100 keys, then the rest, each executed once. */
  function DeleteBatches(keys: seq<string>): seq<Event>
    decreases |keys|
  {
    if |keys| == 0 then []
    else if |keys| <= DeleteBatchSize then Entries(keys) + [ExecuteBatch]
    else Entries(keys[..DeleteBatchSize]) + [ExecuteBatch] + DeleteBatches(keys[DeleteBatchSize..])
  }

  /** One key's entry: bind it to the statement's one slot and add the batch entry. */
  function Entry(key: string): seq<Event> {
    [Bound(SetString(1, Some(key))), AddBatch]
  }

  lemma {:induction false} EntriesSnoc(keys: seq<string>, key: string)
    ensures Entries(keys + [key]) == Entries(keys) + Entry(key)
  {
    assert (keys + [key])[..|keys|] == keys;
  }

  lemma {:induction false} EntriesConcat(a: seq<string>, b: seq<string>)
    ensures Entries(a + b) == Entries(a) + Entries(b)
    decreases |b|
  {
    if |b| == 0 {
      assert a + b == a;
    } else {
      var n := |b| - 1;
      assert a + b == (a + b[..n]) + [b[n]];
      EntriesSnoc(a + b[..n], b[n]);
      EntriesSnoc(b[..n], b[n]);
      assert b[..n] + [b[n]] == b;
      EntriesConcat(a, b[..n]);
    }
  }

  lemma {:induction false} EntryNoFlush(key: string)
    ensures Flushes(Entry(key)) == 0
  {
    var t := Entry(key);
    assert t[..1] == [Bound(SetString(1, Some(key)))];
    assert t[..1][..0] == [];
    assert Flushes(t[..1]) == Flushes(t[..1][..0]);
    assert Flushes(t) == Flushes(t[..1]);
  }

  lemma {:induction false} EntriesNoFlush(keys: seq<string>)
    ensures Flushes(Entries(keys)) == 0
    decreases |keys|
  {
    if |keys| > 0 {
      var n := |keys| - 1;
      EntriesNoFlush(keys[..n]);
      EntryNoFlush(keys[n]);
      FlushesConcat(Entries(keys[..n]), Entry(keys[n]));
    }
  }

  /** Batching full batches and then the rest is batching everything. */
  lemma {:induction false} DeleteBatchesConcat(a: seq<string>, b: seq<string>)
    requires |a| % DeleteBatchSize == 0
    ensures DeleteBatches(a + b) == DeleteBatches(a) + DeleteBatches(b)
    decreases |a|
  {
    if |a| == 0 {
      assert a + b == b;
    } else if |b| == 0 {
      assert a + b == a;
    } else {
      FullBatchesLeft(|a|);
      DeleteBatchesConcat(a[DeleteBatchSize..], b);
      ConcatStep(a, b);
    }
  }

  /** The first full batch of `a` is the first batch of `a + b`. */
  lemma {:induction false} ConcatStep(a: seq<string>, b: seq<string>)
    requires |a| >= DeleteBatchSize && |b| > 0
    requires DeleteBatches(a[DeleteBatchSize..] + b) == DeleteBatches(a[DeleteBatchSize..]) + DeleteBatches(b)
    ensures DeleteBatches(a + b) == DeleteBatches(a) + DeleteBatches(b)
  {
    var head := Entries(a[..DeleteBatchSize]) + [ExecuteBatch];
    var rest := a[DeleteBatchSize..];
    SliceConcat(a, b, DeleteBatchSize);
    DeleteBatchesLong(a + b);
    assert DeleteBatches(a + b) == head + DeleteBatches(rest + b);
    if |a| == DeleteBatchSize {
      assert rest == [] && a[..DeleteBatchSize] == a;
      assert rest + b == b;
      DeleteBatchesShort(a);
    } else {
      DeleteBatchesLong(a);
      Associative(head, DeleteBatches(rest), DeleteBatches(b));
    }
  }

  lemma {:induction false} FullBatchesLeft(n: nat)
    requires n % DeleteBatchSize == 0 && n >= DeleteBatchSize
    ensures (n - DeleteBatchSize) % DeleteBatchSize == 0
  {
  }

  /** More than 100 keys make a full batch of the first 100, then the batches of the rest. */
  lemma {:induction false} DeleteBatchesLong(keys: seq<string>)
    requires |keys| > DeleteBatchSize
    ensures DeleteBatches(keys) == Entries(keys[..DeleteBatchSize]) + [ExecuteBatch] + DeleteBatches(keys[DeleteBatchSize..])
  {
  }

  /** Executing the pending batch when it holds 100 entries closes a full batch. */
  lemma {:induction false} FlushFull(keys: seq<string>, start: nat, i: nat)
    requires start + DeleteBatchSize == i <= |keys| && start % DeleteBatchSize == 0
    ensures DeleteBatches(keys[..start]) + Entries(keys[start..i]) + [ExecuteBatch] ==
      DeleteBatches(keys[..i]) + Entries(keys[i..i])
  {
    DeleteBatchesConcat(keys[..start], keys[start..i]);
    assert keys[..start] + keys[start..i] == keys[..i];
    assert keys[i..i] == [];
  }

  /** Adding key `i` to the pending batch. */
  lemma {:induction false} AddPending(keys: seq<string>, start: nat, i: nat)
    requires start <= i < |keys|
    ensures Entries(keys[start..i]) + Entry(keys[i]) == Entries(keys[start..i + 1])
    ensures DeleteBatches(keys[..start]) + Entries(keys[start..i]) + Entry(keys[i]) ==
      DeleteBatches(keys[..start]) + Entries(keys[start..i + 1])
  {
    EntriesSnoc(keys[start..i], keys[i]);
    assert keys[start..i] + [keys[i]] == keys[start..i + 1];
  }

  /** Executing the last, partial batch completes the reference batching. */
  lemma {:induction false} FlushRest(keys: seq<string>, start: nat)
    requires start < |keys| <= start + DeleteBatchSize && start % DeleteBatchSize == 0
    ensures DeleteBatches(keys[..start]) + Entries(keys[start..]) + [ExecuteBatch] == DeleteBatches(keys)
  {
    var tail := keys[start..];
    DeleteBatchesShort(tail);
    DeleteBatchesConcat(keys[..start], tail);
    assert keys[..start] + tail == keys;
  }

  /** Up to 100 keys make one batch. */
  lemma {:induction false} DeleteBatchesShort(keys: seq<string>)
    requires 0 < |keys| <= DeleteBatchSize
    ensures DeleteBatches(keys) == Entries(keys) + [ExecuteBatch]
  {
  }

  /**
   * `deleteRecords(table, keys)`: one prepared delete, each key bound and batched in
   * order, the batch executed whenever 100 entries are pending and once more at the
   * end if any are pending, then the statement closed.
   */
  method DeleteRecords(c: Conn, table: string, desc: Option<Table>, keys: seq<string>)
    returns (c': Conn, r: Outcome)
    ensures c'.cache == c.cache && c'.autoCommit == c.autoCommit && c'.engine == c.engine
    ensures r.Failed? <==> BuildDeleteStmt(c.engine, table, desc).Fail?
    ensures r.Failed? ==> r.error == BuildDeleteStmt(c.engine, table, desc).error && c' == c
    ensures r.Pass? ==> (c'.trace ==
      c.trace + [Prepare(BuildDeleteStmt(c.engine, table, desc).value.text)] + DeleteBatches(keys) + [CloseStatement])
  {
    var stmt := BuildDeleteStmt(c.engine, table, desc);
    if stmt.Fail? {
      return c, Failed(stmt.error);
    }
    var events := BatchDeletes(keys);
    c' := c.(trace := c.trace + [Prepare(stmt.value.text)] + events + [CloseStatement]);
    r := Pass;
  }

  /** The loop of `deleteRecords`: a batch execution before every 101st key and after the last. */
  method BatchDeletes(keys: seq<string>) returns (events: seq<Event>)
    ensures events == DeleteBatches(keys)
  {
    events := [];
    var count := 0;
    ghost var start := 0;
    var i := 0;
    while i < |keys|
      invariant start + count == i <= |keys| && count <= DeleteBatchSize
      invariant i > 0 ==> count >= 1
      invariant start % DeleteBatchSize == 0
      invariant events == DeleteBatches(keys[..start]) + Entries(keys[start..i])
    {
      if count >= DeleteBatchSize {
        FlushFull(keys, start, i);
        events := events + [ExecuteBatch];
        count := 0;
        start := i;
      }
      AddPending(keys, start, i);
      events := events + Entry(keys[i]);
      count := count + 1;
      i := i + 1;
    }
    if count > 0 {
      assert keys[start..i] == keys[start..];
      FlushRest(keys, start);
      events := events + [ExecuteBatch];
    } else {
      assert keys[..i] == keys && keys[i..i] == [];
      assert Entries([]) == [];
    }
  }

  /** ceil(n / 100) batch executions, none for no keys. */
  lemma {:induction false} DeleteFlushCount(keys: seq<string>)
    ensures Flushes(DeleteBatches(keys)) == (|keys| + DeleteBatchSize - 1) / DeleteBatchSize
    decreases |keys|
  {
    var k := if |keys| <= DeleteBatchSize then |keys| else DeleteBatchSize;
    if |keys| > 0 {
      EntriesNoFlush(keys[..k]);
      FlushesConcat(Entries(keys[..k]), [ExecuteBatch]);
      assert [ExecuteBatch][..0] == [];
      if |keys| <= DeleteBatchSize {
        assert keys[..k] == keys;
      } else {
        FlushesConcat(Entries(keys[..k]) + [ExecuteBatch], DeleteBatches(keys[k..]));
        DeleteFlushCount(keys[k..]);
      }
    }
  }

  /** The keys bound by a batched delete, in binding order. */
  function BoundKeys(trace: seq<Event>): seq<string> {
    if |trace| == 0 then []
    else
      var e := trace[|trace| - 1];
      BoundKeys(trace[..|trace| - 1]) +
        (if e.Bound? && e.b.SetString? && e.b.s.Some? then [e.b.s.value] else [])
  }

  lemma {:induction false} BoundKeysConcat(a: seq<Event>, b: seq<Event>)
    ensures BoundKeys(a + b) == BoundKeys(a) + BoundKeys(b)
    decreases |b|
  {
    if |b| > 0 {
      assert (a + b)[..|a + b| - 1] == a + b[..|b| - 1];
      BoundKeysConcat(a, b[..|b| - 1]);
    } else {
      assert a + b == a;
    }
  }

  lemma {:induction false} EntryBindsKey(key: string)
    ensures BoundKeys(Entry(key)) == [key]
  {
    var t := Entry(key);
    assert t[..1] == [Bound(SetString(1, Some(key)))];
    assert t[..1][..0] == [];
    assert BoundKeys(t[..1]) == BoundKeys(t[..1][..0]) + [key];
    assert BoundKeys(t) == BoundKeys(t[..1]);
  }

  lemma {:induction false} EntriesBindKeys(keys: seq<string>)
    ensures BoundKeys(Entries(keys)) == keys
    decreases |keys|
  {
    if |keys| > 0 {
      var n := |keys| - 1;
      EntriesBindKeys(keys[..n]);
      EntryBindsKey(keys[n]);
      BoundKeysConcat(Entries(keys[..n]), Entry(keys[n]));
      assert keys[..n] + [keys[n]] == keys;
    }
  }

  lemma {:induction false} ExecuteBindsNothing()
    ensures BoundKeys([ExecuteBatch]) == []
  {
    assert [ExecuteBatch][..0] == [];
  }

  /** Every key is deleted, once, in the order given. */
  lemma {:induction false} DeleteBindsEveryKey(keys: seq<string>)
    ensures BoundKeys(DeleteBatches(keys)) == keys
    decreases |keys|
  {
    var k := if |keys| <= DeleteBatchSize then |keys| else DeleteBatchSize;
    if |keys| > 0 {
      EntriesBindKeys(keys[..k]);
      ExecuteBindsNothing();
      BoundKeysConcat(Entries(keys[..k]), [ExecuteBatch]);
      if |keys| <= DeleteBatchSize {
        assert keys[..k] == keys;
      } else {
        BoundKeysConcat(Entries(keys[..k]) + [ExecuteBatch], DeleteBatches(keys[k..]));
        DeleteBindsEveryKey(keys[k..]);
        assert keys[..k] + keys[k..] == keys;
      }
    }
  }

  // ---------------------------------------------------------------------
  // Update scripts
  // ---------------------------------------------------------------------

  /** A script line completes a statement when, trimmed, it ends in ';'. */
  predicate Terminated(line: string) {
    EndsWith(Trim(line), ";")
  }

  /**
   * Splitting a script: each line is trimmed and added to the pending text; a line
   * ending in ';' completes a statement, any other line is followed by one space.
   * The result is the completed statements and the pending text left at the end.
   */
  function SplitScript(lines: seq<string>, pending: string): (r: (seq<string>, string))
    decreases |lines|
  {
    if |lines| == 0 then ([], pending)
    else if Terminated(lines[0]) then
      var rest := SplitScript(lines[1..], "");
      ([pending + Trim(lines[0])] + rest.0, rest.1)
    else SplitScript(lines[1..], pending + Trim(lines[0]) + " ")
  }

  /** The statements a script submits. */
  function ScriptStatements(lines: seq<string>): seq<string> {
    SplitScript(lines, "").0
  }

  function Trims(lines: seq<string>): (r: seq<string>)
    ensures |r| == |lines| && forall i :: 0 <= i < |lines| ==> r[i] == Trim(lines[i])
  {
    seq(|lines|, i requires 0 <= i < |lines| => Trim(lines[i]))
  }

  /** The trimmed lines, each followed by a space. */
  function Spaced(lines: seq<string>): string
    decreases |lines|
  {
    if |lines| == 0 then "" else Trim(lines[0]) + " " + Spaced(lines[1..])
  }

  /** Unterminated lines only extend the pending text, each trimmed and followed by a space. */
  lemma {:induction false} OpenLines(lines: seq<string>, pending: string, rest: seq<string>)
    requires forall i :: 0 <= i < |lines| ==> !Terminated(lines[i])
    ensures SplitScript(lines + rest, pending) == SplitScript(rest, pending + Spaced(lines))
    decreases |lines|
  {
    if |lines| > 0 {
      var t := Trim(lines[0]);
      assert (lines + rest)[0] == lines[0];
      assert (lines + rest)[1..] == lines[1..] + rest;
      OpenLines(lines[1..], pending + t + " ", rest);
      Associative(pending, t, " ");
      Associative(pending, t + " ", Spaced(lines[1..]));
    } else {
      assert lines + rest == rest;
      assert pending + Spaced(lines) == pending;
    }
  }

  lemma {:induction false} SpacedJoin(lines: seq<string>, last: string)
    ensures Spaced(lines) + last == Join(Trims(lines) + [last], " ")
    decreases |lines|
  {
    if |lines| > 0 {
      var t := Trim(lines[0]);
      SpacedJoin(lines[1..], last);
      assert (Trims(lines) + [last])[0] == t;
      assert (Trims(lines) + [last])[1..] == Trims(lines[1..]) + [last];
      Associative(t + " ", Spaced(lines[1..]), last);
    } else {
      assert Trims(lines) + [last] == [last];
    }
  }

  /**
   * A script statement is the trimmed lines of one group joined by single spaces,
   * where a group is a run of lines of which only the last ends in ';'.
   */
  lemma {:induction false} ScriptGroup(group: seq<string>, rest: seq<string>)
    requires |group| > 0 && Terminated(group[|group| - 1])
    requires forall i :: 0 <= i < |group| - 1 ==> !Terminated(group[i])
    ensures ScriptStatements(group + rest) == [Join(Trims(group), " ")] + ScriptStatements(rest)
  {
    var n := |group| - 1;
    GroupText(group, rest);
    SpacedJoin(group[..n], Trim(group[n]));
    TrimsLast(group);
  }

  lemma {:induction false} TrimsLast(lines: seq<string>)
    requires |lines| > 0
    ensures Trims(lines[..|lines| - 1]) + [Trim(lines[|lines| - 1])] == Trims(lines)
  {
  }

  /** A group's lines make one statement: its open lines spaced, then its closing line. */
  lemma {:induction false} GroupText(group: seq<string>, rest: seq<string>)
    requires |group| > 0 && Terminated(group[|group| - 1])
    requires forall i :: 0 <= i < |group| - 1 ==> !Terminated(group[i])
    ensures SplitScript(group + rest, "").0 ==
      [Spaced(group[..|group| - 1]) + Trim(group[|group| - 1])] + SplitScript(rest, "").0
  {
    var n := |group| - 1;
    var open := group[..n];
    var tail := [group[n]] + rest;
    assert group + rest == open + tail;
    OpenLines(open, "", tail);
    assert "" + Spaced(open) == Spaced(open);
    ClosingLine(group[n], rest, Spaced(open));
  }

  /** A line ending in ';' completes the pending statement. */
  lemma {:induction false} ClosingLine(line: string, rest: seq<string>, pending: string)
    requires Terminated(line)
    ensures SplitScript([line] + rest, pending).0 == [pending + Trim(line)] + SplitScript(rest, "").0
  {
    assert ([line] + rest)[0] == line && ([line] + rest)[1..] == rest;
  }

  /** Lines after the last ';' line are never submitted. */
  lemma {:induction false} TrailingFragmentDropped(lines: seq<string>)
    requires forall i :: 0 <= i < |lines| ==> !Terminated(lines[i])
    ensures ScriptStatements(lines) == []
  {
    OpenLines(lines, "", []);
    assert lines + [] == lines;
  }

  /** The number of lines that end a statement. */
  function TerminatedCount(lines: seq<string>): nat
    decreases |lines|
  {
    if |lines| == 0 then 0 else (if Terminated(lines[0]) then 1 else 0) + TerminatedCount(lines[1..])
  }

  /** One statement per line that ends in ';', and each statement ends in ';'. */
  lemma {:induction false} ScriptStatementCount(lines: seq<string>, pending: string)
    ensures |SplitScript(lines, pending).0| == TerminatedCount(lines)
    ensures forall s :: s in SplitScript(lines, pending).0 ==> EndsWith(s, ";")
    decreases |lines|
  {
    if |lines| > 0 {
      var line := Trim(lines[0]);
      if Terminated(lines[0]) {
        ScriptStatementCount(lines[1..], "");
        assert EndsWith(pending + line, ";") by {
          assert (pending + line)[|pending + line| - 1..] == line[|line| - 1..];
        }
      } else {
        ScriptStatementCount(lines[1..], pending + line + " ");
      }
    }
  }

  /** Splitting one more line: the step the source takes for each line it reads. */
  lemma {:induction false} SplitSnoc(lines: seq<string>, line: string, pending: string)
    ensures var (stmts, buffer) := SplitScript(lines, pending);
      SplitScript(lines + [line], pending) ==
        if Terminated(line) then (stmts + [buffer + Trim(line)], "") else (stmts, buffer + Trim(line) + " ")
    decreases |lines|
  {
    if |lines| == 0 {
      assert lines + [line] == [line];
      assert [line][1..] == [];
      assert SplitScript(lines, pending) == ([], pending);
      assert [pending + Trim(line)] + [] == [] + [pending + Trim(line)];
    } else {
      assert (lines + [line])[0] == lines[0];
      assert (lines + [line])[1..] == lines[1..] + [line];
      if Terminated(lines[0]) {
        SplitSnoc(lines[1..], line, "");
        var y := SplitScript(lines[1..], "");
        var first := [pending + Trim(lines[0])];
        assert first + (y.0 + [y.1 + Trim(line)]) == (first + y.0) + [y.1 + Trim(line)];
      } else {
        SplitSnoc(lines[1..], line, pending + Trim(lines[0]) + " ");
      }
    }
  }

  /** Reading line `i` of a script, given what the lines before it made. */
  lemma {:induction false} ScriptStep(lines: seq<string>, i: nat, stmts: seq<string>, buffer: string)
    requires i < |lines| && SplitScript(lines[..i], "") == (stmts, buffer)
    ensures var line := Trim(lines[i]);
      SplitScript(lines[..i + 1], "") ==
        if EndsWith(line, ";") then (stmts + [buffer + line], "") else (stmts, buffer + line + " ")
  {
    assert lines[..i + 1] == lines[..i] + [lines[i]];
    SplitSnoc(lines[..i], lines[i], "");
  }

  function AddAll(stmts: seq<string>): (r: seq<Event>)
    ensures |r| == |stmts| && forall i :: 0 <= i < |stmts| ==> r[i] == AddSql(stmts[i])
  {
    seq(|stmts|, i requires 0 <= i < |stmts| => AddSql(stmts[i]))
  }

  /** The batching loop of `scriptUpdate`: one `addBatch` per completed statement. */
  method BatchScript(lines: seq<string>) returns (batch: seq<Event>)
    ensures batch == AddAll(ScriptStatements(lines))
  {
    var buffer := "";
    ghost var stmts: seq<string> := [];
    batch := [];
    var i := 0;
    while i < |lines|
      invariant 0 <= i <= |lines|
      invariant SplitScript(lines[..i], "") == (stmts, buffer)
      invariant batch == AddAll(stmts)
    {
      var line := Trim(lines[i]);
      ScriptStep(lines, i, stmts, buffer);
      if EndsWith(line, ";") {
        AddAllSnoc(stmts, buffer + line);
        stmts := stmts + [buffer + line];
        batch := batch + [AddSql(buffer + line)];
        buffer := "";
      } else {
        buffer := buffer + line + " ";
      }
      i := i + 1;
    }
    assert lines[..i] == lines;
  }

  lemma {:induction false} AddAllSnoc(stmts: seq<string>, s: string)
    ensures AddAll(stmts + [s]) == AddAll(stmts) + [AddSql(s)]
  {
  }

  /**
   * `scriptUpdate(lines)`: inside a transaction, every completed statement is added to
   * one batch, the batch is executed, and only then is the transaction marked for
   * commit; the statement is closed last.  `batchError` is the driver's failure of
   * the batch, if it fails: the transaction then rolls back.
   */
  method ScriptUpdate(c: Conn, lines: seq<string>, batchError: Option<Error>) returns (c': Conn, r: Outcome)
    ensures c'.autoCommit == c.autoCommit && c'.cache == c.cache && c'.engine == c.engine
    ensures r.Pass? <==> batchError.None?
    ensures r.Failed? ==> r.error == batchError.value
    ensures c'.trace == c.trace + [SetAutoCommit(false)] + AddAll(ScriptStatements(lines)) + [ExecuteBatch] +
      [if batchError.None? then Commit else Rollback, SetAutoCommit(c.autoCommit)] + [CloseStatement]
  {
    var (c1, xact) := Begin(c);
    var batch := BatchScript(lines);
    c1 := c1.(trace := c1.trace + batch + [ExecuteBatch]);
    if batchError.None? {
      xact := MarkCommitted(xact);
      r := Pass;
    } else {
      r := Failed(batchError.value);
    }
    c1 := End(c1, xact);
    c' := c1.(trace := c1.trace + [CloseStatement]);
  }
}
