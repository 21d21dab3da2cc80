/**
 * Table descriptors (`DbTable`): the fields of a table with their types and
 * nullability, its single-column primary key if it has one, and the join condition
 * leading to each table it is linked to by a foreign key.
 *
 * The driver's metadata is abstract: a load receives the rows the metadata calls
 * would return for the table (custom-type rows of the `_fields` meta-table, columns,
 * primary-key columns, imported and exported foreign keys).
 */
module Tables {

  import opened Wrappers
  import opened Strings
  import opened DbTypes
  import opened Adapters
  import opened SqlBuffers
  import opened Assocs

  /** One row of the driver's column metadata. */
  datatype ColumnRow = ColumnRow(columnName: string, typeName: string, nullable: int)

  /** One row of the `_fields` meta-table for the table being loaded. */
  datatype CustomRow = CustomRow(fieldName: string, fieldType: string, description: string)

  /** One row of the driver's imported- or exported-key metadata. */
  datatype LinkRow = LinkRow(keySeq: int, pkTable: string, pkColumn: string, fkTable: string, fkColumn: string)

  /** Everything a load reads about one table. */
  datatype Metadata = Metadata(
    custom: seq<CustomRow>,
    columns: seq<ColumnRow>,
    primaryKeys: seq<string>,
    imported: seq<LinkRow>,
    exported: seq<LinkRow>)

  /** The driver's code for "this column may hold NULL". */
  const ColumnNullable: int := 1

  datatype Field = Field(name: string, dbType: DbType, nullable: bool)

  /**
   * A table descriptor.  `order` lists the field names in the sorted order of the
   * Java `TreeMap` holding the fields.
   */
  datatype Table = Table(
    name: string,
    fields: map<string, Field>,
    order: seq<string>,
    keyName: Option<string>,
    links: map<string, string>)

  ghost predicate Valid(t: Table) {
    && StrictlySorted(t.order)
    && (forall f :: f in t.order <==> f in t.fields)
    && (forall f :: f in t.fields ==> t.fields[f].name == f)
  }

  // ---------------------------------------------------------------------
  // Loading
  // ---------------------------------------------------------------------

  /**
   * The custom-type overrides of a table: each row's type name is parsed as a custom
   * type, a row naming a field again replaces the earlier one, and the first
   * unparsable type name fails the load.
   */
  function CustomTypes(rows: seq<CustomRow>): (r: Result<map<string, DbType>>)
    ensures r.Fail? <==> exists i :: 0 <= i < |rows| && ParseCustom(rows[i].fieldType).Fail?
    ensures r.Ok? ==> forall f :: f in r.value <==> f in FieldNames(rows)
    ensures r.Ok? ==> forall f :: f in r.value ==> IsCustom(r.value[f])
    decreases |rows|
  {
    if |rows| == 0 then Ok(map[])
    else
      var n := |rows| - 1;
      assert forall i :: 0 <= i < n ==> rows[..n][i] == rows[i];
      assert FieldNames(rows) == FieldNames(rows[..n]) + [rows[n].fieldName];
      var prev :- CustomTypes(rows[..n]);
      var t :- ParseCustom(rows[n].fieldType);
      Ok(prev[rows[n].fieldName := t])
  }

  function FieldNames(rows: seq<CustomRow>): (r: seq<string>)
    ensures |r| == |rows| && forall i :: 0 <= i < |rows| ==> r[i] == rows[i].fieldName
  {
    seq(|rows|, i requires 0 <= i < |rows| => rows[i].fieldName)
  }

  /** The last custom row naming a field decides its type. */
  lemma {:induction false} CustomTypeOfLastRow(rows: seq<CustomRow>, i: nat)
    requires CustomTypes(rows).Ok? && i < |rows|
    requires forall j :: i < j < |rows| ==> rows[j].fieldName != rows[i].fieldName
    ensures rows[i].fieldName in CustomTypes(rows).value
    ensures CustomTypes(rows).value[rows[i].fieldName] == ParseCustom(rows[i].fieldType).value
    decreases |rows|
  {
    var n := |rows| - 1;
    CustomTypesLast(rows);
    if i < n {
      assert forall j :: 0 <= j < n ==> rows[..n][j] == rows[j];
      CustomTypeOfLastRow(rows[..n], i);
    }
  }

  /** The overrides of a non-empty row list: those of all but the last row, then the last row's. */
  lemma {:induction false} CustomTypesLast(rows: seq<CustomRow>)
    requires CustomTypes(rows).Ok? && |rows| > 0
    ensures CustomTypes(rows[..|rows| - 1]).Ok? && ParseCustom(rows[|rows| - 1].fieldType).Ok?
    ensures CustomTypes(rows).value ==
      CustomTypes(rows[..|rows| - 1]).value[rows[|rows| - 1].fieldName := ParseCustom(rows[|rows| - 1].fieldType).value]
  {
  }

  /** The type a column gets: its custom override, else the engine's reading of its type name. */
  function ColumnType(e: Engine, custom: map<string, DbType>, c: ColumnRow): Result<DbType> {
    if c.columnName in custom then Ok(custom[c.columnName])
    else
      match ParseType(e, c.typeName)
      case Ok(t) => Ok(t)
      case Fail(err) => Fail(Runtime("Error reading metadata: " + ErrorText(err)))
  }

  /** `Throwable.getMessage()` of a modelled exception. */
  function ErrorText(err: Error): string {
    match err
    case SqlError(m) => m
    case IllegalArgument(m) => m
    case NoSuchElement(m) => m
    case Runtime(m) => m
    case _ => ""
  }

  /** `new Field(result, customTypes)`: one column row as a field descriptor. */
  function ColumnField(e: Engine, custom: map<string, DbType>, c: ColumnRow): (r: Result<Field>)
    ensures r.Ok? <==> ColumnType(e, custom, c).Ok?
    ensures r.Ok? ==> r.value.name == c.columnName && r.value.dbType == ColumnType(e, custom, c).value
    ensures r.Ok? ==> (r.value.nullable <==> c.nullable == ColumnNullable)
  {
    var t :- ColumnType(e, custom, c);
    Ok(Field(c.columnName, t, c.nullable == ColumnNullable))
  }

  /** Which end of a foreign key is the other table. */
  function LinkTarget(name: string, row: LinkRow): string {
    if row.pkTable == name then row.fkTable else row.pkTable
  }

  /** The join condition `storeLink` builds in a cleared statement buffer. */
  function JoinText(e: Engine, row: LinkRow): (s: string)
    ensures s == Quote(e, row.pkTable) + "." + Quote(e, row.pkColumn) + " = " +
      Quote(e, row.fkTable) + "." + Quote(e, row.fkColumn)
  {
    var b := Clear(New(e));
    var b := QuoteQualified(b, row.pkTable, row.pkColumn);
    var b := Append(b, " = ");
    var b := QuoteQualified(b, row.fkTable, row.fkColumn);
    b.text
  }

  function MultiFieldLink(name: string): Error {
    SqlError("NOT SUPPORTED: Multi-field link found in table " + name + ".")
  }

  /** `storeLink`: a one-column foreign key becomes a (target, join condition) entry. */
  function LinkOf(e: Engine, name: string, row: LinkRow): (r: Result<(string, string)>)
    ensures r.Fail? <==> row.keySeq != 1
    ensures r.Fail? ==> r.error == MultiFieldLink(name)
    ensures r.Ok? ==> r.value == (LinkTarget(name, row), JoinText(e, row))
  {
    if row.keySeq != 1 then Fail(MultiFieldLink(name))
    else Ok((LinkTarget(name, row), JoinText(e, row)))
  }

  function Names(fields: seq<Field>): (r: seq<string>)
    ensures |r| == |fields| && forall i :: 0 <= i < |fields| ==> r[i] == fields[i].name
  {
    seq(|fields|, i requires 0 <= i < |fields| => fields[i].name)
  }

  function FieldPairs(fields: seq<Field>): (r: seq<(string, Field)>)
    ensures |r| == |fields| && forall i :: 0 <= i < |fields| ==> r[i] == (fields[i].name, fields[i])
  {
    seq(|fields|, i requires 0 <= i < |fields| => (fields[i].name, fields[i]))
  }

  function ColumnNames(columns: seq<ColumnRow>): (r: seq<string>)
    ensures |r| == |columns| && forall i :: 0 <= i < |columns| ==> r[i] == columns[i].columnName
  {
    seq(|columns|, i requires 0 <= i < |columns| => columns[i].columnName)
  }

  /** A descriptor whose field map and sorted name list come from the same fields. */
  function BuildTable(name: string, fields: seq<Field>, key: Option<string>, links: seq<(string, string)>): (t: Table)
    ensures Valid(t) && t.name == name && t.keyName == key
    ensures forall f :: f in t.fields <==> f in Names(fields)
    ensures forall f :: f in t.links <==> f in Firsts(links)
  {
    var pairs := FieldPairs(fields);
    assert Firsts(pairs) == Names(fields);
    var t := Table(name, Assoc(pairs), InsertAll([], Names(fields)), key, Assoc(links));
    assert forall f :: f in t.fields ==> t.fields[f].name == f by {
      forall f | f in t.fields
        ensures t.fields[f].name == f
      {
        var i := LastPutExists(pairs, f);
      }
    }
    t
  }

  /** In a built descriptor a field name maps to the last field of that name. */
  lemma {:induction false} BuildTableField(name: string, fields: seq<Field>, key: Option<string>, links: seq<(string, string)>, i: nat)
    requires i < |fields| && forall j :: i < j < |fields| ==> fields[j].name != fields[i].name
    ensures BuildTable(name, fields, key, links).fields[fields[i].name] == fields[i]
  {
    var pairs := FieldPairs(fields);
    assert LastPut(pairs, i);
    AssocLastPut(pairs, i);
  }

  /** In a built descriptor a link target maps to the last join condition put for it. */
  lemma {:induction false} BuildTableLink(name: string, fields: seq<Field>, key: Option<string>, links: seq<(string, string)>, i: nat)
    requires i < |links| && LastPut(links, i)
    ensures BuildTable(name, fields, key, links).links[links[i].0] == links[i].1
  {
    AssocLastPut(links, i);
  }

  function LoadFields(e: Engine, custom: map<string, DbType>, columns: seq<ColumnRow>): (r: Result<seq<Field>>)
    ensures r.Fail? <==> exists i :: 0 <= i < |columns| && ColumnType(e, custom, columns[i]).Fail?
    ensures r.Ok? ==> Names(r.value) == ColumnNames(columns)
    ensures r.Ok? ==> forall i :: 0 <= i < |columns| ==> ColumnField(e, custom, columns[i]) == Ok(r.value[i])
  {
    MapAll(columns, c => ColumnField(e, custom, c))
  }

  function LoadLinks(e: Engine, name: string, rows: seq<LinkRow>): (r: Result<seq<(string, string)>>)
    ensures r.Fail? <==> exists i :: 0 <= i < |rows| && rows[i].keySeq != 1
    ensures r.Fail? ==> r.error == MultiFieldLink(name)
    ensures r.Ok? ==> |r.value| == |rows| && forall i :: 0 <= i < |rows| ==> LinkOf(e, name, rows[i]) == Ok(r.value[i])
  {
    MapAll(rows, row => LinkOf(e, name, row))
  }

  /**
   * `DbTable.load`.  The custom types are read first; a table with no columns does not
   * exist (and its keys are not read); otherwise every column becomes a field, the key
   * is kept only when the primary key has a single column, and every imported and then
   * exported foreign key is stored as a link.
   */
  function Load(e: Engine, name: string, md: Metadata): (r: Result<Option<Table>>)
    ensures r.Ok? ==> CustomTypes(md.custom).Ok?
    ensures r.Ok? ==> (r.value.None? <==> |md.columns| == 0)
    ensures |md.columns| == 0 && CustomTypes(md.custom).Ok? ==> r == Ok(None)
    ensures r.Ok? && r.value.Some? ==> Valid(r.value.value) && r.value.value.name == name
    ensures r.Ok? && r.value.Some? ==>
      r.value.value.keyName == (if |md.primaryKeys| == 1 then Some(md.primaryKeys[0]) else None)
    ensures r.Ok? && r.value.Some? ==> forall f :: f in r.value.value.fields <==> f in ColumnNames(md.columns)
    ensures |md.columns| > 0 && LoadLinks(e, name, md.imported + md.exported).Fail? ==> r.Fail?
  {
    var custom :- CustomTypes(md.custom);
    var fields :- LoadFields(e, custom, md.columns);
    if |fields| == 0 then Ok(None)
    else
      var key := if |md.primaryKeys| == 1 then Some(md.primaryKeys[0]) else None;
      var links :- LoadLinks(e, name, md.imported + md.exported);
      Ok(Some(BuildTable(name, fields, key, links)))
  }

  /** The steps a successful load went through. */
  lemma {:induction false} LoadSteps(e: Engine, name: string, md: Metadata)
    requires Load(e, name, md).Ok? && |md.columns| > 0
    ensures CustomTypes(md.custom).Ok?
    ensures LoadFields(e, CustomTypes(md.custom).value, md.columns).Ok?
    ensures LoadLinks(e, name, md.imported + md.exported).Ok?
    ensures Load(e, name, md) == Ok(Some(BuildTable(name,
      LoadFields(e, CustomTypes(md.custom).value, md.columns).value,
      if |md.primaryKeys| == 1 then Some(md.primaryKeys[0]) else None,
      LoadLinks(e, name, md.imported + md.exported).value)))
  {
  }

  /**
   * A foreign key spanning more than one column fails a load of a table that exists,
   * whichever of its imported or exported keys it is.
   */
  lemma {:induction false} MultiFieldLinkFails(e: Engine, name: string, md: Metadata, row: LinkRow)
    requires |md.columns| > 0 && row in md.imported + md.exported && row.keySeq != 1
    ensures Load(e, name, md).Fail?
  {
    var rows := md.imported + md.exported;
    var i :| 0 <= i < |rows| && rows[i] == row;
    assert LoadLinks(e, name, rows).Fail?;
  }

  /**
   * The field a loaded table holds under a column name is built from the last column
   * row of that name: its type is the custom override if the field has one, otherwise
   * the engine's reading of the row's type name, and it is nullable exactly when the
   * row says so.
   */
  lemma {:induction false} LoadedField(e: Engine, name: string, md: Metadata, i: nat)
    requires Load(e, name, md).Ok? && i < |md.columns|
    requires forall j :: i < j < |md.columns| ==> md.columns[j].columnName != md.columns[i].columnName
    ensures var c := md.columns[i];
      var t := Load(e, name, md).value.value;
      var custom := CustomTypes(md.custom).value;
      && c.columnName in t.fields
      && (c.columnName in custom ==> t.fields[c.columnName].dbType == custom[c.columnName])
      && (c.columnName !in custom ==> ParseType(e, c.typeName) == Ok(t.fields[c.columnName].dbType))
      && (t.fields[c.columnName].nullable <==> c.nullable == ColumnNullable)
  {
    LoadedFieldFromColumn(e, name, md, i);
  }

  lemma {:induction false} LoadedFieldFromColumn(e: Engine, name: string, md: Metadata, i: nat)
    requires Load(e, name, md).Ok? && i < |md.columns|
    requires forall j :: i < j < |md.columns| ==> md.columns[j].columnName != md.columns[i].columnName
    ensures var c := md.columns[i];
      var t := Load(e, name, md).value.value;
      && c.columnName in t.fields
      && ColumnField(e, CustomTypes(md.custom).value, c) == Ok(t.fields[c.columnName])
  {
    LoadSteps(e, name, md);
    var c := md.columns[i];
    var custom := CustomTypes(md.custom).value;
    var fields := LoadFields(e, custom, md.columns).value;
    var key := if |md.primaryKeys| == 1 then Some(md.primaryKeys[0]) else None;
    var links := LoadLinks(e, name, md.imported + md.exported).value;
    var t := BuildTable(name, fields, key, links);
    assert Load(e, name, md) == Ok(Some(t));
    var names := Names(fields);
    assert names == ColumnNames(md.columns);
    assert names[i] == c.columnName;
    assert forall j :: i < j < |fields| ==> fields[j].name != fields[i].name by {
      forall j | i < j < |fields|
        ensures fields[j].name != fields[i].name
      {
        assert names[j] == md.columns[j].columnName;
      }
    }
    BuildTableField(name, fields, key, links, i);
    assert t.fields[c.columnName] == fields[i];
    assert ColumnField(e, custom, c) == Ok(fields[i]);
  }

  /**
   * Each foreign key is stored under the other table's name with its join condition,
   * and a later key leading to the same table replaces an earlier one.
   */
  lemma {:induction false} LoadedLink(e: Engine, name: string, md: Metadata, i: nat)
    requires Load(e, name, md).Ok? && |md.columns| > 0
    requires i < |md.imported + md.exported|
    requires forall j :: i < j < |md.imported + md.exported| ==>
      LinkTarget(name, (md.imported + md.exported)[j]) != LinkTarget(name, (md.imported + md.exported)[i])
    ensures var row := (md.imported + md.exported)[i];
      var t := Load(e, name, md).value.value;
      && LinkTarget(name, row) in t.links
      && t.links[LinkTarget(name, row)] == Quote(e, row.pkTable) + "." + Quote(e, row.pkColumn) + " = " +
           Quote(e, row.fkTable) + "." + Quote(e, row.fkColumn)
  {
    LoadSteps(e, name, md);
    var rows := md.imported + md.exported;
    var custom := CustomTypes(md.custom).value;
    var fields := LoadFields(e, custom, md.columns).value;
    var key := if |md.primaryKeys| == 1 then Some(md.primaryKeys[0]) else None;
    var links := LoadLinks(e, name, rows).value;
    assert Load(e, name, md) == Ok(Some(BuildTable(name, fields, key, links)));
    assert LinkOf(e, name, rows[i]) == Ok(links[i]);
    assert LastPut(links, i) by {
      forall j | i < j < |links|
        ensures links[j].0 != links[i].0
      {
        assert LinkOf(e, name, rows[j]) == Ok(links[j]);
      }
    }
    BuildTableLink(name, fields, key, links, i);
  }

  // ---------------------------------------------------------------------
  // Accessors
  // ---------------------------------------------------------------------

  function NoField(t: Table, f: string): Error {
    IllegalArgument("No field \"" + f + "\" found in " + t.name)
  }

  /** `getType(f)`: the field's type, or an exception for a name not in the table. */
  function GetType(t: Table, f: string): (r: Result<DbType>)
    ensures r.Ok? <==> f in t.fields
    ensures r.Ok? ==> r.value == t.fields[f].dbType
    ensures r.Fail? ==> r.error == NoField(t, f)
  {
    if f in t.fields then Ok(t.fields[f].dbType) else Fail(NoField(t, f))
  }

  /** `isNullable(f)`: the field's nullability, or an exception for a name not in the table. */
  function IsNullable(t: Table, f: string): (r: Result<bool>)
    ensures r.Ok? <==> f in t.fields
    ensures r.Ok? ==> r.value == t.fields[f].nullable
    ensures r.Fail? ==> r.error == NoField(t, f)
  {
    if f in t.fields then Ok(t.fields[f].nullable) else Fail(NoField(t, f))
  }

  /** `getField(f)`: the field descriptor, if the table has that field. */
  function GetField(t: Table, f: string): (r: Option<Field>)
    ensures r.Some? <==> f in t.fields
    ensures r.Some? ==> r.value == t.fields[f]
  {
    if f in t.fields then Some(t.fields[f]) else None
  }

  /** `getLink(other)`: the join condition to another table, if there is a link. */
  function GetLink(t: Table, other: string): (r: Option<string>)
    ensures r.Some? <==> other in t.links
    ensures r.Some? ==> r.value == t.links[other]
  {
    if other in t.links then Some(t.links[other]) else None
  }

  /** `getFields()`: the field descriptors in field-name order. */
  function GetFields(t: Table): (r: seq<Field>)
    requires Valid(t)
    ensures StrictlySorted(Names(r))
    ensures forall f :: f in t.fields <==> f in Names(r)
    ensures forall i :: 0 <= i < |r| ==> r[i] == t.fields[r[i].name]
    ensures |r| == |t.fields|
  {
    var r := seq(|t.order|, i requires 0 <= i < |t.order| => t.fields[t.order[i]]);
    assert Names(r) == t.order;
    DistinctCount(t.order, t.fields.Keys);
    r
  }

  /** A strictly sorted list has one entry per member of the set it lists. */
  lemma {:induction false} DistinctCount(xs: seq<string>, s: set<string>)
    requires StrictlySorted(xs) && forall x :: x in s <==> x in xs
    ensures |xs| == |s|
    decreases |xs|
  {
    if |xs| > 0 {
      var n := |xs| - 1;
      forall x | x in xs[..n]
        ensures x != xs[n]
      {
        var i :| 0 <= i < n && xs[i] == x;
        LessIrreflexive(xs[n]);
      }
      DistinctCount(xs[..n], s - {xs[n]});
    }
  }

  /**
   * Two tables with the same fields list them in the same order, whatever order the
   * driver reported the columns in.
   */
  lemma {:induction false} FieldOrderCanonical(t: Table, u: Table)
    requires Valid(t) && Valid(u) && t.fields == u.fields
    ensures GetFields(t) == GetFields(u)
  {
    SortedUnique(t.order, u.order);
  }

  /** Every field `getFields` lists has a type and a nullability. */
  lemma {:induction false} ListedFieldsResolve(t: Table, i: nat)
    requires Valid(t) && i < |GetFields(t)|
    ensures GetType(t, GetFields(t)[i].name) == Ok(GetFields(t)[i].dbType)
    ensures IsNullable(t, GetFields(t)[i].name) == Ok(GetFields(t)[i].nullable)
  {
    assert GetFields(t)[i].name in Names(GetFields(t));
  }
}
