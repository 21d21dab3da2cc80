/**
 * `SqlBuffer`: statement text under construction plus the number of `?` parameter
 * marks it holds.  Identifier quoting goes through the engine.
 *
 * The helpers `start`, `startList`, `appendDelim`, `appendMark`, `isEmpty` and
 * `quoteSpec` belong to a revision of the class that is not part of this model;
 * they are given the smallest definitions their callers rely on: `startList(d)`
 * makes the next `appendDelim` emit nothing and later ones emit `d` (", " when no
 * list was started), `appendMark` emits one counted `?`, `start(s)` clears the
 * buffer and appends `s`, and `quoteSpec("t.f")` quotes the table and field parts.
 */
module SqlBuffers {

  import opened Wrappers
  import opened Strings
  import opened Adapters

  datatype SqlBuffer = SqlBuffer(
    engine: Engine,
    text: string,     // the statement so far (`toString`)
    marks: nat,       // parameter marks counted so far (`getMarkCount`)
    delim: string,    // delimiter of the current list
    atListStart: bool // the next `appendDelim` starts the list and emits nothing
  )

  const DefaultDelim: string := ", "

  /** `new SqlBuffer(db)`: empty text, no marks. */
  function New(e: Engine): (b: SqlBuffer)
    ensures b.engine == e && b.text == "" && b.marks == 0 && IsEmpty(b)
    ensures b.atListStart && b.delim == DefaultDelim
  {
    SqlBuffer(e, "", 0, DefaultDelim, true)
  }

  predicate IsEmpty(b: SqlBuffer) {
    |b.text| == 0
  }

  /** `append(s)`: extends the text and leaves the mark count alone. */
  function Append(b: SqlBuffer, s: string): (r: SqlBuffer)
    ensures r.text == b.text + s && r.marks == b.marks
    ensures r.engine == b.engine && r.delim == b.delim && r.atListStart == b.atListStart
  {
    b.(text := b.text + s)
  }

  /** `quote(name)`: the engine-quoted identifier. */
  function QuoteName(b: SqlBuffer, name: string): (r: SqlBuffer)
    ensures r.text == b.text + [OpenQuote(b.engine)] + name + [CloseQuote(b.engine)]
    ensures r.marks == b.marks && r.engine == b.engine && r.delim == b.delim && r.atListStart == b.atListStart
  {
    Associative(b.text + [OpenQuote(b.engine)], name, [CloseQuote(b.engine)]);
    Associative(b.text, [OpenQuote(b.engine)], name + [CloseQuote(b.engine)]);
    Append(b, Quote(b.engine, name))
  }

  /** `quote(table, field)`: the quoted table, a dot, the quoted field. */
  function QuoteQualified(b: SqlBuffer, table: string, field: string): (r: SqlBuffer)
    ensures r.text == b.text + Quote(b.engine, table) + "." + Quote(b.engine, field)
    ensures r.marks == b.marks && r.engine == b.engine && r.delim == b.delim && r.atListStart == b.atListStart
  {
    var r := QuoteName(Append(QuoteName(b, table), "."), field);
    Associative(b.text, Quote(b.engine, table), ".");
    Associative(b.text, Quote(b.engine, table) + ".", Quote(b.engine, field));
    r
  }

  /** The qualified name splits back into its two parts when the table name has no dot. */
  lemma {:induction false} QuoteQualifiedParts(b: SqlBuffer, table: string, field: string)
    requires '.' !in table && OpenQuote(b.engine) != '.' && CloseQuote(b.engine) != '.'
    ensures var q := QuoteQualified(b, table, field).text[|b.text|..];
      Unquote(b.engine, SubstringBefore(q, '.')) == Some(table) &&
      Unquote(b.engine, q[|SubstringBefore(q, '.')| + 1..]) == Some(field)
  {
    var e := b.engine;
    var q := QuoteQualified(b, table, field).text[|b.text|..];
    var qt := Quote(e, table);
    assert q == qt + ['.'] + Quote(e, field);
    assert '.' !in qt by {
      assert qt == [OpenQuote(e)] + table + [CloseQuote(e)];
    }
    assert q[..|qt|] == qt;
    IndexOfFirst(q, '.', |qt|);
    assert q[|qt| + 1..] == Quote(e, field);
    QuoteRoundTrip(e, table, "");
    QuoteRoundTrip(e, field, "");
  }

  /** The text `quoteSpec` writes for a field spec. */
  function SpecText(e: Engine, spec: string): string {
    var t := SubstringBefore(spec, '.');
    if '.' in spec then Quote(e, t) + "." + Quote(e, spec[|t| + 1..]) else Quote(e, spec)
  }

  /** `quoteSpec("t.f")`: quotes the table part and the field part of a field spec. */
  function QuoteSpec(b: SqlBuffer, spec: string): (r: SqlBuffer)
    ensures '.' in spec ==> r == QuoteQualified(b, SubstringBefore(spec, '.'),
      spec[|SubstringBefore(spec, '.')| + 1..])
    ensures '.' !in spec ==> r == QuoteName(b, spec)
    ensures r == Append(b, SpecText(b.engine, spec))
  {
    var t := SubstringBefore(spec, '.');
    if '.' in spec then
      var f := spec[|t| + 1..];
      Associative(b.text, Quote(b.engine, t), ".");
      Associative(b.text, Quote(b.engine, t) + ".", Quote(b.engine, f));
      QuoteQualified(b, t, f)
    else
      Associative(b.text + [OpenQuote(b.engine)], spec, [CloseQuote(b.engine)]);
      Associative(b.text, [OpenQuote(b.engine)], spec + [CloseQuote(b.engine)]);
      QuoteName(b, spec)
  }

  /** `clear()`: empties the text and resets the mark count. */
  function Clear(b: SqlBuffer): (r: SqlBuffer)
    ensures r.text == "" && r.marks == 0 && IsEmpty(r)
    ensures r.engine == b.engine
  {
    b.(text := "", marks := 0)
  }

  /** `start(s)`: a fresh statement beginning with `s`. */
  function Start(b: SqlBuffer, s: string): (r: SqlBuffer)
    ensures r.text == s && r.marks == 0 && r.engine == b.engine
  {
    Append(Clear(b), s)
  }

  /** `startList(d)`: the next delimiter is suppressed, later ones are `d`. */
  function StartList(b: SqlBuffer, d: string): (r: SqlBuffer)
    ensures r.text == b.text && r.marks == b.marks && r.delim == d && r.atListStart && r.engine == b.engine
  {
    b.(delim := d, atListStart := true)
  }

  /** The text `appendDelim` writes: nothing at the head of a list, the delimiter after. */
  function DelimOf(b: SqlBuffer): string {
    if b.atListStart then "" else b.delim
  }

  /** `appendDelim()`: nothing before the first list item, the list delimiter before the others. */
  function AppendDelim(b: SqlBuffer): (r: SqlBuffer)
    ensures r.marks == b.marks && r.delim == b.delim && !r.atListStart && r.engine == b.engine
    ensures b.atListStart ==> r.text == b.text
    ensures !b.atListStart ==> r.text == b.text + b.delim
    ensures r.text == b.text + DelimOf(b)
  {
    if b.atListStart then b.(atListStart := false) else Append(b, b.delim)
  }

  /** A list item made of a quoted field spec and a tail, after the list's delimiter. */
  function AppendSpec(b: SqlBuffer, spec: string, tail: string): (r: SqlBuffer)
    ensures r.text == b.text + DelimOf(b) + SpecText(b.engine, spec) + tail
    ensures r.marks == b.marks && r.engine == b.engine && r.delim == b.delim && !r.atListStart
  {
    var d := AppendDelim(b);
    var r := Append(QuoteSpec(d, spec), tail);
    assert r.text == d.text + SpecText(b.engine, spec) + tail;
    r
  }

  /** `appendMark()`: one counted parameter mark. */
  function AppendMark(b: SqlBuffer): (r: SqlBuffer)
    ensures r.text == b.text + "?" && r.marks == b.marks + 1
    ensures r.delim == b.delim && r.atListStart == b.atListStart && r.engine == b.engine
  {
    b.(text := b.text + "?", marks := b.marks + 1)
  }

  /** The mark list `(?, ?, ..., ?)` with `n` marks. */
  function MarkList(n: nat): (s: string)
    requires n > 0
  {
    "(?" + Repeat3(n - 1) + ")"
  }

  /** `k` copies of `", ?"`. */
  function Repeat3(k: nat): (s: string)
    ensures |s| == 3 * k
  {
    if k == 0 then "" else Repeat3(k - 1) + ", ?"
  }

  lemma {:induction false} Repeat3Count(k: nat)
    ensures Count(Repeat3(k), '?') == k
    ensures Count(Repeat3(k), ',') == k
  {
    if k > 0 {
      assert ", ?" == [','] + [' '] + ['?'];
      forall c: char
        ensures Count(", ?", c) == Count([','], c) + Count([' '], c) + Count(['?'], c)
      {
        CountConcat([','] + [' '], ['?'], c);
        CountConcat([','], [' '], c);
      }
      CountSingle(',', '?');
      CountSingle(' ', '?');
      CountSingle('?', '?');
      CountSingle(',', ',');
      CountSingle(' ', ',');
      CountSingle('?', ',');
      Repeat3Count(k - 1);
      CountConcat(Repeat3(k - 1), ", ?", '?');
      CountConcat(Repeat3(k - 1), ", ?", ',');
    }
  }

  /** A mark list holds exactly `n` marks, three characters per mark, in parentheses. */
  lemma {:induction false} MarkListShape(n: nat)
    requires n > 0
    ensures |MarkList(n)| == 3 * n
    ensures Count(MarkList(n), '?') == n
    ensures Count(MarkList(n), ',') == n - 1
    ensures MarkList(n)[0] == '(' && MarkList(n)[3 * n - 1] == ')'
  {
    Repeat3Count(n - 1);
    CountConcat("(?" + Repeat3(n - 1), ")", '?');
    CountConcat("(?", Repeat3(n - 1), '?');
    CountConcat("(?" + Repeat3(n - 1), ")", ',');
    CountConcat("(?", Repeat3(n - 1), ',');
  }

  /**
   * `addMarkList(count)`: a non-positive count is refused before anything changes;
   * otherwise the mark list is appended and counted.
   */
  method AddMarkList(b: SqlBuffer, count: int) returns (r: Result<SqlBuffer>)
    ensures r.Fail? <==> count <= 0
    ensures r.Fail? ==> r.error == IllegalArgument("Mark count cannot be 0.")
    ensures r.Ok? ==> r.value.text == b.text + MarkList(count) && r.value.marks == b.marks + count
    ensures r.Ok? ==> (r.value.engine == b.engine && r.value.delim == b.delim
      && r.value.atListStart == b.atListStart)
  {
    if count <= 0 {
      return Fail(IllegalArgument("Mark count cannot be 0."));
    }
    var text := b.text + "(?";
    var i := 1;
    while i < count
      invariant 1 <= i <= count
      invariant text == b.text + "(?" + Repeat3(i - 1)
    {
      text := text + ", ?";
      i := i + 1;
    }
    text := text + ")";
    return Ok(b.(text := text, marks := b.marks + count));
  }

  /** The parenthesised, comma-separated field list. */
  function FieldList(names: seq<string>): string
    requires |names| > 0
  {
    "(" + Join(names, ", ") + ")"
  }

  /**
   * `addFields(names)`: the names, unquoted, between parentheses; an empty array is
   * refused. The mark count is not touched.
   */
  method AddFields(b: SqlBuffer, names: seq<string>) returns (r: Result<SqlBuffer>)
    ensures r.Fail? <==> |names| == 0
    ensures r.Fail? ==> r.error == IllegalArgument("Field count cannot be 0.")
    ensures r.Ok? ==> r.value.text == b.text + FieldList(names) && r.value.marks == b.marks
    ensures r.Ok? ==> (r.value.engine == b.engine && r.value.delim == b.delim
      && r.value.atListStart == b.atListStart)
  {
    if |names| == 0 {
      return Fail(IllegalArgument("Field count cannot be 0."));
    }
    var text := b.text + "(" + names[0];
    var i := 1;
    while i < |names|
      invariant 1 <= i <= |names|
      invariant text == b.text + "(" + Join(names[..i], ", ")
    {
      JoinSnoc(names[..i], names[i], ", ");
      assert names[..i + 1] == names[..i] + [names[i]];
      text := text + ", " + names[i];
      i := i + 1;
    }
    assert names[..i] == names;
    text := text + ")";
    return Ok(b.(text := text, marks := b.marks));
  }

  /** A field list of comma-free names has one comma fewer than it has names. */
  lemma {:induction false} FieldListCommas(names: seq<string>)
    requires |names| > 0
    requires forall i :: 0 <= i < |names| ==> ',' !in names[i]
    ensures Count(FieldList(names), ',') == |names| - 1
  {
    JoinCount(names, ", ", ',');
    CountConcat("(" + Join(names, ", "), ")", ',');
    CountConcat("(", Join(names, ", "), ',');
  }

  /** Appends each item behind a delimiter. */
  function AppendItems(b: SqlBuffer, items: seq<string>): (r: SqlBuffer)
    ensures r.marks == b.marks && r.delim == b.delim && r.engine == b.engine
    decreases |items|
  {
    if |items| == 0 then b
    else AppendItems(Append(AppendDelim(b), items[0]), items[1..])
  }

  /**
   * A list started with delimiter `d` and filled item by item reads as the items
   * joined by `d`.
   */
  lemma {:induction false} DelimitedList(b: SqlBuffer, d: string, items: seq<string>)
    requires |items| > 0
    ensures AppendItems(StartList(b, d), items).text == b.text + Join(items, d)
  {
    var s := Append(AppendDelim(StartList(b, d)), items[0]);
    assert s.text == b.text + items[0] && !s.atListStart && s.delim == d;
    ContinuedList(s, items[1..]);
    if |items| > 1 {
      assert items == [items[0]] + items[1..];
    }
  }

  lemma {:induction false} ContinuedList(b: SqlBuffer, items: seq<string>)
    requires !b.atListStart
    ensures |items| > 0 ==> AppendItems(b, items).text == b.text + b.delim + Join(items, b.delim)
    ensures |items| == 0 ==> AppendItems(b, items).text == b.text
    decreases |items|
  {
    if |items| > 0 {
      var s := Append(AppendDelim(b), items[0]);
      ContinuedList(s, items[1..]);
    }
  }
}
