/**
 * The table-path mini-language of `DbQuery`.  A path names tables separated by
 * delimiters: whitespace joins the next table with an inner join, `<` with a left
 * outer join, and `&` joins nothing but makes the next table the anchor of the
 * join after it.  A table name followed by digits is an alias of the table whose
 * name is the part before the digits.
 *
 * Tokenising follows the two regular expressions of the source and the scanning
 * behaviour of `Matcher.find`: the first table is the first maximal run of
 * characters other than whitespace, `<` and `>`; each later table is the next
 * match of a delimiter followed by a run of characters other than whitespace,
 * `<` and `&`, found by scanning forward (text that matches nothing is skipped).
 */
module Paths {

  import opened Wrappers
  import opened Strings

  /** How a table enters the FROM clause. */
  datatype Join =
    | Inner      // whitespace delimiter: " INNER JOIN"
    | LeftOuter  // "<" delimiter: " LEFT OUTER JOIN"
    | Detached   // "&" delimiter: no join, only a new anchor

  /** A table spec of the path and the delimiter before it. */
  datatype Step = Step(join: Join, spec: string)

  datatype Path = Path(first: string, steps: seq<Step>)

  /** The characters that end the first table spec: `[^\s<>]` fails on them. */
  predicate FirstStop(c: char) {
    IsSpace(c) || c == '<' || c == '>'
  }

  /** The characters that end a joined table spec: `[^\s<&]` fails on them. */
  predicate NameStop(c: char) {
    IsSpace(c) || c == '<' || c == '&'
  }

  predicate FirstName(s: string) {
    |s| > 0 && forall i :: 0 <= i < |s| ==> !FirstStop(s[i])
  }

  predicate JoinedName(s: string) {
    |s| > 0 && forall i :: 0 <= i < |s| ==> !NameStop(s[i])
  }

  /** Length of the leading whitespace of `s` (a greedy `\s*`). */
  function Blanks(s: string): (n: nat)
    ensures n <= |s|
    ensures forall i :: 0 <= i < n ==> IsSpace(s[i])
    ensures n < |s| ==> !IsSpace(s[n])
  {
    if |s| > 0 && IsSpace(s[0]) then 1 + Blanks(s[1..]) else 0
  }

  /** Length of the leading run of `s` without a `NameStop` character (a greedy `[^\s<&]*`). */
  function NameLength(s: string): (n: nat)
    ensures n <= |s|
    ensures forall i :: 0 <= i < n ==> !NameStop(s[i])
    ensures n < |s| ==> NameStop(s[n])
  {
    if |s| > 0 && !NameStop(s[0]) then 1 + NameLength(s[1..]) else 0
  }

  /** The name run starting at `w`: a non-empty name that ends at a stop or the end of `s`. */
  lemma {:induction false} NameAt(s: string, w: nat)
    requires w < |s| && !NameStop(s[w])
    ensures var k := NameLength(s[w..]);
      var n := w + k;
      && 0 < k && n <= |s| && |s[w..n]| == k && n - k == w
      && JoinedName(s[w..n])
      && (n < |s| ==> NameStop(s[n]))
  {
    var k := NameLength(s[w..]);
    assert s[w..][0] == s[w];
    assert forall i :: 0 <= i < k ==> s[w..w + k][i] == s[w..][i];
    assert w + k < |s| ==> s[w + k] == s[w..][k];
  }

  /** The step whose spec is the name run starting at `w`, and the position after it. */
  function NameFrom(s: string, w: nat, j: Join): (r: (Step, nat))
    requires w < |s| && !NameStop(s[w])
    ensures var (st, n) := r;
      && |st.spec| <= n <= |s| && JoinedName(st.spec) && st.spec == s[n - |st.spec|..n]
      && (n < |s| ==> NameStop(s[n]))
  {
    var k := NameLength(s[w..]);
    NameAt(s, w);
    (Step(j, s[w..w + k]), w + k)
  }

  /** Length of the leading run of `s` without a `FirstStop` character. */
  function FirstLength(s: string): (n: nat)
    ensures n <= |s|
    ensures forall i :: 0 <= i < n ==> !FirstStop(s[i])
    ensures n < |s| ==> FirstStop(s[n])
  {
    if |s| > 0 && !FirstStop(s[0]) then 1 + FirstLength(s[1..]) else 0
  }

  /** Length of the leading run of `s` made of `FirstStop` characters. */
  function Skip(s: string): (n: nat)
    ensures n <= |s|
    ensures forall i :: 0 <= i < n ==> FirstStop(s[i])
    ensures n < |s| ==> !FirstStop(s[n])
  {
    if |s| > 0 && FirstStop(s[0]) then 1 + Skip(s[1..]) else 0
  }

  /**
   * A match of `(\s+|\s*[<&]\s*)([^\s<&]+)` that starts at the beginning of `s`: the
   * step it denotes and the number of characters it covers.  The first alternative
   * wins when it matches; greedy runs never need to give characters back, because
   * what follows each of them must be a character the run itself refuses.
   */
  function JoinedAt(s: string): (r: Option<(Step, nat)>)
    ensures r.Some? ==> (
      var (st, n) := r.value;
      && |st.spec| <= n <= |s| && JoinedName(st.spec) && st.spec == s[n - |st.spec|..n]
      && (n < |s| ==> NameStop(s[n])))
  {
    var w := Blanks(s);
    if 0 < w < |s| && !NameStop(s[w]) then
      Some(NameFrom(s, w, Inner))
    else if w < |s| && (s[w] == '<' || s[w] == '&') then
      var q := w + 1 + Blanks(s[w + 1..]);
      if q < |s| && !NameStop(s[q]) then
        Some(NameFrom(s, q, if s[w] == '<' then LeftOuter else Detached))
      else None
    else None
  }

  /** Successive `find` calls: each match, scanning forward past text that matches nothing. */
  function Joined(s: string): (steps: seq<Step>)
    ensures forall i :: 0 <= i < |steps| ==> JoinedName(steps[i].spec)
    decreases |s|
  {
    if |s| == 0 then []
    else
      match JoinedAt(s)
      case Some((st, n)) => [st] + Joined(s[n..])
      case None => Joined(s[1..])
  }

  function NoTables(path: string): Error {
    SqlError("No tables found in path \"" + path + "\".")
  }

  /**
   * `parsePath`, as far as the text goes: the first table spec and the delimited
   * specs after it.  A path with no character that can start a table name fails.
   */
  function ParsePath(path: string): (r: Result<Path>)
    ensures r.Fail? <==> forall i :: 0 <= i < |path| ==> FirstStop(path[i])
    ensures r.Fail? ==> r.error == NoTables(path)
    ensures r.Ok? ==> FirstName(r.value.first) && Contains(path, r.value.first)
    ensures r.Ok? ==> forall i :: 0 <= i < |r.value.steps| ==> JoinedName(r.value.steps[i].spec)
  {
    var a := Skip(path);
    if a == |path| then Fail(NoTables(path))
    else
      var k := FirstLength(path[a..]);
      assert path[a..][..k] == path[a..a + k];
      assert path[a..a + k] == path[a..][0..k];
      ContainsAt(path, path[a..a + k], a);
      Ok(Path(path[a..a + k], Joined(path[a + k..])))
  }

  // ---------------------------------------------------------------------
  // Writing a path
  // ---------------------------------------------------------------------

  /** A delimiter text that reads back as each kind of join. */
  function DelimText(j: Join): (d: string)
    ensures |d| > 0 && d[0] == ' '
  {
    match j
    case Inner => " "
    case LeftOuter => " < "
    case Detached => " & "
  }

  function RenderSteps(steps: seq<Step>): string
    decreases |steps|
  {
    if |steps| == 0 then "" else DelimText(steps[0].join) + steps[0].spec + RenderSteps(steps[1..])
  }

  /** The path text of a first spec and its steps. */
  function Render(p: Path): string {
    p.first + RenderSteps(p.steps)
  }

  predicate WellFormed(p: Path) {
    FirstName(p.first) && forall i :: 0 <= i < |p.steps| ==> JoinedName(p.steps[i].spec)
  }

  lemma {:induction false} NameLengthOf(a: string, b: string)
    requires forall i :: 0 <= i < |a| ==> !NameStop(a[i])
    requires |b| == 0 || NameStop(b[0])
    ensures NameLength(a + b) == |a|
    decreases |a|
  {
    if |a| > 0 {
      assert (a + b)[1..] == a[1..] + b;
      NameLengthOf(a[1..], b);
    } else {
      assert a + b == b;
    }
  }

  lemma {:induction false} FirstLengthOf(a: string, b: string)
    requires forall i :: 0 <= i < |a| ==> !FirstStop(a[i])
    requires |b| == 0 || FirstStop(b[0])
    ensures FirstLength(a + b) == |a|
    decreases |a|
  {
    if |a| > 0 {
      assert (a + b)[1..] == a[1..] + b;
      FirstLengthOf(a[1..], b);
    } else {
      assert a + b == b;
    }
  }

  /** A written step is matched right where it starts, and the match covers exactly it. */
  lemma {:induction false} JoinedAtStep(st: Step, rest: string)
    requires JoinedName(st.spec)
    requires |rest| == 0 || rest[0] == ' '
    ensures var d := DelimText(st.join);
      JoinedAt(d + st.spec + rest) == Some((st, |d| + |st.spec|))
  {
    if st.join == Inner {
      InnerStepAt(st, rest);
    } else {
      SymbolStepAt(if st.join == LeftOuter then '<' else '&', st, rest);
    }
  }

  /** A name after a single blank is an inner join. */
  lemma {:induction false} InnerStepAt(st: Step, rest: string)
    requires st.join == Inner && JoinedName(st.spec) && (|rest| == 0 || rest[0] == ' ')
    ensures var d := DelimText(st.join);
      JoinedAt(d + st.spec + rest) == Some((st, |d| + |st.spec|))
  {
    var spec := st.spec;
    var t := spec + rest;
    var s := " " + spec + rest;
    assert s[1..] == t;
    assert Blanks(t) == 0;
    assert Blanks(s) == 1;
    NameLengthOf(spec, rest);
    assert s[1..1 + |spec|] == spec;
  }

  /** A name after a blank, a join symbol and a blank is a join of that symbol's kind. */
  lemma {:induction false} SymbolStepAt(c: char, st: Step, rest: string)
    requires (c == '<' && st.join == LeftOuter) || (c == '&' && st.join == Detached)
    requires JoinedName(st.spec) && (|rest| == 0 || rest[0] == ' ')
    ensures var d := DelimText(st.join);
      JoinedAt(d + st.spec + rest) == Some((st, |d| + |st.spec|))
  {
    assert DelimText(st.join) == [' ', c, ' '];
    SymbolScan(c, st.spec, rest);
  }

  /** How the match scans a blank, a join symbol, a blank and a name. */
  lemma {:induction false} SymbolScan(c: char, spec: string, rest: string)
    requires c == '<' || c == '&'
    requires JoinedName(spec) && (|rest| == 0 || rest[0] == ' ')
    ensures var s := [' ', c, ' '] + spec + rest;
      && Blanks(s) == 1 && s[1] == c && 1 + 1 + Blanks(s[1 + 1..]) == 3
      && 3 < |s| && !NameStop(s[3])
      && NameLength(s[3..]) == |spec| && s[3..3 + |spec|] == spec
  {
    var t := spec + rest;
    var s := [' ', c, ' '] + spec + rest;
    assert s[1..] == [c, ' '] + t;
    assert s[2..] == [' '] + t;
    assert s[3..] == t;
    assert Blanks(t) == 0;
    assert Blanks(s[2..]) == 1;
    NameLengthOf(spec, rest);
    assert s[3..3 + |spec|] == spec;
  }

  lemma {:induction false} JoinedRender(steps: seq<Step>)
    requires forall i :: 0 <= i < |steps| ==> JoinedName(steps[i].spec)
    ensures Joined(RenderSteps(steps)) == steps
    decreases |steps|
  {
    if |steps| > 0 {
      var rest := RenderSteps(steps[1..]);
      RenderFront(steps);
      JoinedAtStep(steps[0], rest);
      JoinedRender(steps[1..]);
      assert steps == [steps[0]] + steps[1..];
    }
  }

  /** The text of the first step, and what follows it. */
  lemma {:induction false} RenderFront(steps: seq<Step>)
    requires |steps| > 0
    ensures var d := DelimText(steps[0].join);
      var rest := RenderSteps(steps[1..]);
      && RenderSteps(steps) == d + steps[0].spec + rest
      && RenderSteps(steps)[|d| + |steps[0].spec|..] == rest
      && (|rest| == 0 || rest[0] == ' ')
  {
    var d := DelimText(steps[0].join);
    RenderBlank(steps[1..]);
    DropFront(d + steps[0].spec, RenderSteps(steps[1..]));
  }

  /** Written steps start with their delimiter's blank. */
  lemma {:induction false} RenderBlank(steps: seq<Step>)
    ensures |RenderSteps(steps)| == 0 || RenderSteps(steps)[0] == ' '
  {
    if |steps| > 0 {
      var d := DelimText(steps[0].join);
      assert RenderSteps(steps) == d + (steps[0].spec + RenderSteps(steps[1..]));
    }
  }

  /** Tokenising a written path gives back its specs and delimiters. */
  lemma {:induction false} PathRoundTrip(p: Path)
    requires WellFormed(p)
    ensures ParsePath(Render(p)) == Ok(p)
  {
    var s := Render(p);
    var rest := RenderSteps(p.steps);
    assert |rest| == 0 || rest[0] == ' ' by {
      if |p.steps| > 0 {
        assert rest == DelimText(p.steps[0].join) + p.steps[0].spec + RenderSteps(p.steps[1..]);
      }
    }
    assert s[0] == p.first[0];
    assert Skip(s) == 0;
    assert s[0..] == s;
    FirstLengthOf(p.first, rest);
    assert s[..|p.first|] == p.first;
    assert s[|p.first|..] == rest;
    JoinedRender(p.steps);
  }

  // ---------------------------------------------------------------------
  // Aliases
  // ---------------------------------------------------------------------

  /** `findTable`'s real name: the spec without all of its trailing digits. */
  function RealName(spec: string): (r: string)
    ensures r <= spec
    ensures forall i :: |r| <= i < |spec| ==> IsDigit(spec[i])
    ensures |r| > 0 ==> !IsDigit(r[|r| - 1])
    decreases |spec|
  {
    if |spec| > 0 && IsDigit(spec[|spec| - 1]) then RealName(spec[..|spec| - 1]) else spec
  }

  /** A table name that does not end in a digit, numbered, is an alias of that table. */
  lemma {:induction false} AliasOf(name: string, number: string)
    requires |name| > 0 ==> !IsDigit(name[|name| - 1])
    requires forall i :: 0 <= i < |number| ==> IsDigit(number[i])
    ensures RealName(name + number) == name
    decreases |number|
  {
    var s := name + number;
    if |number| > 0 {
      assert s[..|s| - 1] == name + number[..|number| - 1];
      AliasOf(name, number[..|number| - 1]);
    } else {
      assert s == name;
    }
  }

  /** A spec made only of digits has no real name. */
  lemma {:induction false} NumericSpec(spec: string)
    ensures RealName(spec) == "" <==> forall i :: 0 <= i < |spec| ==> IsDigit(spec[i])
  {
  }
}
