/**
 * String helpers with the semantics of the Java library calls the code makes:
 * `String.contains/startsWith/endsWith/trim`, `StringUtils.split/substringBefore/
 * substringAfterLast`, `String.compareTo`, `Integer.valueOf` and the `%-Ns` /
 * `%0Nd` conversions of `String.format`.  Characters outside ASCII are compared
 * by code point; case mapping and digit tests are ASCII-only.
 */
module Strings {

  import opened Wrappers
  import opened JavaInts

  /** The characters `\s` matches in a Java regular expression. */
  predicate IsSpace(c: char) {
    c == ' ' || c == '\t' || c == '\n' || c == 11 as char || c == 12 as char || c == '\r'
  }

  predicate IsDigit(c: char) {
    '0' <= c <= '9'
  }

  function DigitValue(c: char): (d: nat)
    requires IsDigit(c)
    ensures d < 10
  {
    c as int - '0' as int
  }

  function DigitChar(d: nat): (c: char)
    requires d < 10
    ensures IsDigit(c) && DigitValue(c) == d
  {
    ('0' as int + d) as char
  }

  function UpperChar(c: char): char {
    if 'a' <= c <= 'z' then (c as int - 32) as char else c
  }

  function LowerChar(c: char): char {
    if 'A' <= c <= 'Z' then (c as int + 32) as char else c
  }

  function ToUpper(s: string): (r: string)
    ensures |r| == |s| && forall i :: 0 <= i < |s| ==> r[i] == UpperChar(s[i])
  {
    seq(|s|, i requires 0 <= i < |s| => UpperChar(s[i]))
  }

  function ToLower(s: string): (r: string)
    ensures |r| == |s| && forall i :: 0 <= i < |s| ==> r[i] == LowerChar(s[i])
  {
    seq(|s|, i requires 0 <= i < |s| => LowerChar(s[i]))
  }

  predicate StartsWith(s: string, prefix: string) {
    prefix <= s
  }

  predicate EndsWith(s: string, suffix: string) {
    |suffix| <= |s| && s[|s| - |suffix|..] == suffix
  }

  /** `s.contains(sub)`: `sub` occurs at some position of `s`. */
  predicate Contains(s: string, sub: string) {
    exists i :: 0 <= i <= |s| && sub <= s[i..]
  }

  lemma {:induction false} ContainsAt(s: string, sub: string, i: nat)
    requires i + |sub| <= |s| && s[i..i + |sub|] == sub
    ensures Contains(s, sub)
  {
    assert sub <= s[i..];
  }

  /** `s` cannot contain `sub` when one of the characters of `sub` never occurs in `s`. */
  lemma {:induction false} NotContainsChar(s: string, sub: string, k: nat)
    requires k < |sub| && sub[k] !in s
    ensures !Contains(s, sub)
  {
    forall i | 0 <= i <= |s|
      ensures !(sub <= s[i..])
    {
      if i + k < |s| {
        assert s[i + k] in s;
      }
    }
  }

  /** Number of occurrences of `c` in `s`. */
  function Count(s: string, c: char): nat {
    if |s| == 0 then 0 else Count(s[..|s| - 1], c) + (if s[|s| - 1] == c then 1 else 0)
  }

  lemma {:induction false} CountConcat(a: string, b: string, c: char)
    ensures Count(a + b, c) == Count(a, c) + Count(b, c)
  {
    if |b| > 0 {
      assert (a + b)[..|a + b| - 1] == a + b[..|b| - 1];
      CountConcat(a, b[..|b| - 1], c);
    } else {
      assert a + b == a;
    }
  }

  lemma {:induction false} CountSingle(x: char, c: char)
    ensures Count([x], c) == if x == c then 1 else 0
  {
    assert [x][..0] == [];
  }

  lemma {:induction false} CountAbsent(s: string, c: char)
    requires c !in s
    ensures Count(s, c) == 0
  {
    if |s| > 0 {
      assert s[|s| - 1] in s;
      assert forall x :: x in s[..|s| - 1] ==> x in s;
      CountAbsent(s[..|s| - 1], c);
    }
  }

  /**
   * `String.trim`: drop every leading and trailing character at or below U+0020.
   * The result is the part of `s` between the stripped runs.
   */
  function Trim(s: string): (r: string)
    ensures |r| <= |s|
    ensures |r| > 0 ==> r[0] > ' ' && r[|r| - 1] > ' '
    ensures Leading(s) + |r| <= |s| && r == s[Leading(s)..Leading(s) + |r|]
  {
    var a := Leading(s);
    var b := |s| - Trailing(s[a..]);
    s[a..b]
  }

  /** The number of characters at or below U+0020 that `s` starts with. */
  function Leading(s: string): (k: nat)
    ensures k <= |s| && (k < |s| ==> s[k] > ' ')
    ensures forall i :: 0 <= i < k ==> s[i] <= ' '
  {
    if |s| > 0 && s[0] <= ' ' then 1 + Leading(s[1..]) else 0
  }

  /** The number of characters at or below U+0020 that `s` ends with. */
  function Trailing(s: string): (k: nat)
    ensures k <= |s| && (k < |s| ==> s[|s| - 1 - k] > ' ')
    ensures forall i :: |s| - k <= i < |s| ==> s[i] <= ' '
  {
    if |s| > 0 && s[|s| - 1] <= ' ' then 1 + Trailing(s[..|s| - 1]) else 0
  }

  /** Position of the first `c` in `s`, or `|s|` when there is none. */
  function IndexOf(s: string, c: char): (k: nat)
    ensures k <= |s|
    ensures c !in s[..k]
    ensures k < |s| ==> s[k] == c
  {
    if |s| == 0 || s[0] == c then 0 else 1 + IndexOf(s[1..], c)
  }

  /** `StringUtils.substringBefore(s, c)`: the whole string when `c` does not occur. */
  function SubstringBefore(s: string, c: char): (r: string)
    ensures r <= s && c !in r
    ensures c in s ==> |r| < |s| && s[|r|] == c
    ensures c !in s ==> r == s
  {
    s[..IndexOf(s, c)]
  }

  /** `StringUtils.substringAfterLast(s, c)`: empty when `c` does not occur. */
  function SubstringAfterLast(s: string, c: char): (r: string)
    ensures c !in r
    ensures c !in s ==> r == ""
    ensures c in s ==> |r| < |s| && s[|s| - |r| - 1] == c && r == s[|s| - |r|..]
  {
    if |s| == 0 then ""
    else if s[|s| - 1] == c then ""
    else
      var r := SubstringAfterLast(s[..|s| - 1], c);
      if c in s[..|s| - 1] then r + [s[|s| - 1]] else ""
  }

  /** Length of the leading run of `s` that contains no `sep`. */
  function RunLength(s: string, sep: char): (n: nat)
    ensures n <= |s| && sep !in s[..n]
    ensures n < |s| ==> s[n] == sep
  {
    IndexOf(s, sep)
  }

  /**
   * `StringUtils.split(s, sep)`: the maximal runs of non-separator characters;
   * adjacent separators produce no empty tokens.
   */
  function Split(s: string, sep: char): (parts: seq<string>)
    ensures forall i :: 0 <= i < |parts| ==> |parts[i]| > 0 && sep !in parts[i]
    decreases |s|
  {
    if |s| == 0 then []
    else if s[0] == sep then Split(s[1..], sep)
    else
      var n := RunLength(s, sep);
      [s[..n]] + Split(s[n..], sep)
  }

  lemma {:induction false} SplitTwo(a: string, b: string, sep: char)
    requires |a| > 0 && sep !in a
    requires |b| > 0 && sep !in b
    ensures Split(a + [sep] + b, sep) == [a, b]
  {
    var s := a + [sep] + b;
    assert s[0] != sep;
    assert RunLength(s, sep) == |a| by {
      assert s[..|a|] == a;
      IndexOfFirst(s, sep, |a|);
    }
    assert s[|a|..] == [sep] + b;
    assert ([sep] + b)[1..] == b;
    assert Split(b, sep) == [b] by {
      IndexOfAbsent(b, sep);
      assert b[..|b|] == b;
      assert b[|b|..] == [];
    }
  }

  lemma {:induction false} IndexOfFirst(s: string, c: char, k: nat)
    requires k < |s| && s[k] == c && c !in s[..k]
    ensures IndexOf(s, c) == k
  {
    if k > 0 {
      assert s[0] in s[..k];
      assert s[1..][..k - 1] == s[..k][1..];
      IndexOfFirst(s[1..], c, k - 1);
    }
  }

  lemma {:induction false} IndexOfAbsent(s: string, c: char)
    requires c !in s
    ensures IndexOf(s, c) == |s|
  {
    if |s| > 0 {
      assert s[0] in s;
      assert forall x :: x in s[1..] ==> x in s;
      IndexOfAbsent(s[1..], c);
    }
  }

  /** `String.join(sep, xs)`. */
  function Join(xs: seq<string>, sep: string): string {
    if |xs| == 0 then ""
    else if |xs| == 1 then xs[0]
    else xs[0] + sep + Join(xs[1..], sep)
  }

  /** Joining one more element appends the separator and the element. */
  lemma {:induction false} JoinSnoc(xs: seq<string>, x: string, sep: string)
    requires |xs| > 0
    ensures Join(xs + [x], sep) == Join(xs, sep) + sep + x
  {
    if |xs| > 1 {
      assert (xs + [x])[1..] == xs[1..] + [x];
      JoinSnoc(xs[1..], x, sep);
    } else {
      assert (xs + [x])[1..] == [x];
    }
  }

  /** A separator character occurs once between each pair of elements that lack it. */
  lemma {:induction false} JoinCount(xs: seq<string>, sep: string, c: char)
    requires |xs| > 0 && Count(sep, c) == 1
    requires forall i :: 0 <= i < |xs| ==> c !in xs[i]
    ensures Count(Join(xs, sep), c) == |xs| - 1
  {
    CountAbsent(xs[0], c);
    if |xs| > 1 {
      JoinCount(xs[1..], sep, c);
      CountConcat(xs[0] + sep, Join(xs[1..], sep), c);
      CountConcat(xs[0], sep, c);
    }
  }

  /** `n` copies of `c`. */
  function Repeat(c: char, n: nat): (r: string)
    ensures |r| == n && forall i :: 0 <= i < n ==> r[i] == c
  {
    seq(n, _ => c)
  }

  // ---------------------------------------------------------------------
  // Lexicographic order (`String.compareTo` < 0)
  // ---------------------------------------------------------------------

  /** `a.compareTo(b) < 0`: `a` is a proper prefix of `b` or differs first by a smaller character. */
  predicate Less(a: string, b: string) {
    if |a| == 0 then |b| > 0
    else |b| > 0 && (a[0] < b[0] || (a[0] == b[0] && Less(a[1..], b[1..])))
  }

  lemma {:induction false} LessIrreflexive(a: string)
    ensures !Less(a, a)
  {
    if |a| > 0 {
      LessIrreflexive(a[1..]);
    }
  }

  lemma {:induction false} LessAsymmetric(a: string, b: string)
    ensures Less(a, b) ==> !Less(b, a)
  {
    if |a| > 0 && |b| > 0 && a[0] == b[0] {
      LessAsymmetric(a[1..], b[1..]);
    }
  }

  lemma {:induction false} LessTransitive(a: string, b: string, c: string)
    requires Less(a, b) && Less(b, c)
    ensures Less(a, c)
  {
    if |a| > 0 && a[0] == b[0] && b[0] == c[0] {
      LessTransitive(a[1..], b[1..], c[1..]);
    }
  }

  lemma {:induction false} LessTotal(a: string, b: string)
    requires a != b
    ensures Less(a, b) || Less(b, a)
  {
    if |a| > 0 && |b| > 0 && a[0] == b[0] {
      assert a == [a[0]] + a[1..] && b == [b[0]] + b[1..];
      LessTotal(a[1..], b[1..]);
    }
  }

  /** Comparing two concatenations whose first parts have equal length. */
  lemma {:induction false} LessConcat(a: string, x: string, b: string, y: string)
    requires |a| == |b|
    ensures Less(a + x, b + y) <==> Less(a, b) || (a == b && Less(x, y))
  {
    if |a| > 0 {
      assert (a + x)[0] == a[0] && (b + y)[0] == b[0];
      assert (a + x)[1..] == a[1..] + x && (b + y)[1..] == b[1..] + y;
      LessConcat(a[1..], x, b[1..], y);
      if a[0] == b[0] && a[1..] == b[1..] {
        assert a == b by {
          assert a == [a[0]] + a[1..] && b == [b[0]] + b[1..];
        }
      }
    } else {
      assert a + x == x && b + y == y;
    }
  }

  // ---------------------------------------------------------------------
  // Sorted string sets (the iteration order of a `TreeSet<String>`)
  // ---------------------------------------------------------------------

  predicate StrictlySorted(xs: seq<string>) {
    forall i, j :: 0 <= i < j < |xs| ==> Less(xs[i], xs[j])
  }

  /** `TreeSet.add`: insert `x` in order; no effect when it is already present. */
  function Insert(xs: seq<string>, x: string): (r: seq<string>)
    requires StrictlySorted(xs)
    ensures StrictlySorted(r)
    ensures forall e :: e in r <==> e in xs || e == x
    ensures x in xs ==> r == xs
    ensures x !in xs ==> |r| == |xs| + 1
  {
    if |xs| == 0 then [x]
    else if x == xs[0] then xs
    else if Less(x, xs[0]) then
      assert forall j :: 0 < j < |xs| ==> Less(x, xs[j]) by {
        forall j | 0 < j < |xs| {
          LessTransitive(x, xs[0], xs[j]);
        }
      }
      assert x !in xs by {
        LessIrreflexive(x);
      }
      [x] + xs
    else
      LessTotal(x, xs[0]);
      var t := Insert(xs[1..], x);
      assert forall e :: e in t ==> Less(xs[0], e) by {
        forall e | e in t
          ensures Less(xs[0], e)
        {
          if e != x {
            assert e in xs[1..];
          }
        }
      }
      assert x in xs <==> x in xs[1..];
      [xs[0]] + t
  }

  /** `TreeSet.addAll`: insert each element of `ys` in turn. */
  function InsertAll(xs: seq<string>, ys: seq<string>): (r: seq<string>)
    requires StrictlySorted(xs)
    ensures StrictlySorted(r)
    ensures forall e :: e in r <==> e in xs || e in ys
    decreases |ys|
  {
    if |ys| == 0 then xs else InsertAll(Insert(xs, ys[0]), ys[1..])
  }

  /** The head of a sorted sequence is below every other element. */
  lemma {:induction false} HeadIsLeast(xs: seq<string>)
    requires StrictlySorted(xs) && |xs| > 0
    ensures forall e :: e in xs ==> e == xs[0] || Less(xs[0], e)
  {
  }

  /** A sorted duplicate-free sequence is determined by its elements. */
  lemma {:induction false} SortedUnique(xs: seq<string>, ys: seq<string>)
    requires StrictlySorted(xs) && StrictlySorted(ys)
    requires forall e :: e in xs <==> e in ys
    ensures xs == ys
  {
    assert |xs| > 0 ==> xs[0] in ys;
    assert |ys| > 0 ==> ys[0] in xs;
    assert |xs| > 0 <==> |ys| > 0;
    if |xs| > 0 {
      HeadIsLeast(xs);
      HeadIsLeast(ys);
      LessAsymmetric(xs[0], ys[0]);
      assert xs[0] == ys[0];
      forall e
        ensures e in xs[1..] <==> e in ys[1..]
      {
        LessIrreflexive(e);
        if e in xs[1..] {
          var i :| 1 <= i < |xs| && xs[i] == e;
          assert Less(xs[0], e);
          assert e in ys;
        }
        if e in ys[1..] {
          var j :| 1 <= j < |ys| && ys[j] == e;
          assert Less(ys[0], e);
          assert e in xs;
        }
      }
      SortedUnique(xs[1..], ys[1..]);
      assert xs == [xs[0]] + xs[1..] && ys == [ys[0]] + ys[1..];
    }
  }

  // ---------------------------------------------------------------------
  // Decimal text: `%0Nd`, `%-Ns` and `Integer.valueOf`
  // ---------------------------------------------------------------------

  function Pow10(n: nat): (p: nat)
    ensures p >= 1
  {
    if n == 0 then 1 else 10 * Pow10(n - 1)
  }

  /** Number of decimal digits of `n` (at least one). */
  function NumDigits(n: nat): (k: nat)
    ensures k >= 1
  {
    if n < 10 then 1 else 1 + NumDigits(n / 10)
  }

  /** The last `w` decimal digits of `n`, with leading zeros. */
  function FixedDigits(n: nat, w: nat): (r: string)
    ensures |r| == w && forall i :: 0 <= i < w ==> IsDigit(r[i])
  {
    if w == 0 then "" else FixedDigits(n / 10, w - 1) + [DigitChar(n % 10)]
  }

  function Max(a: int, b: int): int {
    if a < b then b else a
  }

  /** `String.format("%0" + w + "d", n)`: zero-padded to width `w`, never truncated. */
  function ZeroPad(n: int, w: nat): string {
    if n >= 0 then FixedDigits(n, Max(w, NumDigits(n)))
    else "-" + FixedDigits(-n, Max(w - 1, NumDigits(-n)))
  }

  /** `String.format("%-" + w + "s", s)`: left-justified, padded with spaces to width `w`. */
  function PadRight(s: string, w: nat): (r: string)
    ensures |r| == Max(|s|, w) && r[..|s|] == s
    ensures forall i :: |s| <= i < |r| ==> r[i] == ' '
  {
    if |s| >= w then s else s + Repeat(' ', w - |s|)
  }

  /** Value of a string of decimal digits. */
  function DigitsValue(s: string): nat
    requires forall i :: 0 <= i < |s| ==> IsDigit(s[i])
  {
    if |s| == 0 then 0 else DigitsValue(s[..|s| - 1]) * 10 + DigitValue(s[|s| - 1])
  }

  predicate AllDigits(s: string) {
    forall i :: 0 <= i < |s| ==> IsDigit(s[i])
  }

  /**
   * `Integer.valueOf(s)`: an optional sign followed by at least one digit, with the
   * value inside the range of a Java `int`; anything else is a `NumberFormatException`.
   */
  function ParseInt(s: string): (r: Result<int>)
    ensures r.Ok? ==> IntMin <= r.value <= IntMax
  {
    var neg := |s| > 0 && s[0] == '-';
    var body := if |s| > 0 && (s[0] == '-' || s[0] == '+') then s[1..] else s;
    if |body| == 0 || !AllDigits(body) then Fail(NumberFormat(s))
    else
      var d: int := DigitsValue(body);
      var v := if neg then -d else d;
      if v < IntMin || v > IntMax then Fail(NumberFormat(s)) else Ok(v)
  }

  /** Reading back `w` fixed digits of a number below `10^w` gives the number. */
  lemma {:induction false} FixedDigitsValue(n: nat, w: nat)
    requires n < Pow10(w)
    ensures DigitsValue(FixedDigits(n, w)) == n
  {
    if w > 0 {
      var s := FixedDigits(n, w);
      assert s[..|s| - 1] == FixedDigits(n / 10, w - 1);
      FixedDigitsValue(n / 10, w - 1);
    }
  }

  /** Two fixed-width digit strings compare like the numbers they denote. */
  lemma {:induction false} FixedDigitsOrder(n: nat, m: nat, w: nat)
    requires n < Pow10(w) && m < Pow10(w)
    ensures Less(FixedDigits(n, w), FixedDigits(m, w)) <==> n < m
    ensures FixedDigits(n, w) == FixedDigits(m, w) <==> n == m
  {
    if w == 0 {
      LessIrreflexive("");
    } else {
      var a := FixedDigits(n / 10, w - 1);
      var b := FixedDigits(m / 10, w - 1);
      var x := [DigitChar(n % 10)];
      var y := [DigitChar(m % 10)];
      FixedDigitsOrder(n / 10, m / 10, w - 1);
      LessConcat(a, x, b, y);
      assert Less(x, y) <==> n % 10 < m % 10 by {
        assert x[1..] == [] && y[1..] == [];
      }
      if a + x == b + y {
        assert a == (a + x)[..w - 1] && b == (b + y)[..w - 1];
        assert x[0] == (a + x)[w - 1] && y[0] == (b + y)[w - 1];
      }
    }
  }

  lemma {:induction false} NumDigitsBound(n: nat)
    ensures n < Pow10(NumDigits(n))
  {
    if n >= 10 {
      NumDigitsBound(n / 10);
    }
  }

  /** A number below `10^w` zero-padded to width `w` takes exactly `w` digits. */
  lemma {:induction false} ZeroPadFixed(n: nat, w: nat)
    requires n < Pow10(w) && w > 0
    ensures ZeroPad(n, w) == FixedDigits(n, w)
  {
    NumDigitsFits(n, w);
  }

  lemma {:induction false} NumDigitsFits(n: nat, w: nat)
    requires n < Pow10(w)
    ensures NumDigits(n) <= w || w == 0
  {
    if n >= 10 && w > 0 {
      NumDigitsFits(n / 10, w - 1);
    }
  }

  /** `Integer.valueOf` reads back a non-negative `int` written with `w` fixed digits. */
  lemma {:induction false} ParseFixedDigits(n: nat, w: nat)
    requires n < Pow10(w) && n <= IntMax && w > 0
    ensures ParseInt(FixedDigits(n, w)) == Ok(n)
  {
    var s := FixedDigits(n, w);
    assert IsDigit(s[0]);
    FixedDigitsValue(n, w);
  }

  // ---------------------------------------------------------------------
  // Sequence slicing
  // ---------------------------------------------------------------------

  /** Slicing a concatenation inside its first part. */
  lemma {:induction false} SliceConcat<T>(a: seq<T>, b: seq<T>, k: nat)
    requires k <= |a|
    ensures (a + b)[..k] == a[..k] && (a + b)[k..] == a[k..] + b
  {
  }

  /** A concatenation split where its parts meet. */
  lemma {:induction false} DropFront<T>(a: seq<T>, b: seq<T>)
    ensures (a + b)[..|a|] == a && (a + b)[|a|..] == b
  {
  }

  lemma {:induction false} Associative<T>(x: seq<T>, y: seq<T>, z: seq<T>)
    ensures x + (y + z) == x + y + z
  {
  }
}
