/**
 * `DbLocation`'s text encoding of a genome location: a fixed-width string whose
 * plain string order follows the order of (contig, left, strand, length).
 */
module Locations {

  import opened Wrappers
  import opened JavaInts
  import opened Strings

  /** The fields of the external `Location` object that the encoding reads. */
  datatype Loc = Loc(contig: string, left: int, dir: char, length: int)

  const ContigWidth: nat := 31
  const LeftWidth: nat := 10
  const LengthWidth: nat := 9

  /** `Location.create("", 0, 0)`: an empty contig covering position 0 on the plus strand. */
  const DefaultLoc: Loc := Loc("", 0, '+', 1)

  /**
   * `locToString`: `%-31s:%010d%c%09d` of the contig, left, strand and length.
   * Neither number is ever truncated; a wider value widens the string.
   */
  function LocToString(l: Loc): (s: string)
  {
    PadRight(l.contig, ContigWidth) + ":" + ZeroPad(l.left, LeftWidth) + [l.dir]
      + ZeroPad(l.length, LengthWidth)
  }

  /** The locations whose encoding keeps every field at its nominal width. */
  predicate InRange(l: Loc) {
    |l.contig| <= ContigWidth && 0 <= l.left <= IntMax && 0 <= l.length < Pow10(LengthWidth)
  }

  /**
   * `stringToLoc`: split on `:` (runs of `:` count as one and leading ones are
   * dropped), then read the left position from characters 0-9 of the second part,
   * the strand from character 10 and the length from the rest.  A null string, a
   * missing part, a short part or a malformed number raise the corresponding Java
   * exception.
   */
  function StringToLoc(v: Option<string>): (r: Result<Loc>)
    ensures r.Ok? ==> v.Some? && ':' !in r.value.contig && |r.value.contig| > 0
    ensures r.Ok? ==> IntMin <= r.value.left <= IntMax && IntMin <= r.value.length <= IntMax
    ensures v.None? ==> r == Fail(NullPointer)
  {
    match v
    case None => Fail(NullPointer)
    case Some(s) =>
      var parts := Split(s, ':');
      if |parts| < 2 then Fail(IndexOutOfBounds)
      else
        var p := parts[1];
        if |p| < 10 then Fail(IndexOutOfBounds)
        else
          var left :- ParseInt(p[..10]);
          if |p| < 11 then Fail(IndexOutOfBounds)
          else
            var length :- ParseInt(p[11..]);
            Ok(Loc(parts[0], left, p[10], length))
  }

  lemma {:induction false} Pow10Values()
    ensures Pow10(9) == 1_000_000_000 && Pow10(10) == 10_000_000_000
  {
  }

  /** Within range the encoding is 52 characters long: 31 + 1 + 10 + 1 + 9. */
  lemma {:induction false} EncodingWidth(l: Loc)
    requires InRange(l)
    ensures |LocToString(l)| == 52
    ensures LocToString(l)[31] == ':'
  {
    Pow10Values();
    ZeroPadFixed(l.left, LeftWidth);
    ZeroPadFixed(l.length, LengthWidth);
  }

  /**
   * Decoding an encoding gives back the left position, strand and length; the
   * contig comes back as the space-padded field.
   */
  lemma {:induction false} LocRoundTrip(l: Loc)
    requires InRange(l) && ':' !in l.contig && l.dir != ':'
    ensures StringToLoc(Some(LocToString(l))) == Ok(l.(contig := PadRight(l.contig, ContigWidth)))
  {
    SplitEncoding(l);
    TailDecodes(l);
    DecodeParts(LocToString(l), PadRight(l.contig, ContigWidth), Tail(l), l.left, l.dir, l.length);
  }

  /** Without a colon in the contig or as the strand, an encoding splits into the padded contig and the tail. */
  lemma {:induction false} SplitEncoding(l: Loc)
    requires InRange(l) && ':' !in l.contig && l.dir != ':'
    ensures Split(LocToString(l), ':') == [PadRight(l.contig, ContigWidth), Tail(l)]
  {
    var pad := PadRight(l.contig, ContigWidth);
    var p := Tail(l);
    EncodingParts(l);
    TailParts(l);
    PadNoColon(l.contig);
    SplitTwo(pad, p, ':');
  }

  /** The tail's digit fields parse back to the left position and the length. */
  lemma {:induction false} TailDecodes(l: Loc)
    requires InRange(l)
    ensures var p := Tail(l);
      |p| >= 11 && ParseInt(p[..10]) == Ok(l.left) && p[10] == l.dir && ParseInt(p[11..]) == Ok(l.length)
  {
    TailParts(l);
    Pow10Values();
    ParseFixedDigits(l.left, LeftWidth);
    ParseFixedDigits(l.length, LengthWidth);
  }

  /** A string that splits into a contig and a well-formed tail decodes to those fields. */
  lemma {:induction false} DecodeParts(s: string, contig: string, p: string, left: int, dir: char, length: int)
    requires Split(s, ':') == [contig, p] && |p| >= 11
    requires ParseInt(p[..10]) == Ok(left) && p[10] == dir && ParseInt(p[11..]) == Ok(length)
    ensures StringToLoc(Some(s)) == Ok(Loc(contig, left, dir, length))
  {
  }

  /** Padding adds only spaces, so a contig without a colon stays without one. */
  lemma {:induction false} PadNoColon(contig: string)
    requires ':' !in contig
    ensures ':' !in PadRight(contig, ContigWidth)
  {
    var pad := PadRight(contig, ContigWidth);
    forall i | 0 <= i < |pad|
      ensures pad[i] != ':'
    {
      if i < |contig| {
        assert pad[i] == pad[..|contig|][i] == contig[i];
      }
    }
  }

  /** A tail is ten digits, the strand and nine digits, so it has no colon unless the strand is one. */
  lemma {:induction false} TailParts(l: Loc)
    requires InRange(l)
    ensures var p := Tail(l);
      && |p| == 20
      && p[..10] == FixedDigits(l.left, LeftWidth)
      && p[10] == l.dir
      && p[11..] == FixedDigits(l.length, LengthWidth)
      && (l.dir != ':' ==> ':' !in p)
  {
    Pow10Values();
    var a := FixedDigits(l.left, LeftWidth);
    var b := FixedDigits(l.length, LengthWidth);
    var p := Tail(l);
    assert forall i :: 0 <= i < |a| ==> IsDigit(a[i]);
    assert forall i :: 0 <= i < |b| ==> IsDigit(b[i]);
    assert forall i :: 0 <= i < |p| ==> p[i] == (if i < 10 then a[i] else if i == 10 then l.dir else b[i - 11]);
  }

  /** The positional order the encoding is meant to reproduce. */
  predicate LocLess(a: Loc, b: Loc) {
    Less(a.contig, b.contig) ||
    (a.contig == b.contig && (a.left < b.left ||
      (a.left == b.left && (a.dir < b.dir ||
        (a.dir == b.dir && a.length < b.length)))))
  }

  /** Contigs made of printable characters above the space, as the padding requires. */
  predicate Printable(s: string) {
    forall i :: 0 <= i < |s| ==> s[i] > ' '
  }

  /**
   * Padding with spaces keeps the order of strings whose characters all sort above
   * the space.
   */
  lemma {:induction false} PadOrder(a: string, b: string, w: nat)
    requires |a| <= w && |b| <= w && Printable(a) && Printable(b)
    ensures Less(PadRight(a, w), PadRight(b, w)) <==> Less(a, b)
    ensures PadRight(a, w) == PadRight(b, w) <==> a == b
  {
    var pa := PadRight(a, w);
    var pb := PadRight(b, w);
    if |a| > 0 && |b| > 0 {
      assert pa[0] == a[0] && pb[0] == b[0];
      assert pa[1..] == PadRight(a[1..], w - 1);
      assert pb[1..] == PadRight(b[1..], w - 1);
      PadOrder(a[1..], b[1..], w - 1);
      if a[0] == b[0] && a[1..] == b[1..] {
        assert a == [a[0]] + a[1..] && b == [b[0]] + b[1..];
      }
      if pa == pb {
        assert pa[1..] == pb[1..];
      }
    } else if |a| > 0 {
      assert pb[0] == ' ' && pa[0] == a[0];
    } else if |b| > 0 {
      assert pa[0] == ' ' && pb[0] == b[0];
    } else {
      LessIrreflexive(pa);
    }
  }

  /** Two single characters compare like the characters. */
  lemma {:induction false} LessChar(x: char, y: char)
    ensures Less([x], [y]) <==> x < y
  {
    assert [x][1..] == [] && [y][1..] == [];
    LessIrreflexive([]);
  }

  /** The part of an encoding after the colon: left position, strand, length. */
  function Tail(l: Loc): string
    requires InRange(l)
  {
    FixedDigits(l.left, LeftWidth) + ([l.dir] + FixedDigits(l.length, LengthWidth))
  }

  /** Within range, an encoding is the padded contig, the colon and the fixed-width tail. */
  lemma {:induction false} EncodingParts(l: Loc)
    requires InRange(l)
    ensures LocToString(l) == PadRight(l.contig, ContigWidth) + ([':'] + Tail(l))
    ensures LocToString(l) == PadRight(l.contig, ContigWidth) + [':'] + Tail(l)
    ensures |PadRight(l.contig, ContigWidth)| == ContigWidth
  {
    Pow10Values();
    ZeroPadFixed(l.left, LeftWidth);
    ZeroPadFixed(l.length, LengthWidth);
    var p := PadRight(l.contig, ContigWidth);
    var a := FixedDigits(l.left, LeftWidth);
    var d := [l.dir] + FixedDigits(l.length, LengthWidth);
    assert ":" == [':'];
    Associative(p + [':'] + a, [l.dir], FixedDigits(l.length, LengthWidth));
    Associative(p + [':'], a, d);
    Associative(p, [':'], a + d);
  }

  /** The strand and length part of two tails compare like the strand, then the length. */
  lemma {:induction false} StrandOrder(a: Loc, b: Loc)
    requires InRange(a) && InRange(b)
    ensures var ra := [a.dir] + FixedDigits(a.length, LengthWidth);
      var rb := [b.dir] + FixedDigits(b.length, LengthWidth);
      && |ra| == |rb| == 1 + LengthWidth
      && (Less(ra, rb) <==> a.dir < b.dir || (a.dir == b.dir && a.length < b.length))
      && (ra == rb <==> a.dir == b.dir && a.length == b.length)
  {
    Pow10Values();
    ZeroPadFixed(a.length, LengthWidth);
    ZeroPadFixed(b.length, LengthWidth);
    var na := FixedDigits(a.length, LengthWidth);
    var nb := FixedDigits(b.length, LengthWidth);
    var ra := [a.dir] + na;
    var rb := [b.dir] + nb;
    LessConcat([a.dir], na, [b.dir], nb);
    LessChar(a.dir, b.dir);
    FixedDigitsOrder(a.length, b.length, LengthWidth);
    if ra == rb {
      assert ra[0] == rb[0] && ra[1..] == na && rb[1..] == nb;
    }
  }

  /** Two tails compare like the left position, then the strand, then the length. */
  lemma {:induction false} TailOrder(a: Loc, b: Loc)
    requires InRange(a) && InRange(b)
    ensures Less(Tail(a), Tail(b)) <==>
      (a.left < b.left || (a.left == b.left && (a.dir < b.dir || (a.dir == b.dir && a.length < b.length))))
    ensures Tail(a) == Tail(b) <==> a.left == b.left && a.dir == b.dir && a.length == b.length
  {
    Pow10Values();
    ZeroPadFixed(a.left, LeftWidth);
    ZeroPadFixed(b.left, LeftWidth);
    StrandOrder(a, b);
    var la := FixedDigits(a.left, LeftWidth);
    var lb := FixedDigits(b.left, LeftWidth);
    var ra := [a.dir] + FixedDigits(a.length, LengthWidth);
    var rb := [b.dir] + FixedDigits(b.length, LengthWidth);
    LessConcat(la, ra, lb, rb);
    FixedDigitsOrder(a.left, b.left, LeftWidth);
    if Tail(a) == Tail(b) {
      assert Tail(a)[..10] == la && Tail(b)[..10] == lb && Tail(a)[10..] == ra && Tail(b)[10..] == rb;
    }
  }

  /**
   * Within range, and for printable contigs, plain string order of encodings is the
   * positional order of the locations, and equal encodings mean equal locations.
   */
  lemma {:induction false} LocOrder(a: Loc, b: Loc)
    requires InRange(a) && InRange(b) && Printable(a.contig) && Printable(b.contig)
    ensures Less(LocToString(a), LocToString(b)) <==> LocLess(a, b)
    ensures LocToString(a) == LocToString(b) <==> a == b
  {
    EncodingParts(a);
    EncodingParts(b);
    TailOrder(a, b);
    PadOrder(a.contig, b.contig, ContigWidth);
    SeparatorOrder(Tail(a), Tail(b));
    PartsOrder(PadRight(a.contig, ContigWidth), [':'] + Tail(a), PadRight(b.contig, ContigWidth), [':'] + Tail(b));
  }

  /** Behind the same separator, two tails compare and match as they do alone. */
  lemma {:induction false} SeparatorOrder(qa: string, qb: string)
    ensures Less([':'] + qa, [':'] + qb) <==> Less(qa, qb)
    ensures [':'] + qa == [':'] + qb <==> qa == qb
  {
    LessConcat([':'], qa, [':'], qb);
    LessIrreflexive([':']);
    if [':'] + qa == [':'] + qb {
      assert ([':'] + qa)[1..] == qa && ([':'] + qb)[1..] == qb;
    }
  }

  /** Two strings made of equally long heads and some tails compare head first. */
  lemma {:induction false} PartsOrder(pa: string, ra: string, pb: string, rb: string)
    requires |pa| == |pb|
    ensures Less(pa + ra, pb + rb) <==> Less(pa, pb) || (pa == pb && Less(ra, rb))
    ensures pa + ra == pb + rb <==> pa == pb && ra == rb
  {
    LessConcat(pa, ra, pb, rb);
    if pa + ra == pb + rb {
      assert (pa + ra)[..|pa|] == pa && (pb + rb)[..|pb|] == pb;
      assert (pa + ra)[|pa|..] == ra && (pb + rb)[|pb|..] == rb;
    }
  }
}
