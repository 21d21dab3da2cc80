/**
 * `DoubleInputStream`: a byte stream over an array of doubles, used to write the
 * array as a blob.  It keeps an eight-byte buffer holding the last element loaded,
 * the index of the next element to load, and the position of the next byte in the
 * buffer.  `read` loads the next element when the buffer is used up and returns -1
 * once every element has been read.
 *
 * Two versions of the load and of the returned byte are modelled side by side.
 * `AsWritten` follows the code: it loads the element's INDEX converted to a double,
 * and it returns the buffer byte as Java's signed `byte` widened to `int`.
 * `Intended` loads the element itself and returns the byte unsigned.  That is what
 * `InputStream.read` promises, and it is what `DbDoubleArray`'s decoder expects.
 */
module Streams {

  import opened JavaInts
  import opened DoubleArrays
  import Strings

  datatype Version = AsWritten | Intended

  datatype Stream = Stream(
    elements: seq<Bits64>,  // the array, as bit patterns
    arrayIdx: nat,        // index of the next element to load
    current: seq<Byte>,   // the buffer: the bytes of the last element loaded
    currIdx: nat)         // position of the next byte in the buffer

  predicate Valid(s: Stream) {
    && s.arrayIdx <= |s.elements| <= IntMax
    && s.currIdx <= 8 == |s.current|
    && (s.arrayIdx == 0 ==> s.currIdx == 8)
  }

  /** The bytes handed out so far. */
  function Consumed(s: Stream): int {
    8 * s.arrayIdx + s.currIdx - 8
  }

  /** Every element has been loaded and every byte of the last one handed out. */
  predicate AtEnd(s: Stream) {
    s.currIdx == 8 && s.arrayIdx == |s.elements|
  }

  /** The constructor: a zeroed buffer marked used up, so the first read loads element 0. */
  function Open(a: seq<Bits64>): (s: Stream)
    requires |a| <= IntMax
    ensures Valid(s) && s.elements == a && Consumed(s) == 0
    ensures Coherent(s, AsWritten) && Coherent(s, Intended)
  {
    Stream(a, 0, [0, 0, 0, 0, 0, 0, 0, 0], 8)
  }

  // ---------------------------------------------------------------------
  // The double of an index
  // ---------------------------------------------------------------------

  function Pow2(n: nat): nat {
    if n == 0 then 1 else 2 * Pow2(n - 1)
  }

  lemma {:induction false} Pow2Add(a: nat, b: nat)
    ensures Pow2(a) * Pow2(b) == Pow2(a + b)
    decreases a
  {
    if a > 0 {
      Pow2Add(a - 1, b);
      assert Pow2(a) * Pow2(b) == 2 * (Pow2(a - 1) * Pow2(b));
    }
  }

  lemma {:induction false} Pow2Monotone(a: nat, b: nat)
    requires a <= b
    ensures Pow2(a) <= Pow2(b)
    decreases b
  {
    if a < b {
      Pow2Monotone(a, b - 1);
    }
  }

  lemma {:induction false} Pow2Values()
    ensures Pow2(16) == 0x1_0000
    ensures Pow2(36) == 0x10_0000_0000
    ensures Pow2(40) == 0x100_0000_0000
    ensures Pow2(52) == 0x10_0000_0000_0000
  {
    assert Pow2(4) == 16 by {
      assert Pow2(1) == 2 && Pow2(2) == 4 && Pow2(3) == 8;
    }
    Pow2Add(4, 4);
    Pow2Add(8, 8);
    Pow2Add(16, 16);
    Pow2Add(16, 4);
    Pow2Add(32, 4);
    Pow2Add(36, 4);
    Pow2Add(32, 20);
  }

  /**
   * Normalisation of a nonzero integer into a double: `m` is doubled until bit 52 is
   * its highest set bit, and the exponent `e` goes down by one each time.
   */
  function Normalize(m: nat, e: nat): (r: (nat, nat))
    ensures r.1 <= e
    decreases e, m
  {
    if m >= 0x10_0000_0000_0000 || e == 0 then (m, e) else Normalize(2 * m, e - 1)
  }

  /** When the shifts suffice, normalisation ends with bit 52 as the top bit, having multiplied by a power of two. */
  lemma {:induction false} NormalizeValue(m: nat, e: nat)
    requires 1 <= m < 0x20_0000_0000_0000 && m * Pow2(e) >= 0x10_0000_0000_0000
    ensures var r := Normalize(m, e);
      && r.0 == m * Pow2(e - r.1)
      && 0x10_0000_0000_0000 <= r.0 < 0x20_0000_0000_0000
    decreases e
  {
    if m < 0x10_0000_0000_0000 && e > 0 {
      assert m * Pow2(e) == 2 * m * Pow2(e - 1);
      NormalizeValue(2 * m, e - 1);
      var r := Normalize(m, e);
      assert Pow2(e - r.1) == 2 * Pow2(e - 1 - r.1);
    }
  }

  /**
   * `putDouble(0, arrayIdx)`: the IEEE 754 double-precision pattern of the `int`
   * index, which a double holds exactly.  Zero is all zero bits.  Otherwise the index
   * is normalised from exponent 52, the biased exponent is 1023 plus what is left of
   * it, and the fraction is the normalised value without its leading bit.
   */
  function IndexBits(k: nat): (b: Bits64)
    requires k <= IntMax
  {
    if k == 0 then 0
    else
      var r := Normalize(k, 52);
      (1023 + r.1) * 0x10_0000_0000_0000 + r.0 % 0x10_0000_0000_0000
  }

  /**
   * The pattern of an index denotes that index: the exponent is a normal one, and
   * (2^52 + fraction) * 2^(exponent - 1075) is the index.
   */
  lemma {:induction false} IndexBitsValue(k: nat)
    requires k <= IntMax
    ensures k == 0 ==> IndexBits(k) == 0
    ensures k > 0 ==> (
      var exp := IndexBits(k) / 0x10_0000_0000_0000;
      var frac := IndexBits(k) % 0x10_0000_0000_0000;
      && 1023 <= exp <= 1075
      && 0x10_0000_0000_0000 + frac == k * Pow2(1075 - exp))
  {
    if k > 0 {
      var r := Normalize(k, 52);
      Pow2Values();
      NormalizeValue(k, 52);
      DivModUnique(r.0, 0x10_0000_0000_0000, 1, r.0 - 0x10_0000_0000_0000);
      DivModUnique(IndexBits(k), 0x10_0000_0000_0000, 1023 + r.1, r.0 - 0x10_0000_0000_0000);
    }
  }

  // ---------------------------------------------------------------------
  // Reading
  // ---------------------------------------------------------------------

  /** The pattern a load puts in the buffer for element `i`. */
  function FillAt(a: seq<Bits64>, i: nat, v: Version): Bits64
    requires |a| <= IntMax && i < |a|
  {
    match v
    case AsWritten => IndexBits(i)
    case Intended => a[i]
  }

  /** The buffer holds the pattern of the last element loaded. */
  predicate Coherent(s: Stream, v: Version)
    requires Valid(s)
  {
    s.arrayIdx > 0 ==> s.current == ElementBytes(FillAt(s.elements, s.arrayIdx - 1, v))
  }

  /** A buffer byte as `read` returns it; `ByteBuffer.get` gives a signed `byte`. */
  function Widen(b: Byte, v: Version): (r: int)
    ensures v == Intended ==> r == b
    ensures v == AsWritten ==> -128 <= r < 128 && (r - b) % 256 == 0
  {
    if v == AsWritten && b >= 128 then b - 256 else b
  }

  function WidenAll(bs: seq<Byte>, v: Version): (r: seq<int>)
    ensures |r| == |bs| && forall i :: 0 <= i < |bs| ==> r[i] == Widen(bs[i], v)
  {
    seq(|bs|, i requires 0 <= i < |bs| => Widen(bs[i], v))
  }

  /** The element whose byte the next read returns, and that byte's place in it. */
  function NextElement(s: Stream): int {
    if s.currIdx == 8 then s.arrayIdx else s.arrayIdx - 1
  }

  function NextOffset(s: Stream): nat {
    if s.currIdx == 8 then 0 else s.currIdx
  }

  /** `read()`: the next byte, loading the next element when the buffer is used up, or -1 at the end. */
  function Read(s: Stream, v: Version): (r: (Stream, int))
    requires Valid(s)
    ensures Valid(r.0) && r.0.elements == s.elements
    ensures AtEnd(s) ==> r == (s, -1)
    ensures !AtEnd(s) ==> Consumed(r.0) == Consumed(s) + 1
  {
    if s.currIdx >= 8 then
      if s.arrayIdx >= |s.elements| then (s, -1)
      else
        var loaded := s.(current := ElementBytes(FillAt(s.elements, s.arrayIdx, v)), arrayIdx := s.arrayIdx + 1, currIdx := 0);
        (loaded.(currIdx := 1), Widen(loaded.current[0], v))
    else (s.(currIdx := s.currIdx + 1), Widen(s.current[s.currIdx], v))
  }

  /** Before the end, `read` returns the next byte of the pattern of the next element, and keeps the buffer coherent. */
  lemma {:induction false} ReadValue(s: Stream, v: Version)
    requires Valid(s) && Coherent(s, v)
    ensures Coherent(Read(s, v).0, v)
    ensures !AtEnd(s) ==> (
      && 0 <= NextElement(s) < |s.elements| && NextOffset(s) < 8
      && Read(s, v).1 == Widen(ElementBytes(FillAt(s.elements, NextElement(s), v))[NextOffset(s)], v))
  {
  }

  /** `n` reads in a row and the values they return. */
  function ReadN(s: Stream, v: Version, n: nat): (r: (Stream, seq<int>))
    requires Valid(s)
    ensures Valid(r.0) && r.0.elements == s.elements && |r.1| == n
    decreases n, s
  {
    if n == 0 then (s, [])
    else
      var first := Read(s, v);
      var rest := ReadN(first.0, v, n - 1);
      (rest.0, [first.1] + rest.1)
  }

  /** Reading `m + n` bytes is reading `m`, then `n` more. */
  lemma {:induction false} ReadNAdd(s: Stream, v: Version, m: nat, n: nat)
    requires Valid(s)
    ensures var first := ReadN(s, v, m);
      var rest := ReadN(first.0, v, n);
      ReadN(s, v, m + n) == (rest.0, first.1 + rest.1)
    decreases m
  {
    if m > 0 {
      var one := Read(s, v);
      ReadNAdd(one.0, v, m - 1, n);
      var first := ReadN(one.0, v, m - 1);
      var rest := ReadN(first.0, v, n);
      assert ReadN(s, v, m + n) == (rest.0, [one.1] + (first.1 + rest.1));
      assert [one.1] + (first.1 + rest.1) == ([one.1] + first.1) + rest.1;
    } else {
      assert ReadN(s, v, 0).1 + ReadN(s, v, n).1 == ReadN(s, v, n).1;
    }
  }

  /** The reads that finish a loaded buffer return its remaining bytes. */
  lemma {:induction false} TailReads(s: Stream, v: Version)
    requires Valid(s) && 1 <= s.arrayIdx && s.currIdx <= 8
    ensures ReadN(s, v, 8 - s.currIdx) == (s.(currIdx := 8), WidenAll(s.current[s.currIdx..], v))
    decreases 8 - s.currIdx
  {
    if s.currIdx < 8 {
      var one := Read(s, v);
      assert one == (s.(currIdx := s.currIdx + 1), Widen(s.current[s.currIdx], v));
      TailReads(one.0, v);
      assert WidenAll(s.current[s.currIdx..], v) == [one.1] + WidenAll(s.current[s.currIdx + 1..], v);
    } else {
      assert s.(currIdx := 8) == s;
    }
  }

  /** At an element boundary, the next eight reads load the element and return its bytes. */
  lemma {:induction false} ElementReads(s: Stream, v: Version)
    requires Valid(s) && s.currIdx == 8 && s.arrayIdx < |s.elements|
    ensures var bytes := ElementBytes(FillAt(s.elements, s.arrayIdx, v));
      ReadN(s, v, 8) == (s.(current := bytes, arrayIdx := s.arrayIdx + 1), WidenAll(bytes, v))
  {
    var bytes := ElementBytes(FillAt(s.elements, s.arrayIdx, v));
    var one := Read(s, v);
    assert one == (s.(current := bytes, arrayIdx := s.arrayIdx + 1, currIdx := 1), Widen(bytes[0], v));
    TailReads(one.0, v);
    assert WidenAll(bytes, v) == [one.1] + WidenAll(bytes[1..], v);
  }

  /** The bytes of the patterns of elements `0..k`, in order, as `read` returns them. */
  function Yield(a: seq<Bits64>, v: Version, k: nat): (r: seq<int>)
    requires k <= |a| <= IntMax
    ensures |r| == 8 * k
  {
    if k == 0 then [] else Yield(a, v, k - 1) + WidenAll(ElementBytes(FillAt(a, k - 1, v)), v)
  }

  /** The stream once the first `k` elements have been loaded and every byte of them handed out. */
  function After(a: seq<Bits64>, v: Version, k: nat): (s: Stream)
    requires k <= |a| <= IntMax
    ensures Valid(s) && s.elements == a && s.arrayIdx == k && s.currIdx == 8 && Coherent(s, v)
  {
    if k == 0 then Open(a) else Stream(a, k, ElementBytes(FillAt(a, k - 1, v)), 8)
  }

  /** The eight reads after element `i` go from the state after `i` elements to the state after `n = i + 1`. */
  lemma {:induction false} AfterStep(a: seq<Bits64>, v: Version, i: nat, n: nat)
    requires n == i + 1 <= |a| <= IntMax
    ensures ReadN(After(a, v, i), v, 8) == (After(a, v, n), WidenAll(ElementBytes(FillAt(a, i, v)), v))
  {
    ElementReads(After(a, v, i), v);
  }

  /** `ReadNAdd` for a total already written as one number. */
  lemma {:induction false} ReadNSplit(s: Stream, v: Version, m: nat, n: nat, total: nat)
    requires Valid(s) && total == m + n
    ensures var first := ReadN(s, v, m);
      var rest := ReadN(first.0, v, n);
      ReadN(s, v, total) == (rest.0, first.1 + rest.1)
  {
    ReadNAdd(s, v, m, n);
  }

  /** One more element's bytes. */
  lemma {:induction false} YieldNext(a: seq<Bits64>, v: Version, i: nat, n: nat)
    requires n == i + 1 <= |a| <= IntMax
    ensures Yield(a, v, n) == Yield(a, v, i) + WidenAll(ElementBytes(FillAt(a, i, v)), v)
  {
  }

  /** The first `8 * k` reads return the bytes of elements `0..k` and stop at the state after them. */
  lemma {:induction false} Elements(a: seq<Bits64>, v: Version, k: nat)
    requires k <= |a| <= IntMax
    ensures ReadN(Open(a), v, 8 * k) == (After(a, v, k), Yield(a, v, k))
    decreases k
  {
    if k > 0 {
      Elements(a, v, k - 1);
      AfterStep(a, v, k - 1, k);
      YieldNext(a, v, k - 1, k);
      ReadNSplit(Open(a), v, 8 * (k - 1), 8, 8 * k);
    }
  }

  /** After `8 * k` reads the stream is at the boundary after element `k - 1`, with that element loaded. */
  lemma {:induction false} ElementsRead(a: seq<Bits64>, v: Version, k: nat)
    requires k <= |a| <= IntMax
    ensures var r := ReadN(Open(a), v, 8 * k);
      r.0.arrayIdx == k && r.0.currIdx == 8 && Coherent(r.0, v)
  {
    Elements(a, v, k);
  }

  /** The first `8 * k` reads return the bytes of elements `0..k`, in order. */
  lemma {:induction false} ElementsYield(a: seq<Bits64>, v: Version, k: nat)
    requires k <= |a| <= IntMax
    ensures ReadN(Open(a), v, 8 * k).1 == Yield(a, v, k)
  {
    Elements(a, v, k);
  }

  /** Once every byte has been returned, `read` keeps returning -1. */
  lemma {:induction false} EndIsFinal(a: seq<Bits64>, v: Version)
    requires |a| <= IntMax
    ensures var r := ReadN(Open(a), v, 8 * |a|);
      AtEnd(r.0) && Read(r.0, v) == (r.0, -1)
  {
    ElementsRead(a, v, |a|);
  }

  // ---------------------------------------------------------------------
  // The intended stream
  // ---------------------------------------------------------------------

  /** Read the intended way, each value is a byte, and -1 means exactly that the stream is exhausted. */
  lemma {:induction false} IntendedByteRange(s: Stream)
    requires Valid(s)
    ensures -1 <= Read(s, Intended).1 <= 255
    ensures Read(s, Intended).1 == -1 <==> AtEnd(s)
  {
  }

  /** The intended bytes of the first `k` elements are `DbDoubleArray`'s encoding of them. */
  lemma {:induction false} IntendedYield(a: seq<Bits64>, k: nat)
    requires k <= |a| <= IntMax
    ensures Yield(a, Intended, k) == DoubleToBytes(a[..k])
    decreases k
  {
    if k > 0 {
      IntendedYield(a, k - 1);
      var bytes := ElementBytes(a[k - 1]);
      assert WidenAll(bytes, Intended) == bytes;
      EncodeSnoc(a[..k - 1], a[k - 1]);
      assert a[..k] == a[..k - 1] + [a[k - 1]];
    }
  }

  /** Encoding one more element appends its eight bytes. */
  lemma {:induction false} EncodeSnoc(a: seq<Bits64>, x: Bits64)
    ensures DoubleToBytes(a + [x]) == DoubleToBytes(a) + ElementBytes(x)
    decreases |a|
  {
    if |a| == 0 {
      assert (a + [x])[1..] == [];
    } else {
      assert (a + [x])[1..] == a[1..] + [x];
      EncodeSnoc(a[1..], x);
    }
  }

  /**
   * Read the intended way, the stream returns exactly the blob encoding of the array
   * and then -1, and decoding what it returned gives the array back.
   */
  lemma {:induction false} IntendedRoundTrip(a: seq<Bits64>)
    requires |a| <= IntMax
    ensures var r := ReadN(Open(a), Intended, 8 * |a|);
      && r.1 == DoubleToBytes(a)
      && Read(r.0, Intended) == (r.0, -1)
      && BytesToDouble(DoubleToBytes(a)) == a
  {
    ElementsYield(a, Intended, |a|);
    IntendedYield(a, |a|);
    assert a[..|a|] == a;
    EndIsFinal(a, Intended);
    DecodeEncode(a);
  }

  // ---------------------------------------------------------------------
  // The stream as written
  // ---------------------------------------------------------------------

  /** The pattern of 1.0, whose first byte is 0x3F. */
  const OnePointZero: Bits64 := 0x3FF0_0000_0000_0000

  /**
   * As written, the first byte of a stream over [1.0] is the first byte of the
   * pattern of 0.0 (the index), not of 1.0.
   */
  lemma {:induction false} IndexNotValue()
    ensures Read(Open([OnePointZero]), AsWritten).1 == 0
    ensures Read(Open([OnePointZero]), Intended).1 == 0x3F
  {
    assert IndexBits(0) == 0;
    ZeroFirstByte();
    OneFirstByte();
  }

  lemma {:induction false} ZeroFirstByte()
    ensures ElementBytes(0)[0] == 0
  {
    BigEndianZero(8);
  }

  lemma {:induction false} OneFirstByte()
    ensures ElementBytes(OnePointZero)[0] == 0x3F
  {
    BigEndianEarly(0x3FF0_0000_0000_0000, 8, 0);
    BigEndianEarly(0x3FF0_0000_0000_00, 7, 0);
    BigEndianEarly(0x3FF0_0000_0000, 6, 0);
    BigEndianEarly(0x3FF0_0000_00, 5, 0);
    BigEndianEarly(0x3FF0_0000, 4, 0);
    BigEndianEarly(0x3FF0_00, 3, 0);
    BigEndianEarly(0x3FF0, 2, 0);
    assert BigEndian(0x3F, 1) == BigEndian(0, 0) + [0x3F];
  }

  lemma {:induction false} BigEndianZero(n: nat)
    ensures forall i :: 0 <= i < n ==> BigEndian(0, n)[i] == 0
  {
    if n > 0 {
      BigEndianZero(n - 1);
    }
  }

  /**
   * The element index whose double has the byte 0xFF in third place: 2^12 + 255,
   * whose pattern is 0x40B0_FF00_0000_0000 (exponent 1035, fraction 255 * 2^40).
   */
  const MarkerIndex: nat := 4351

  lemma {:induction false} MarkerBits()
    ensures IndexBits(MarkerIndex) == 0x40B0_FF00_0000_0000
    ensures ElementBytes(IndexBits(MarkerIndex))[2] == 0xFF
  {
    MarkerPattern();
    MarkerThirdByte();
  }

  lemma {:induction false} MarkerPattern()
    ensures IndexBits(MarkerIndex) == 0x40B0_FF00_0000_0000
  {
    var r := Normalize(MarkerIndex, 52);
    Pow2Values();
    NormalizeValue(MarkerIndex, 52);
    var d := 52 - r.1;
    assert Pow2(41) == 2 * Pow2(40) && Pow2(40) == 2 * Pow2(39);
    if d < 40 {
      Pow2Monotone(d, 39);
    } else if d > 40 {
      Pow2Monotone(41, d);
    }
    assert r == (0x10_FF00_0000_0000, 12);
  }

  lemma {:induction false} MarkerThirdByte()
    ensures ElementBytes(0x40B0_FF00_0000_0000)[2] == 0xFF
  {
    BigEndianEarly(0x40B0_FF00_0000_0000, 8, 2);
    BigEndianEarly(0x40B0_FF00_0000_00, 7, 2);
    BigEndianEarly(0x40B0_FF00_0000, 6, 2);
    BigEndianEarly(0x40B0_FF00_00, 5, 2);
    BigEndianEarly(0x40B0_FF00, 4, 2);
    assert BigEndian(0x40B0_FF, 3) == BigEndian(0x40B0, 2) + [0xFF];
  }

  /** A byte before the last one comes from the number without its low byte. */
  lemma {:induction false} BigEndianEarly(x: nat, n: nat, i: nat)
    requires i + 1 < n
    ensures BigEndian(x, n)[i] == BigEndian(x / 256, n - 1)[i]
  {
  }

  /**
   * As written, reading an array of more than 4351 elements returns -1, the end of
   * stream, in the middle of the stream: at the third byte of element 4351.
   */
  lemma {:induction false} EarlyEndOfStream(a: seq<Bits64>)
    requires MarkerIndex < |a| <= IntMax
    ensures var n := 8 * MarkerIndex + 3;
      var r := ReadN(Open(a), AsWritten, n);
      && r.1[n - 1] == -1
      && !AtEnd(r.0)
  {
    var m := 8 * MarkerIndex;
    ElementsRead(a, AsWritten, MarkerIndex);
    var before := ReadN(Open(a), AsWritten, m);
    ReadNAdd(Open(a), AsWritten, m, 3);
    var s := before.0;
    var one := Read(s, AsWritten);
    var two := Read(one.0, AsWritten);
    var three := Read(two.0, AsWritten);
    assert ReadN(two.0, AsWritten, 1).1 == [three.1];
    assert ReadN(one.0, AsWritten, 2).1 == [two.1] + [three.1];
    assert ReadN(s, AsWritten, 3).1 == [one.1] + [two.1] + [three.1];
    MarkerBits();
  }
}
