/**
 * `DbDoubleArray`'s blob encoding: each element's 64-bit IEEE pattern as eight
 * big-endian bytes, in element order.  A double is handled as its bit pattern (an
 * unsigned 64-bit number), which is all `ByteBuffer.putDouble` and
 * `asDoubleBuffer` look at; a byte is its unsigned value.
 */
module DoubleArrays {

  import opened JavaInts

  type Byte = x: int | 0 <= x < 256

  /** The bit pattern of a `double`. */
  type Bits64 = x: int | 0 <= x < 0x1_0000_0000_0000_0000

  /** Big-endian base-256 digits: the last `n` bytes of `x`, most significant first. */
  function BigEndian(x: nat, n: nat): (r: seq<Byte>)
    ensures |r| == n
  {
    if n == 0 then [] else BigEndian(x / 256, n - 1) + [x % 256]
  }

  /** The number whose big-endian bytes are `b`. */
  function FromBigEndian(b: seq<Byte>): (x: nat)
  {
    if |b| == 0 then 0 else FromBigEndian(b[..|b| - 1]) * 256 + b[|b| - 1]
  }

  function Pow256(n: nat): (p: nat)
    ensures p >= 1
  {
    if n == 0 then 1 else 256 * Pow256(n - 1)
  }

  lemma {:induction false} FromBigEndianBound(b: seq<Byte>)
    ensures FromBigEndian(b) < Pow256(|b|)
  {
    if |b| > 0 {
      FromBigEndianBound(b[..|b| - 1]);
    }
  }

  /** Bytes and numbers below `256^n` are in one-to-one correspondence. */
  lemma {:induction false} BigEndianRoundTrip(x: nat, b: seq<Byte>)
    ensures FromBigEndian(BigEndian(x, |b|)) == x % Pow256(|b|)
    ensures BigEndian(FromBigEndian(b), |b|) == b
  {
    if |b| > 0 {
      var n := |b|;
      var init := b[..n - 1];
      BigEndianRoundTrip(x / 256, init);
      var r := BigEndian(x, n);
      assert r[..n - 1] == BigEndian(x / 256, n - 1);
      ModStep256(x, Pow256(n - 1));
      var y := FromBigEndian(b);
      assert y == FromBigEndian(init) * 256 + b[n - 1];
      assert y / 256 == FromBigEndian(init) && y % 256 == b[n - 1];
      assert b == init + [b[n - 1]];
    }
  }

  /** `x mod 256p` from the last base-256 digit and `(x / 256) mod p`. */
  lemma {:induction false} ModStep256(x: nat, p: nat)
    requires p >= 1
    ensures x % (256 * p) == (x / 256) % p * 256 + x % 256
  {
    var q := x / 256;
    var r := x % 256;
    var a := q / p;
    var c := q % p;
    assert q == a * p + c;
    assert x == a * (256 * p) + (c * 256 + r) by {
      assert x == q * 256 + r;
      assert q * 256 == (a * p + c) * 256 == a * (256 * p) + c * 256;
    }
    assert 0 <= c * 256 + r < 256 * p by {
      assert c <= p - 1;
      assert c * 256 <= (p - 1) * 256;
    }
    DivModUnique(x, 256 * p, a, c * 256 + r);
  }

  lemma {:induction false} Pow256Eight()
    ensures Pow256(8) == 0x1_0000_0000_0000_0000
  {
  }

  /** The eight bytes `putDouble` writes for one element, most significant first. */
  function ElementBytes(x: Bits64): (r: seq<Byte>)
    ensures |r| == 8
  {
    BigEndian(x, 8)
  }

  /** The element `getDouble` reads from eight bytes. */
  function ElementOf(b: seq<Byte>): (x: Bits64)
    requires |b| == 8
  {
    FromBigEndianBound(b);
    Pow256Eight();
    FromBigEndian(b)
  }

  lemma {:induction false} ElementRoundTrip(x: Bits64, b: seq<Byte>)
    requires |b| == 8
    ensures ElementOf(ElementBytes(x)) == x
    ensures ElementBytes(ElementOf(b)) == b
  {
    Pow256Eight();
    BigEndianRoundTrip(x, b);
  }

  /** `doubleToBytes`: eight bytes per element, in element order. */
  function DoubleToBytes(a: seq<Bits64>): (r: seq<Byte>)
    ensures |r| == 8 * |a|
    ensures forall i :: 0 <= i < |a| ==> r[8 * i..8 * i + 8] == ElementBytes(a[i])
  {
    if |a| == 0 then []
    else
      var rest := DoubleToBytes(a[1..]);
      var r := ElementBytes(a[0]) + rest;
      assert forall i :: 1 <= i < |a| ==> r[8 * i..8 * i + 8] == rest[8 * (i - 1)..8 * (i - 1) + 8];
      r
  }

  /** `bytesToDouble`: one element per complete group of eight bytes; a short tail is ignored. */
  function BytesToDouble(b: seq<Byte>): (r: seq<Bits64>)
    ensures |r| == |b| / 8
    ensures forall i :: 0 <= i < |r| ==> r[i] == ElementOf(b[8 * i..8 * i + 8])
    decreases |b|
  {
    if |b| < 8 then []
    else
      var rest := BytesToDouble(b[8..]);
      var r := [ElementOf(b[..8])] + rest;
      assert forall i :: 1 <= i < |r| ==> b[8 * i..8 * i + 8] == b[8..][8 * (i - 1)..8 * (i - 1) + 8];
      r
  }

  /** Decoding an encoded array gives the array back bit for bit. */
  lemma {:induction false} DecodeEncode(a: seq<Bits64>)
    ensures BytesToDouble(DoubleToBytes(a)) == a
  {
    if |a| > 0 {
      var b := DoubleToBytes(a);
      assert b[..8] == ElementBytes(a[0]) && b[8..] == DoubleToBytes(a[1..]);
      ElementRoundTrip(a[0], ElementBytes(a[0]));
      DecodeEncode(a[1..]);
      assert a == [a[0]] + a[1..];
    }
  }

  /** Encoding a decoded blob gives back its whole eight-byte groups. */
  lemma {:induction false} EncodeDecode(b: seq<Byte>)
    ensures DoubleToBytes(BytesToDouble(b)) == b[..8 * (|b| / 8)]
    decreases |b|
  {
    if |b| >= 8 {
      var a := BytesToDouble(b);
      assert a[0] == ElementOf(b[..8]) && a[1..] == BytesToDouble(b[8..]);
      ElementRoundTrip(0, b[..8]);
      EncodeDecode(b[8..]);
      assert DoubleToBytes(a) == ElementBytes(a[0]) + DoubleToBytes(a[1..]);
      assert b[..8 * (|b| / 8)] == b[..8] + b[8..][..8 * (|b[8..]| / 8)];
    }
  }
}
