/** Byte strings and the fixed-width little-endian number encodings that the
    source writes and reads through `DataView` (`setUint16`, `setUint32`,
    `setBigUint64`, `setBigInt64` and their getters), plus
    `Uint8Array.prototype.set`. JavaScript's conversions wrap: a Number stored
    with `setUint16` is reduced modulo 2^16, a BigInt stored with
    `setBigInt64` modulo 2^64. */
module Bytes {

  type Byte = x: int | 0 <= x < 256

  const TWO16: nat := 0x1_0000
  const TWO32: nat := 0x1_0000_0000
  const TWO63: nat := 0x8000_0000_0000_0000
  const TWO64: nat := 0x1_0000_0000_0000_0000

  function Pow256(n: nat): (r: nat)
    ensures r > 0
  {
    if n == 0 then 1 else 256 * Pow256(n - 1)
  }

  /** The n-byte little-endian encoding of x modulo 256^n. */
  function LeBytes(x: nat, n: nat): (r: seq<Byte>)
    ensures |r| == n
  {
    if n == 0 then [] else [x % 256] + LeBytes(x / 256, n - 1)
  }

  /** The unsigned number a little-endian byte string denotes. */
  function LeValue(s: seq<Byte>): (v: nat)
    ensures v < Pow256(|s|)
  {
    if s == [] then 0 else s[0] + 256 * LeValue(s[1..])
  }

  /** `BigInt.asIntN(64, t)`: t brought into the signed 64-bit range. */
  function WrapI64(t: int): (r: int)
    ensures -(TWO63 as int) <= r < TWO63
    ensures (r - t) % TWO64 == 0
  {
    var u := t % TWO64;
    if u >= TWO63 then u - TWO64 else u
  }

  /** `setUint16(off, v, true)` for an integer Number v. */
  function U16Bytes(v: int): (r: seq<Byte>)
    ensures |r| == 2
  {
    LeBytes(v % TWO16, 2)
  }

  /** `setUint32(off, v, true)` for an integer Number v. */
  function U32Bytes(v: int): (r: seq<Byte>)
    ensures |r| == 4
  {
    LeBytes(v % TWO32, 4)
  }

  /** `setBigUint64(off, v, true)`. */
  function U64Bytes(v: int): (r: seq<Byte>)
    ensures |r| == 8
  {
    LeBytes(v % TWO64, 8)
  }

  /** `setBigInt64(off, v, true)`: two's complement, little-endian. Both
      64-bit setters reduce modulo 2^64, so the bytes are those `setBigUint64`
      writes; they differ only in how the getters read them back. */
  function I64Bytes(t: int): (r: seq<Byte>)
    ensures |r| == 8
  {
    U64Bytes(t)
  }

  /** `getBigInt64(off, true)` over the eight bytes at off. */
  function I64Value(s: seq<Byte>): (v: int)
    requires |s| == 8
  {
    var u := LeValue(s);
    if u >= TWO63 then u - TWO64 else u
  }

  lemma Pow256Values()
    ensures Pow256(1) == 256 && Pow256(2) == TWO16 && Pow256(4) == TWO32 && Pow256(8) == TWO64
  {
  }

  /** A positive multiple of d is at least d. */
  lemma MulAtLeast(d: int, k: int)
    requires d > 0 && k >= 1
    ensures d * k >= d
  {
    assert d * k == d * (k - 1) + d;
    assert d * (k - 1) >= 0;
  }

  /** Quotient and remainder are unique. */
  lemma DivModUnique(x: int, d: int, q: int, r: int)
    requires d > 0 && 0 <= r < d && x == d * q + r
    ensures x / d == q && x % d == r
  {
    var q0, r0 := x / d, x % d;
    assert x == d * q0 + r0;
    assert d * q - d * q0 == d * (q - q0);
    if q > q0 {
      MulAtLeast(d, q - q0);
      assert false;
    } else if q < q0 {
      MulAtLeast(d, q0 - q);
      assert false;
    }
  }

  /** Division by 256 and the remainder determine the remainder modulo 256 * m. */
  lemma ModSplit(x: nat, m: nat)
    requires m > 0
    ensures x % (256 * m) == x % 256 + 256 * ((x / 256) % m)
  {
    var q := x / 256;
    var r := x % 256;
    var q2 := q / m;
    var r2 := q % m;
    assert x == 256 * q + r;
    assert q == m * q2 + r2;
    assert 256 * q == (256 * m) * q2 + 256 * r2;
    assert 0 <= 256 * r2 + r < 256 * m by {
      assert r2 <= m - 1;
      assert 256 * r2 <= 256 * (m - 1);
    }
    DivModUnique(x, 256 * m, q2, 256 * r2 + r);
  }

  /** Decoding an encoding gives back the number modulo 256^n. */
  lemma {:induction false} LeValueOfBytes(x: nat, n: nat)
    ensures LeValue(LeBytes(x, n)) == x % Pow256(n)
  {
    if n > 0 {
      var s := LeBytes(x, n);
      assert s[1..] == LeBytes(x / 256, n - 1);
      LeValueOfBytes(x / 256, n - 1);
      ModSplit(x, Pow256(n - 1));
    }
  }

  /** Encoding the decoded number reproduces every byte. */
  lemma {:induction false} LeBytesOfValue(s: seq<Byte>)
    ensures LeBytes(LeValue(s), |s|) == s
  {
    if s != [] {
      var v := LeValue(s);
      assert v % 256 == s[0] && v / 256 == LeValue(s[1..]);
      LeBytesOfValue(s[1..]);
    }
  }

  /** Two byte strings of one length denoting the same number are equal. */
  lemma LeValueInjective(a: seq<Byte>, b: seq<Byte>)
    requires |a| == |b| && LeValue(a) == LeValue(b)
    ensures a == b
  {
    LeBytesOfValue(a);
    LeBytesOfValue(b);
  }

  lemma U16RoundTrip(v: int)
    ensures LeValue(U16Bytes(v)) == v % TWO16
  {
    LeValueOfBytes(v % TWO16, 2);
    Pow256Values();
  }

  lemma U32RoundTrip(v: int)
    ensures LeValue(U32Bytes(v)) == v % TWO32
  {
    LeValueOfBytes(v % TWO32, 4);
    Pow256Values();
  }

  lemma U64RoundTrip(v: int)
    ensures LeValue(U64Bytes(v)) == v % TWO64
  {
    LeValueOfBytes(v % TWO64, 8);
    Pow256Values();
  }

  /** `getBigInt64` after `setBigInt64` gives the value wrapped to 64 bits;
      within the signed range it gives the value itself. */
  lemma I64RoundTrip(t: int)
    ensures I64Value(I64Bytes(t)) == WrapI64(t)
    ensures -(TWO63 as int) <= t < TWO63 ==> I64Value(I64Bytes(t)) == t
  {
    var u := t % TWO64;
    LeValueOfBytes(u, 8);
    Pow256Values();
    DivModUnique(u, TWO64, 0, u);
    assert LeValue(I64Bytes(t)) == u;
    if -(TWO63 as int) <= t < 0 {
      DivModUnique(t, TWO64, -1, t + TWO64);
    } else if 0 <= t < TWO63 {
      DivModUnique(t, TWO64, 0, t);
    }
  }

  /** `Uint8Array.prototype.set(src, off)`: copies src into a starting at off. */
  method SetAt(a: array<Byte>, off: nat, src: seq<Byte>)
    requires off + |src| <= a.Length
    modifies a
    ensures a[..] == old(a[..])[..off] + src + old(a[..])[off + |src|..]
  {
    var i := 0;
    while i < |src|
      invariant 0 <= i <= |src|
      invariant a[..] == old(a[..])[..off] + src[..i] + old(a[..])[off + i..]
    {
      a[off + i] := src[i];
      i := i + 1;
    }
  }
}
