/**
 * Byte-level building blocks of the Typecraft Binary Format writer:
 * 4-byte big-endian integers (`int.to_bytes(4, 'big')`), UTF-8 text
 * (Python's default `str.encode()`), and one-byte flags
 * (`chr(flag).encode()`).
 */
module Bytes {

  type byte = x: int | 0 <= x < 256

  const TWO_32: int := 0x1_0000_0000

  /** The integers `to_bytes(4, 'big')` accepts; any other raises OverflowError. */
  predicate IsU32(n: int)
  {
    0 <= n < TWO_32
  }

  /** The number a byte string denotes, most significant byte first. */
  function BigEndian(s: seq<byte>): nat
  {
    if s == [] then 0 else BigEndian(s[..|s| - 1]) * 256 + s[|s| - 1]
  }

  /** `_Writer._int_to_bytes(number)`: exactly four bytes, most significant first. */
  function IntToBytes(n: int): (r: seq<byte>)
    requires IsU32(n)
    ensures |r| == 4
    ensures BigEndian(r) == n
  {
    var q1 := n / 256;
    var q2 := q1 / 256;
    var q3 := q2 / 256;
    assert q3 < 256 by {
      assert q1 < 0x100_0000;
      assert q2 < 0x1_0000;
    }
    var r: seq<byte> := [q3, q2 % 256, q1 % 256, n % 256];
    assert BigEndian(r[..1]) == q3 by {
      assert r[..1][..0] == [];
    }
    assert BigEndian(r[..2]) == q2 by {
      assert r[..2][..1] == r[..1];
    }
    assert BigEndian(r[..3]) == q1 by {
      assert r[..3][..2] == r[..2];
    }
    assert r[..4][..3] == r[..3];
    assert r[..4] == r;
    r
  }

  lemma {:induction false} BigEndianBound(s: seq<byte>)
    requires |s| <= 4
    ensures BigEndian(s) < if |s| == 0 then 1 else if |s| == 1 then 0x100
                           else if |s| == 2 then 0x1_0000 else if |s| == 3 then 0x100_0000 else TWO_32
  {
    if s != [] {
      BigEndianBound(s[..|s| - 1]);
    }
  }

  /** Decoding any four bytes and encoding the result gives the same four bytes back. */
  lemma BigEndianRoundTrip(s: seq<byte>)
    requires |s| == 4
    ensures IsU32(BigEndian(s))
    ensures IntToBytes(BigEndian(s)) == s
  {
    BigEndianBound(s);
    var n := BigEndian(s);
    var r := IntToBytes(n);
    BigEndianInjective(r, s);
  }

  /** Two byte strings of equal length that denote the same number are equal. */
  lemma {:induction false} BigEndianInjective(a: seq<byte>, b: seq<byte>)
    requires |a| == |b| && BigEndian(a) == BigEndian(b)
    ensures a == b
  {
    if a != [] {
      var n := |a| - 1;
      assert BigEndian(a[..n]) == BigEndian(b[..n]) && a[n] == b[n];
      BigEndianInjective(a[..n], b[..n]);
      assert a == a[..n] + [a[n]] && b == b[..n] + [b[n]];
    }
  }

  /** Different integers are written as different byte strings. */
  lemma IntToBytesInjective(m: int, n: int)
    requires IsU32(m) && IsU32(n) && IntToBytes(m) == IntToBytes(n)
    ensures m == n
  {
  }

  /** The UTF-8 encoding of one Unicode scalar value. */
  function Utf8Char(c: char): (r: seq<byte>)
    ensures 1 <= |r| <= 4
    ensures (0 in r) <==> c == '\0'
    ensures (c as int < 0x80) <==> |r| == 1
  {
    var cp := c as int;
    if cp < 0x80 then [cp]
    else if cp < 0x800 then [0xC0 + cp / 0x40, 0x80 + cp % 0x40]
    else if cp < 0x1_0000 then [0xE0 + cp / 0x1000, 0x80 + cp / 0x40 % 0x40, 0x80 + cp % 0x40]
    else [0xF0 + cp / 0x4_0000, 0x80 + cp / 0x1000 % 0x40, 0x80 + cp / 0x40 % 0x40, 0x80 + cp % 0x40]
  }

  /** `s.encode()` with Python's default codec, UTF-8. */
  function Utf8(s: string): seq<byte>
  {
    if s == [] then [] else Utf8(s[..|s| - 1]) + Utf8Char(s[|s| - 1])
  }

  /** A string without NUL characters encodes to bytes without the separator value 0x00. */
  lemma {:induction false} Utf8NoZero(s: string)
    requires '\0' !in s
    ensures 0 !in Utf8(s)
  {
    if s != [] {
      Utf8NoZero(s[..|s| - 1]);
    }
  }

  /** An ASCII string encodes to one byte per character, its code point. */
  lemma {:induction false} Utf8Ascii(s: string)
    requires forall i :: 0 <= i < |s| ==> s[i] as int < 0x80
    ensures |Utf8(s)| == |s|
    ensures forall i :: 0 <= i < |s| ==> Utf8(s)[i] == s[i] as int
  {
    if s != [] {
      Utf8Ascii(s[..|s| - 1]);
    }
  }

  /** `_Writer._ord_to_bytes(flag)`: `chr(flag).encode()`, a single byte for every flag below 0x80. */
  function OrdToBytes(flag: int): (r: seq<byte>)
    requires 0 <= flag < 0x80
    ensures r == [flag]
  {
    var s := [flag as char];
    assert s[..0] == [] && (s[0] as int) == flag;
    assert Utf8(s) == Utf8([]) + Utf8Char(s[0]);
    Utf8(s)
  }
}
