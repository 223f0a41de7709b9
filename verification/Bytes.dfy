/** Bytes, the 32-bit little-endian fields of the wire headers, and flattening. */
module Bytes {
  newtype byte = x: int | 0 <= x < 0x100

  const TWO_32: nat := 0x1_0000_0000

  /** A checksum algorithm: any function from byte strings to 32-byte digests. */
  datatype Digest = Digest(raw: seq<byte> -> seq<byte>) {
    function Of(x: seq<byte>): (d: seq<byte>)
      ensures |d| == 32
    {
      if |raw(x)| == 32 then raw(x) else seq(32, i => 0)
    }
  }

  /** The `width` low bytes of n, least significant first. */
  function LittleEndian(n: nat, width: nat): (b: seq<byte>)
    ensures |b| == width
  {
    if width == 0 then [] else [(n % 0x100) as byte] + LittleEndian(n / 0x100, width - 1)
  }

  function FromLittleEndian(b: seq<byte>): nat {
    if b == [] then 0 else b[0] as nat + 0x100 * FromLittleEndian(b[1..])
  }

  function Pow256(k: nat): (p: nat)
    ensures p > 0
  {
    if k == 0 then 1 else 0x100 * Pow256(k - 1)
  }

  lemma {:induction false} LittleEndianRoundTrip(n: nat, width: nat)
    requires n < Pow256(width)
    ensures FromLittleEndian(LittleEndian(n, width)) == n
  {
    if width > 0 {
      LittleEndianRoundTrip(n / 0x100, width - 1);
      assert LittleEndian(n, width)[1..] == LittleEndian(n / 0x100, width - 1);
    }
  }

  /** The 32-bit fields of the headers. */
  function Le32(n: nat): (b: seq<byte>)
    requires n < TWO_32
    ensures |b| == 4
  {
    LittleEndian(n, 4)
  }

  function FromLe32(b: seq<byte>): nat
    requires |b| == 4
  {
    FromLittleEndian(b)
  }

  /** Least significant byte first. */
  lemma Le32Bytes(n: nat)
    requires n < TWO_32
    ensures Le32(n) == [(n % 0x100) as byte, (n / 0x100 % 0x100) as byte,
                        (n / 0x1_0000 % 0x100) as byte, (n / 0x100_0000) as byte]
  {
    assert n / 0x100 / 0x100 == n / 0x1_0000 && n / 0x1_0000 / 0x100 == n / 0x100_0000;
    assert LittleEndian(n, 4) == [(n % 0x100) as byte] + LittleEndian(n / 0x100, 3);
    assert LittleEndian(n / 0x100, 3) == [(n / 0x100 % 0x100) as byte] + LittleEndian(n / 0x1_0000, 2);
    assert LittleEndian(n / 0x1_0000, 2) == [(n / 0x1_0000 % 0x100) as byte] + LittleEndian(n / 0x100_0000, 1);
    assert LittleEndian(n / 0x100_0000, 1) == [(n / 0x100_0000) as byte] + [];
  }

  lemma Le32RoundTrip(n: nat)
    requires n < TWO_32
    ensures FromLe32(Le32(n)) == n
  {
    assert Pow256(4) == TWO_32;
    LittleEndianRoundTrip(n, 4);
  }

  function Concat<T>(parts: seq<seq<T>>): seq<T> {
    if parts == [] then [] else parts[0] + Concat(parts[1..])
  }

  lemma {:induction false} ConcatAppend<T>(a: seq<seq<T>>, b: seq<seq<T>>)
    ensures Concat(a + b) == Concat(a) + Concat(b)
  {
    if a == [] {
      assert a + b == b;
    } else {
      assert (a + b)[1..] == a[1..] + b;
      ConcatAppend(a[1..], b);
    }
  }

  lemma ConcatSnoc<T>(a: seq<seq<T>>, last: seq<T>)
    ensures Concat(a + [last]) == Concat(a) + last
  {
    ConcatAppend(a, [last]);
    assert Concat([last]) == last + Concat([]) == last;
  }

  lemma Assoc<T>(a: seq<T>, b: seq<T>, c: seq<T>)
    ensures a + b + c == a + (b + c)
  {
  }

  lemma DropTwice<T>(s: seq<T>, i: nat, j: nat)
    requires i + j <= |s|
    ensures s[i..][j..] == s[i + j..]
  {
  }

  lemma SliceTwice<T>(s: seq<T>, j: nat, m: nat, i: nat, n: nat)
    requires i + n <= m && j + m <= |s|
    ensures s[j..j + m][i..i + n] == s[j + i..j + i + n]
  {
    var t := s[j..j + m];
    var u, v := t[i..i + n], s[j + i..j + i + n];
    forall k | 0 <= k < n ensures u[k] == v[k] {
      assert t[i + k] == s[j + (i + k)];
    }
  }

  lemma PrefixGrows<T>(a: seq<T>, b: seq<T>, s: seq<T>)
    requires s < a
    ensures s < a + b
  {
  }

  lemma Cons<T>(s: seq<T>, t: seq<T>)
    requires s != []
    ensures [s[0]] + (s[1..] + t) == s + t
  {
  }

  function Min(a: nat, b: nat): (m: nat)
    ensures m <= a && m <= b && (m == a || m == b)
  {
    if a <= b then a else b
  }
}
