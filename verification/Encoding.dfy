/**
 Byte-level encodings used on the wire and in storage keys: fixed-width
 big-endian integers (encoding/binary.BigEndian) and base-128 varints
 (binary.AppendUvarint, which is also the Protocol Buffers length prefix).
 */
module Encoding {

  type Byte = x: int | 0 <= x < 256

  type Bytes = seq<Byte>

  type Uint16 = x: int | 0 <= x < 0x1_0000
  type Uint32 = x: int | 0 <= x < 0x1_0000_0000
  type Uint64 = x: int | 0 <= x < 0x1_0000_0000_0000_0000

  /** The bytes of a Go string literal whose characters are all below 256. */
  function Ascii(s: string): (r: Bytes)
    requires forall i :: 0 <= i < |s| ==> s[i] as int < 256
  {
    seq<Byte>(|s|, i requires 0 <= i < |s| => s[i] as int as Byte)
  }

  /** 256 to the power `width`: the number of values `width` bytes can hold. */
  function Pow256(width: nat): (r: nat)
    ensures r > 0
  {
    if width == 0 then 1 else 256 * Pow256(width - 1)
  }

  lemma Pow256Values()
    ensures Pow256(2) == 0x1_0000 && Pow256(4) == 0x1_0000_0000 && Pow256(8) == 0x1_0000_0000_0000_0000
  {
    assert Pow256(2) == 256 * Pow256(1) && Pow256(4) == 256 * Pow256(3);
    assert Pow256(6) == 256 * Pow256(5) && Pow256(8) == 256 * Pow256(7);
  }

  /** `PutUint16/32/64`: the low `width` bytes of `n`, most significant first. */
  function BigEndian(n: nat, width: nat): (r: Bytes)
    ensures |r| == width
  {
    if width == 0 then [] else BigEndian(n / 256, width - 1) + [n % 256]
  }

  /** `Uint16/32/64`: the number a big-endian byte string denotes. */
  function FromBigEndian(s: Bytes): (r: nat)
  {
    if s == [] then 0 else FromBigEndian(s[..|s| - 1]) * 256 + s[|s| - 1]
  }

  /** Decoding undoes encoding, up to the truncation to `width` bytes. */
  lemma {:induction false} BigEndianDecodes(n: nat, width: nat)
    ensures FromBigEndian(BigEndian(n, width)) == n % Pow256(width)
  {
    if width > 0 {
      BigEndianDecodes(n / 256, width - 1);
      var m := Pow256(width - 1);
      DivModSplit(n, m);
      assert BigEndian(n, width)[..width - 1] == BigEndian(n / 256, width - 1);
    }
  }

  lemma DivModSplit(n: nat, m: nat)
    requires m > 0
    ensures (n / 256) % m * 256 + n % 256 == n % (256 * m)
  {
    var q, r := n / 256, n % 256;
    var a, b := q / m, q % m;
    assert q == m * a + b;
    assert n == (256 * m) * a + (256 * b + r) by {
      assert 256 * (m * a) == (256 * m) * a;
    }
    assert 256 * b + r < 256 * m;
    RemainderIsUnique(n, 256 * m, a, 256 * b + r);
  }

  lemma RemainderIsUnique(n: nat, d: nat, q: nat, r: nat)
    requires 0 <= r < d && n == d * q + r
    ensures n % d == r
  {
    var q', r' := n / d, n % d;
    assert n == d * q' + r';
    assert d * (q' - q) == r - r';
    if q' != q {
      ProductNotSmall(d, q' - q);
    }
  }

  lemma {:induction false} ProductNotSmall(d: int, k: int)
    requires d > 0 && k != 0
    ensures k > 0 ==> d * k >= d
    ensures k < 0 ==> d * k <= 0 - d
    decreases if k > 0 then k else -k
  {
    if k > 1 {
      ProductNotSmall(d, k - 1);
      assert d * k == d * (k - 1) + d;
    } else if k < -1 {
      ProductNotSmall(d, k + 1);
      assert d * k == d * (k + 1) - d;
    }
  }

  /** A byte string denotes a number that fits its width. */
  lemma {:induction false} FromBigEndianBound(s: Bytes)
    ensures FromBigEndian(s) < Pow256(|s|)
  {
    if s != [] {
      FromBigEndianBound(s[..|s| - 1]);
    }
  }

  /** Encoding undoes decoding. */
  lemma {:induction false} BigEndianOf(s: Bytes)
    ensures BigEndian(FromBigEndian(s), |s|) == s
  {
    if s != [] {
      BigEndianOf(s[..|s| - 1]);
    }
  }

  /** `Uint16`, `Uint32` and `Uint64` read numbers of their width. */
  function ReadUint16(s: Bytes): (r: Uint16)
    requires |s| == 2
  {
    FromBigEndianBound(s);
    Pow256Values();
    FromBigEndian(s)
  }

  function ReadUint32(s: Bytes): (r: Uint32)
    requires |s| == 4
  {
    FromBigEndianBound(s);
    Pow256Values();
    FromBigEndian(s)
  }

  function ReadUint64(s: Bytes): (r: Uint64)
    requires |s| == 8
  {
    FromBigEndianBound(s);
    Pow256Values();
    FromBigEndian(s)
  }

  /** Two numbers that fit the width have different encodings. */
  lemma BigEndianInjective(a: nat, b: nat, width: nat)
    requires a < Pow256(width) && b < Pow256(width)
    ensures BigEndian(a, width) == BigEndian(b, width) ==> a == b
  {
    BigEndianDecodes(a, width);
    BigEndianDecodes(b, width);
  }

  /** `binary.AppendUvarint`: seven bits a byte, low group first. */
  function Uvarint(n: nat): (r: Bytes)
    ensures |r| > 0
  {
    if n < 128 then [n] else [n % 128 + 128] + Uvarint(n / 128)
  }

  lemma ConsInjective(a: Byte, b: Byte, s: Bytes, t: Bytes)
    requires [a] + s == [b] + t
    ensures a == b && s == t
  {
    assert ([a] + s)[0] == a && ([b] + t)[0] == b;
    assert ([a] + s)[1..] == s && ([b] + t)[1..] == t;
  }

  /** No varint is a proper prefix of another, so what follows it is determined. */
  lemma {:induction false} UvarintPrefixFree(a: nat, b: nat, x: Bytes, y: Bytes)
    requires Uvarint(a) + x == Uvarint(b) + y
    ensures a == b && x == y
  {
    var ra, rb := UvarintTail(a), UvarintTail(b);
    assert Uvarint(a) + x == [UvarintHead(a)] + (ra + x);
    assert Uvarint(b) + y == [UvarintHead(b)] + (rb + y);
    ConsInjective(UvarintHead(a), UvarintHead(b), ra + x, rb + y);
    if a < 128 {
      assert ra + x == x && rb + y == y;
    } else {
      UvarintPrefixFree(a / 128, b / 128, x, y);
    }
  }

  function UvarintHead(n: nat): (r: Byte)
    ensures r < 128 <==> n < 128
  {
    if n < 128 then n else n % 128 + 128
  }

  function UvarintTail(n: nat): (r: Bytes)
    ensures Uvarint(n) == [UvarintHead(n)] + r
  {
    if n < 128 then [] else Uvarint(n / 128)
  }
}
