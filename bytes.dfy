/// Fixed-width integers as Java's DataOutputStream writes them and
/// DataInputStream reads them: big-endian, two's complement.

module Bytes {

  /** An octet on the wire, read as its unsigned value. */
  newtype byte = x: int | 0 <= x < 256

  const TWO_16: int := 0x1_0000
  const TWO_31: int := 0x8000_0000
  const TWO_32: int := 0x1_0000_0000
  const TWO_63: int := 0x8000_0000_0000_0000
  const TWO_64: int := 0x1_0000_0000_0000_0000

  /** A Java `int`. */
  type int32 = x: int | -TWO_31 <= x < TWO_31

  /** A Java `long`. */
  type int64 = x: int | -TWO_63 <= x < TWO_63

  function Pow256(k: nat): (p: nat)
    ensures p > 0
  {
    if k == 0 then 1 else 256 * Pow256(k - 1)
  }

  lemma Pow256Values()
    ensures Pow256(2) == TWO_16 && Pow256(4) == TWO_32 && Pow256(8) == TWO_64
  {
  }

  /** The k low-order bytes of n, most significant first. */
  function ToBigEndian(n: nat, k: nat): (r: seq<byte>)
    ensures |r| == k
  {
    if k == 0 then [] else ToBigEndian(n / 256, k - 1) + [(n % 256) as byte]
  }

  /** The unsigned value of a big-endian byte sequence. */
  function FromBigEndian(s: seq<byte>): (n: nat)
    ensures n < Pow256(|s|)
  {
    if s == [] then 0 else FromBigEndian(s[..|s| - 1]) * 256 + s[|s| - 1] as int
  }

  /** Reading back k bytes written from n < 256^k gives n. */
  lemma {:induction false} FromToBigEndian(n: nat, k: nat)
    requires n < Pow256(k)
    ensures FromBigEndian(ToBigEndian(n, k)) == n
  {
    if k > 0 {
      var q, s := n / 256, ToBigEndian(n, k);
      var last: byte := (n % 256) as byte;
      assert q < Pow256(k - 1);
      assert s == ToBigEndian(q, k - 1) + [last];
      assert s[..|s| - 1] == ToBigEndian(q, k - 1);
      FromToBigEndian(q, k - 1);
      assert FromBigEndian(s) == q * 256 + n % 256;
    }
  }

  /** Interprets an unsigned 32-bit value as a Java `int`. */
  function ToSigned32(u: int): (v: int32)
    requires 0 <= u < TWO_32
    ensures v % TWO_32 == u
  {
    if u < TWO_31 then u else u - TWO_32
  }

  /** Java `int` arithmetic: the exact result reduced to 32 bits. */
  function Wrap32(n: int): (v: int32)
    ensures v % TWO_32 == n % TWO_32
    ensures -TWO_31 <= n < TWO_31 ==> v == n
  {
    ToSigned32(n % TWO_32)
  }

  /** `writeInt`: the low 32 bits of v. */
  function Int32Bytes(v: int): (r: seq<byte>)
    ensures |r| == 4
  {
    ToBigEndian(v % TWO_32, 4)
  }

  /** `readInt`. */
  function ReadInt32(s: seq<byte>): int32
    requires |s| == 4
  {
    Pow256Values();
    ToSigned32(FromBigEndian(s))
  }

  /** `writeShort`: the low 16 bits of v. */
  function Int16Bytes(v: int): (r: seq<byte>)
    ensures |r| == 2
  {
    ToBigEndian(v % TWO_16, 2)
  }

  /** `readShort() & 0xFFFF`: the unsigned 16-bit value. */
  function ReadUnsigned16(s: seq<byte>): (v: nat)
    requires |s| == 2
    ensures v < TWO_16
  {
    Pow256Values();
    FromBigEndian(s)
  }

  /** `writeLong`: the low 64 bits of v. */
  function Int64Bytes(v: int): (r: seq<byte>)
    ensures |r| == 8
  {
    ToBigEndian(v % TWO_64, 8)
  }

  /** `readLong`. */
  function ReadInt64(s: seq<byte>): int64
    requires |s| == 8
  {
    Pow256Values();
    var u := FromBigEndian(s);
    if u < TWO_63 then u else u - TWO_64
  }

  lemma Int32RoundTrip(v: int32)
    ensures ReadInt32(Int32Bytes(v)) == v
  {
    Pow256Values();
    FromToBigEndian(v % TWO_32, 4);
  }

  /** Any int written with `writeInt` reads back as its 32-bit wrap-around. */
  lemma Int32Wraps(v: int)
    ensures ReadInt32(Int32Bytes(v)) == Wrap32(v)
  {
    Pow256Values();
    FromToBigEndian(v % TWO_32, 4);
  }

  /** Any int written with `writeShort` and read back unsigned gives its low
      16 bits; a port in 0..65535 comes back unchanged. */
  lemma Unsigned16RoundTrip(v: int)
    ensures ReadUnsigned16(Int16Bytes(v)) == v % TWO_16
    ensures 0 <= v < TWO_16 ==> ReadUnsigned16(Int16Bytes(v)) == v
  {
    Pow256Values();
    FromToBigEndian(v % TWO_16, 2);
  }

  lemma Int64RoundTrip(v: int64)
    ensures ReadInt64(Int64Bytes(v)) == v
  {
    Pow256Values();
    FromToBigEndian(v % TWO_64, 8);
  }

  /** The four parts of a concatenation, sliced back out. */
  lemma Slices4(a: seq<byte>, b: seq<byte>, c: seq<byte>, d: seq<byte>)
    ensures var s := a + b + c + d;
      && s[..|a|] == a
      && s[|a|..|a| + |b|] == b
      && s[|a| + |b|..|a| + |b| + |c|] == c
      && s[|a| + |b| + |c|..] == d
  {
  }
}
