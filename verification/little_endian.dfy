/** Little-endian reads and writes of Java `short` and `int` values in a byte buffer.

    `ByteBuffer.getShort` and `ByteBuffer.getInt` in little-endian order
    assemble their bytes with the last byte as the most significant one and
    return a SIGNED two's-complement value. `GetShort` and `GetInt` compute
    that value the way the JVM does, byte by byte with a sign-carrying top
    byte; `Unsigned` and `Signed` are an independent reference reading of a
    byte string of any length, and every decoder is tied to it. */
module LittleEndian {

  /** An 8-bit byte as it sits in a file or a Java `byte[]`, read unsigned. */
  newtype byte = b: int | 0 <= b < 0x100

  const Int16Min: int := -0x8000
  const Int16Max: int := 0x7FFF
  const Int32Min: int := -0x8000_0000
  const Int32Max: int := 0x7FFF_FFFF

  predicate IsInt16(v: int) { Int16Min <= v <= Int16Max }

  predicate IsInt32(v: int) { Int32Min <= v <= Int32Max }

  /** 256 to the power n: the number of values n bytes can hold. */
  function Pow256(n: nat): (p: nat)
    ensures p >= 1
  {
    if n == 0 then 1 else 0x100 * Pow256(n - 1)
  }

  /** Reference reading: the unsigned value of a little-endian byte string. */
  function Unsigned(bs: seq<byte>): nat
  {
    if |bs| == 0 then 0 else (bs[0] as nat) + 0x100 * Unsigned(bs[1..])
  }

  /** Reference reading: the two's-complement value of a little-endian byte
      string, whose top bit weighs minus half of Pow256(|bs|). */
  function Signed(bs: seq<byte>): (r: int)
    ensures 0 <= Pow256(|bs|) + 2 * r && 2 * r < Pow256(|bs|)
  {
    UnsignedBound(bs);
    var u := Unsigned(bs);
    if 2 * u >= Pow256(|bs|) then u - Pow256(|bs|) else u
  }

  lemma {:induction false} UnsignedBound(bs: seq<byte>)
    ensures Unsigned(bs) < Pow256(|bs|)
  {
    if |bs| > 0 {
      UnsignedBound(bs[1..]);
    }
  }

  /** A byte as Java's signed `byte`. */
  function SignedByte(b: byte): (r: int)
    ensures -0x80 <= r < 0x80
    ensures r % 0x100 == b as int
    ensures (r < 0) <==> (b >= 0x80)
  {
    if b < 0x80 then b as int else b as int - 0x100
  }

  lemma Unsigned2(bs: seq<byte>)
    requires |bs| == 2
    ensures Unsigned(bs) == (bs[0] as int) + 0x100 * (bs[1] as int)
  {
    var t := bs[1..];
    assert t[0] == bs[1] && t[1..] == [];
    assert Unsigned(t) == t[0] as nat + 0x100 * Unsigned(t[1..]);
  }

  lemma Unsigned4(bs: seq<byte>)
    requires |bs| == 4
    ensures Unsigned(bs) == (bs[0] as int) + 0x100 * ((bs[1] as int) + 0x100 * ((bs[2] as int) + 0x100 * (bs[3] as int)))
  {
    var t1 := bs[1..];
    var t2 := t1[1..];
    var t3 := t2[1..];
    assert t3[1..] == [];
    assert Unsigned(t3) == bs[3] as int;
    assert Unsigned(t2) == (bs[2] as int) + 0x100 * Unsigned(t3);
    assert Unsigned(t1) == (bs[1] as int) + 0x100 * Unsigned(t2);
    assert Unsigned(bs) == (bs[0] as int) + 0x100 * Unsigned(t1);
  }

  /** `ByteBuffer.getShort(i)` in little-endian order, widened to `int`. */
  function GetShort(buf: seq<byte>, i: nat): (r: int)
    requires i + 2 <= |buf|
    ensures IsInt16(r)
    ensures r == Signed(buf[i..i + 2])
  {
    Unsigned2(buf[i..i + 2]);
    assert Pow256(2) == 0x1_0000;
    buf[i] as int + 0x100 * SignedByte(buf[i + 1])
  }

  /** `ByteBuffer.getInt(i)` in little-endian order. */
  function GetInt(buf: seq<byte>, i: nat): (r: int)
    requires i + 4 <= |buf|
    ensures IsInt32(r)
    ensures r == Signed(buf[i..i + 4])
  {
    Unsigned4(buf[i..i + 4]);
    assert Pow256(4) == 0x1_0000_0000;
    buf[i] as int + 0x100 * (buf[i + 1] as int + 0x100 * (buf[i + 2] as int + 0x100 * SignedByte(buf[i + 3])))
  }

  /** The two bytes, low byte first, that hold the 16-bit value v. */
  function EncodeShort(v: int): (bs: seq<byte>)
    requires IsInt16(v)
    ensures |bs| == 2
    ensures Signed(bs) == v
  {
    var hi := v / 0x100;
    var bs := [(v % 0x100) as byte, (hi % 0x100) as byte];
    Unsigned2(bs);
    assert Pow256(2) == 0x1_0000;
    bs
  }

  /** The four bytes, low byte first, that hold the 32-bit value v. */
  function EncodeInt(v: int): (bs: seq<byte>)
    requires IsInt32(v)
    ensures |bs| == 4
    ensures Signed(bs) == v
  {
    var v1 := v / 0x100;
    var v2 := v1 / 0x100;
    var v3 := v2 / 0x100;
    var bs := [(v % 0x100) as byte, (v1 % 0x100) as byte, (v2 % 0x100) as byte, (v3 % 0x100) as byte];
    Unsigned4(bs);
    assert Pow256(4) == 0x1_0000_0000;
    bs
  }

  /** Splitting low + 256 * high back into its low byte and the rest. */
  lemma SplitLowByte(low: int, high: int)
    requires 0 <= low < 0x100
    ensures (low + 0x100 * high) / 0x100 == high
    ensures (low + 0x100 * high) % 0x100 == low
  {
  }

  /** Two bytes are the encoding of the value they decode to: together with
      the ensures of EncodeShort, decoding is a bijection between 2-byte
      strings and the 16-bit range. */
  lemma EncodeSignedShort(bs: seq<byte>)
    requires |bs| == 2
    ensures EncodeShort(Signed(bs)) == bs
  {
    Unsigned2(bs);
    assert Pow256(2) == 0x1_0000;
    var e := EncodeShort(Signed(bs));
    Unsigned2(e);
  }

  /** Four bytes are the encoding of the value they decode to. */
  lemma EncodeSignedInt(bs: seq<byte>)
    requires |bs| == 4
    ensures EncodeInt(Signed(bs)) == bs
  {
    Unsigned4(bs);
    assert Pow256(4) == 0x1_0000_0000;
    var top := SignedByte(bs[3]);
    var v2 := bs[2] as int + 0x100 * top;
    var v1 := bs[1] as int + 0x100 * v2;
    var v := bs[0] as int + 0x100 * v1;
    assert Signed(bs) == v;
    SplitLowByte(bs[0] as int, v1);
    SplitLowByte(bs[1] as int, v2);
    SplitLowByte(bs[2] as int, top);
  }

  /** True when a and b have the same length and agree everywhere outside [lo, hi). */
  predicate AgreeOutside(a: seq<byte>, b: seq<byte>, lo: nat, hi: nat)
  {
    |a| == |b| && forall k :: 0 <= k < |a| && !(lo <= k < hi) ==> a[k] == b[k]
  }

  /** The inverse write of GetShort: stores v in the 2 bytes at i. The player
      never writes a header; this exists for the round-trip and
      non-interference lemmas about the getters. */
  function PutShort(buf: seq<byte>, i: nat, v: int): (r: seq<byte>)
    requires i + 2 <= |buf|
    requires IsInt16(v)
    ensures AgreeOutside(r, buf, i, i + 2)
    ensures GetShort(r, i) == v
  {
    var r := buf[..i] + EncodeShort(v) + buf[i + 2..];
    assert r[i..i + 2] == EncodeShort(v);
    r
  }

  /** The inverse write of GetInt: stores v in the 4 bytes at i, for the
      round-trip and non-interference lemmas about the getters. */
  function PutInt(buf: seq<byte>, i: nat, v: int): (r: seq<byte>)
    requires i + 4 <= |buf|
    requires IsInt32(v)
    ensures AgreeOutside(r, buf, i, i + 4)
    ensures GetInt(r, i) == v
  {
    var r := buf[..i] + EncodeInt(v) + buf[i + 4..];
    assert r[i..i + 4] == EncodeInt(v);
    r
  }
}
