/** Bytes, fixed-width integers and their wire forms. */
module Bytes {
  type byte = x: int | 0 <= x < 0x100
  type u16 = x: int | 0 <= x < 0x1_0000
  type u32 = x: int | 0 <= x < 0x1_0000_0000
  type i32 = x: int | -0x8000_0000 <= x < 0x8000_0000

  datatype Option<+T> = None | Some(value: T)

  /** The unsigned reading of the low 32 bits of an integer. */
  function Low32(v: int): u32 {
    v % 0x1_0000_0000
  }

  /** The two's complement reading of 32 bits. */
  function Signed32(u: u32): i32 {
    if u < 0x8000_0000 then u else u - 0x1_0000_0000
  }

  /** Go's conversion of a wider integer to int32. */
  function Wrap32(v: int): (r: i32)
    ensures -0x8000_0000 <= v < 0x8000_0000 ==> r == v
    ensures Low32(r) == Low32(v)
  {
    Signed32(Low32(v))
  }

  /** 256 to the power n: the number of values n bytes can hold. */
  function Span(n: nat): (r: nat)
    ensures r > 0
  {
    if n == 0 then 1 else 0x100 * Span(n - 1)
  }

  /** The n least significant base-256 digits, least significant first. */
  function LittleEndian(u: nat, n: nat): (b: seq<byte>)
    ensures |b| == n
  {
    if n == 0 then [] else [u % 0x100] + LittleEndian(u / 0x100, n - 1)
  }

  function FromLittleEndian(b: seq<byte>): (u: nat)
    ensures u < Span(|b|)
  {
    if b == [] then 0 else b[0] + 0x100 * FromLittleEndian(b[1..])
  }

  lemma {:induction false} LittleEndianRoundTrip(u: nat, n: nat)
    requires u < Span(n)
    ensures FromLittleEndian(LittleEndian(u, n)) == u
  {
    if n > 0 {
      LittleEndianRoundTrip(u / 0x100, n - 1);
      assert LittleEndian(u, n)[1..] == LittleEndian(u / 0x100, n - 1);
    }
  }

  /** The n least significant base-256 digits, most significant first. */
  function BigEndian(u: nat, n: nat): (b: seq<byte>)
    ensures |b| == n
  {
    if n == 0 then [] else BigEndian(u / 0x100, n - 1) + [u % 0x100]
  }

  function FromBigEndian(b: seq<byte>): (u: nat)
    ensures u < Span(|b|)
  {
    if b == [] then 0 else 0x100 * FromBigEndian(b[..|b| - 1]) + b[|b| - 1]
  }

  lemma {:induction false} BigEndianRoundTrip(u: nat, n: nat)
    requires u < Span(n)
    ensures FromBigEndian(BigEndian(u, n)) == u
  {
    if n > 0 {
      BigEndianRoundTrip(u / 0x100, n - 1);
      assert BigEndian(u, n)[..n - 1] == BigEndian(u / 0x100, n - 1);
    }
  }

  function BigEndian16(v: u16): (b: seq<byte>)
    ensures |b| == 2
  {
    BigEndian(v, 2)
  }

  function FromBigEndian16(b: seq<byte>): u16
    requires |b| == 2
  {
    assert Span(2) == 0x1_0000;
    FromBigEndian(b)
  }

  function BigEndian32(v: u32): (b: seq<byte>)
    ensures |b| == 4
  {
    BigEndian(v, 4)
  }

  function FromBigEndian32(b: seq<byte>): u32
    requires |b| == 4
  {
    assert Span(4) == 0x1_0000_0000;
    FromBigEndian(b)
  }

  /** The four little-endian bytes of the low 32 bits of `v`. */
  function LittleEndian32(v: int): (b: seq<byte>)
    ensures |b| == 4
  {
    LittleEndian(Low32(v), 4)
  }

  /** Reads four little-endian bytes as a two's complement int32. */
  function FromLittleEndian32(b: seq<byte>): i32
    requires |b| == 4
  {
    assert Span(4) == 0x1_0000_0000;
    Signed32(FromLittleEndian(b))
  }

  lemma BigEndian16RoundTrip(v: u16)
    ensures FromBigEndian16(BigEndian16(v)) == v
  {
    BigEndianRoundTrip(v, 2);
  }

  lemma BigEndian32RoundTrip(v: u32)
    ensures FromBigEndian32(BigEndian32(v)) == v
  {
    BigEndianRoundTrip(v, 4);
  }

  /** The four bytes of a word, lowest first. */
  lemma LittleEndian32Bytes(v: int)
    ensures var w := Low32(v); LittleEndian32(v) == [w % 256, w / 256 % 256, w / 65536 % 256, w / 16777216]
  {
    var w := Low32(v);
    var w1, w2, w3 := w / 256, w / 65536, w / 16777216;
    assert w1 / 256 == w2 && w2 / 256 == w3 && w3 % 256 == w3;
    assert LittleEndian(w3, 1) == [w3] && LittleEndian(w2, 2) == [w2 % 256] + LittleEndian(w3, 1);
    assert LittleEndian(w1, 3) == [w1 % 256] + LittleEndian(w2, 2);
  }

  /** The four bytes of a word, highest first. */
  lemma BigEndian32Bytes(w: u32)
    ensures BigEndian32(w) == [w / 16777216, w / 65536 % 256, w / 256 % 256, w % 256]
  {
    var w1, w2, w3 := w / 256, w / 65536, w / 16777216;
    assert w1 / 256 == w2 && w2 / 256 == w3 && w3 % 256 == w3;
    assert BigEndian(w3, 1) == [w3] && BigEndian(w2, 2) == BigEndian(w3, 1) + [w2 % 256];
    assert BigEndian(w1, 3) == BigEndian(w2, 2) + [w1 % 256];
  }

  lemma BigEndian16Bytes(w: u16)
    ensures BigEndian16(w) == [w / 256, w % 256]
  {
    assert BigEndian(w / 256, 1) == [w / 256];
  }

  lemma LittleEndian32RoundTrip(v: int)
    ensures FromLittleEndian32(LittleEndian32(v)) == Wrap32(v)
  {
    LittleEndianRoundTrip(Low32(v), 4);
  }
}
