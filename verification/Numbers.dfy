/** Machine integers and their big-endian bytes. */
module Numbers {
  import opened Basics

  const WORD := 0x1_0000_0000

  type u16 = n: int | 0 <= n < 0x1_0000
  type u32 = n: int | 0 <= n < WORD
  type u64 = n: int | 0 <= n < 0x1_0000_0000_0000_0000

  function BigEndian(n: nat, width: nat): (r: seq<byte>)
    ensures |r| == width
  {
    if width == 0 then [] else BigEndian(n / 256, width - 1) + [(n % 256) as byte]
  }

  function Pow256(width: nat): nat {
    if width == 0 then 1 else 256 * Pow256(width - 1)
  }

  lemma {:induction false} BigEndianInjective(m: nat, n: nat, width: nat)
    requires m < Pow256(width) && n < Pow256(width)
    requires BigEndian(m, width) == BigEndian(n, width)
    ensures m == n
  {
    if width > 0 {
      var a, b := BigEndian(m / 256, width - 1), BigEndian(n / 256, width - 1);
      assert BigEndian(m, width)[width - 1] == (m % 256) as byte;
      assert BigEndian(n, width)[width - 1] == (n % 256) as byte;
      assert a == BigEndian(m, width)[..width - 1] && b == BigEndian(n, width)[..width - 1];
      BigEndianInjective(m / 256, n / 256, width - 1);
    }
  }

  /** Two bytes, and the value of two bytes. */
  function U16(v: u16): (b: seq<byte>)
    ensures |b| == 2
  {
    BigEndian(v, 2)
  }

  function FromU16(hi: byte, lo: byte): u16 {
    hi as int * 256 + lo as int
  }

  function U32(v: u32): (b: seq<byte>)
    ensures |b| == 4
  {
    U16(v / 0x1_0000) + U16(v % 0x1_0000)
  }

  function FromU32(b: seq<byte>): u32
    requires |b| == 4
  {
    FromU16(b[0], b[1]) * 0x1_0000 + FromU16(b[2], b[3])
  }

  function U64(v: u64): (b: seq<byte>)
    ensures |b| == 8
  {
    U32(v / WORD) + U32(v % WORD)
  }

  function FromU64(b: seq<byte>): u64
    requires |b| == 8
  {
    FromU32(b[..4]) * WORD + FromU32(b[4..])
  }

  lemma U16Bytes(v: u16)
    ensures U16(v) == [(v / 256) as byte, (v % 256) as byte]
  {
    assert BigEndian(v / 256, 1) == BigEndian(v / 256 / 256, 0) + [(v / 256 % 256) as byte];
  }

  lemma U16Back(v: u16)
    ensures FromU16(U16(v)[0], U16(v)[1]) == v
  {
    U16Bytes(v);
  }

  lemma BytesBack(hi: byte, lo: byte)
    ensures U16(FromU16(hi, lo)) == [hi, lo]
  {
    U16Bytes(FromU16(hi, lo));
  }

  lemma U32Back(v: u32)
    ensures FromU32(U32(v)) == v
  {
    U16Back(v / 0x1_0000);
    U16Back(v % 0x1_0000);
  }

  lemma U64Back(v: u64)
    ensures FromU64(U64(v)) == v
  {
    U32Back(v / WORD);
    U32Back(v % WORD);
    assert U64(v)[..4] == U32(v / WORD) && U64(v)[4..] == U32(v % WORD);
  }

  // ----- exclusive or -----

  function Pow2(n: nat): (p: nat)
    ensures p > 0
  {
    if n == 0 then 1 else 2 * Pow2(n - 1)
  }

  /** Exclusive or, binary digit by binary digit. */
  function XorBits(x: nat, m: nat, width: nat): (r: nat)
    ensures r < Pow2(width)
  {
    if width == 0 then 0 else 2 * XorBits(x / 2, m / 2, width - 1) + (x + m) % 2
  }

  /** The last digit of an exclusive or, and the rest. */
  lemma XorStep(x: nat, m: nat, width: nat)
    requires width > 0
    ensures XorBits(x, m, width) / 2 == XorBits(x / 2, m / 2, width - 1) && XorBits(x, m, width) % 2 == (x + m) % 2
  {
  }

  lemma Parity(x: nat, m: nat, r: nat)
    requires r % 2 == (x + m) % 2
    ensures (r + m) % 2 == x % 2
  {
  }

  lemma SameDigits(x: nat, y: nat)
    requires x / 2 == y / 2 && x % 2 == y % 2
    ensures x == y
  {
  }

  lemma {:induction false} XorBitsTwice(x: nat, m: nat, width: nat)
    requires x < Pow2(width)
    ensures XorBits(XorBits(x, m, width), m, width) == x
  {
    if width > 0 {
      var r := XorBits(x, m, width);
      XorBitsTwice(x / 2, m / 2, width - 1);
      XorStep(x, m, width);
      XorStep(r, m, width);
      Parity(x, m, r);
      SameDigits(XorBits(r, m, width), x);
    }
  }

  lemma Pow2Byte()
    ensures Pow2(8) == 256
  {
    assert Pow2(4) == 16;
  }

  function Xor(x: byte, m: byte): byte {
    Pow2Byte();
    XorBits(x as int, m as int, 8) as byte
  }

  lemma XorTwice(x: byte, m: byte)
    ensures Xor(Xor(x, m), m) == x
  {
    Pow2Byte();
    XorBitsTwice(x as int, m as int, 8);
  }
}
