/** IP addresses as the program's library has them. */
module Netip {
  import opened Basics
  import opened Numbers

  /** A zone-free address; Invalid is the zero value. An IPv6 address is its
      two halves. */
  datatype Addr = Invalid | V4(v4: u32) | V6(hi: u64, lo: u64)

  datatype Prefix = Prefix(addr: Addr, bits: nat)

  /** IPv4-mapped IPv6 addresses, ::ffff:0:0/96. */
  predicate Is4In6(a: Addr) {
    a.V6? && a.hi == 0 && a.lo / WORD == 0xffff
  }

  function Unmap(a: Addr): Addr {
    if Is4In6(a) then V4(a.lo % WORD) else a
  }

  /** The next IPv4 address; none after the last. */
  function Next(a: Addr): Addr {
    if a.V4? && a.v4 + 1 < WORD then V4(a.v4 + 1) else Invalid
  }

  function Slice(a: Addr): (b: seq<byte>)
    ensures |b| == if a.Invalid? then 0 else if a.V4? then 4 else 16
  {
    match a
    case Invalid => []
    case V4(v4) => U32(v4)
    case V6(hi, lo) => U64(hi) + U64(lo)
  }

  function FromSlice(b: seq<byte>): Addr {
    if |b| == 4 then V4(FromU32(b)) else if |b| == 16 then V6(FromU64(b[..8]), FromU64(b[8..])) else Invalid
  }

  lemma SliceBack(a: Addr)
    ensures FromSlice(Slice(a)) == a
  {
    match a
    case Invalid =>
    case V4(v4) => U32Back(v4);
    case V6(hi, lo) =>
      U64Back(hi);
      U64Back(lo);
      assert Slice(a)[..8] == U64(hi) && Slice(a)[8..] == U64(lo);
  }
}
