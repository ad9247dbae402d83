/** Overlay addresses: the IPv4 allocator, the IPv6 addresses derived from it,
    and the peer table both fill. */
module Allocator {
  import opened Basics
  import opened Netip
  import opened Numbers


  // ----- prefixes -----

  lemma {:induction false} Pow2Sum(a: nat, b: nat)
    ensures Pow2(a) * Pow2(b) == Pow2(a + b)
  {
    if a > 0 {
      Pow2Sum(a - 1, b);
      assert Pow2(a) * Pow2(b) == 2 * (Pow2(a - 1) * Pow2(b));
    }
  }

  lemma Pow2Word()
    ensures Pow2(32) == WORD
  {
    assert Pow2(8) == 256;
    Pow2Sum(8, 8);
    Pow2Sum(16, 16);
  }

  /** An IPv4 prefix as the standard library makes them. */
  predicate IsV4Prefix(p: Prefix) {
    p.addr.V4? && p.bits <= 32
  }

  /** Addresses under the prefix. */
  function Size(p: Prefix): nat
    requires IsV4Prefix(p)
  {
    Pow2(32 - p.bits)
  }

  /** v with its low bits cleared, for s a power of two. */
  function Floor(v: nat, s: nat): (r: nat)
    requires s > 0
    ensures r <= v
  {
    v - v % s
  }

  /** The network address: the host bits cleared. */
  function Network(p: Prefix): u32
    requires IsV4Prefix(p)
  {
    Floor(p.addr.v4, Size(p))
  }

  /** Clearing the host bits leaves room for the whole block. */
  lemma NetworkFits(p: Prefix)
    requires IsV4Prefix(p)
    ensures Network(p) <= p.addr.v4 < Network(p) + Size(p) <= WORD
  {
    Pow2Sum(32 - p.bits, p.bits);
    Pow2Word();
    BlockFits(p.addr.v4, Size(p), Pow2(p.bits));
  }

  lemma BlockFits(v: nat, s: nat, t: nat)
    requires s > 0 && v < s * t
    ensures Floor(v, s) <= v < Floor(v, s) + s <= s * t
  {
    var q := v / s;
    assert v == q * s + v % s;
    assert (q + 1) * s == q * s + s;
    if q >= t {
      Monotone(t, q, s);
    } else {
      Monotone(q + 1, t, s);
    }
  }

  lemma Monotone(a: nat, b: nat, s: nat)
    requires a <= b
    ensures a * s <= b * s
  {
  }

  /** The broadcast address: the host bits set. */
  function Broadcast(p: Prefix): u32
    requires IsV4Prefix(p)
  {
    NetworkFits(p);
    Network(p) + Size(p) - 1
  }

  /** What a peer may be given: neither network, hub nor broadcast. */
  predicate Host(p: Prefix, a: int)
    requires IsV4Prefix(p)
  {
    Network(p) + 1 < a < Broadcast(p)
  }

  predicate Contains(p: Prefix, a: u32)
    requires IsV4Prefix(p)
  {
    Network(p) <= a < Network(p) + Size(p)
  }

  // ----- the allocator -----

  datatype AllocError = NotIPv4 | Exhausted

  predicate Used(held: seq<Addr>, a: u32) {
    exists i :: 0 <= i < |held| && Unmap(held[i]) == V4(a)
  }

  /** The lowest free host address, or Exhausted exactly when all are used. */
  method NextAddress(p: Prefix, held: seq<Addr>) returns (r: Result<Addr, AllocError>)
    requires p.addr.V4? ==> p.bits <= 32
    ensures r.Err? && r.error.NotIPv4? <==> !p.addr.V4?
    ensures r.Err? && r.error.Exhausted? <==> p.addr.V4? && forall a: u32 :: Host(p, a) ==> Used(held, a)
    ensures r.Ok? ==> p.addr.V4? && r.value.V4? && Host(p, r.value.v4) && !Used(held, r.value.v4)
    ensures r.Ok? ==> forall a: u32 :: Host(p, a) && a < r.value.v4 ==> Used(held, a)
  {
    if !p.addr.V4? {
      return Err(NotIPv4);
    }
    NetworkFits(p);
    var used: set<Addr> := {};
    for i := 0 to |held|
      invariant forall a: u32 :: V4(a) in used <==> Used(held[..i], a)
    {
      used := used + {Unmap(held[i])};
      assert forall a: u32 :: Used(held[..i + 1], a) <==> Used(held[..i], a) || Unmap(held[i]) == V4(a) by {
        UsedOneMore(held, i);
      }
    }
    assert held[..|held|] == held;
    var hub := Next(V4(Network(p)));
    var a := Next(hub);
    while a.V4? && Contains(p, a.v4) && a.v4 < Broadcast(p)
      invariant a.V4? ==> a.v4 > Network(p) + 1
      invariant forall b: u32 :: Host(p, b) && (a.V4? ==> b < a.v4) ==> Used(held, b)
      decreases if a.V4? then WORD - a.v4 else 0
    {
      if a !in used {
        return Ok(a);
      }
      a := Next(a);
    }
    return Err(Exhausted);
  }

  lemma UsedOneMore(held: seq<Addr>, i: nat)
    requires i < |held|
    ensures forall a: u32 :: Used(held[..i + 1], a) <==> Used(held[..i], a) || Unmap(held[i]) == V4(a)
  {
    forall a: u32 ensures Used(held[..i + 1], a) <==> Used(held[..i], a) || Unmap(held[i]) == V4(a) {
      assert held[..i + 1] == held[..i] + [held[i]];
      if Used(held[..i], a) {
        var j :| 0 <= j < i && Unmap(held[..i][j]) == V4(a);
        assert Unmap(held[..i + 1][j]) == V4(a);
      }
      if Unmap(held[i]) == V4(a) {
        assert Unmap(held[..i + 1][i]) == V4(a);
      }
    }
  }

  // ----- IPv6 -----

  /** The peer's IPv4 address in the low bits of a /64; Invalid when the
      prefix is no IPv6 /64 or the address no IPv4. */
  function IPv6For(prefix: Prefix, addr: Addr): Addr {
    var v4 := Unmap(addr);
    if !prefix.addr.V6? || Is4In6(prefix.addr) || prefix.bits != 64 || !v4.V4? then Invalid
    else V6(prefix.addr.hi, v4.v4)
  }

  /** The IPv4 address can be read back, so two peers never share an IPv6
      address. */
  lemma IPv6Distinct(prefix: Prefix, a: u32, b: u32)
    requires a != b && IPv6For(prefix, V4(a)) != Invalid
    ensures IPv6For(prefix, V4(a)) != IPv6For(prefix, V4(b))
    ensures var r := IPv6For(prefix, V4(a)); r.V6? && r.lo % WORD == a && r.hi == prefix.addr.hi && !Is4In6(r)
  {
  }

  // ----- the peer table -----

  datatype Addresses = Addresses(v4: u32, v6: Addr)

  type Table = map<text, Addresses>

  /** The addresses the transaction reads, in any order. */
  ghost predicate Reads(t: Table, held: seq<Addr>) {
    && (forall id :: id in t ==> V4(t[id].v4) in held)
    && (forall a :: a in held ==> a.V4? && exists id :: id in t && t[id].v4 == a.v4)
  }

  class Peers {
    var table: Table

    constructor ()
      ensures table == map[]
    {
      table := map[];
    }

    /** The transaction of an enrolment or of adding a static device; held is
        what it reads in the same transaction, refused any other reason to
        roll it back: a token, a name or a key. */
    method Add(overlay: Prefix, overlay6: Prefix, id: text, held: seq<Addr>, refused: bool) returns (ok: bool)
      requires IsV4Prefix(overlay) && Reads(table, held)
      modifies this
      ensures Added(overlay, overlay6, old(table), id, refused, table, ok)
    {
      var next := NextAddress(overlay, held);
      UsedIsTaken(table, held);
      assert next.Ok? ==> Free(overlay, table, next.value.v4);
      if refused || next.Err? || id in table {
        return false;
      }
      table := table[id := Addresses(next.value.v4, IPv6For(overlay6, next.value))];
      ok := true;
    }

    method Delete(id: text)
      modifies this
      ensures table == old(table) - {id}
    {
      table := table - {id};
    }
  }

  predicate Taken(t: Table, a: int) {
    exists id :: id in t && t[id].v4 == a
  }

  ghost predicate Free(overlay: Prefix, t: Table, a: u32)
    requires IsV4Prefix(overlay)
  {
    Host(overlay, a) && !Taken(t, a)
  }

  ghost predicate Lowest(overlay: Prefix, t: Table, a: u32)
    requires IsV4Prefix(overlay)
  {
    Free(overlay, t, a) && forall b: u32 :: Free(overlay, t, b) ==> a <= b
  }

  lemma UsedIsTaken(t: Table, held: seq<Addr>)
    requires Reads(t, held)
    ensures forall a: u32 :: Used(held, a) <==> Taken(t, a)
  {
    forall a: u32 ensures Used(held, a) <==> Taken(t, a) {
      if Used(held, a) {
        var i :| 0 <= i < |held| && Unmap(held[i]) == V4(a);
        assert held[i] in held;
      }
      if Taken(t, a) {
        var id :| id in t && t[id].v4 == a;
        var i :| 0 <= i < |held| && held[i] == V4(a);
        assert Unmap(held[i]) == V4(a);
      }
    }
  }

  /** A new peer gets the lowest free host address and the IPv6 address made
      from it; the transaction fails, and changes nothing, exactly when it
      is refused, the id exists or no host address is free. */
  ghost predicate Added(overlay: Prefix, overlay6: Prefix, t: Table, id: text, refused: bool, t': Table, ok: bool)
    requires IsV4Prefix(overlay)
  {
    && (ok <==> !refused && id !in t && exists a: u32 :: Free(overlay, t, a))
    && (!ok ==> t' == t)
    && (ok ==> id in t' && t' == t[id := t'[id]])
    && (ok ==> Lowest(overlay, t, t'[id].v4) && t'[id].v6 == IPv6For(overlay6, V4(t'[id].v4)))
  }

  // ----- over whole runs -----

  datatype Op = Enrol(id: text, refused: bool) | AddStatic(id: text, refused: bool) | Remove(id: text)

  ghost predicate Step(overlay: Prefix, overlay6: Prefix, t: Table, op: Op, t': Table)
    requires IsV4Prefix(overlay)
  {
    match op
    case Enrol(id, refused) => exists ok :: Added(overlay, overlay6, t, id, refused, t', ok)
    case AddStatic(id, refused) => exists ok :: Added(overlay, overlay6, t, id, refused, t', ok)
    case Remove(id) => t' == t - {id}
  }

  ghost predicate Run(overlay: Prefix, overlay6: Prefix, ts: seq<Table>, ops: seq<Op>)
    requires IsV4Prefix(overlay)
  {
    && |ts| == |ops| + 1 && ts[0] == map[]
    && forall i :: 0 <= i < |ops| ==> Step(overlay, overlay6, ts[i], ops[i], ts[i + 1])
  }

  ghost predicate WellAddressed(overlay: Prefix, overlay6: Prefix, t: Table)
    requires IsV4Prefix(overlay)
  {
    && (forall id :: id in t ==> Host(overlay, t[id].v4) && t[id].v6 == IPv6For(overlay6, V4(t[id].v4)))
    && (forall i, j :: i in t && j in t && i != j ==> t[i].v4 != t[j].v4)
  }

  lemma StepKeepsAddresses(overlay: Prefix, overlay6: Prefix, t: Table, op: Op, t': Table)
    requires IsV4Prefix(overlay) && WellAddressed(overlay, overlay6, t) && Step(overlay, overlay6, t, op, t')
    ensures WellAddressed(overlay, overlay6, t')
  {
    if !op.Remove? && t' != t {
      var id := op.id;
      assert Free(overlay, t, t'[id].v4);
      forall i | i in t' && i != id ensures t'[i].v4 != t'[id].v4 {
        assert i in t && t[i] == t'[i];
      }
    }
  }

  lemma {:induction false} AlwaysWellAddressed(overlay: Prefix, overlay6: Prefix, ts: seq<Table>, ops: seq<Op>, i: nat)
    requires IsV4Prefix(overlay) && Run(overlay, overlay6, ts, ops) && i < |ts|
    ensures WellAddressed(overlay, overlay6, ts[i])
  {
    if i > 0 {
      var k := i - 1;
      AlwaysWellAddressed(overlay, overlay6, ts, ops, k);
      assert Step(overlay, overlay6, ts[k], ops[k], ts[k + 1]);
      StepKeepsAddresses(overlay, overlay6, ts[k], ops[k], ts[i]);
    }
  }

  /** In every reachable table addresses are distinct, inside the overlay and
      none of the three reserved ones; the IPv6 ones differ from each other
      and from the hub's. */
  lemma AddressesStaySound(overlay: Prefix, overlay6: Prefix, ts: seq<Table>, ops: seq<Op>, i: nat, a: text, b: text)
    requires IsV4Prefix(overlay) && Run(overlay, overlay6, ts, ops) && i < |ts| && a in ts[i]
    ensures Contains(overlay, ts[i][a].v4)
    ensures ts[i][a].v4 != Network(overlay) && V4(ts[i][a].v4) != Next(V4(Network(overlay)))
            && ts[i][a].v4 != Broadcast(overlay)
    ensures b in ts[i] && a != b ==> ts[i][a].v4 != ts[i][b].v4
    ensures b in ts[i] && a != b && ts[i][a].v6 != Invalid ==> ts[i][a].v6 != ts[i][b].v6
    ensures ts[i][a].v6 != Invalid ==> ts[i][a].v6 != IPv6For(overlay6, Next(V4(Network(overlay))))
  {
    AlwaysWellAddressed(overlay, overlay6, ts, ops, i);
    NetworkFits(overlay);
    if ts[i][a].v6 != Invalid {
      IPv6Distinct(overlay6, ts[i][a].v4, Network(overlay) + 1);
      if b in ts[i] && a != b {
        IPv6Distinct(overlay6, ts[i][a].v4, ts[i][b].v4);
      }
    }
  }

  // ----- capacity -----

  function Capacity(overlay: Prefix): nat
    requires IsV4Prefix(overlay)
  {
    if Size(overlay) > 3 then Size(overlay) - 3 else 0
  }

  function HostSet(lo: int, hi: int): (r: set<int>)
    ensures forall a :: a in r <==> lo <= a < hi
    decreases hi - lo
  {
    if lo >= hi then {} else HostSet(lo, hi - 1) + {hi - 1}
  }

  lemma {:induction false} HostSetSize(lo: int, hi: int)
    ensures |HostSet(lo, hi)| == if lo < hi then hi - lo else 0
    decreases hi - lo
  {
    if lo < hi {
      HostSetSize(lo, hi - 1);
    }
  }

  function TakenSet(t: Table): set<int> {
    set id | id in t :: t[id].v4
  }

  lemma {:induction false} TakenSetSize(t: Table)
    requires forall i, j :: i in t && j in t && i != j ==> t[i].v4 != t[j].v4
    ensures |TakenSet(t)| == |t|
    decreases |t|
  {
    if t == map[] {
      assert TakenSet(t) == {};
    } else {
      var id :| id in t;
      var rest := t - {id};
      assert |rest| == |t| - 1 by {
        assert t.Keys == rest.Keys + {id};
        assert |rest| == |rest.Keys| && |t| == |t.Keys|;
      }
      TakenSetSize(rest);
      assert TakenSet(t) == TakenSet(rest) + {t[id].v4};
      assert t[id].v4 !in TakenSet(rest);
    }
  }

  lemma SubsetSize<T>(a: set<T>, b: set<T>)
    requires a <= b
    ensures |a| <= |b| && (|a| == |b| ==> a == b)
  {
    assert b == a + (b - a);
    assert |b| == |a| + |b - a|;
  }

  /** No more peers than host addresses fit, and a new one is refused only
      when that many are there: no address is ever lost. */
  lemma FullIff(overlay: Prefix, overlay6: Prefix, ts: seq<Table>, ops: seq<Op>, i: nat)
    requires IsV4Prefix(overlay) && Run(overlay, overlay6, ts, ops) && i < |ts|
    ensures |ts[i]| <= Capacity(overlay)
    ensures (exists a: u32 :: Free(overlay, ts[i], a)) <==> |ts[i]| < Capacity(overlay)
  {
    AlwaysWellAddressed(overlay, overlay6, ts, ops, i);
    NetworkFits(overlay);
    var t, hosts := ts[i], HostSet(Network(overlay) + 2, Broadcast(overlay));
    HostSetSize(Network(overlay) + 2, Broadcast(overlay));
    TakenSetSize(t);
    assert TakenSet(t) <= hosts;
    SubsetSize(TakenSet(t), hosts);
    FreeIff(overlay, t);
  }

  /** A host address is free exactly when the taken ones are not all. */
  lemma FreeIff(overlay: Prefix, t: Table)
    requires IsV4Prefix(overlay) && TakenSet(t) <= HostSet(Network(overlay) + 2, Broadcast(overlay))
    ensures (exists a: u32 :: Free(overlay, t, a)) <==> TakenSet(t) != HostSet(Network(overlay) + 2, Broadcast(overlay))
  {
    var hosts := HostSet(Network(overlay) + 2, Broadcast(overlay));
    if a: u32 :| Free(overlay, t, a) {
      assert a in hosts && a !in TakenSet(t);
    } else {
      forall a | a in hosts ensures a in TakenSet(t) {
        assert !Free(overlay, t, a);
        assert Taken(t, a);
      }
    }
  }

  /** An address that was given back is the next one given out when nothing
      lower is free. */
  lemma FreedIsReused(overlay: Prefix, overlay6: Prefix, t: Table, id: text, again: text, t': Table, ok: bool)
    requires IsV4Prefix(overlay) && WellAddressed(overlay, overlay6, t) && id in t && again !in t
    requires forall a: u32 :: Free(overlay, t, a) ==> a > t[id].v4
    requires Added(overlay, overlay6, t - {id}, again, false, t', ok)
    ensures ok && t'[again].v4 == t[id].v4 && t'[again].v6 == t[id].v6
  {
    var left := t - {id};
    assert Free(overlay, left, t[id].v4);
    var a := t'[again].v4;
    assert a <= t[id].v4 && !Free(overlay, t, a);
    var o :| o in t && t[o].v4 == a;
    assert o in left ==> Taken(left, a);
  }
}
