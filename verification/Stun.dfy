/** STUN binding requests and responses (sections 6 and 15 of RFC 5389): the
    encoders, the parsers and the attribute iteration both parsers share. */
module Stun {
  import opened Basics
  import opened Netip
  import opened Numbers

  type octets = seq<byte>

  type TxID = t: octets | |t| == 12 witness [0, 0, 0, 0, 0, 0, 0, 0, 0, 0, 0, 0]
  type Bytes16 = b: octets | |b| == 16 witness [0, 0, 0, 0, 0, 0, 0, 0, 0, 0, 0, 0, 0, 0, 0, 0]

  const SOFTWARE: u16 := 0x8022
  const FINGERPRINT: u16 := 0x8028
  const MAPPED_ADDRESS: u16 := 0x0001
  const XOR_MAPPED_ADDRESS: u16 := 0x0020
  const XOR_MAPPED_ADDRESS_ALT: u16 := 0x8020

  /** "thawr-01" */
  const NAME: octets := [116, 104, 97, 119, 114, 45, 48, 49]
  const BINDING_REQUEST: octets := [0x00, 0x01]
  const SUCCESS: octets := [0x01, 0x01]
  const COOKIE: octets := [0x21, 0x12, 0xa4, 0x42]
  const HEADER_LEN := 20
  const LEN_FINGERPRINT := 8

  datatype AddrPort = AddrPort(addr: Addr, port: u16)

  const NO_ADDR := AddrPort(Invalid, 0)

  datatype Error =
    | NotSTUN
    | NotSuccessResponse
    | MalformedAttrs
    | NotBindingRequest
    | WrongSoftware
    | NoFingerprint
    | WrongFingerprint

  // ----- masking -----

  /** The port xored with 0x2112, the first half of the magic cookie. */
  function XorPort(port: u16): u16 {
    FromU16(Xor(U16(port)[0], COOKIE[0]), Xor(U16(port)[1], COOKIE[1]))
  }

  lemma XorPortOf(hi: byte, lo: byte)
    ensures XorPort(FromU16(hi, lo)) == FromU16(Xor(hi, COOKIE[0]), Xor(lo, COOKIE[1]))
  {
    BytesBack(hi, lo);
  }

  lemma XorPortTwice(port: u16)
    ensures XorPort(XorPort(port)) == port
  {
    var hi, lo := U16(port)[0], U16(port)[1];
    XorPortOf(Xor(hi, COOKIE[0]), Xor(lo, COOKIE[1]));
    XorTwice(hi, COOKIE[0]);
    XorTwice(lo, COOKIE[1]);
    U16Back(port);
  }

  // ----- attributes -----

  datatype Attr = Attr(kind: u16, value: octets)

  function Padded(n: nat): nat {
    (n + 3) / 4 * 4
  }

  /** The attributes of a message body; None when it is malformed. */
  function Attributes(b: octets): Option<seq<Attr>>
    decreases |b|
  {
    if b == [] then Some([])
    else if |b| < 4 then None
    else
      var n := FromU16(b[2], b[3]);
      if Padded(n) > |b| - 4 then None
      else
        var rest := Attributes(b[4 + Padded(n)..]);
        if rest.None? then None else Some([Attr(FromU16(b[0], b[1]), b[4..4 + n])] + rest.value)
  }

  /** Visit the attributes in order; a visit may fail. */
  function Visited<S>(fn: (S, Attr) -> Option<S>, s: S, attrs: seq<Attr>): Option<S> {
    if attrs == [] then Some(s)
    else
      var next := fn(s, attrs[0]);
      if next.None? then None else Visited(fn, next.value, attrs[1..])
  }

  function VisitedIn<S>(fn: (S, Attr) -> Option<S>, s: S, b: octets): Option<S> {
    var attrs := Attributes(b);
    if attrs.None? then None else Visited(fn, s, attrs.value)
  }

  lemma VisitStep<S>(fn: (S, Attr) -> Option<S>, s: S, b: octets)
    requires |b| >= 4 && Padded(FromU16(b[2], b[3])) <= |b| - 4
    ensures var n := FromU16(b[2], b[3]);
            var next := fn(s, Attr(FromU16(b[0], b[1]), b[4..4 + n]));
            VisitedIn(fn, s, b) == if next.None? then None else VisitedIn(fn, next.value, b[4 + Padded(n)..])
  {
    var n := FromU16(b[2], b[3]);
    var first, rest := Attr(FromU16(b[0], b[1]), b[4..4 + n]), Attributes(b[4 + Padded(n)..]);
    if rest.Some? {
      assert ([first] + rest.value)[1..] == rest.value;
    }
  }

  /** The iteration shared by both parsers. Malformed attributes and a failed
      visit end it alike. */
  method ForeachAttr<S>(body: octets, start: S, fn: (S, Attr) -> Option<S>) returns (r: Option<S>)
    ensures r == VisitedIn(fn, start, body)
  {
    var b, s := body, start;
    while |b| > 0
      invariant VisitedIn(fn, start, body) == VisitedIn(fn, s, b)
      decreases |b|
    {
      if |b| < 4 {
        return None;
      }
      var kind, n := FromU16(b[0], b[1]), FromU16(b[2], b[3]);
      var padded := Padded(n);
      if padded > |b| - 4 {
        return None;
      }
      VisitStep(fn, s, b);
      var next := fn(s, Attr(kind, b[4..4 + n]));
      if next.None? {
        return None;
      }
      s, b := next.value, b[4 + padded..];
    }
    return Some(s);
  }

  function EncodeAttr(a: Attr): octets
    requires |a.value| < 0x10000
  {
    U16(a.kind) + U16(|a.value|) + a.value + seq(Padded(|a.value|) - |a.value|, _ => 0)
  }

  function EncodeAttrs(attrs: seq<Attr>): octets
    requires forall a :: a in attrs ==> |a.value| < 0x10000
  {
    if attrs == [] then [] else EncodeAttr(attrs[0]) + EncodeAttrs(attrs[1..])
  }

  lemma OneAttribute(a: Attr, rest: octets)
    requires |a.value| < 0x10000
    ensures var b := EncodeAttr(a) + rest;
            && |b| >= 4 && FromU16(b[0], b[1]) == a.kind && FromU16(b[2], b[3]) == |a.value|
            && Padded(|a.value|) + |rest| == |b| - 4
            && b[4..4 + |a.value|] == a.value && b[4 + Padded(|a.value|)..] == rest
  {
    U16Back(a.kind);
    U16Back(|a.value|);
    FourParts(U16(a.kind), U16(|a.value|), a.value, seq(Padded(|a.value|) - |a.value|, _ => 0), rest);
  }

  lemma FourParts(kind: octets, length: octets, value: octets, padding: octets, rest: octets)
    requires |kind| == 2 && |length| == 2
    ensures var b := kind + length + value + padding + rest;
            && |b| == 4 + |value| + |padding| + |rest|
            && b[0] == kind[0] && b[1] == kind[1] && b[2] == length[0] && b[3] == length[1]
            && b[4..4 + |value|] == value && b[4 + |value| + |padding|..] == rest
  {
  }

  lemma AttributesOneMore(a: Attr, rest: octets)
    requires |a.value| < 0x10000 && Attributes(rest).Some?
    ensures Attributes(EncodeAttr(a) + rest) == Some([a] + Attributes(rest).value)
  {
    OneAttribute(a, rest);
  }

  /** Iterating over written attributes gives them back: kinds, values and
      order, whatever their number and lengths. */
  lemma {:induction false} AttributesRoundTrip(attrs: seq<Attr>)
    requires forall a :: a in attrs ==> |a.value| < 0x10000
    ensures Attributes(EncodeAttrs(attrs)) == Some(attrs)
  {
    if attrs != [] {
      AttributesRoundTrip(attrs[1..]);
      AttributesOneMore(attrs[0], EncodeAttrs(attrs[1..]));
      assert attrs == [attrs[0]] + attrs[1..];
    }
  }

  // ----- messages -----

  /** The two top bits are zero and the magic cookie is in place. */
  predicate Is(b: octets) {
    |b| >= HEADER_LEN && b[0] < 64 && b[4..8] == COOKIE
  }

  function Header(kind: octets, n: nat, tx: TxID): octets
    requires |kind| == 2 && n < 0x10000
  {
    kind + U16(n) + COOKIE + tx
  }

  lemma HeaderParts(kind: octets, n: nat, tx: TxID, rest: octets)
    requires |kind| == 2 && n < 0x10000 && kind[0] < 64
    ensures var b := Header(kind, n, tx) + rest;
            Is(b) && b[..2] == kind && FromU16(b[2], b[3]) == n && b[8..20] == tx && b[20..] == rest
  {
    U16Back(n);
    var b := Header(kind, n, tx) + rest;
    assert b[2] == U16(n)[0] && b[3] == U16(n)[1];
    assert b[..2] == kind && b[0] == kind[0];
  }

  // ----- requests -----

  /** Writing one attribute that needs no padding. */
  method AppendAttr(b: octets, kind: u16, value: octets) returns (r: octets)
    requires |value| < 0x10000 && |value| % 4 == 0
    ensures r == b + EncodeAttr(Attr(kind, value))
  {
    Unpadded(Attr(kind, value));
    r := b + U16(kind);
    r := r + U16(|value|);
    r := r + value;
  }

  lemma Unpadded(a: Attr)
    requires |a.value| < 0x10000 && |a.value| % 4 == 0
    ensures EncodeAttr(a) == U16(a.kind) + U16(|a.value|) + a.value
  {
    assert Padded(|a.value|) == |a.value|;
  }

  lemma OneEncoded(a: Attr)
    requires |a.value| < 0x10000
    ensures EncodeAttrs([a]) == EncodeAttr(a)
  {
    assert [a][1..] == [];
    assert EncodeAttr(a) + [] == EncodeAttr(a);
  }

  method WriteHeader(kind: octets, n: nat, tx: TxID) returns (b: octets)
    requires |kind| == 2 && n < 0x10000
    ensures b == Header(kind, n, tx)
  {
    b := kind;
    b := b + U16(n);
    b := b + COOKIE;
    b := b + tx;
  }

  /** fp is the fingerprint: a CRC-32, xored with a constant. */
  method Request(fp: octets -> u32, tx: TxID) returns (b: octets)
    ensures b == RequestOf(fp, tx)
  {
    b := WriteFront(tx);
    b := AppendFingerprint(fp, b);
  }

  method WriteFront(tx: TxID) returns (b: octets)
    ensures b == Front(tx)
  {
    b := WriteHeader(BINDING_REQUEST, 4 + |NAME| + LEN_FINGERPRINT, tx);
    b := AppendAttr(b, SOFTWARE, NAME);
  }

  /** What the fingerprint covers. */
  function Front(tx: TxID): octets {
    Header(BINDING_REQUEST, 20, tx) + EncodeAttr(Attr(SOFTWARE, NAME))
  }

  method AppendFingerprint(fp: octets -> u32, b: octets) returns (r: octets)
    ensures r == Fingerprinted(fp, b)
  {
    var mark := U32(fp(b));
    r := AppendAttr(b, FINGERPRINT, mark);
  }

  function Fingerprinted(fp: octets -> u32, b: octets): octets {
    b + EncodeAttr(Attr(FINGERPRINT, U32(fp(b))))
  }

  /** A header, the SOFTWARE attribute, and the FINGERPRINT of the two. */
  function RequestOf(fp: octets -> u32, tx: TxID): octets {
    Fingerprinted(fp, Front(tx))
  }

  datatype Asked = Asked(softwareOK: bool, lastAttr: u16, gotFP: u32)

  function AskVisit(): (Asked, Attr) -> Option<Asked> {
    (s: Asked, a: Attr) =>
      Some(Asked(s.softwareOK || (a.kind == SOFTWARE && a.value == NAME),
                 a.kind,
                 if a.kind == FINGERPRINT && |a.value| == 4 then FromU32(a.value) else s.gotFP))
  }

  method ParseBindingRequest(fp: octets -> u32, b: octets) returns (r: Result<TxID, Error>)
    ensures r == ParsedRequest(fp, b)
  {
    if !Is(b) {
      return Err(NotSTUN);
    }
    if b[..2] != BINDING_REQUEST {
      return Err(NotBindingRequest);
    }
    var tx: TxID := b[8..20];
    var asked := ForeachAttr(b[HEADER_LEN..], Asked(false, 0, 0), AskVisit());
    if asked.None? {
      return Err(MalformedAttrs);
    }
    if !asked.value.softwareOK {
      return Err(WrongSoftware);
    }
    if asked.value.lastAttr != FINGERPRINT {
      return Err(NoFingerprint);
    }
    if asked.value.gotFP != fp(b[..|b| - LEN_FINGERPRINT]) {
      return Err(WrongFingerprint);
    }
    return Ok(tx);
  }

  function ParsedRequest(fp: octets -> u32, b: octets): Result<TxID, Error> {
    if !Is(b) then Err(NotSTUN)
    else if b[..2] != BINDING_REQUEST then Err(NotBindingRequest)
    else
      var asked := VisitedIn(AskVisit(), Asked(false, 0, 0), b[HEADER_LEN..]);
      if asked.None? then Err(MalformedAttrs)
      else if !asked.value.softwareOK then Err(WrongSoftware)
      else if asked.value.lastAttr != FINGERPRINT then Err(NoFingerprint)
      else if asked.value.gotFP != fp(b[..|b| - LEN_FINGERPRINT]) then Err(WrongFingerprint)
      else Ok(b[8..20])
  }

  lemma TwoAttributes(a: Attr, b: Attr)
    requires |a.value| < 0x10000 && |b.value| < 0x10000
    ensures Attributes(EncodeAttr(a) + EncodeAttr(b)) == Some([a] + [b])
  {
    AttributesRoundTrip([b]);
    OneEncoded(b);
    AttributesOneMore(a, EncodeAttr(b));
  }

  lemma {:induction false} WhatWasAsked(s: Asked, attrs: seq<Attr>)
    ensures var r := Visited(AskVisit(), s, attrs);
            && r.Some? && (r.value.softwareOK <==> s.softwareOK || Attr(SOFTWARE, NAME) in attrs)
            && r.value.lastAttr == (if attrs == [] then s.lastAttr else attrs[|attrs| - 1].kind)
            && (attrs != [] && attrs[|attrs| - 1].kind == FINGERPRINT && |attrs[|attrs| - 1].value| == 4 ==>
                  var v := attrs[|attrs| - 1].value; r.value.gotFP == FromU32(v))
    decreases |attrs|
  {
    if attrs != [] {
      var a, next := attrs[0], AskVisit()(s, attrs[0]).value;
      WhatWasAsked(next, attrs[1..]);
      assert attrs == [a] + attrs[1..];
      assert a.kind == SOFTWARE && a.value == NAME <==> a == Attr(SOFTWARE, NAME);
    }
  }

  /** The server answers a binding request that ends in a four-byte
      fingerprint exactly when the Thawr SOFTWARE attribute is among its
      attributes and the fingerprint is that of everything before it. */
  lemma MarkedAnsweredIff(fp: octets -> u32, b: octets, attrs: seq<Attr>, v: octets)
    requires Is(b) && b[..2] == BINDING_REQUEST && |v| == 4
    requires Attributes(b[HEADER_LEN..]) == Some(attrs + [Attr(FINGERPRINT, v)])
    ensures ParsedRequest(fp, b).Ok? <==>
              Attr(SOFTWARE, NAME) in attrs && FromU32(v) == fp(b[..|b| - LEN_FINGERPRINT])
  {
    WhatWasAsked(Asked(false, 0, 0), attrs + [Attr(FINGERPRINT, v)]);
  }

  predicate IsMark(a: Attr) {
    a.kind == FINGERPRINT && |a.value| == 4
  }

  predicate NoMarkFrom(attrs: seq<Attr>, lo: nat) {
    forall j :: lo <= j < |attrs| ==> !IsMark(attrs[j])
  }

  /** v is the value of the last four-byte fingerprint, and start without
      one. */
  ghost predicate MarkIs(attrs: seq<Attr>, start: u32, v: u32) {
    || (NoMarkFrom(attrs, 0) && v == start)
    || (exists i :: 0 <= i < |attrs| && IsMark(attrs[i]) && NoMarkFrom(attrs, i + 1) && FromU32(attrs[i].value) == v)
  }

  lemma MarkBefore(a: Attr, rest: seq<Attr>, start: u32, v: u32)
    requires MarkIs(rest, if IsMark(a) then FromU32(a.value) else start, v)
    ensures MarkIs([a] + rest, start, v)
  {
    var attrs := [a] + rest;
    assert forall j :: 1 <= j < |attrs| ==> attrs[j] == rest[j - 1];
    if NoMarkFrom(rest, 0) {
      if IsMark(a) {
        assert IsMark(attrs[0]) && NoMarkFrom(attrs, 0 + 1) && FromU32(attrs[0].value) == v;
      }
    } else {
      var i :| 0 <= i < |rest| && IsMark(rest[i]) && NoMarkFrom(rest, i + 1) && FromU32(rest[i].value) == v;
      assert attrs[i + 1] == rest[i] && NoMarkFrom(attrs, i + 1 + 1);
    }
  }

  lemma {:induction false} MarkFound(s: Asked, attrs: seq<Attr>)
    ensures var r := Visited(AskVisit(), s, attrs); r.Some? && MarkIs(attrs, s.gotFP, r.value.gotFP)
    decreases |attrs|
  {
    if attrs != [] {
      var next := AskVisit()(s, attrs[0]).value;
      MarkFound(next, attrs[1..]);
      MarkBefore(attrs[0], attrs[1..], s.gotFP, Visited(AskVisit(), next, attrs[1..]).value.gotFP);
      assert attrs == [attrs[0]] + attrs[1..];
    }
  }

  /** There is one such value. */
  lemma MarkUnique(attrs: seq<Attr>, start: u32, v: u32, w: u32)
    requires MarkIs(attrs, start, v) && MarkIs(attrs, start, w)
    ensures v == w
  {
  }

  /** What an accepted body holds: the Thawr SOFTWARE attribute, a FINGERPRINT
      last, and want as the value of the last one of four bytes, 0 standing
      for none. */
  ghost predicate Acceptable(attrs: seq<Attr>, want: u32) {
    && Attr(SOFTWARE, NAME) in attrs
    && attrs != [] && attrs[|attrs| - 1].kind == FINGERPRINT
    && MarkIs(attrs, 0, want)
  }

  lemma AskedAcceptable(attrs: seq<Attr>, want: u32)
    ensures var r := Visited(AskVisit(), Asked(false, 0, 0), attrs);
            r.Some? && (Acceptable(attrs, want) <==>
                          r.value.softwareOK && r.value.lastAttr == FINGERPRINT && r.value.gotFP == want)
  {
    WhatWasAsked(Asked(false, 0, 0), attrs);
    MarkFound(Asked(false, 0, 0), attrs);
    if MarkIs(attrs, 0, want) {
      MarkUnique(attrs, 0, want, Visited(AskVisit(), Asked(false, 0, 0), attrs).value.gotFP);
    }
  }

  /** Acceptance of every input: a binding request is answered if and only if
      its attributes are well formed and acceptable for the fingerprint of all
      but its last eight bytes. */
  lemma AnsweredIff(fp: octets -> u32, b: octets)
    ensures ParsedRequest(fp, b).Ok? <==>
              && Is(b) && b[..2] == BINDING_REQUEST && Attributes(b[HEADER_LEN..]).Some?
              && Acceptable(Attributes(b[HEADER_LEN..]).value, fp(b[..|b| - LEN_FINGERPRINT]))
  {
    if Is(b) && Attributes(b[HEADER_LEN..]).Some? {
      AskedAcceptable(Attributes(b[HEADER_LEN..]).value, fp(b[..|b| - LEN_FINGERPRINT]));
    }
  }

  /** Nothing else than a fingerprint may come last. */
  lemma UnmarkedRefused(fp: octets -> u32, b: octets)
    requires ParsedRequest(fp, b).Ok?
    ensures var attrs := Attributes(b[HEADER_LEN..]);
            attrs.Some? && attrs.value != [] && attrs.value[|attrs.value| - 1].kind == FINGERPRINT
            && Attr(SOFTWARE, NAME) in attrs.value
  {
    AnsweredIff(fp, b);
  }

  lemma RequestShape(tx: TxID, mark: octets)
    requires |mark| == LEN_FINGERPRINT
    ensures var b := Front(tx) + mark;
            && Is(b) && b[..2] == BINDING_REQUEST && b[8..20] == tx
            && b[HEADER_LEN..] == EncodeAttr(Attr(SOFTWARE, NAME)) + mark && b[..|b| - LEN_FINGERPRINT] == Front(tx)
  {
    var soft := EncodeAttr(Attr(SOFTWARE, NAME));
    HeaderParts(BINDING_REQUEST, 20, tx, soft + mark);
    assert Front(tx) + mark == Header(BINDING_REQUEST, 20, tx) + (soft + mark);
  }

  lemma MarkLength(v: octets)
    requires |v| == 4
    ensures |EncodeAttr(Attr(FINGERPRINT, v))| == LEN_FINGERPRINT
  {
    Unpadded(Attr(FINGERPRINT, v));
  }

  lemma MarkedRequest(fp: octets -> u32, tx: TxID, v: octets)
    requires |v| == 4
    ensures var b := Front(tx) + EncodeAttr(Attr(FINGERPRINT, v));
            ParsedRequest(fp, b).Ok? <==> FromU32(v) == fp(Front(tx))
  {
    MarkLength(v);
    TwoAttributes(Attr(SOFTWARE, NAME), Attr(FINGERPRINT, v));
    RequestShape(tx, EncodeAttr(Attr(FINGERPRINT, v)));
    MarkedAnsweredIff(fp, Front(tx) + EncodeAttr(Attr(FINGERPRINT, v)), [Attr(SOFTWARE, NAME)], v);
  }

  /** The server reads back the transaction id of every request, and accepts
      it, whatever the fingerprint function. */
  lemma RequestRoundTrip(fp: octets -> u32, tx: TxID)
    ensures ParsedRequest(fp, RequestOf(fp, tx)) == Ok(tx)
  {
    var v := U32(fp(Front(tx)));
    U32Back(fp(Front(tx)));
    MarkLength(v);
    RequestShape(tx, EncodeAttr(Attr(FINGERPRINT, v)));
    MarkedRequest(fp, tx, v);
  }

  // ----- responses -----

  /** The bytes an address is masked with. */
  function Mask(tx: TxID): Bytes16 {
    COOKIE + tx
  }

  function Xored(a: octets, tx: TxID): (r: octets)
    requires |a| <= 16
    ensures |r| == |a|
  {
    seq(|a|, i requires 0 <= i < |a| => Xor(a[i], Mask(tx)[i]))
  }

  lemma MaskTwice(a: octets, tx: TxID)
    requires |a| <= 16
    ensures Xored(Xored(a, tx), tx) == a
  {
    forall i | 0 <= i < |a| ensures Xored(Xored(a, tx), tx)[i] == a[i] {
      XorTwice(a[i], Mask(tx)[i]);
    }
  }

  function FamilyAddrLen(family: byte): nat {
    if family == 1 then 4 else if family == 2 then 16 else 0
  }

  function Family(a: Addr): byte {
    if a.V4? then 1 else 2
  }

  function XorMapped(tx: TxID, ap: AddrPort): (a: Attr)
    requires !ap.addr.Invalid?
    ensures |a.value| == 4 + |Slice(ap.addr)|
  {
    Attr(XOR_MAPPED_ADDRESS, XorValue(tx, ap.addr, U16(XorPort(ap.port))))
  }

  function XorValue(tx: TxID, addr: Addr, port: octets): octets {
    [0, Family(addr)] + port + Xored(Slice(addr), tx)
  }

  /** A success header and one XOR-MAPPED-ADDRESS; nothing for no address. */
  function ResponseOf(tx: TxID, ap: AddrPort): octets {
    if ap.addr.Invalid? then []
    else Success(tx, XorMapped(tx, ap))
  }

  function Success(tx: TxID, a: Attr): octets
    requires |a.value| < 0x8000
  {
    Header(SUCCESS, 4 + |a.value|, tx) + EncodeAttr(a)
  }

  method Response(tx: TxID, ap: AddrPort) returns (b: octets)
    ensures b == ResponseOf(tx, ap)
  {
    if ap.addr.Invalid? {
      return [];
    }
    var slice := Slice(ap.addr);
    b := WriteHeader(SUCCESS, 8 + |slice|, tx);
    var masked := XorMask(slice, tx);
    var value := ResponseValue(Family(ap.addr), U16(XorPort(ap.port)), masked);
    b := AppendAttr(b, XOR_MAPPED_ADDRESS, value);
  }

  method ResponseValue(family: byte, port: octets, masked: octets) returns (v: octets)
    ensures v == [0, family] + port + masked
  {
    v := [0, family];
    v := v + port;
    v := v + masked;
  }

  lemma MaskAt(tx: TxID, i: nat)
    requires i < 16
    ensures Mask(tx)[i] == if i < 4 then COOKIE[i] else tx[i - 4]
  {
  }

  /** The masking loop of both directions. */
  method XorMask(a: octets, tx: TxID) returns (r: octets)
    requires |a| <= 16
    ensures r == Xored(a, tx)
  {
    r := [];
    for i := 0 to |a|
      invariant |r| == i && forall j :: 0 <= j < i ==> r[j] == Xor(a[j], Mask(tx)[j])
    {
      MaskAt(tx, i);
      if i < 4 {
        r := r + [Xor(a[i], COOKIE[i])];
      } else {
        r := r + [Xor(a[i], tx[i - 4])];
      }
    }
  }

  method XorMappedAddress(tx: TxID, b: octets) returns (r: Option<AddrPort>)
    ensures r == Masked(tx, b)
  {
    if |b| < 4 {
      return None;
    }
    var port := XorPort(FromU16(b[2], b[3]));
    var field := b[4..];
    var n := FamilyAddrLen(b[1]);
    if n == 0 || |field| < n {
      return None;
    }
    assert field[..n] == b[4..4 + n];
    var addr := XorMask(field[..n], tx);
    return Some(AddrPort(FromSlice(addr), port));
  }

  function Plain(b: octets): Option<AddrPort> {
    if |b| < 4 || FamilyAddrLen(b[1]) == 0 || |b| - 4 < FamilyAddrLen(b[1]) then None
    else Some(AddrPort(FromSlice(b[4..4 + FamilyAddrLen(b[1])]), FromU16(b[2], b[3])))
  }

  function Masked(tx: TxID, b: octets): Option<AddrPort> {
    if Plain(b).None? then None
    else Some(AddrPort(FromSlice(Xored(b[4..4 + FamilyAddrLen(b[1])], tx)), XorPort(FromU16(b[2], b[3]))))
  }

  /** The address found so far, and the one from MAPPED-ADDRESS. */
  datatype Found = Found(addr: AddrPort, fallback: AddrPort)

  function Unmapped(ap: AddrPort): AddrPort {
    AddrPort(Unmap(ap.addr), ap.port)
  }

  function FindVisit(tx: TxID): (Found, Attr) -> Option<Found> {
    (s: Found, a: Attr) =>
      if a.kind == XOR_MAPPED_ADDRESS || a.kind == XOR_MAPPED_ADDRESS_ALT then
        var got := Masked(tx, a.value);
        if got.None? then None else Some(s.(addr := Unmapped(got.value)))
      else if a.kind == MAPPED_ADDRESS then
        var got := Plain(a.value);
        if got.None? then None else Some(s.(fallback := Unmapped(got.value)))
      else Some(s)
  }

  method ParseResponse(b: octets) returns (r: Result<(TxID, AddrPort), Error>)
    ensures r == ParsedResponse(b)
  {
    if !Is(b) {
      return Err(NotSTUN);
    }
    var tx: TxID := b[8..20];
    if b[0] != 0x01 || b[1] != 0x01 {
      return Err(NotSuccessResponse);
    }
    var n := FromU16(b[2], b[3]);
    var body := b[HEADER_LEN..];
    if n > |body| {
      return Err(MalformedAttrs);
    } else if |body| > n {
      body := body[..n];
    }
    assert body == b[HEADER_LEN..HEADER_LEN + n];
    r := FindAddress(tx, body);
  }

  method FindAddress(tx: TxID, body: octets) returns (r: Result<(TxID, AddrPort), Error>)
    ensures r == AddressIn(tx, body)
  {
    var found := ForeachAttr(body, Found(NO_ADDR, NO_ADDR), FindVisit(tx));
    if found.None? {
      return Err(MalformedAttrs);
    }
    if !found.value.addr.addr.Invalid? {
      return Ok((tx, found.value.addr));
    }
    if !found.value.fallback.addr.Invalid? {
      return Ok((tx, found.value.fallback));
    }
    return Err(MalformedAttrs);
  }

  function AddressIn(tx: TxID, body: octets): Result<(TxID, AddrPort), Error> {
    Chosen(tx, VisitedIn(FindVisit(tx), Found(NO_ADDR, NO_ADDR), body))
  }

  function Chosen(tx: TxID, found: Option<Found>): Result<(TxID, AddrPort), Error> {
    if found.None? then Err(MalformedAttrs)
    else if !found.value.addr.addr.Invalid? then Ok((tx, found.value.addr))
    else if !found.value.fallback.addr.Invalid? then Ok((tx, found.value.fallback))
    else Err(MalformedAttrs)
  }

  function ParsedResponse(b: octets): Result<(TxID, AddrPort), Error> {
    if !Is(b) then Err(NotSTUN)
    else if b[0] != 0x01 || b[1] != 0x01 then Err(NotSuccessResponse)
    else
      var n := FromU16(b[2], b[3]);
      if n > |b| - HEADER_LEN then Err(MalformedAttrs)
      else AddressIn(b[8..20], b[HEADER_LEN..HEADER_LEN + n])
  }

  /** A success message with any attributes, and any bytes after them. */
  function Message(tx: TxID, attrs: seq<Attr>, junk: octets): octets
    requires forall a :: a in attrs ==> |a.value| < 0x10000
    requires |EncodeAttrs(attrs)| < 0x10000
  {
    Header(SUCCESS, |EncodeAttrs(attrs)|, tx) + (EncodeAttrs(attrs) + junk)
  }

  lemma MessageBody(tx: TxID, body: octets, junk: octets)
    requires |body| < 0x10000
    ensures ParsedResponse(Header(SUCCESS, |body|, tx) + (body + junk)) == AddressIn(tx, body)
  {
    var b := Header(SUCCESS, |body|, tx) + (body + junk);
    HeaderParts(SUCCESS, |body|, tx, body + junk);
    FirstTwo(b, SUCCESS);
    Within(b, body, junk);
  }

  lemma FirstTwo(b: octets, kind: octets)
    requires |b| >= 2 && |kind| == 2 && b[..2] == kind
    ensures b[0] == kind[0] && b[1] == kind[1]
  {
  }

  lemma Within(b: octets, body: octets, junk: octets)
    requires |b| >= 20 && b[20..] == body + junk
    ensures |b| - 20 >= |body| && b[20..20 + |body|] == body
  {
    assert b[20..20 + |body|] == b[20..][..|body|];
  }

  /** Parsing a message is visiting its attributes: padding and the bytes past
      the stated length make no difference. */
  lemma MessageParsed(tx: TxID, attrs: seq<Attr>, junk: octets)
    requires forall a :: a in attrs ==> |a.value| < 0x10000
    requires |EncodeAttrs(attrs)| < 0x10000
    ensures ParsedResponse(Message(tx, attrs, junk))
         == Chosen(tx, Visited(FindVisit(tx), Found(NO_ADDR, NO_ADDR), attrs))
  {
    MessageBody(tx, EncodeAttrs(attrs), junk);
    AttributesRoundTrip(attrs);
  }

  lemma ThreeParts(a: octets, b: octets, c: octets)
    requires |a| == 2 && |b| == 2
    ensures var v := a + b + c;
            |v| == 4 + |c| && v[1] == a[1] && v[2] == b[0] && v[3] == b[1] && v[4..4 + |c|] == c
  {
  }

  lemma MaskedParts(tx: TxID, family: byte, port: octets, x: octets)
    requires |port| == 2 && |x| == FamilyAddrLen(family) > 0
    ensures Masked(tx, [0, family] + port + x)
         == Some(AddrPort(FromSlice(Xored(x, tx)), XorPort(FromU16(port[0], port[1]))))
  {
    ThreeParts([0, family], port, x);
  }

  lemma MaskedIs(tx: TxID, ap: AddrPort, port: octets)
    requires !ap.addr.Invalid? && |port| == 2 && XorPort(FromU16(port[0], port[1])) == ap.port
    ensures Masked(tx, XorValue(tx, ap.addr, port)) == Some(ap)
  {
    MaskedParts(tx, Family(ap.addr), port, Xored(Slice(ap.addr), tx));
    MaskTwice(Slice(ap.addr), tx);
    SliceBack(ap.addr);
  }

  lemma MaskedBack(tx: TxID, ap: AddrPort)
    requires !ap.addr.Invalid?
    ensures Masked(tx, XorMapped(tx, ap).value) == Some(ap)
  {
    XorPortTwice(ap.port);
    U16Back(XorPort(ap.port));
    MaskedIs(tx, ap, U16(XorPort(ap.port)));
  }

  /** Attributes that carry no masked address: any the client does not know,
      and well-formed MAPPED-ADDRESS ones. */
  ghost predicate Unmasked(attrs: seq<Attr>) {
    forall a :: a in attrs ==>
      a.kind != XOR_MAPPED_ADDRESS && a.kind != XOR_MAPPED_ADDRESS_ALT
      && (a.kind == MAPPED_ADDRESS ==> Plain(a.value).Some?)
  }

  /** They leave the address found so far as it is. */
  lemma {:induction false} UnmaskedPassed(tx: TxID, s: Found, before: seq<Attr>, rest: seq<Attr>) returns (t: Found)
    requires Unmasked(before)
    ensures t.addr == s.addr && Visited(FindVisit(tx), s, before + rest) == Visited(FindVisit(tx), t, rest)
    decreases |before|
  {
    t := s;
    if before == [] {
      assert before + rest == rest;
    } else {
      assert (before + rest)[1..] == before[1..] + rest && (before + rest)[0] == before[0];
      t := UnmaskedPassed(tx, FindVisit(tx)(s, before[0]).value, before[1..], rest);
    }
  }

  lemma FoundNext(tx: TxID, ap: AddrPort, s: Found, after: seq<Attr>)
    requires !ap.addr.Invalid?
    ensures Visited(FindVisit(tx), s, [XorMapped(tx, ap)] + after)
         == Visited(FindVisit(tx), s.(addr := Unmapped(ap)), after)
  {
    MaskedBack(tx, ap);
    assert ([XorMapped(tx, ap)] + after)[1..] == after;
  }

  lemma FoundAmong(tx: TxID, ap: AddrPort, before: seq<Attr>, after: seq<Attr>)
    requires !ap.addr.Invalid? && Unmasked(before) && Unmasked(after)
    ensures var r := Visited(FindVisit(tx), Found(NO_ADDR, NO_ADDR), before + [XorMapped(tx, ap)] + after);
            r.Some? && r.value.addr == Unmapped(ap)
  {
    assert before + [XorMapped(tx, ap)] + after == before + ([XorMapped(tx, ap)] + after);
    var s := UnmaskedPassed(tx, Found(NO_ADDR, NO_ADDR), before, [XorMapped(tx, ap)] + after);
    FoundNext(tx, ap, s, after);
    assert after + [] == after;
    var t := UnmaskedPassed(tx, s.(addr := Unmapped(ap)), after, []);
  }

  /** The client reads the address and port the server saw, for every
      transaction id, IPv4 or IPv6 address and port: also among attributes it
      does not know, in preference to MAPPED-ADDRESS wherever that stands, and
      before trailing bytes. */
  lemma AddressFound(tx: TxID, ap: AddrPort, before: seq<Attr>, after: seq<Attr>, junk: octets)
    requires !ap.addr.Invalid? && Unmasked(before) && Unmasked(after)
    requires forall a :: a in before + [XorMapped(tx, ap)] + after ==> |a.value| < 0x10000
    requires |EncodeAttrs(before + [XorMapped(tx, ap)] + after)| < 0x10000
    ensures ParsedResponse(Message(tx, before + [XorMapped(tx, ap)] + after, junk)) == Ok((tx, Unmapped(ap)))
  {
    MessageParsed(tx, before + [XorMapped(tx, ap)] + after, junk);
    FoundAmong(tx, ap, before, after);
  }

  /** Response and ParseResponse round-trip, also with trailing bytes. */
  lemma ResponseRoundTrip(tx: TxID, ap: AddrPort, junk: octets)
    requires !ap.addr.Invalid?
    ensures ParsedResponse(ResponseOf(tx, ap) + junk) == Ok((tx, Unmapped(ap)))
  {
    ResponseIsMessage(tx, ap, junk);
    MessageParsed(tx, [XorMapped(tx, ap)], junk);
    assert [] + [XorMapped(tx, ap)] + [] == [XorMapped(tx, ap)];
    FoundAmong(tx, ap, [], []);
  }

  lemma ResponseIsMessage(tx: TxID, ap: AddrPort, junk: octets)
    requires !ap.addr.Invalid?
    ensures |XorMapped(tx, ap).value| < 0x10000 && |EncodeAttrs([XorMapped(tx, ap)])| < 0x10000
    ensures ResponseOf(tx, ap) + junk == Message(tx, [XorMapped(tx, ap)], junk)
  {
    MessageOfOne(tx, XorMapped(tx, ap), junk);
  }

  lemma MessageOfOne(tx: TxID, a: Attr, junk: octets)
    requires |a.value| <= 20 && |a.value| % 4 == 0
    ensures |EncodeAttrs([a])| == 4 + |a.value|
    ensures Success(tx, a) + junk == Message(tx, [a], junk)
  {
    OneEncoded(a);
    Unpadded(a);
    Concat(Header(SUCCESS, 4 + |a.value|, tx), EncodeAttr(a), junk);
  }

  lemma Concat(a: octets, b: octets, c: octets)
    ensures a + b + c == a + (b + c)
  {
  }

  /** Neither parser takes the other's messages, and no address gives no
      message. */
  lemma KindsApart(fp: octets -> u32, tx: TxID, ap: AddrPort)
    ensures ParsedResponse(RequestOf(fp, tx)) == Err(NotSuccessResponse)
    ensures ParsedRequest(fp, ResponseOf(tx, ap)) == if ap.addr.Invalid? then Err(NotSTUN) else Err(NotBindingRequest)
  {
    var front := Header(BINDING_REQUEST, 20, tx);
    var rest := RequestOf(fp, tx)[20..];
    assert RequestOf(fp, tx) == front + rest;
    HeaderParts(BINDING_REQUEST, 20, tx, rest);
    assert RequestOf(fp, tx)[..2][0] == 0;
    if !ap.addr.Invalid? {
      HeaderParts(SUCCESS, 8 + |Slice(ap.addr)|, tx, EncodeAttr(XorMapped(tx, ap)));
      assert SUCCESS[0] != BINDING_REQUEST[0];
    }
  }
}
