/** Peer records and lock records: their canonical bytes and the rule by
    which one lock record replaces another. */
module LockRecord {
  import opened Basics
  import opened Numbers
  import Order

  // "thawr/peer/v1\n" and "thawr/lock/v1\n"
  const PEER_PREFIX: seq<byte> := [116, 104, 97, 119, 114, 47, 112, 101, 101, 114, 47, 118, 49, 10]
  const LOCK_PREFIX: seq<byte> := [116, 104, 97, 119, 114, 47, 108, 111, 99, 107, 47, 118, 49, 10]
  const MAX_FIELD := 65535
  const MAX_SIGNERS := 32

  datatype LockError = Stale | NotSigned | Invalid

  /** What a lock key signs for one peer. */
  datatype PeerRecord = PeerRecord(id: text, name: text, key: Key32)

  datatype Signer = Signer(key: Key32, peerID: text)

  datatype Record = Record(generation: u64, disabled: bool, signers: seq<Signer>) {
    predicate Has(key: Key32) {
      exists i :: 0 <= i < |signers| && signers[i].key == key
    }

    predicate Enabled() {
      !disabled && |signers| > 0
    }

    /** The lock key of the first signer with that peer id. */
    function SignerKey(peerID: text): (r: Option<Key32>)
      ensures r.Some? ==> Has(r.value)
    {
      SignerKeyFrom(peerID, 0)
    }

    function SignerKeyFrom(peerID: text, i: nat): (r: Option<Key32>)
      requires i <= |signers|
      ensures r.Some? ==> Has(r.value)
      decreases |signers| - i
    {
      if i == |signers| then None
      else if signers[i].peerID == peerID then Some(signers[i].key)
      else SignerKeyFrom(peerID, i + 1)
    }
  }

  datatype Signed = Signed(record: Record, signature: Signature)

  // ----- length-prefixed fields -----

  /** The bytes writeField appends for f. */
  function Field(f: seq<byte>): seq<byte> {
    BigEndian(|f|, 2) + f
  }

  /** Fields are prefix-free: whatever follows, equal bytes mean an equal
      field and an equal rest. */
  lemma FieldPrefixFree(f: seq<byte>, g: seq<byte>, s: seq<byte>, t: seq<byte>)
    requires |f| <= MAX_FIELD && |g| <= MAX_FIELD
    requires Field(f) + s == Field(g) + t
    ensures f == g && s == t
  {
    var a, b := Field(f) + s, Field(g) + t;
    assert BigEndian(|f|, 2) == a[..2] == b[..2] == BigEndian(|g|, 2);
    assert Pow256(2) == 65536 by { assert Pow256(1) == 256; }
    BigEndianInjective(|f|, |g|, 2);
    assert f == a[2..][..|f|] == b[2..][..|f|] == g;
    assert s == a[2 + |f|..] == b[2 + |f|..] == t;
  }

  function Fields(fs: seq<seq<byte>>): seq<byte> {
    if fs == [] then [] else Fields(fs[..|fs| - 1]) + Field(fs[|fs| - 1])
  }

  ghost predicate Short(fs: seq<seq<byte>>) {
    forall i :: 0 <= i < |fs| ==> |fs[i]| <= MAX_FIELD
  }

  lemma {:induction false} FieldsFront(fs: seq<seq<byte>>)
    requires fs != []
    ensures Fields(fs) == Field(fs[0]) + Fields(fs[1..])
  {
    if |fs| == 1 {
      assert fs[..0] == [] && fs[1..] == [];
    } else {
      var n := |fs| - 1;
      FieldsFront(fs[..n]);
      assert fs[..n][1..] == fs[1..][..n - 1];
      Assoc(Field(fs[0]), Fields(fs[1..][..n - 1]), Field(fs[n]));
    }
  }

  lemma Assoc(a: seq<byte>, b: seq<byte>, c: seq<byte>)
    ensures (a + b) + c == a + (b + c)
  {}

  lemma {:induction false} FieldsInjective(fs: seq<seq<byte>>, gs: seq<seq<byte>>)
    requires Short(fs) && Short(gs) && |fs| == |gs|
    requires Fields(fs) == Fields(gs)
    ensures fs == gs
  {
    if fs != [] {
      FieldsFront(fs);
      FieldsFront(gs);
      FieldPrefixFree(fs[0], gs[0], Fields(fs[1..]), Fields(gs[1..]));
      FieldsInjective(fs[1..], gs[1..]);
      assert fs == [fs[0]] + fs[1..] && gs == [gs[0]] + gs[1..];
    }
  }

  method WriteField(b: seq<byte>, f: seq<byte>) returns (out: Result<seq<byte>, LockError>)
    ensures |f| <= MAX_FIELD ==> out == Ok(b + Field(f))
    ensures |f| > MAX_FIELD ==> out == Err(Invalid)
  {
    if |f| > MAX_FIELD {
      return Err(Invalid);
    }
    return Ok(b + Field(f));
  }

  // ----- peer records -----

  predicate EncodablePeer(r: PeerRecord) {
    r.id != [] && r.name != [] && |r.id| <= MAX_FIELD && |r.name| <= MAX_FIELD
  }

  function PeerFields(r: PeerRecord): seq<seq<byte>> {
    [r.id, r.name, r.key]
  }

  function PeerBytes(r: PeerRecord): (b: Result<seq<byte>, LockError>)
    ensures b.Ok? <==> EncodablePeer(r)
  {
    if r.id == [] || r.name == [] || |r.id| > MAX_FIELD || |r.name| > MAX_FIELD then Err(Invalid)
    else Ok(PEER_PREFIX + Fields(PeerFields(r)))
  }

  /** PeerRecord.Bytes: the prefix, then id, name and key as fields. */
  method EncodePeer(r: PeerRecord) returns (out: Result<seq<byte>, LockError>)
    ensures out == PeerBytes(r)
  {
    if r.id == [] || r.name == [] {
      return Err(Invalid);
    }
    var b := PEER_PREFIX;
    var fields := PeerFields(r);
    for i := 0 to |fields|
      invariant Short(fields[..i])
      invariant b == PEER_PREFIX + Fields(fields[..i])
    {
      assert fields[..i + 1][..i] == fields[..i];
      var w := WriteField(b, fields[i]);
      if w.Err? {
        return w;
      }
      Assoc(PEER_PREFIX, Fields(fields[..i]), Field(fields[i]));
      b := w.value;
    }
    assert fields[..|fields|] == fields && |fields[0]| <= MAX_FIELD && |fields[1]| <= MAX_FIELD;
    return Ok(b);
  }

  /** Two peer records with the same canonical bytes are the same record. */
  lemma PeerBytesInjective(r: PeerRecord, s: PeerRecord)
    requires PeerBytes(r).Ok?
    requires PeerBytes(r) == PeerBytes(s)
    ensures r == s
  {
    assert Fields(PeerFields(r)) == PeerBytes(r).value[14..] == PeerBytes(s).value[14..] == Fields(PeerFields(s));
    FieldsInjective(PeerFields(r), PeerFields(s));
    assert PeerFields(r)[0] == PeerFields(s)[0] && PeerFields(r)[1] == PeerFields(s)[1]
           && PeerFields(r)[2] == PeerFields(s)[2];
  }

  // ----- lock records -----

  function KeyOf(s: Signer): seq<byte> {
    s.key
  }

  predicate IsZero(key: Key32) {
    forall i :: 0 <= i < 32 ==> key[i] == 0
  }

  predicate ValidRecord(r: Record) {
    && |r.signers| <= MAX_SIGNERS
    && (r.disabled || r.signers != [])
    && (forall i :: 0 <= i < |r.signers| ==> !IsZero(r.signers[i].key) && r.signers[i].peerID != [])
    && (forall i, j :: 0 <= i < j < |r.signers| ==>
          r.signers[i].key != r.signers[j].key && r.signers[i].peerID != r.signers[j].peerID)
  }

  predicate EncodableRecord(r: Record) {
    ValidRecord(r) && ShortIDs(r.signers)
  }

  /** Key and peer id of each signer in turn. */
  function SignerFields(ss: seq<Signer>): seq<seq<byte>> {
    if ss == [] then [] else SignerFields(ss[..|ss| - 1]) + [ss[|ss| - 1].key, ss[|ss| - 1].peerID]
  }

  lemma {:induction false} SignerFieldsAt(ss: seq<Signer>)
    ensures |SignerFields(ss)| == 2 * |ss|
    ensures forall i ::
              0 <= i < |ss| ==> SignerFields(ss)[2 * i] == ss[i].key && SignerFields(ss)[2 * i + 1] == ss[i].peerID
  {
    if ss != [] {
      SignerFieldsAt(ss[..|ss| - 1]);
    }
  }

  function RecordHeader(r: Record): seq<byte> {
    LOCK_PREFIX + BigEndian(r.generation, 8) + [if r.disabled then 1 else 0] + BigEndian(|r.signers|, 2)
  }

  function RecordBytes(r: Record): (b: Result<seq<byte>, LockError>)
    ensures b.Ok? <==> EncodableRecord(r)
  {
    if EncodableRecord(r) then Ok(RecordHeader(r) + Fields(SignerFields(Order.Sort(KeyOf, r.signers))))
    else Err(Invalid)
  }

  method Validate(r: Record) returns (ok: bool)
    ensures ok <==> ValidRecord(r)
  {
    if |r.signers| > MAX_SIGNERS || (!r.disabled && |r.signers| == 0) {
      return false;
    }
    var seen: set<Key32> := {};
    var seenPeer: set<text> := {};
    for i := 0 to |r.signers|
      invariant seen == set j | 0 <= j < i :: r.signers[j].key
      invariant seenPeer == set j | 0 <= j < i :: r.signers[j].peerID
      invariant forall j :: 0 <= j < i ==> !IsZero(r.signers[j].key) && r.signers[j].peerID != []
      invariant forall j, k :: 0 <= j < k < i ==>
        r.signers[j].key != r.signers[k].key && r.signers[j].peerID != r.signers[k].peerID
    {
      var s := r.signers[i];
      if IsZero(s.key) || s.peerID == [] || s.key in seen || s.peerID in seenPeer {
        return false;
      }
      seen, seenPeer := seen + {s.key}, seenPeer + {s.peerID};
    }
    return true;
  }

  predicate ShortIDs(ss: seq<Signer>) {
    forall i :: 0 <= i < |ss| ==> |ss[i].peerID| <= MAX_FIELD
  }

  /** The signer loop of Record.Bytes. */
  method WriteSigners(head: seq<byte>, signers: seq<Signer>) returns (out: Result<seq<byte>, LockError>)
    ensures ShortIDs(signers) ==> out == Ok(head + Fields(SignerFields(signers)))
    ensures !ShortIDs(signers) ==> out == Err(Invalid)
  {
    var b := head;
    for i := 0 to |signers|
      invariant ShortIDs(signers[..i])
      invariant b == head + Fields(SignerFields(signers[..i]))
    {
      ghost var done := signers[..i];
      assert signers[..i + 1] == done + [signers[i]] && signers[..i + 1][..i] == done;
      var w := WriteField(b, signers[i].key);
      w := WriteField(w.value, signers[i].peerID);
      if w.Err? {
        return w;
      }
      FieldsOfSigner(head, SignerFields(done), signers[i]);
      b := w.value;
    }
    assert signers[..|signers|] == signers;
    return Ok(b);
  }

  /** Record.Bytes: validated, then the header and the signers sorted by key. */
  method EncodeRecord(r: Record) returns (out: Result<seq<byte>, LockError>)
    ensures out == RecordBytes(r)
  {
    var valid := Validate(r);
    if !valid {
      return Err(Invalid);
    }
    var signers := Order.Sort(KeyOf, r.signers);
    SortedShort(r.signers);
    out := WriteSigners(RecordHeader(r), signers);
  }

  lemma SortedShort(ss: seq<Signer>)
    ensures ShortIDs(Order.Sort(KeyOf, ss)) <==> ShortIDs(ss)
  {
    var t := Order.Sort(KeyOf, ss);
    SortedIsPermutation(ss);
    assert ShortIDs(t) ==> ShortIDs(ss) by {
      assert forall i :: 0 <= i < |ss| ==> ss[i] in t;
    }
    assert ShortIDs(ss) ==> ShortIDs(t) by {
      assert forall i :: 0 <= i < |t| ==> t[i] in ss;
    }
  }

  lemma SortedIsPermutation(ss: seq<Signer>)
    ensures var t := Order.Sort(KeyOf, ss);
            |t| == |ss| && (forall s :: s in t <==> s in ss)
  {
    var t := Order.Sort(KeyOf, ss);
    Order.SortSorts(KeyOf, ss);
    assert |t| == |multiset(t)| == |multiset(ss)| == |ss|;
    forall s ensures s in t <==> s in ss {
      assert s in t <==> s in multiset(t);
      assert s in ss <==> s in multiset(ss);
    }
  }

  lemma FieldsOfSigner(head: seq<byte>, fs: seq<seq<byte>>, s: Signer)
    ensures head + Fields(fs + [s.key, s.peerID]) == head + Fields(fs) + Field(s.key) + Field(s.peerID)
  {
    var one, two := fs + [s.key], fs + [s.key, s.peerID];
    assert two[..|two| - 1] == one && one[..|one| - 1] == fs;
    assert Fields(two) == Fields(fs) + Field(s.key) + Field(s.peerID);
    Assoc(head, Fields(fs), Field(s.key));
    Assoc(head, Fields(fs) + Field(s.key), Field(s.peerID));
  }

  lemma SignersFromFields(ss: seq<Signer>, tt: seq<Signer>)
    requires |ss| == |tt| && SignerFields(ss) == SignerFields(tt)
    ensures ss == tt
  {
    SignerFieldsAt(ss);
    SignerFieldsAt(tt);
    forall i | 0 <= i < |ss| ensures ss[i] == tt[i] {
      assert SignerFields(ss)[2 * i] == SignerFields(tt)[2 * i];
      assert SignerFields(ss)[2 * i + 1] == SignerFields(tt)[2 * i + 1];
    }
  }

  lemma SignerFieldsShort(ss: seq<Signer>)
    requires forall s :: s in ss ==> |s.peerID| <= MAX_FIELD
    ensures Short(SignerFields(ss))
  {
    SignerFieldsAt(ss);
    forall i | 0 <= i < 2 * |ss| ensures |SignerFields(ss)[i]| <= MAX_FIELD {
      assert i == 2 * (i / 2) || i == 2 * (i / 2) + 1;
    }
  }

  ghost function SignerSet(r: Record): set<Signer> {
    set s | s in r.signers
  }

  lemma HeaderInjective(r: Record, s: Record)
    requires |r.signers| <= MAX_SIGNERS && |s.signers| <= MAX_SIGNERS
    requires RecordHeader(r) == RecordHeader(s)
    ensures r.generation == s.generation && r.disabled == s.disabled && |r.signers| == |s.signers|
  {
    var a, b := RecordHeader(r), RecordHeader(s);
    assert a[14..22] == BigEndian(r.generation, 8) && b[14..22] == BigEndian(s.generation, 8);
    assert a[22] == (if r.disabled then 1 else 0) && b[22] == (if s.disabled then 1 else 0);
    assert a[23..25] == BigEndian(|r.signers|, 2) && b[23..25] == BigEndian(|s.signers|, 2);
    assert Pow256(2) == 65536 && Pow256(8) == 0x1_0000_0000_0000_0000 by { Pow256Values(); }
    BigEndianInjective(r.generation, s.generation, 8);
    BigEndianInjective(|r.signers|, |s.signers|, 2);
  }

  lemma Pow256Values()
    ensures Pow256(2) == 65536 && Pow256(8) == 0x1_0000_0000_0000_0000
  {
    assert Pow256(1) == 256;
    assert Pow256(4) == 65536 * 65536 by { assert Pow256(3) == 256 * 65536; }
    assert Pow256(6) == Pow256(4) * 65536 by { assert Pow256(5) == 256 * Pow256(4); }
    assert Pow256(8) == Pow256(6) * 65536 by { assert Pow256(7) == 256 * Pow256(6); }
  }

  lemma SameBytesSameParts(r: Record, s: Record)
    requires RecordBytes(r).Ok? && RecordBytes(r) == RecordBytes(s)
    ensures r.generation == s.generation && r.disabled == s.disabled
    ensures Order.Sort(KeyOf, r.signers) == Order.Sort(KeyOf, s.signers)
  {
    var rs, ss := Order.Sort(KeyOf, r.signers), Order.Sort(KeyOf, s.signers);
    SortedIsPermutation(r.signers);
    SortedIsPermutation(s.signers);
    var a, b := RecordBytes(r).value, RecordBytes(s).value;
    assert |RecordHeader(r)| == 25 == |RecordHeader(s)|;
    assert RecordHeader(r) == a[..25] == b[..25] == RecordHeader(s);
    HeaderInjective(r, s);
    assert Fields(SignerFields(rs)) == a[25..] == b[25..] == Fields(SignerFields(ss));
    SignerFieldsShort(rs);
    SignerFieldsShort(ss);
    SignerFieldsAt(rs);
    SignerFieldsAt(ss);
    FieldsInjective(SignerFields(rs), SignerFields(ss));
    SignersFromFields(rs, ss);
  }

  /** Lock records have the same canonical bytes exactly when generation,
      disabled flag and signer set agree, in whatever order the signers
      are listed. */
  lemma RecordBytesInjective(r: Record, s: Record)
    requires RecordBytes(r).Ok? && RecordBytes(s).Ok?
    ensures RecordBytes(r) == RecordBytes(s) <==>
            r.generation == s.generation && r.disabled == s.disabled && SignerSet(r) == SignerSet(s)
  {
    var rs, ss := Order.Sort(KeyOf, r.signers), Order.Sort(KeyOf, s.signers);
    SortedIsPermutation(r.signers);
    SortedIsPermutation(s.signers);
    if RecordBytes(r) == RecordBytes(s) {
      SameBytesSameParts(r, s);
      assert forall x :: x in r.signers <==> x in s.signers;
    }
    if r.generation == s.generation && r.disabled == s.disabled && SignerSet(r) == SignerSet(s) {
      SameSetSameMultiset(r.signers, s.signers);
      Order.SortSorts(KeyOf, r.signers);
      Order.SortSorts(KeyOf, s.signers);
      SortedKeepsDistinct(r.signers);
      Order.SortedUnique(KeyOf, rs, ss);
    }
  }

  ghost predicate DistinctKeys(ss: seq<Signer>) {
    forall i, j :: 0 <= i < j < |ss| ==> ss[i].key != ss[j].key
  }

  lemma {:induction false} SameSetSameMultiset(ss: seq<Signer>, tt: seq<Signer>)
    requires DistinctKeys(ss) && DistinctKeys(tt)
    requires (set s | s in ss) == (set s | s in tt)
    ensures multiset(ss) == multiset(tt) && |ss| == |tt|
  {
    DistinctIsSet(ss);
    DistinctIsSet(tt);
    assert |ss| == |multiset(ss)| && |tt| == |multiset(tt)|;
  }

  lemma DistinctFirst(ss: seq<Signer>)
    requires DistinctKeys(ss) && ss != []
    ensures ss[0] !in ss[1..] && DistinctKeys(ss[1..])
  {
    forall i | 0 <= i < |ss[1..]| ensures ss[1..][i] != ss[0] {
      assert ss[1..][i] == ss[i + 1];
    }
  }

  lemma {:induction false} DistinctIsSet(ss: seq<Signer>)
    requires DistinctKeys(ss)
    ensures multiset(ss) == multiset(set s | s in ss)
  {
    if ss != [] {
      var first, rest := ss[0], ss[1..];
      assert ss == [first] + rest;
      DistinctIsSet(rest);
      DistinctFirst(ss);
      assert (set s | s in ss) == {first} + set s | s in rest;
    }
  }

  lemma SortedKeepsDistinct(ss: seq<Signer>)
    requires DistinctKeys(ss)
    ensures Order.KeysDistinct(KeyOf, Order.Sort(KeyOf, ss))
  {
    var t := Order.Sort(KeyOf, ss);
    Order.SortSorts(KeyOf, ss);
    DistinctIsSet(ss);
    forall i, j | 0 <= i < j < |t| ensures KeyOf(t[i]) != KeyOf(t[j]) {
      assert t[i] in multiset(t) && t[j] in multiset(t);
      assert t[i] in ss && t[j] in ss;
      AtMostOnce(t, i, j);
    }
  }

  lemma AtMostOnce(t: seq<Signer>, i: nat, j: nat)
    requires i < j < |t| && multiset(t)[t[i]] <= 1
    ensures t[i] != t[j]
  {
    assert t == t[..j] + t[j..];
    assert t[i] == t[..j][i] && t[i] in multiset(t[..j]);
    assert t[j] == t[j..][0] && t[j] in multiset(t[j..]);
  }

  /** A signature over one kind of record is never one over the other: the
      two encodings have no bytes in common. */
  lemma KindsDisjoint(p: PeerRecord, r: Record)
    requires PeerBytes(p).Ok? && RecordBytes(r).Ok?
    ensures PeerBytes(p).value != RecordBytes(r).value
  {
    assert PeerBytes(p).value[6] == 112;
    assert RecordBytes(r).value[6] == RecordHeader(r)[6] == 108;
  }

  // ----- succession -----

  predicate SignedByAny(lib: Lib, set_: Record, msg: seq<byte>, sig: Signature) {
    exists i :: 0 <= i < |set_.signers| && lib.verify(set_.signers[i].key, msg, sig)
  }

  function CurrentRecord(l: Option<Signed>): Option<Record> {
    if l.None? then None else Some(l.value.record)
  }

  /** A record without signers ends its lineage. */
  predicate LineageEnded(current: Option<Record>) {
    current.None? || current.value.signers == []
  }

  /** Why next may not replace current; None when it may. */
  function Accept(lib: Lib, current: Option<Record>, next: Signed): (r: Option<LockError>) {
    var msg := RecordBytes(next.record);
    if msg.Err? then Some(msg.error)
    else if LineageEnded(current) then
      (if SignedByAny(lib, next.record, msg.value, next.signature) then None else Some(NotSigned))
    else if next.record.generation <= current.value.generation then Some(Stale)
    else if !SignedByAny(lib, current.value, msg.value, next.signature) then Some(NotSigned)
    else None
  }
}
