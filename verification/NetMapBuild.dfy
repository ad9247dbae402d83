/** NetMapBuilder.Build: the netmap a device is sent, assembled from
    separate reads of the store. */
module NetMapBuild {
  import opened Basics
  import opened LockRecord
  import opened Control
  import opened ClientPins

  /** One row of the signature table. */
  datatype SigRow = SigRow(peer: text, key: text, signer: Key32, signature: Signature)

  datatype ServerSig = ServerSig(signer: Key32, signature: Signature)

  /** Peer id and key joined by a NUL, the index key. */
  function Joined(peer: text, key: text): text {
    peer + [0] + key
  }

  /** The signatures listed under one index key, in table order. */
  function SigsUnder(rows: seq<SigRow>, k: text): seq<ServerSig> {
    if rows == [] then []
    else
      var r := rows[|rows| - 1];
      SigsUnder(rows[..|rows| - 1], k) + if Joined(r.peer, r.key) == k then [ServerSig(r.signer, r.signature)] else []
  }

  /** A row as it is stored, signer and signature as text. */
  datatype StoredRow = StoredRow(peer: text, key: text, signer: text, signature: text)

  /** The rows that can be read; the others are skipped. */
  function Readable(lib: Lib, stored: seq<StoredRow>): seq<SigRow> {
    if stored == [] then []
    else
      var r := stored[|stored| - 1];
      var signer, sig := lib.parseLockKey(r.signer), lib.parseSignature(r.signature);
      Readable(lib, stored[..|stored| - 1])
      + if signer.Some? && sig.Some? then [SigRow(r.peer, r.key, signer.value, sig.value)] else []
  }

  function Written(lib: Lib, r: SigRow): StoredRow {
    StoredRow(r.peer, r.key, lib.showLockKey(r.signer), lib.showSignature(r.signature))
  }

  /** What the lock service writes is read back in full and in order. */
  lemma {:induction false} WrittenIsReadable(lib: Lib, rows: seq<SigRow>)
    requires TextRoundTrips(lib)
    ensures Readable(lib, seq(|rows|, i requires 0 <= i < |rows| => Written(lib, rows[i]))) == rows
  {
    var stored := seq(|rows|, i requires 0 <= i < |rows| => Written(lib, rows[i]));
    if rows != [] {
      var front, last := rows[..|rows| - 1], rows[|rows| - 1];
      WrittenIsReadable(lib, front);
      assert stored[..|rows| - 1] == seq(|front|, i requires 0 <= i < |front| => Written(lib, front[i]));
      assert rows == front + [last];
    }
  }

  ghost predicate Indexed(idx: map<text, seq<ServerSig>>, rows: seq<SigRow>) {
    forall k :: Lookup(idx, k) == SigsUnder(rows, k)
  }

  lemma IndexedOneMore(idx: map<text, seq<ServerSig>>, rows: seq<SigRow>, r: SigRow)
    requires Indexed(idx, rows)
    ensures var k := Joined(r.peer, r.key);
            Indexed(idx[k := Lookup(idx, k) + [ServerSig(r.signer, r.signature)]], rows + [r])
  {
    var joined := Joined(r.peer, r.key);
    var more := idx[joined := Lookup(idx, joined) + [ServerSig(r.signer, r.signature)]];
    assert (rows + [r])[..|rows|] == rows;
    forall k ensures Lookup(more, k) == SigsUnder(rows + [r], k) {
      assert Lookup(idx, k) == SigsUnder(rows, k);
    }
  }

  method IndexSignatures(lib: Lib, stored: seq<StoredRow>) returns (idx: map<text, seq<ServerSig>>)
    ensures Indexed(idx, Readable(lib, stored))
  {
    idx := map[];
    for i := 0 to |stored|
      invariant Indexed(idx, Readable(lib, stored[..i]))
    {
      assert stored[..i + 1][..i] == stored[..i];
      var r := stored[i];
      var signer, sig := lib.parseLockKey(r.signer), lib.parseSignature(r.signature);
      if signer.Some? && sig.Some? {
        IndexedOneMore(idx, Readable(lib, stored[..i]), SigRow(r.peer, r.key, signer.value, sig.value));
        var k := Joined(r.peer, r.key);
        idx := idx[k := Lookup(idx, k) + [ServerSig(signer.value, sig.value)]];
      } else {
        assert Readable(lib, stored[..i + 1]) == Readable(lib, stored[..i]);
      }
    }
    assert stored[..|stored|] == stored;
  }

  lemma {:induction false} RowIsIndexed(rows: seq<SigRow>, r: SigRow)
    requires r in rows
    ensures ServerSig(r.signer, r.signature) in SigsUnder(rows, Joined(r.peer, r.key))
  {
    if r != rows[|rows| - 1] {
      RowIsIndexed(rows[..|rows| - 1], r);
    }
  }

  /** The wire form of a signature. */
  function Show(lib: Lib, s: ServerSig): PeerSignature {
    PeerSignature(lib.showLockKey(s.signer), lib.showSignature(s.signature))
  }

  function ShowAll(lib: Lib, ss: seq<ServerSig>): seq<PeerSignature> {
    seq(|ss|, i requires 0 <= i < |ss| => Show(lib, ss[i]))
  }

  function NetPeer(lib: Lib, rows: seq<SigRow>, wants: text -> nat, p: PeerRow): Peer {
    var sigs := ShowAll(lib, SigsUnder(rows, Joined(p.id, p.key)));
    if p.isStatic then Peer(p.id, p.name, p.key, true, sigs, false, 0)
    else Peer(p.id, p.name, p.key, false, sigs, wants(p.id) != 0, wants(p.id))
  }

  function NetPeers(lib: Lib, rows: seq<SigRow>, wants: text -> nat, shown: PeerRow -> bool,
                    all: seq<PeerRow>): seq<Peer> {
    if all == [] then []
    else
      var p := all[|all| - 1];
      NetPeers(lib, rows, wants, shown, all[..|all| - 1]) + if shown(p) then [NetPeer(lib, rows, wants, p)] else []
  }

  /** The netmap of three reads: the peer list, the lock record and the
      signature table; shown is "not the receiver, and visible to it". */
  function NetMapOf(lib: Lib, hubKey: text, wants: text -> nat, shown: PeerRow -> bool, all: seq<PeerRow>,
                    lockRec: Option<Signed>, rows: seq<SigRow>): NetMap {
    var hub := HubPeer(hubKey, ShowAll(lib, SigsUnder(rows, Joined(HUB, hubKey))));
    NetMap(NetPeers(lib, rows, wants, shown, all), hub, lockRec)
  }

  method Build(lib: Lib, hubKey: text, wants: text -> nat, shown: PeerRow -> bool, all: seq<PeerRow>,
               lockRec: Option<Signed>, stored: seq<StoredRow>)
    returns (nm: NetMap)
    ensures nm == NetMapOf(lib, hubKey, wants, shown, all, lockRec, Readable(lib, stored))
  {
    var idx := IndexSignatures(lib, stored);
    ghost var rows := Readable(lib, stored);
    nm := NetMap([], HubPeer(hubKey, ShowAll(lib, Lookup(idx, Joined(HUB, hubKey)))), lockRec);
    for i := 0 to |all|
      invariant nm.peers == NetPeers(lib, rows, wants, shown, all[..i])
      invariant nm.lock == lockRec && nm.hub == HubPeer(hubKey, ShowAll(lib, SigsUnder(rows, Joined(HUB, hubKey))))
    {
      assert all[..i + 1][..i] == all[..i];
      var p := all[i];
      if shown(p) {
        var sigs := ShowAll(lib, Lookup(idx, Joined(p.id, p.key)));
        assert sigs == ShowAll(lib, SigsUnder(rows, Joined(p.id, p.key)));
        var entry: Peer;
        if p.isStatic {
          entry := Peer(p.id, p.name, p.key, true, sigs, false, 0);
        } else {
          var w := wants(p.id);
          entry := Peer(p.id, p.name, p.key, false, sigs, w != 0, w);
        }
        nm := nm.(peers := nm.peers + [entry]);
      }
    }
    assert all[..|all|] == all;
  }

  lemma {:induction false} NetPeersFrom(lib: Lib, rows: seq<SigRow>, wants: text -> nat, shown: PeerRow -> bool,
                                        all: seq<PeerRow>)
    ensures forall p ::
              p in NetPeers(lib, rows, wants, shown, all) <==>
                exists r :: r in all && shown(r) && p == NetPeer(lib, rows, wants, r)
  {
    if all != [] {
      var front, last := all[..|all| - 1], all[|all| - 1];
      NetPeersFrom(lib, rows, wants, shown, front);
      forall p
        ensures p in NetPeers(lib, rows, wants, shown, all) <==>
                  exists r :: r in all && shown(r) && p == NetPeer(lib, rows, wants, r)
      {
        assert forall r :: r in all <==> r in front || r == last by {
          assert all == front + [last];
        }
      }
    }
  }

  // ----- what each read returns -----

  ghost predicate ListsPeers(db: Db, all: seq<PeerRow>) {
    forall r :: r in all <==> r.id in db.peers && db.peers[r.id] == r
  }

  ghost predicate ListsSigs(db: Db, rows: seq<SigRow>) {
    forall r ::
      r in rows <==>
        var k := SigKey(r.peer, r.key, r.signer);
        k in db.sigs && db.sigs[k] == r.signature
  }

  // ----- the server's own view of "signed" -----

  predicate IsSigned(lib: Lib, set_: Record, rec: PeerRecord, sigs: seq<ServerSig>) {
    set_.Enabled() && PeerBytes(rec).Ok?
    && exists i ::
         0 <= i < |sigs| && set_.Has(sigs[i].signer)
         && lib.verify(sigs[i].signer, PeerBytes(rec).value, sigs[i].signature)
  }

  /** Over the wire nothing changes: what the server counts as signed is what
      the client counts as signed. */
  lemma SameVerdict(lib: Lib, set_: Record, id: text, name: text, key: text, wk: Key32, sigs: seq<ServerSig>)
    requires TextRoundTrips(lib) && set_.Enabled() && lib.parseWgKey(key) == Some(wk)
    ensures SignedBy(lib, set_, id, name, key, ShowAll(lib, sigs)) <==>
              IsSigned(lib, set_, PeerRecord(id, name, wk), sigs)
  {
    var rec := PeerRecord(id, name, wk);
    if PeerBytes(rec).Ok? {
      var msg := PeerBytes(rec).value;
      var shown := ShowAll(lib, sigs);
      forall i | 0 <= i < |sigs|
        ensures ValidSignature(lib, set_, msg, shown[i]) <==>
                  set_.Has(sigs[i].signer) && lib.verify(sigs[i].signer, msg, sigs[i].signature)
      {
        assert shown[i] == Show(lib, sigs[i]);
      }
    }
  }
}
