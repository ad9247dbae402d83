/** What a netmap shows of signed keys when its reads are interleaved with
    any transactions, and that the client draws the same conclusion. */
module SignedNetMaps {
  import opened Basics
  import opened LockRecord
  import opened Control
  import opened ClientPins
  import opened Daemon
  import opened NetMapBuild
  import TrustRuns
  import LockRuns

  // ----- the stored rows -----

  ghost predicate WellStored(lib: Lib, db: Db) {
    && HUB !in db.peers
    && forall id :: id in db.peers ==>
         var p := db.peers[id];
         p.id == id && id != [] && ValidPeerName(p.name) && lib.parseWgKey(p.key).Some?
  }

  lemma CommitKeepsStored(lib: Lib, hubKey: text, db: Db, tx: Tx)
    requires WellStored(lib, db)
    ensures WellStored(lib, Commit(lib, hubKey, db, tx))
  {
    match tx
    case LockSetting(device, next, sgs) =>
      SignAllFrame(lib, hubKey, db.(lock := Some(next)), next.record.SignerKey(device.id), sgs);
    case _ =>
  }

  /** No two peers share a name. */
  ghost predicate NamesUnique(db: Db) {
    forall i, j :: i in db.peers && j in db.peers && db.peers[i].name == db.peers[j].name ==> i == j
  }

  lemma CommitKeepsNames(lib: Lib, hubKey: text, db: Db, tx: Tx)
    requires NamesUnique(db)
    ensures NamesUnique(Commit(lib, hubKey, db, tx))
  {
    match tx
    case LockSetting(device, next, sgs) =>
      SignAllFrame(lib, hubKey, db.(lock := Some(next)), next.record.SignerKey(device.id), sgs);
    case _ =>
  }

  lemma {:induction false} NamesStayUnique(lib: Lib, hubKey: text, dbs: seq<Db>, txs: seq<Tx>, i: nat)
    requires History(lib, hubKey, dbs, txs) && NamesUnique(dbs[0]) && i < |dbs|
    ensures NamesUnique(dbs[i])
  {
    if i > 0 {
      NamesStayUnique(lib, hubKey, dbs, txs, i - 1);
      CommitKeepsNames(lib, hubKey, dbs[i - 1], txs[i - 1]);
    }
  }

  lemma {:induction false} AlwaysWellStored(lib: Lib, hubKey: text, dbs: seq<Db>, txs: seq<Tx>, i: nat)
    requires History(lib, hubKey, dbs, txs) && WellStored(lib, dbs[0]) && i < |dbs|
    ensures WellStored(lib, dbs[i])
  {
    if i > 0 {
      AlwaysWellStored(lib, hubKey, dbs, txs, i - 1);
      CommitKeepsStored(lib, hubKey, dbs[i - 1], txs[i - 1]);
    }
  }

  // ----- the lock record of the server -----

  /** The stored record changes only by Set: to a successor of the stored
      one, and a lineage starts only from a device an admin owns. */
  lemma StoredRecordStep(lib: Lib, hubKey: text, db: Db, tx: Tx)
    ensures var after := Commit(lib, hubKey, db, tx);
            after.lock == db.lock
            || (tx.LockSetting? && after.lock == Some(tx.next)
                && LockRuns.Succeeds(lib, CurrentRecord(db.lock), tx.next)
                && (LineageEnded(CurrentRecord(db.lock)) ==> AdminOwned(db, tx.device)))
  {
    match tx
    case LockSetting(device, next, sgs) =>
      SignAllFrame(lib, hubKey, db.(lock := Some(next)), next.record.SignerKey(device.id), sgs);
    case _ =>
  }

  /** Over any transactions, while the stored set is not empty, the stored
      generation never falls and the record changes only to a newer one. */
  lemma {:induction false} StoredGenerationsRise(lib: Lib, hubKey: text, dbs: seq<Db>, txs: seq<Tx>, i: nat, j: nat)
    requires History(lib, hubKey, dbs, txs)
    requires i <= j < |dbs| && forall k :: i <= k < j ==> !LineageEnded(CurrentRecord(dbs[k].lock))
    ensures i < j ==> dbs[j].lock.Some?
    ensures dbs[j].lock == dbs[i].lock
            || (dbs[i].lock.Some? && dbs[j].lock.Some?
               && dbs[j].lock.value.record.generation > dbs[i].lock.value.record.generation)
    decreases j
  {
    if i < j {
      StoredGenerationsRise(lib, hubKey, dbs, txs, i, j - 1);
      assert !LineageEnded(CurrentRecord(dbs[j - 1].lock));
      StoredRecordStep(lib, hubKey, dbs[j - 1], txs[j - 1]);
    }
  }

  // ----- signatures stay with the key they were made for -----

  /** The transaction commits and gives the peer another key or removes it. */
  predicate Replaces(lib: Lib, hubKey: text, db: Db, tx: Tx, id: text) {
    ((tx.Rotating? && tx.id == id) || (tx.Deleting? && tx.id == id)) && Exec(lib, hubKey, db, tx).Some?
  }

  /** The transaction commits and renames the peer. */
  predicate Renames(lib: Lib, hubKey: text, db: Db, tx: Tx, id: text) {
    tx.Renaming? && tx.id == id && Exec(lib, hubKey, db, tx).Some?
  }

  /** A stored signature that verifies over the peer's record as it is now. */
  ghost predicate Vouched(lib: Lib, hubKey: text, db: Db, k: SigKey) {
    && k in db.sigs
    && RecordOf(lib, hubKey, db, k.peer, k.key).Some?
    && Verifies(lib, k.signer, RecordOf(lib, hubKey, db, k.peer, k.key).value, db.sigs[k])
  }

  /** One more signature keeps what is vouched and adds its own row. */
  lemma SignVouches(lib: Lib, hubKey: text, db: Db, sg: PeerSigning)
    requires Sign(lib, hubKey, db, sg).Some?
    ensures Vouched(lib, hubKey, Sign(lib, hubKey, db, sg).value, KeyOfSigning(sg))
    ensures forall k :: Vouched(lib, hubKey, db, k) ==> Vouched(lib, hubKey, Sign(lib, hubKey, db, sg).value, k)
  {
  }

  lemma {:induction false} SignAllKeeps(lib: Lib, hubKey: text, db: Db, signer: Option<Key32>, sgs: seq<PeerSigning>,
                                        k: SigKey)
    requires SignAll(lib, hubKey, db, signer, sgs).Some? && Vouched(lib, hubKey, db, k)
    ensures Vouched(lib, hubKey, SignAll(lib, hubKey, db, signer, sgs).value, k)
  {
    if sgs != [] {
      var last := |sgs| - 1;
      SignAllKeeps(lib, hubKey, db, signer, sgs[..last], k);
      SignVouches(lib, hubKey, SignAll(lib, hubKey, db, signer, sgs[..last]).value, sgs[last]);
    }
  }

  lemma {:induction false} SignAllVouches(lib: Lib, hubKey: text, db: Db, signer: Option<Key32>, sgs: seq<PeerSigning>,
                                          i: nat)
    requires SignAll(lib, hubKey, db, signer, sgs).Some? && i < |sgs|
    ensures Vouched(lib, hubKey, SignAll(lib, hubKey, db, signer, sgs).value, KeyOfSigning(sgs[i]))
  {
    var last := |sgs| - 1;
    if i < last {
      SignAllVouches(lib, hubKey, db, signer, sgs[..last], i);
    }
    SignVouches(lib, hubKey, SignAll(lib, hubKey, db, signer, sgs[..last]).value, sgs[last]);
  }

  /** Set keeps what is vouched and vouches for every row submitted. */
  lemma SetVouches(lib: Lib, hubKey: text, db: Db, device: PeerRow, next: Signed, sgs: seq<PeerSigning>, k: SigKey)
    requires SetLock(lib, hubKey, db, device, next, sgs).Some?
    requires Vouched(lib, hubKey, db, k) || exists m :: 0 <= m < |sgs| && KeyOfSigning(sgs[m]) == k
    ensures Vouched(lib, hubKey, SetLock(lib, hubKey, db, device, next, sgs).value, k)
  {
    var start, signer := db.(lock := Some(next)), next.record.SignerKey(device.id);
    if m :| 0 <= m < |sgs| && KeyOfSigning(sgs[m]) == k {
      SignAllVouches(lib, hubKey, start, signer, sgs, m);
    } else {
      SameRows(lib, hubKey, db, start, k);
      SignAllKeeps(lib, hubKey, start, signer, sgs, k);
    }
    var signed := SignAll(lib, hubKey, start, signer, sgs).value;
    SameRows(lib, hubKey, signed, signed.(generation := signed.generation + 1), k);
  }

  lemma SameRows(lib: Lib, hubKey: text, a: Db, b: Db, k: SigKey)
    requires a.peers == b.peers && a.sigs == b.sigs
    ensures Vouched(lib, hubKey, a, k) ==> Vouched(lib, hubKey, b, k)
  {
  }

  /** Only another key, a removal or another name ends a vouched row, and
      nothing ends the hub's. */
  lemma VouchedStep(lib: Lib, hubKey: text, db: Db, tx: Tx, k: SigKey)
    requires WellStored(lib, db) && Vouched(lib, hubKey, db, k)
    requires k.peer == HUB || (!Replaces(lib, hubKey, db, tx, k.peer) && !Renames(lib, hubKey, db, tx, k.peer))
    ensures Vouched(lib, hubKey, Commit(lib, hubKey, db, tx), k)
  {
    match tx
    case LockSetting(device, next, sgs) =>
      if SetLock(lib, hubKey, db, device, next, sgs).Some? {
        SetVouches(lib, hubKey, db, device, next, sgs, k);
      }
    case _ =>
  }

  lemma {:induction false} VouchedStays(lib: Lib, hubKey: text, dbs: seq<Db>, txs: seq<Tx>, k: SigKey, i: nat, j: nat)
    requires History(lib, hubKey, dbs, txs) && WellStored(lib, dbs[0])
    requires i <= j < |dbs| && Vouched(lib, hubKey, dbs[i], k)
    requires k.peer == HUB
             || forall u :: i <= u < j ==>
                  !Replaces(lib, hubKey, dbs[u], txs[u], k.peer) && !Renames(lib, hubKey, dbs[u], txs[u], k.peer)
    ensures Vouched(lib, hubKey, dbs[j], k)
    decreases j
  {
    if i < j {
      VouchedStays(lib, hubKey, dbs, txs, k, i, j - 1);
      AlwaysWellStored(lib, hubKey, dbs, txs, j - 1);
      VouchedStep(lib, hubKey, dbs[j - 1], txs[j - 1], k);
    }
  }

  /** The transaction submits that signature for that row. */
  ghost predicate Submits(tx: Tx, k: SigKey, sig: Signature) {
    || (tx.Signing? && KeyOfSigning(tx.sg) == k && tx.sg.signature == sig)
    || (tx.LockSetting? && exists m :: 0 <= m < |tx.sgs| && KeyOfSigning(tx.sgs[m]) == k && tx.sgs[m].signature == sig)
  }

  lemma {:induction false} SignAllRows(lib: Lib, hubKey: text, db: Db, signer: Option<Key32>, sgs: seq<PeerSigning>,
                                       k: SigKey)
    requires SignAll(lib, hubKey, db, signer, sgs).Some? && k in db.sigs
    ensures var r := SignAll(lib, hubKey, db, signer, sgs).value;
            k in r.sigs && (r.sigs[k] == db.sigs[k]
                            || exists m :: 0 <= m < |sgs| && KeyOfSigning(sgs[m]) == k && sgs[m].signature == r.sigs[k])
  {
    if sgs != [] {
      var front, last := sgs[..|sgs| - 1], sgs[|sgs| - 1];
      SignAllRows(lib, hubKey, db, signer, front, k);
      var before, r := SignAll(lib, hubKey, db, signer, front).value, SignAll(lib, hubKey, db, signer, sgs).value;
      if KeyOfSigning(last) == k {
        assert sgs[|sgs| - 1] == last;
      } else if before.sigs[k] != db.sigs[k] {
        var m :| 0 <= m < |front| && KeyOfSigning(front[m]) == k && front[m].signature == before.sigs[k];
        assert sgs[m] == front[m];
      }
    }
  }

  lemma RowStep(lib: Lib, hubKey: text, db: Db, tx: Tx, k: SigKey)
    requires k in db.sigs && !Replaces(lib, hubKey, db, tx, k.peer)
    ensures var after := Commit(lib, hubKey, db, tx);
            k in after.sigs && (after.sigs[k] == db.sigs[k] || Submits(tx, k, after.sigs[k]))
  {
    match tx
    case LockSetting(device, next, sgs) =>
      if SetLock(lib, hubKey, db, device, next, sgs).Some? {
        SignAllRows(lib, hubKey, db.(lock := Some(next)), next.record.SignerKey(device.id), sgs, k);
      }
    case _ =>
  }

  /** Without another key or a removal a stored signature stays in the table,
      replaced at most by a later one of the same signer over the same key;
      a rename does not touch it. */
  lemma {:induction false} RowStays(lib: Lib, hubKey: text, dbs: seq<Db>, txs: seq<Tx>, k: SigKey, i: nat, j: nat)
    requires History(lib, hubKey, dbs, txs)
    requires i <= j < |dbs| && k in dbs[i].sigs
    requires forall u :: i <= u < j ==> !Replaces(lib, hubKey, dbs[u], txs[u], k.peer)
    ensures k in dbs[j].sigs
    ensures dbs[j].sigs[k] == dbs[i].sigs[k] || exists u :: i <= u < j && Submits(txs[u], k, dbs[j].sigs[k])
    decreases j
  {
    if i < j {
      var u := j - 1;
      RowStays(lib, hubKey, dbs, txs, k, i, u);
      assert dbs[u + 1] == Commit(lib, hubKey, dbs[u], txs[u]);
      RowStep(lib, hubKey, dbs[u], txs[u], k);
    }
  }

  // ----- netmaps -----

  /** Build's three reads in the order it makes them: peers, lock record,
      signatures; anything may be committed in between. */
  ghost predicate Reads(dbs: seq<Db>, all: seq<PeerRow>, lockRec: Option<Signed>, rows: seq<SigRow>, a: nat, b: nat,
                        c: nat) {
    a <= b <= c < |dbs| && ListsPeers(dbs[a], all) && lockRec == dbs[b].lock && ListsSigs(dbs[c], rows)
  }

  /** The server would call this entry signed under the record it sends. */
  ghost predicate ShownSigned(lib: Lib, lockRec: Option<Signed>, rows: seq<SigRow>, p: PeerRow) {
    && lockRec.Some? && lib.parseWgKey(p.key).Some?
    && IsSigned(lib, lockRec.value.record, PeerRecord(p.id, p.name, lib.parseWgKey(p.key).value),
                SigsUnder(rows, Joined(p.id, p.key)))
  }

  lemma {:induction false} KeyStays(lib: Lib, hubKey: text, dbs: seq<Db>, txs: seq<Tx>, id: text, i: nat, j: nat)
    requires History(lib, hubKey, dbs, txs)
    requires i <= j < |dbs| && id in dbs[i].peers
    requires forall u :: i <= u < j ==> !Replaces(lib, hubKey, dbs[u], txs[u], id)
    ensures id in dbs[j].peers && dbs[j].peers[id].key == dbs[i].peers[id].key
    ensures (forall u :: i <= u < j ==> !Renames(lib, hubKey, dbs[u], txs[u], id)) ==>
              dbs[j].peers[id].name == dbs[i].peers[id].name
    decreases j
  {
    if i < j {
      var u := j - 1;
      KeyStays(lib, hubKey, dbs, txs, id, i, u);
      KeyStep(lib, hubKey, dbs[u], txs[u], id);
      assert dbs[u + 1] == Commit(lib, hubKey, dbs[u], txs[u]);
    }
  }

  lemma KeyStep(lib: Lib, hubKey: text, db: Db, tx: Tx, id: text)
    requires id in db.peers && !Replaces(lib, hubKey, db, tx, id)
    ensures var after := Commit(lib, hubKey, db, tx);
            id in after.peers && after.peers[id].key == db.peers[id].key
            && (!Renames(lib, hubKey, db, tx, id) ==> after.peers[id].name == db.peers[id].name)
  {
    match tx
    case LockSetting(device, next, sgs) =>
      SignAllFrame(lib, hubKey, db.(lock := Some(next)), next.record.SignerKey(device.id), sgs);
    case _ =>
  }

  /** The transaction commits and stores a signature in that row. */
  ghost predicate Signs(lib: Lib, hubKey: text, db: Db, tx: Tx, k: SigKey) {
    Exec(lib, hubKey, db, tx).Some? && exists sig: Signature :: Submits(tx, k, sig)
  }

  lemma SignsStep(lib: Lib, hubKey: text, db: Db, tx: Tx, k: SigKey)
    requires k in db.sigs && !Replaces(lib, hubKey, db, tx, k.peer)
    ensures var after := Commit(lib, hubKey, db, tx);
            && k in after.sigs
            && (Signs(lib, hubKey, db, tx, k) ==> Vouched(lib, hubKey, after, k))
            && (!Signs(lib, hubKey, db, tx, k) ==> after.sigs[k] == db.sigs[k])
  {
    RowStep(lib, hubKey, db, tx, k);
    if Signs(lib, hubKey, db, tx, k) {
      var sig: Signature :| Submits(tx, k, sig);
      match tx
      case Signing(sg) => SignVouches(lib, hubKey, db, sg);
      case LockSetting(device, next, sgs) =>
        SetVouches(lib, hubKey, db, device, next, sgs, k);
    }
  }

  lemma SignsAt(lib: Lib, hubKey: text, dbs: seq<Db>, txs: seq<Tx>, k: SigKey, v: nat)
    requires History(lib, hubKey, dbs, txs) && v < |txs| && k in dbs[v].sigs
    requires !Replaces(lib, hubKey, dbs[v], txs[v], k.peer)
    ensures k in dbs[v + 1].sigs
    ensures Signs(lib, hubKey, dbs[v], txs[v], k) ==> Vouched(lib, hubKey, dbs[v + 1], k)
    ensures !Signs(lib, hubKey, dbs[v], txs[v], k) ==> dbs[v + 1].sigs[k] == dbs[v].sigs[k]
  {
    SignsStep(lib, hubKey, dbs[v], txs[v], k);
    assert dbs[v + 1] == Commit(lib, hubKey, dbs[v], txs[v]);
  }

  /** The last of the moments in (t, c) that count, or t. */
  lemma {:induction false} LastMoment(counts: nat -> bool, t: nat, c: nat) returns (u: nat)
    requires t < c
    ensures t <= u < c && (u == t || counts(u)) && forall v :: u < v < c ==> !counts(v)
    decreases c
  {
    u := t;
    if t + 1 < c {
      u := c - 1;
      if !counts(u) {
        u := LastMoment(counts, t, c - 1);
      }
    }
  }

  lemma {:induction false} RowKept(lib: Lib, hubKey: text, dbs: seq<Db>, txs: seq<Tx>, k: SigKey, i: nat, j: nat)
    requires History(lib, hubKey, dbs, txs) && i <= j < |dbs| && k in dbs[i].sigs
    requires forall v :: i <= v < j ==> !Replaces(lib, hubKey, dbs[v], txs[v], k.peer)
    requires forall v :: i <= v < j ==> !Signs(lib, hubKey, dbs[v], txs[v], k)
    ensures k in dbs[j].sigs && dbs[j].sigs[k] == dbs[i].sigs[k]
    decreases j
  {
    if i < j {
      RowKept(lib, hubKey, dbs, txs, k, i, j - 1);
      SignsAt(lib, hubKey, dbs, txs, k, j - 1);
    }
  }

  /** The transaction that last wrote a row, looking back from c; there its
      signature was checked against the peer as it then was. */
  lemma LastSigned(lib: Lib, hubKey: text, dbs: seq<Db>, txs: seq<Tx>, k: SigKey, t: nat, c: nat) returns (u: nat)
    requires History(lib, hubKey, dbs, txs) && t < c < |dbs| && Vouched(lib, hubKey, dbs[t + 1], k)
    requires forall v :: t < v < c ==> !Replaces(lib, hubKey, dbs[v], txs[v], k.peer)
    ensures t <= u < c && (u == t || Signs(lib, hubKey, dbs[u], txs[u], k))
    ensures forall v :: u < v < c ==> !Signs(lib, hubKey, dbs[v], txs[v], k)
    ensures Vouched(lib, hubKey, dbs[u + 1], k) && k in dbs[c].sigs && dbs[c].sigs[k] == dbs[u + 1].sigs[k]
  {
    var signs := (v: nat) => v < |txs| < |dbs| && Signs(lib, hubKey, dbs[v], txs[v], k);
    u := LastMoment(signs, t, c);
    forall v | u < v < c ensures !Signs(lib, hubKey, dbs[v], txs[v], k) {
      assert !signs(v);
    }
    if u > t {
      RowStays(lib, hubKey, dbs, txs, k, t + 1, u);
      SignsAt(lib, hubKey, dbs, txs, k, u);
    }
    RowKept(lib, hubKey, dbs, txs, k, u + 1, c);
  }

  lemma {:induction false} IndexedStems(rows: seq<SigRow>, k: text, s: ServerSig) returns (r: SigRow)
    requires s in SigsUnder(rows, k)
    ensures r in rows && Joined(r.peer, r.key) == k && r.signer == s.signer && r.signature == s.signature
  {
    r := rows[|rows| - 1];
    if Joined(r.peer, r.key) != k || s != ServerSig(r.signer, r.signature) {
      r := IndexedStems(rows[..|rows| - 1], k, s);
    }
  }

  /** k's row is the only one listed under its peer and key. */
  ghost predicate OnlyRow(rows: seq<SigRow>, k: SigKey) {
    forall r :: r in rows && Joined(r.peer, r.key) == Joined(k.peer, k.key) ==> SigKey(r.peer, r.key, r.signer) == k
  }

  /** A signature is good for one message. */
  ghost predicate OneMessage(lib: Lib, signer: Key32, sig: Signature) {
    forall m, n :: lib.verify(signer, m, sig) && lib.verify(signer, n, sig) ==> m == n
  }

  /** Nothing but k's row speaks for its peer and key, and for one message. */
  ghost predicate Alone(lib: Lib, rows: seq<SigRow>, db: Db, k: SigKey) {
    k in db.sigs && OnlyRow(rows, k) && OneMessage(lib, k.signer, db.sigs[k])
  }

  /** The record is enabled and still lists the signer. */
  predicate Lists(lockRec: Option<Signed>, signer: Key32) {
    lockRec.Some? && lockRec.value.record.Enabled() && lockRec.value.record.Has(signer)
  }

  /** Whether one row makes an entry signed: it does when the record lists its
      signer and it was made over the name the entry shows, and it alone does
      not otherwise. */
  lemma RowVerdict(lib: Lib, hubKey: text, made: Db, db: Db, rows: seq<SigRow>, lockRec: Option<Signed>, p: PeerRow,
                   k: SigKey)
    requires k.peer != HUB && k.peer == p.id && k.key == p.key && Vouched(lib, hubKey, made, k)
    requires ListsSigs(db, rows) && k in db.sigs && db.sigs[k] == made.sigs[k]
    ensures Lists(lockRec, k.signer) && p.name == made.peers[k.peer].name ==> ShownSigned(lib, lockRec, rows, p)
    ensures Alone(lib, rows, db, k) ==>
              (ShownSigned(lib, lockRec, rows, p) <==> Lists(lockRec, k.signer) && p.name == made.peers[k.peer].name)
  {
    var sig := db.sigs[k];
    var sigs := SigsUnder(rows, Joined(p.id, p.key));
    RowIsIndexed(rows, SigRow(k.peer, k.key, k.signer, sig));
    var j :| 0 <= j < |sigs| && sigs[j] == ServerSig(k.signer, sig);
    var was, shown := RecordOf(lib, hubKey, made, k.peer, k.key).value,
        PeerRecord(p.id, p.name, lib.parseWgKey(p.key).value);
    if OnlyRow(rows, k) && OneMessage(lib, k.signer, sig) && ShownSigned(lib, lockRec, rows, p) {
      var i :| 0 <= i < |sigs| && lockRec.value.record.Has(sigs[i].signer)
               && lib.verify(sigs[i].signer, PeerBytes(shown).value, sigs[i].signature);
      var r := IndexedStems(rows, Joined(p.id, p.key), sigs[i]);
      assert SigKey(r.peer, r.key, r.signer) == k && r.signature == sig;
      PeerBytesInjective(was, shown);
    }
  }

  function Least(i: nat, j: nat): nat {
    if i < j then i else j
  }

  /** Around t a peer that keeps its key is the same at every state, but for
      its name. */
  lemma SamePeer(lib: Lib, hubKey: text, dbs: seq<Db>, txs: seq<Tx>, id: text, t: nat, a: nat, u: nat, c: nat)
    requires History(lib, hubKey, dbs, txs) && t <= u < c < |dbs| && a <= c
    requires id in dbs[t + 1].peers && id in dbs[a].peers
    requires forall v :: Least(a, t + 1) <= v < c ==> !Replaces(lib, hubKey, dbs[v], txs[v], id)
    ensures id in dbs[u + 1].peers && dbs[a].peers[id].key == dbs[t + 1].peers[id].key
    ensures (forall v :: Least(a, t + 1) <= v < c ==> !Renames(lib, hubKey, dbs[v], txs[v], id)) ==>
              dbs[a].peers[id].name == dbs[u + 1].peers[id].name
  {
    var from := Least(a, t + 1);
    KeyStays(lib, hubKey, dbs, txs, id, from, a);
    KeyStays(lib, hubKey, dbs, txs, id, from, t + 1);
    KeyStays(lib, hubKey, dbs, txs, id, from, u + 1);
  }

  /** What a netmap shows of a row signed at t, however its reads interleave
      with other transactions, as long as the peer keeps its key: u is the
      last transaction that signed the row, and the entry is signed when the
      record read lists the signer and the entry shows the name the peer had
      then; with no other row under that key and a signature good for one
      message, only then. Without a rename it shows that name. */
  lemma SignedRowShown(lib: Lib, hubKey: text, dbs: seq<Db>, txs: seq<Tx>, k: SigKey, t: nat, a: nat, b: nat, c: nat,
                       all: seq<PeerRow>, lockRec: Option<Signed>, rows: seq<SigRow>, p: PeerRow) returns (u: nat)
    requires History(lib, hubKey, dbs, txs) && t < c < |dbs| && Vouched(lib, hubKey, dbs[t + 1], k) && k.peer != HUB
    requires Reads(dbs, all, lockRec, rows, a, b, c) && p in all && p.id == k.peer
    requires forall v :: Least(a, t + 1) <= v < c ==> !Replaces(lib, hubKey, dbs[v], txs[v], k.peer)
    ensures p.key == k.key && k in dbs[c].sigs
    ensures t <= u < c && (u == t || Signs(lib, hubKey, dbs[u], txs[u], k))
            && forall v :: u < v < c ==> !Signs(lib, hubKey, dbs[v], txs[v], k)
    ensures k.peer in dbs[u + 1].peers
    ensures Lists(lockRec, k.signer) && p.name == dbs[u + 1].peers[k.peer].name ==> ShownSigned(lib, lockRec, rows, p)
    ensures Alone(lib, rows, dbs[c], k) ==>
              (ShownSigned(lib, lockRec, rows, p) <==>
                Lists(lockRec, k.signer) && p.name == dbs[u + 1].peers[k.peer].name)
    ensures (forall v :: Least(a, t + 1) <= v < c ==> !Renames(lib, hubKey, dbs[v], txs[v], k.peer)) ==>
              p.name == dbs[u + 1].peers[k.peer].name
  {
    u := LastSigned(lib, hubKey, dbs, txs, k, t, c);
    SamePeer(lib, hubKey, dbs, txs, k.peer, t, a, u, c);
    RowVerdict(lib, hubKey, dbs[u + 1], dbs[c], rows, lockRec, p, k);
  }

  ghost predicate SignedRotationAt(lib: Lib, hubKey: text, dbs: seq<Db>, txs: seq<Tx>, t: nat) {
    t < |txs| < |dbs| && txs[t].Rotating? && txs[t].signed.Some? && Exec(lib, hubKey, dbs[t], txs[t]).Some?
  }

  function RotatedRow(tx: Tx): SigKey
    requires tx.Rotating? && tx.signed.Some?
  {
    SigKey(tx.id, tx.newKey, tx.signed.value.signer)
  }

  lemma RotationVouched(lib: Lib, hubKey: text, dbs: seq<Db>, txs: seq<Tx>, t: nat)
    requires History(lib, hubKey, dbs, txs) && WellStored(lib, dbs[0]) && SignedRotationAt(lib, hubKey, dbs, txs, t)
    ensures txs[t].id != HUB && txs[t].id in dbs[t].peers && Vouched(lib, hubKey, dbs[t + 1], RotatedRow(txs[t]))
    ensures dbs[t + 1].sigs[RotatedRow(txs[t])] == txs[t].signed.value.signature
    ensures txs[t].id in dbs[t + 1].peers && dbs[t + 1].peers[txs[t].id].name == dbs[t].peers[txs[t].id].name
  {
    AlwaysWellStored(lib, hubKey, dbs, txs, t);
    assert dbs[t + 1] == Commit(lib, hubKey, dbs[t], txs[t]);
  }

  /** A netmap whose peer read comes after a signed rotation shows the new key,
      as long as that peer is not rotated or deleted before the last read. The
      entry is signed when the record read still lists the signer and the
      entry shows the name under which the key was last signed, at u, by the
      rotation or again later, as it does without a rename in between; with no
      other signature under that key only then. */
  lemma RotationShownSigned(lib: Lib, hubKey: text, dbs: seq<Db>, txs: seq<Tx>, t: nat, a: nat, b: nat, c: nat,
                            all: seq<PeerRow>, lockRec: Option<Signed>, rows: seq<SigRow>, p: PeerRow) returns (u: nat)
    requires History(lib, hubKey, dbs, txs) && WellStored(lib, dbs[0]) && SignedRotationAt(lib, hubKey, dbs, txs, t)
    requires t < a && Reads(dbs, all, lockRec, rows, a, b, c) && p in all && p.id == txs[t].id
    requires forall v :: t < v < c ==> !Replaces(lib, hubKey, dbs[v], txs[v], txs[t].id)
    ensures p.key == txs[t].newKey && RotatedRow(txs[t]) in dbs[c].sigs
    ensures t <= u < c && (u == t || Signs(lib, hubKey, dbs[u], txs[u], RotatedRow(txs[t])))
    ensures forall v :: u < v < c ==> !Signs(lib, hubKey, dbs[v], txs[v], RotatedRow(txs[t]))
    ensures p.id in dbs[u + 1].peers
    ensures var lists := Lists(lockRec, txs[t].signed.value.signer);
            && (lists && p.name == dbs[u + 1].peers[p.id].name ==> ShownSigned(lib, lockRec, rows, p))
            && (Alone(lib, rows, dbs[c], RotatedRow(txs[t])) ==>
                  (ShownSigned(lib, lockRec, rows, p) <==> lists && p.name == dbs[u + 1].peers[p.id].name))
    ensures (forall v :: t < v < c ==> !Renames(lib, hubKey, dbs[v], txs[v], txs[t].id)) ==>
              (Lists(lockRec, txs[t].signed.value.signer) ==> ShownSigned(lib, lockRec, rows, p))
  {
    RotationVouched(lib, hubKey, dbs, txs, t);
    u := SignedRowShown(lib, hubKey, dbs, txs, RotatedRow(txs[t]), t, a, b, c, all, lockRec, rows, p);
  }

  /** Not signed again, and alone under its key, the rotation is shown signed
      if and only if the record read still lists the signer and the peer list
      shows the name it was signed under: renames between the rotation and
      that read decide, later ones do not. */
  lemma RotationShownIff(lib: Lib, hubKey: text, dbs: seq<Db>, txs: seq<Tx>, t: nat, a: nat, b: nat, c: nat,
                         all: seq<PeerRow>, lockRec: Option<Signed>, rows: seq<SigRow>, p: PeerRow)
    requires History(lib, hubKey, dbs, txs) && WellStored(lib, dbs[0]) && SignedRotationAt(lib, hubKey, dbs, txs, t)
    requires t < a && Reads(dbs, all, lockRec, rows, a, b, c) && p in all && p.id == txs[t].id
    requires forall v :: t < v < c ==> !Replaces(lib, hubKey, dbs[v], txs[v], txs[t].id)
    requires forall v :: t < v < c ==> !Signs(lib, hubKey, dbs[v], txs[v], RotatedRow(txs[t]))
    requires OnlyRow(rows, RotatedRow(txs[t]))
             && OneMessage(lib, txs[t].signed.value.signer, txs[t].signed.value.signature)
    ensures txs[t].id in dbs[t].peers
    ensures ShownSigned(lib, lockRec, rows, p) <==>
              Lists(lockRec, txs[t].signed.value.signer) && p.name == dbs[t].peers[txs[t].id].name
  {
    RotationVouched(lib, hubKey, dbs, txs, t);
    var u := RotationShownSigned(lib, hubKey, dbs, txs, t, a, b, c, all, lockRec, rows, p);
    var v := LastSigned(lib, hubKey, dbs, txs, RotatedRow(txs[t]), t, c);
    assert u == t && v == t;
  }

  /** A library that accepts a key's signatures over one message alone. */
  function Accepting(k: Key32, m: seq<byte>): Lib {
    Lib((key: Key32, msg: seq<byte>, g: Signature) => key == k && msg == m,
        (t: text) => if t == [] then None else Some(k),
        (t: text) => None, (t: text) => None, (key: Key32) => [], (g: Signature) => [], (t: text) => t, (t: text) => t)
  }

  /** A registry of one device, the only signer of its lock. */
  function OneDevice(p: PeerRow, sigs: map<SigKey, Signature>, k: Key32, sig: Signature, generation: nat): Db {
    Db(map[p.id := p], sigs, Some(LockRuns.Sole(1, k, sig)), generation, {})
  }

  lemma DeviceRotates(lib: Lib, k: Key32, sig: Signature, p: PeerRow, key: text)
    requires p.id == [1] && lib.parseWgKey(key).Some?
             && Verifies(lib, k, PeerRecord([1], p.name, lib.parseWgKey(key).value), sig)
    ensures RotateKey(lib, OneDevice(p, map[], k, sig, 0), [1], key, Some(SignedRotation(k, sig)))
         == Some(OneDevice(p.(key := key), map[SigKey([1], key, k) := sig], k, sig, 1))
  {
    var db := OneDevice(p, map[], k, sig, 0);
    var r := db.lock.value.record;
    assert r.SignerKeyFrom([1], 0) == Some(k);
    assert WithoutKey(db.sigs, [1], p.key) == map[];
    assert db.peers[[1] := p.(key := key)] == map[[1] := p.(key := key)];
  }

  lemma DeviceRenames(k: Key32, sig: Signature, p: PeerRow, sigs: map<SigKey, Signature>, name: text)
    requires p.id == [1] && ValidPeerName(name) && name != p.name
    ensures Rename(OneDevice(p, sigs, k, sig, 1), [1], name) == Some(OneDevice(p.(name := name), sigs, k, sig, 2))
  {
    var db := OneDevice(p, sigs, k, sig, 1);
    assert db.peers[[1] := p.(name := name)] == map[[1] := p.(name := name)];
  }

  /** The promise that other devices never see the new key unsigned fails for
      a device renamed after its rotation: one device, rotated and renamed,
      and the netmap read after that. */
  lemma RenamedRotationUnsigned(k: Key32, sig: Signature)
    returns (lib: Lib, dbs: seq<Db>, txs: seq<Tx>, all: seq<PeerRow>, rows: seq<SigRow>, p: PeerRow)
    requires !IsZero(k)
    ensures History(lib, [9], dbs, txs) && |dbs| == 3 && WellStored(lib, dbs[0])
            && SignedRotationAt(lib, [9], dbs, txs, 0)
    ensures txs[1] == Renaming(txs[0].id, [98]) && Reads(dbs, all, dbs[2].lock, rows, 2, 2, 2)
    ensures dbs[2].lock.Some? && dbs[2].lock.value.record.Enabled()
            && dbs[2].lock.value.record.Has(txs[0].signed.value.signer)
    ensures p in all && p.id == txs[0].id && p.key == txs[0].newKey && !ShownSigned(lib, dbs[2].lock, rows, p)
  {
    var was := PeerRow([1], [97], [5], false, []);
    var row := SigKey([1], [6], k);
    lib := Accepting(k, PeerBytes(PeerRecord([1], [97], k)).value);
    txs := [Rotating([1], [6], Some(SignedRotation(k, sig))), Renaming([1], [98])];
    p, rows := PeerRow([1], [98], [6], false, []), [SigRow([1], [6], k, sig)];
    all := [p];
    dbs := [OneDevice(was, map[], k, sig, 0), OneDevice(was.(key := [6]), map[row := sig], k, sig, 1),
            OneDevice(p, map[row := sig], k, sig, 2)];
    DeviceRotates(lib, k, sig, was, [6]);
    DeviceRenames(k, sig, was.(key := [6]), map[row := sig], [98]);
    SoleHas(k, sig);
    DeviceListed(p, row, k, sig, 2);
    assert OneMessage(lib, k, sig);
    RotationShownIff(lib, [9], dbs, txs, 0, 2, 2, 2, all, dbs[2].lock, rows, p);
  }

  lemma SoleHas(k: Key32, sig: Signature)
    ensures LockRuns.Sole(1, k, sig).record.Enabled() && LockRuns.Sole(1, k, sig).record.Has(k)
  {
    assert LockRuns.Sole(1, k, sig).record.signers[0].key == k;
  }

  lemma DeviceListed(p: PeerRow, row: SigKey, k: Key32, sig: Signature, generation: nat)
    ensures ListsPeers(OneDevice(p, map[row := sig], k, sig, generation), [p])
    ensures ListsSigs(OneDevice(p, map[row := sig], k, sig, generation), [SigRow(row.peer, row.key, row.signer, sig)])
    ensures row.peer == [1] && row.key == [6] ==> OnlyRow([SigRow(row.peer, row.key, row.signer, sig)], row)
  {
  }

  /** Also across renames the netmap carries the rotation's signature, or a
      later one by the same signer over the same key: only a rotation or a
      removal of that peer takes it away. */
  lemma RotationRowShown(lib: Lib, hubKey: text, dbs: seq<Db>, txs: seq<Tx>, t: nat, c: nat, rows: seq<SigRow>)
    requires History(lib, hubKey, dbs, txs)
    requires SignedRotationAt(lib, hubKey, dbs, txs, t)
    requires t < c < |dbs| && ListsSigs(dbs[c], rows)
    requires forall u :: t < u < c ==> !Replaces(lib, hubKey, dbs[u], txs[u], txs[t].id)
    ensures var s := txs[t].signed.value;
            exists sig :: ServerSig(s.signer, sig) in SigsUnder(rows, Joined(txs[t].id, txs[t].newKey))
                          && (sig == s.signature
                             || exists u ::
                                  t < u < c && Submits(txs[u], SigKey(txs[t].id, txs[t].newKey, s.signer), sig))
  {
    var k := SigKey(txs[t].id, txs[t].newKey, txs[t].signed.value.signer);
    assert dbs[t + 1] == Commit(lib, hubKey, dbs[t], txs[t]);
    RowStays(lib, hubKey, dbs, txs, k, t + 1, c);
    RowIsIndexed(rows, SigRow(k.peer, k.key, k.signer, dbs[c].sigs[k]));
  }

  lemma {:induction false} NothingUnder(rows: seq<SigRow>, k: text)
    requires forall r :: r in rows ==> Joined(r.peer, r.key) != k
    ensures SigsUnder(rows, k) == []
  {
    if rows != [] {
      NothingUnder(rows[..|rows| - 1], k);
    }
  }

  /** The order of the reads matters: with the signatures read before the
      rotation and the peers after it, every signed rotation to a key without
      an earlier signature would be shown unsigned. */
  lemma OtherOrderShowsUnsigned(lib: Lib, hubKey: text, dbs: seq<Db>, txs: seq<Tx>, t: nat, all: seq<PeerRow>,
                                lockRec: Option<Signed>, rows: seq<SigRow>, p: PeerRow)
    requires History(lib, hubKey, dbs, txs)
    requires SignedRotationAt(lib, hubKey, dbs, txs, t)
    requires ListsSigs(dbs[t], rows) && ListsPeers(dbs[t + 1], all) && p in all && p.id == txs[t].id
    requires forall r :: r in rows ==> Joined(r.peer, r.key) != Joined(p.id, txs[t].newKey)
    ensures p.key == txs[t].newKey && !ShownSigned(lib, lockRec, rows, p)
  {
    assert dbs[t + 1] == Commit(lib, hubKey, dbs[t], txs[t]);
    NothingUnder(rows, Joined(p.id, txs[t].newKey));
  }

  ghost predicate LockSetAt(lib: Lib, hubKey: text, dbs: seq<Db>, txs: seq<Tx>, t: nat, i: nat) {
    t < |txs| < |dbs| && txs[t].LockSetting? && Exec(lib, hubKey, dbs[t], txs[t]).Some? && i < |txs[t].sgs|
  }

  lemma SubmittedVouched(lib: Lib, hubKey: text, dbs: seq<Db>, txs: seq<Tx>, t: nat, i: nat)
    requires History(lib, hubKey, dbs, txs) && LockSetAt(lib, hubKey, dbs, txs, t, i)
    ensures Vouched(lib, hubKey, dbs[t + 1], KeyOfSigning(txs[t].sgs[i]))
    ensures txs[t].next.record.Enabled() && txs[t].next.record.Has(txs[t].sgs[i].signer)
  {
    var device, next, sgs := txs[t].device, txs[t].next, txs[t].sgs;
    var start, signer := dbs[t].(lock := Some(next)), next.record.SignerKey(device.id);
    assert dbs[t + 1] == Commit(lib, hubKey, dbs[t], txs[t]);
    SignAllVouches(lib, hubKey, start, signer, sgs, i);
    SignersAllMatch(lib, hubKey, start, signer, sgs, i);
  }

  /** A new lock record is shown with the signatures submitted with it: in a
      netmap that carries the record, even one whose peer list was read before
      it was set, a peer signed with it that keeps its key is signed when it
      shows the name under which it was last signed, at u: always without a
      rename, and with no other signature under its key only then. */
  lemma NewRecordShownWithSignatures(lib: Lib, hubKey: text, dbs: seq<Db>, txs: seq<Tx>, t: nat, a: nat, b: nat, c: nat,
                                     all: seq<PeerRow>, lockRec: Option<Signed>, rows: seq<SigRow>, p: PeerRow,
                                     i: nat) returns (u: nat)
    requires History(lib, hubKey, dbs, txs) && LockSetAt(lib, hubKey, dbs, txs, t, i)
    requires t < b && Reads(dbs, all, lockRec, rows, a, b, c) && lockRec == Some(txs[t].next)
    requires p in all && p.id == txs[t].sgs[i].peer && p.id != HUB
    requires forall v :: Least(a, t + 1) <= v < c ==> !Replaces(lib, hubKey, dbs[v], txs[v], p.id)
    ensures p.key == txs[t].sgs[i].key && KeyOfSigning(txs[t].sgs[i]) in dbs[c].sigs
    ensures t <= u < c && (u == t || Signs(lib, hubKey, dbs[u], txs[u], KeyOfSigning(txs[t].sgs[i])))
    ensures forall v :: u < v < c ==> !Signs(lib, hubKey, dbs[v], txs[v], KeyOfSigning(txs[t].sgs[i]))
    ensures p.id in dbs[u + 1].peers && (p.name == dbs[u + 1].peers[p.id].name ==> ShownSigned(lib, lockRec, rows, p))
    ensures Alone(lib, rows, dbs[c], KeyOfSigning(txs[t].sgs[i])) ==>
              (ShownSigned(lib, lockRec, rows, p) <==> p.name == dbs[u + 1].peers[p.id].name)
    ensures (forall v :: Least(a, t + 1) <= v < c ==> !Renames(lib, hubKey, dbs[v], txs[v], p.id)) ==>
              ShownSigned(lib, lockRec, rows, p)
  {
    SubmittedVouched(lib, hubKey, dbs, txs, t, i);
    u := SignedRowShown(lib, hubKey, dbs, txs, KeyOfSigning(txs[t].sgs[i]), t, a, b, c, all, lockRec, rows, p);
  }

  /** The hub's own signature, submitted with a record, is in every netmap
      whose signatures are read later: no transaction takes it away. */
  lemma HubShownWithSignature(lib: Lib, hubKey: text, dbs: seq<Db>, txs: seq<Tx>, t: nat, c: nat, rows: seq<SigRow>,
                              i: nat)
    requires History(lib, hubKey, dbs, txs) && WellStored(lib, dbs[0]) && LockSetAt(lib, hubKey, dbs, txs, t, i)
    requires txs[t].sgs[i].peer == HUB && t < c < |dbs| && ListsSigs(dbs[c], rows)
    ensures lib.parseWgKey(hubKey).Some?
    ensures IsSigned(lib, txs[t].next.record, PeerRecord(HUB, HUB, lib.parseWgKey(hubKey).value),
                     SigsUnder(rows, Joined(HUB, hubKey)))
  {
    var k := KeyOfSigning(txs[t].sgs[i]);
    SubmittedVouched(lib, hubKey, dbs, txs, t, i);
    VouchedStays(lib, hubKey, dbs, txs, k, t + 1, c);
    RowIsIndexed(rows, SigRow(k.peer, k.key, k.signer, dbs[c].sigs[k]));
    var sigs := SigsUnder(rows, Joined(HUB, hubKey));
    var j :| 0 <= j < |sigs| && sigs[j] == ServerSig(k.signer, dbs[c].sigs[k]);
  }

  lemma {:induction false} SignersAllMatch(lib: Lib, hubKey: text, db: Db, signer: Option<Key32>, sgs: seq<PeerSigning>,
                                           i: nat)
    requires SignAll(lib, hubKey, db, signer, sgs).Some? && i < |sgs|
    ensures signer == Some(sgs[i].signer)
  {
    if i < |sgs| - 1 {
      SignersAllMatch(lib, hubKey, db, signer, sgs[..|sgs| - 1], i);
    }
  }

  // ----- server and client agree -----

  /** For a client whose pin is the record the netmap carries, the entries it
      holds as unsigned are exactly the direct rows the server's own check
      calls unsigned, and the hub likewise. */
  lemma UnsignedAgreed(lib: Lib, hubKey: text, db: Db, wants: text -> nat, shown: PeerRow -> bool,
                       all: seq<PeerRow>, rec: Signed, rows: seq<SigRow>, expected: text, s: PinSet, wkHub: Key32)
    requires TextRoundTrips(lib) && WellStored(lib, db) && ListsPeers(db, all)
    requires lib.parseWgKey([]).None? && lib.parseWgKey(hubKey) == Some(wkHub)
    requires rec.record.Enabled() && s.file.lock == Some(rec)
    ensures var nm := NetMapOf(lib, hubKey, wants, shown, all, Some(rec), rows);
            var st := LockStages(lib, expected, s, nm);
            && (forall p :: p in LockRuns.LockHolds(lib, st) <==>
                  exists r ::
                    r in all && shown(r) && !r.isStatic && p == NetPeer(lib, rows, wants, r)
                    && !ShownSigned(lib, Some(rec), rows, r))
            && (st.signed.hub == nm.hub <==>
                  IsSigned(lib, rec.record, PeerRecord(HUB, HUB, wkHub), SigsUnder(rows, Joined(HUB, hubKey))))
  {
    var nm := NetMapOf(lib, hubKey, wants, shown, all, Some(rec), rows);
    var st := LockStages(lib, expected, s, nm);
    assert st.updated == s && st.gated == nm;
    KeepOrDrop(LockTest(lib, rec.record), nm.peers);
    NetPeersFrom(lib, rows, wants, shown, all);
    SameVerdict(lib, rec.record, HUB, HUB, hubKey, wkHub, SigsUnder(rows, Joined(HUB, hubKey)));
    forall r | r in all
      ensures LockTest(lib, rec.record)(NetPeer(lib, rows, wants, r)) <==>
                r.isStatic || ShownSigned(lib, Some(rec), rows, r)
    {
      SameVerdict(lib, rec.record, r.id, r.name, r.key, lib.parseWgKey(r.key).value,
                  SigsUnder(rows, Joined(r.id, r.key)));
    }
  }

  lemma BuiltNamesAgree(lib: Lib, db: Db, rows: seq<SigRow>, wants: text -> nat, shown: PeerRow -> bool,
                        all: seq<PeerRow>)
    requires WellStored(lib, db) && NamesUnique(db) && ListsPeers(db, all)
    ensures LockRuns.NoneNamedHub(NetPeers(lib, rows, wants, shown, all))
    ensures LockRuns.NamesAgree(NetPeers(lib, rows, wants, shown, all))
  {
    NetPeersFrom(lib, rows, wants, shown, all);
  }

  /** The server's own netmaps meet what the client asks of them: with the
      lock on, a client holds nothing for a changed key, in any netmap built
      from any reachable registry. Signing is all a rotation or rename needs. */
  lemma BuiltNeedsNoTrust(lib: Lib, hubKey: text, dbs: seq<Db>, txs: seq<Tx>, a: nat, all: seq<PeerRow>,
                          lockRec: Option<Signed>, rows: seq<SigRow>, wants: text -> nat, shown: PeerRow -> bool,
                          expected: text, w: World, byID: PinMap, prev: seq<HeldStatus>, now: int)
    requires History(lib, hubKey, dbs, txs) && WellStored(lib, dbs[0]) && NamesUnique(dbs[0])
    requires a < |dbs| && ListsPeers(dbs[a], all) && LockUpdated(lib, w.pins, lockRec, expected).Enabled()
    ensures var st := LockStages(lib, expected, w.pins, NetMapOf(lib, hubKey, wants, shown, all, lockRec, rows));
            HeldByPins(AfterCheck(st.locked.file, byID, st.signed), st.signed, prev, now) == []
  {
    AlwaysWellStored(lib, hubKey, dbs, txs, a);
    NamesStayUnique(lib, hubKey, dbs, txs, a);
    BuiltNamesAgree(lib, dbs[a], rows, wants, shown, all);
    var nm := NetMapOf(lib, hubKey, wants, shown, all, lockRec, rows);
    var st := LockStages(lib, expected, w.pins, nm);
    KeepOrDrop(LockTest(lib, st.updated.file.lock.value.record), nm.peers);
    LockRuns.SignedNeedsNoTrust(lib, expected, w, nm, byID, prev, now);
  }

  /** End to end: a device that pinned the record a netmap carries holds the
      signed rotation of that netmap as unsigned only if that record dropped
      the signer or a rename came between the last signing of the key, at u,
      and the peer read; with no other signature under that key, a direct peer
      is held exactly then. */
  lemma RotationHeldIff(lib: Lib, hubKey: text, dbs: seq<Db>, txs: seq<Tx>, t: nat, a: nat, b: nat, c: nat,
                        all: seq<PeerRow>, rec: Signed, rows: seq<SigRow>, wants: text -> nat, shown: PeerRow -> bool,
                        expected: text, s: PinSet, r: PeerRow) returns (u: nat)
    requires History(lib, hubKey, dbs, txs) && WellStored(lib, dbs[0]) && SignedRotationAt(lib, hubKey, dbs, txs, t)
    requires t < a && Reads(dbs, all, Some(rec), rows, a, b, c) && r in all && r.id == txs[t].id
    requires forall v :: t < v < c ==> !Replaces(lib, hubKey, dbs[v], txs[v], txs[t].id)
    requires TextRoundTrips(lib) && lib.parseWgKey([]).None? && lib.parseWgKey(hubKey).Some?
    requires rec.record.Enabled() && s.file.lock == Some(rec)
    ensures t <= u < c && (u == t || Signs(lib, hubKey, dbs[u], txs[u], RotatedRow(txs[t])))
    ensures r.id in dbs[u + 1].peers && RotatedRow(txs[t]) in dbs[c].sigs
    ensures var nm := NetMapOf(lib, hubKey, wants, shown, all, Some(rec), rows);
            var held := LockRuns.LockHolds(lib, LockStages(lib, expected, s, nm));
            var lists := rec.record.Has(txs[t].signed.value.signer);
            && (NetPeer(lib, rows, wants, r) in held ==> !lists || r.name != dbs[u + 1].peers[r.id].name)
            && ((forall v :: t < v < c ==> !Renames(lib, hubKey, dbs[v], txs[v], txs[t].id)) ==>
                  (NetPeer(lib, rows, wants, r) in held ==> !lists))
            && (Alone(lib, rows, dbs[c], RotatedRow(txs[t])) ==>
                  (NetPeer(lib, rows, wants, r) in held
                   <==> shown(r) && !r.isStatic && (!lists || r.name != dbs[u + 1].peers[r.id].name)))
  {
    u := RotationShownSigned(lib, hubKey, dbs, txs, t, a, b, c, all, Some(rec), rows, r);
    HeldIffUnsigned(lib, hubKey, dbs, txs, a, all, rec, rows, wants, shown, expected, s, r);
  }

  /** The client's verdict on one row of the peer list. */
  lemma HeldIffUnsigned(lib: Lib, hubKey: text, dbs: seq<Db>, txs: seq<Tx>, a: nat, all: seq<PeerRow>, rec: Signed,
                        rows: seq<SigRow>, wants: text -> nat, shown: PeerRow -> bool, expected: text,
                        s: PinSet, r: PeerRow)
    requires History(lib, hubKey, dbs, txs) && WellStored(lib, dbs[0])
    requires a < |dbs| && ListsPeers(dbs[a], all) && r in all
    requires TextRoundTrips(lib) && lib.parseWgKey([]).None? && lib.parseWgKey(hubKey).Some?
    requires rec.record.Enabled() && s.file.lock == Some(rec)
    ensures var nm := NetMapOf(lib, hubKey, wants, shown, all, Some(rec), rows);
            NetPeer(lib, rows, wants, r) in LockRuns.LockHolds(lib, LockStages(lib, expected, s, nm))
            <==> shown(r) && !r.isStatic && !ShownSigned(lib, Some(rec), rows, r)
  {
    AlwaysWellStored(lib, hubKey, dbs, txs, a);
    UnsignedAgreed(lib, hubKey, dbs[a], wants, shown, all, rec, rows, expected, s, lib.parseWgKey(hubKey).value);
    forall q | q in all && NetPeer(lib, rows, wants, q) == NetPeer(lib, rows, wants, r) ensures q == r {
      assert q.id == r.id;
    }
  }
}
