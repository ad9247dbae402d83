/** The control server's registry and lock service: the tables they share
    and the transactions that change them. */
module Control {
  import opened Basics
  import opened LockRecord

  datatype PeerRow = PeerRow(id: text, name: text, key: text, isStatic: bool, owner: text)

  /** Primary key of the signature table. */
  datatype SigKey = SigKey(peer: text, key: text, signer: Key32)

  datatype Db = Db(peers: map<text, PeerRow>, sigs: map<SigKey, Signature>, lock: Option<Signed>, generation: nat,
                   admins: set<text>)

  /** One signature submitted with a lock record or on its own. */
  datatype PeerSigning = PeerSigning(peer: text, key: text, signer: Key32, signature: Signature)

  datatype SignedRotation = SignedRotation(signer: Key32, signature: Signature)

  predicate LabelByte(b: byte) {
    97 <= b <= 122 || 48 <= b <= 57
  }

  /** A DNS label other than "hub". */
  predicate ValidPeerName(n: text) {
    && 1 <= |n| <= 63 && n != HUB
    && LabelByte(n[0]) && LabelByte(n[|n| - 1])
    && forall i :: 0 <= i < |n| ==> LabelByte(n[i]) || n[i] == 45
  }

  predicate NameTaken(db: Db, id: text, name: text) {
    exists j :: j in db.peers && j != id && db.peers[j].name == name
  }

  predicate KeyTaken(db: Db, id: text, key: text) {
    exists j :: j in db.peers && j != id && db.peers[j].key == key
  }

  /** What a signer signs for that peer now: its name and its current key. */
  function RecordOf(lib: Lib, hubKey: text, db: Db, peer: text, key: text): Option<PeerRecord> {
    if peer != HUB && peer !in db.peers then None
    else
      var current := if peer == HUB then hubKey else db.peers[peer].key;
      var wk := lib.parseWgKey(key);
      if key != current || wk.None? then None
      else Some(PeerRecord(peer, if peer == HUB then HUB else db.peers[peer].name, wk.value))
  }

  predicate Verifies(lib: Lib, signer: Key32, rec: PeerRecord, sig: Signature) {
    PeerBytes(rec).Ok? && lib.verify(signer, PeerBytes(rec).value, sig)
  }

  predicate SigningValid(lib: Lib, hubKey: text, db: Db, sg: PeerSigning) {
    var rec := RecordOf(lib, hubKey, db, sg.peer, sg.key);
    rec.Some? && Verifies(lib, sg.signer, rec.value, sg.signature)
  }

  function KeyOfSigning(sg: PeerSigning): SigKey {
    SigKey(sg.peer, sg.key, sg.signer)
  }

  /** signInTx. */
  function Sign(lib: Lib, hubKey: text, db: Db, sg: PeerSigning): Option<Db> {
    if !SigningValid(lib, hubKey, db, sg) then None
    else Some(db.(sigs := db.sigs[KeyOfSigning(sg) := sg.signature], generation := db.generation + 1))
  }

  function SignAll(lib: Lib, hubKey: text, db: Db, signer: Option<Key32>, sgs: seq<PeerSigning>): Option<Db> {
    if sgs == [] then Some(db)
    else
      var before := SignAll(lib, hubKey, db, signer, sgs[..|sgs| - 1]);
      if before.None? || signer != Some(sgs[|sgs| - 1].signer) then None
      else Sign(lib, hubKey, before.value, sgs[|sgs| - 1])
  }

  predicate AdminOwned(db: Db, device: PeerRow) {
    device.owner != [] && device.owner in db.admins
  }

  /** LockService.Set. */
  function SetLock(lib: Lib, hubKey: text, db: Db, device: PeerRow, next: Signed, sgs: seq<PeerSigning>): Option<Db> {
    var signer := next.record.SignerKey(device.id);
    if sgs != [] && (signer.None? || !next.record.Enabled()) then None
    else if LineageEnded(CurrentRecord(db.lock)) && !AdminOwned(db, device) then None
    else if Accept(lib, CurrentRecord(db.lock), next).Some? then None
    else
      var signed := SignAll(lib, hubKey, db.(lock := Some(next)), signer, sgs);
      if signed.None? then None else Some(signed.value.(generation := signed.value.generation + 1))
  }

  /** VerifyRotation: the rotating peer is a signer of the enabled record
      and signed its own name with the new key. */
  predicate RotationValid(lib: Lib, db: Db, device: PeerRow, newKey: text, s: SignedRotation) {
    && db.lock.Some? && db.lock.value.record.Enabled()
    && db.lock.value.record.SignerKey(device.id) == Some(s.signer)
    && lib.parseWgKey(newKey).Some?
    && Verifies(lib, s.signer, PeerRecord(device.id, device.name, lib.parseWgKey(newKey).value), s.signature)
  }

  function WithoutKey(sigs: map<SigKey, Signature>, peer: text, key: text): map<SigKey, Signature> {
    map k | k in sigs && !(k.peer == peer && k.key == key) :: sigs[k]
  }

  function WithoutPeer(sigs: map<SigKey, Signature>, peer: text): map<SigKey, Signature> {
    map k | k in sigs && k.peer != peer :: sigs[k]
  }

  /** Registry.RotateKey. */
  function RotateKey(lib: Lib, db: Db, id: text, newKey: text, signed: Option<SignedRotation>): Option<Db> {
    if lib.parseWgKey(newKey).None? || id !in db.peers then None
    else
      var p := db.peers[id];
      if signed.Some? && !RotationValid(lib, db, p, newKey, signed.value) then None
      else if KeyTaken(db, id, newKey) then None
      else
        var kept := WithoutKey(db.sigs, id, p.key);
        var sigs :=
          if signed.None? then kept
          else kept[SigKey(id, newKey, signed.value.signer) := signed.value.signature];
        Some(db.(peers := db.peers[id := p.(key := newKey)], sigs := sigs, generation := db.generation + 1))
  }

  /** Registry.Rename for an admin. */
  function Rename(db: Db, id: text, name: text): Option<Db> {
    if !ValidPeerName(name) || id !in db.peers || NameTaken(db, id, name) then None
    else if db.peers[id].name == name then Some(db)
    else Some(db.(peers := db.peers[id := db.peers[id].(name := name)], generation := db.generation + 1))
  }

  /** deletePeer. */
  function DeletePeer(db: Db, id: text): Option<Db> {
    if id !in db.peers then None
    else Some(db.(peers := db.peers - {id}, sigs := WithoutPeer(db.sigs, id), generation := db.generation + 1))
  }

  /** The rows enrolment and static creation insert. */
  function CreatePeer(lib: Lib, db: Db, p: PeerRow): Option<Db> {
    if p.id == [] || p.id == HUB || p.id in db.peers || !ValidPeerName(p.name) || lib.parseWgKey(p.key).None? then None
    else if NameTaken(db, p.id, p.name) || KeyTaken(db, p.id, p.key) then None
    else Some(db.(peers := db.peers[p.id := p], generation := db.generation + 1))
  }

  /** Every committed change; Other is one that touches none of these tables
      beyond the generation (policy, routes, IPv6 capability). */
  datatype Tx =
    | Rotating(id: text, newKey: text, signed: Option<SignedRotation>)
    | Renaming(id: text, name: text)
    | Deleting(id: text)
    | Creating(row: PeerRow)
    | LockSetting(device: PeerRow, next: Signed, sgs: seq<PeerSigning>)
    | Signing(sg: PeerSigning)
    | AddingUser(user: text, admin: bool)
    | Other

  function Exec(lib: Lib, hubKey: text, db: Db, tx: Tx): Option<Db> {
    match tx
    case Rotating(id, newKey, signed) => RotateKey(lib, db, id, newKey, signed)
    case Renaming(id, name) => Rename(db, id, name)
    case Deleting(id) => DeletePeer(db, id)
    case Creating(row) => CreatePeer(lib, db, row)
    case LockSetting(device, next, sgs) => SetLock(lib, hubKey, db, device, next, sgs)
    case Signing(sg) => Sign(lib, hubKey, db, sg)
    case AddingUser(user, admin) => Some(if admin then db.(admins := db.admins + {user}) else db)
    case Other => Some(db.(generation := db.generation + 1))
  }

  /** Rolled back when it fails. */
  function Commit(lib: Lib, hubKey: text, db: Db, tx: Tx): Db {
    var r := Exec(lib, hubKey, db, tx);
    if r.Some? then r.value else db
  }

  /** The committed states, one after each transaction. */
  ghost predicate History(lib: Lib, hubKey: text, dbs: seq<Db>, txs: seq<Tx>) {
    |dbs| == |txs| + 1 && forall i :: 0 <= i < |txs| ==> dbs[i + 1] == Commit(lib, hubKey, dbs[i], txs[i])
  }

  // ----- the transactions as the services run them -----

  class Store {
    var peers: map<text, PeerRow>
    var sigs: map<SigKey, Signature>
    var lock: Option<Signed>
    var generation: nat
    var admins: set<text>
    const lib: Lib
    const hubKey: text

    ghost function View(): Db
      reads this
    {
      Db(peers, sigs, lock, generation, admins)
    }

    constructor (lib: Lib, hubKey: text)
      ensures View() == Db(map[], map[], None, 0, {}) && this.lib == lib && this.hubKey == hubKey
    {
      this.lib, this.hubKey := lib, hubKey;
      peers, sigs, lock, generation, admins := map[], map[], None, 0, {};
    }

    /** A transaction works on a copy and commits it at the end. */
    method Rotate(id: text, newKey: text, signed: Option<SignedRotation>) returns (ok: bool)
      modifies this
      ensures View() == Commit(lib, hubKey, old(View()), Rotating(id, newKey, signed))
      ensures ok == Exec(lib, hubKey, old(View()), Rotating(id, newKey, signed)).Some?
    {
      if lib.parseWgKey(newKey).None? || id !in peers {
        return false;
      }
      var db := Db(peers, sigs, lock, generation, admins);
      var p := peers[id];
      if signed.Some? && !RotationValid(lib, db, p, newKey, signed.value) {
        return false;
      }
      if KeyTaken(db, id, newKey) {
        return false;
      }
      var rows := WithoutKey(sigs, id, p.key);
      if signed.Some? {
        rows := rows[SigKey(id, newKey, signed.value.signer) := signed.value.signature];
      }
      peers, sigs, generation := peers[id := p.(key := newKey)], rows, generation + 1;
      return true;
    }

    method Delete(id: text) returns (ok: bool)
      modifies this
      ensures View() == Commit(lib, hubKey, old(View()), Deleting(id))
      ensures ok == (id in old(peers))
    {
      if id !in peers {
        return false;
      }
      peers, sigs, generation := peers - {id}, WithoutPeer(sigs, id), generation + 1;
      return true;
    }

    /** LockService.Set: the record and its signatures in one transaction. */
    method Set(device: PeerRow, next: Signed, sgs: seq<PeerSigning>) returns (ok: bool)
      modifies this
      ensures View() == Commit(lib, hubKey, old(View()), LockSetting(device, next, sgs))
      ensures ok == Exec(lib, hubKey, old(View()), LockSetting(device, next, sgs)).Some?
    {
      var signer := next.record.SignerKey(device.id);
      if |sgs| > 0 && (signer.None? || !next.record.Enabled()) {
        return false;
      }
      var db := Db(peers, sigs, lock, generation, admins);
      if LineageEnded(CurrentRecord(db.lock)) && !AdminOwned(db, device) {
        return false;
      }
      if Accept(lib, CurrentRecord(db.lock), next).Some? {
        return false;
      }
      db := db.(lock := Some(next));
      ghost var start := db;
      for i := 0 to |sgs|
        invariant unchanged(this)
        invariant SignAll(lib, hubKey, start, signer, sgs[..i]) == Some(db)
      {
        assert sgs[..i + 1][..i] == sgs[..i];
        var signed := if signer == Some(sgs[i].signer) then Sign(lib, hubKey, db, sgs[i]) else None;
        if signed.None? {
          SignAllFails(lib, hubKey, start, signer, sgs, i);
          return false;
        }
        db := signed.value;
      }
      assert sgs[..|sgs|] == sgs;
      sigs, lock, generation := db.sigs, db.lock, db.generation + 1;
      SignAllFrame(lib, hubKey, start, signer, sgs);
      return true;
    }
  }

  lemma {:induction false} SignAllFails(lib: Lib, hubKey: text, db: Db, signer: Option<Key32>, sgs: seq<PeerSigning>,
                                        i: nat)
    requires i < |sgs| && SignAll(lib, hubKey, db, signer, sgs[..i + 1]).None?
    ensures SignAll(lib, hubKey, db, signer, sgs).None?
  {
    if i + 1 < |sgs| {
      var front := sgs[..|sgs| - 1];
      assert front[..i + 1] == sgs[..i + 1];
      SignAllFails(lib, hubKey, db, signer, front, i);
    } else {
      assert sgs[..i + 1] == sgs;
    }
  }

  /** Signing touches the signature table and the generation, no more. */
  lemma {:induction false} SignAllFrame(lib: Lib, hubKey: text, db: Db, signer: Option<Key32>, sgs: seq<PeerSigning>)
    ensures var r := SignAll(lib, hubKey, db, signer, sgs);
            r.Some? ==> r.value.peers == db.peers && r.value.lock == db.lock && r.value.admins == db.admins
  {
    if sgs != [] {
      SignAllFrame(lib, hubKey, db, signer, sgs[..|sgs| - 1]);
    }
  }
}
