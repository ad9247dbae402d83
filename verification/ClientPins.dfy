/** The client's trust store: the pinned keys, the pinned lock record and
    the copy of both on disk. */
module ClientPins {
  import opened Basics
  import opened LockRecord
  import Order

  // ----- netmaps -----

  datatype PeerSignature = PeerSignature(signer: text, signature: text)

  datatype Peer = Peer(id: text, name: text, key: text, viaHub: bool, signatures: seq<PeerSignature>, wanted: bool,
                       wantSeq: nat)

  datatype HubPeer = HubPeer(key: text, signatures: seq<PeerSignature>)

  const NO_HUB := HubPeer([], [])

  datatype NetMap = NetMap(peers: seq<Peer>, hub: HubPeer, lock: Option<Signed>)

  /** Entries the pins and the lock decide about: a direct peer with name,
      id and key. Everything else passes both checks untouched. */
  predicate Checked(p: Peer) {
    !p.viaHub && p.name != [] && p.id != [] && p.key != []
  }

  // ----- pins -----

  datatype PinEntry = PinEntry(id: text, key: text)

  type PinMap = map<text, PinEntry>

  /** The content of pins.json. */
  datatype PinFile = PinFile(hub: text, peers: PinMap, lock: Option<Signed>)

  const EMPTY_FILE := PinFile([], map[], None)

  /** The in-memory set; dirty while it is ahead of the file. */
  datatype PinSet = PinSet(file: PinFile, dirty: bool) {
    predicate Enabled() {
      file.lock.Some? && file.lock.value.record.Enabled()
    }
  }

  datatype Reason = KeyChanged | Unsigned

  datatype HeldStatus = HeldStatus(name: text, id: text, pinnedKey: text, offeredKey: text, since: int, reason: Reason)

  function HeldName(h: HeldStatus): seq<byte> {
    h.name
  }

  // ----- the pin check -----

  /** byID maps each pinned id to one of the pins carrying it; which one is
      up to the iteration order of the pins. */
  ghost predicate Indexes(pins: PinMap, byID: PinMap) {
    && (forall n :: n in pins ==> pins[n].id in byID)
    && (forall i :: i in byID ==> byID[i].id == i && byID[i] in pins.Values)
  }

  function PinOf(p: Peer): PinEntry {
    PinEntry(p.id, p.key)
  }

  /** The pin an unknown name gets: the one its id already has, else its own. */
  function FirstPin(byID: PinMap, p: Peer): PinEntry {
    if p.id in byID then byID[p.id] else PinOf(p)
  }

  /** The pins after the entries ps: every unknown name is pinned by its
      first entry and no pin is ever replaced. */
  function PinAll(pins: PinMap, byID: PinMap, ps: seq<Peer>): PinMap {
    if ps == [] then pins
    else
      var before := PinAll(pins, byID, ps[..|ps| - 1]);
      var p := ps[|ps| - 1];
      if Checked(p) && p.name !in before then before[p.name := FirstPin(byID, p)] else before
  }

  predicate Matches(pins: PinMap, p: Peer) {
    p.name in pins && pins[p.name] == PinOf(p)
  }

  /** The entries a check lets through, in order, and the ones it holds. */
  function Keep(ok: Peer -> bool, ps: seq<Peer>): seq<Peer> {
    if ps == [] then []
    else Keep(ok, ps[..|ps| - 1]) + if ok(ps[|ps| - 1]) then [ps[|ps| - 1]] else []
  }

  function Drop(ok: Peer -> bool, ps: seq<Peer>): seq<Peer> {
    if ps == [] then []
    else Drop(ok, ps[..|ps| - 1]) + if ok(ps[|ps| - 1]) then [] else [ps[|ps| - 1]]
  }

  lemma {:induction false} KeepOrDrop(ok: Peer -> bool, ps: seq<Peer>)
    ensures forall p :: p in Keep(ok, ps) <==> p in ps && ok(p)
    ensures forall p :: p in Drop(ok, ps) <==> p in ps && !ok(p)
  {
    if ps != [] {
      KeepOrDrop(ok, ps[..|ps| - 1]);
      assert ps == ps[..|ps| - 1] + [ps[|ps| - 1]];
    }
  }

  /** Every entry ends up exactly once on one of the two sides. */
  lemma {:induction false} NoneLost(ok: Peer -> bool, ps: seq<Peer>)
    ensures multiset(ps) == multiset(Keep(ok, ps)) + multiset(Drop(ok, ps))
  {
    if ps != [] {
      var front, p := ps[..|ps| - 1], ps[|ps| - 1];
      NoneLost(ok, front);
      assert ps == front + [p];
      OneMoreVerdict(ok, front, p);
      assert multiset(front + [p]) == multiset(front) + multiset{p};
    }
  }

  lemma OneMoreVerdict(ok: Peer -> bool, ps: seq<Peer>, p: Peer)
    ensures Keep(ok, ps + [p]) == Keep(ok, ps) + (if ok(p) then [p] else [])
    ensures Drop(ok, ps + [p]) == Drop(ok, ps) + (if ok(p) then [] else [p])
  {
    assert (ps + [p])[..|ps|] == ps;
  }

  lemma {:induction false} SameVerdicts(ok: Peer -> bool, ok': Peer -> bool, ps: seq<Peer>)
    requires forall p :: p in ps ==> ok(p) == ok'(p)
    ensures Keep(ok, ps) == Keep(ok', ps) && Drop(ok, ps) == Drop(ok', ps)
  {
    if ps != [] {
      SameVerdicts(ok, ok', ps[..|ps| - 1]);
    }
  }

  function PinTest(pins: PinMap): Peer -> bool {
    p => !Checked(p) || Matches(pins, p)
  }

  /** The hub key pinned after an offer; an empty pin takes the first key. */
  function PinHub(pinned: text, offered: text): text {
    if pinned == [] then offered else pinned
  }

  predicate HubPasses(pinned: text, offered: text) {
    offered == [] || PinHub(pinned, offered) == offered
  }

  function AfterCheck(f: PinFile, byID: PinMap, nm: NetMap): PinFile {
    PinFile(PinHub(f.hub, nm.hub.key), PinAll(f.peers, byID, nm.peers), f.lock)
  }

  /** What the pin check lets through, given the pins it ended with. */
  function PassedMap(f: PinFile, nm: NetMap): NetMap {
    nm.(peers := Keep(PinTest(f.peers), nm.peers), hub := if HubPasses(f.hub, nm.hub.key) then nm.hub else NO_HUB)
  }

  function SinceOf(prev: seq<HeldStatus>, name: text, offered: text, unsignedOnly: bool, now: int): int {
    if prev == [] then now
    else if prev[0].name == name && prev[0].offeredKey == offered
            && (!unsignedOnly || prev[0].reason == Unsigned) then prev[0].since
    else SinceOf(prev[1..], name, offered, unsignedOnly, now)
  }

  function PinnedKey(pins: PinMap, name: text): text {
    if name in pins then pins[name].key else []
  }

  function StatusOf(pins: PinMap, p: Peer, reason: Reason, prev: seq<HeldStatus>, now: int): HeldStatus {
    var since := SinceOf(prev, p.name, p.key, reason == Unsigned, now);
    HeldStatus(p.name, p.id, PinnedKey(pins, p.name), p.key, since, reason)
  }

  function HubStatus(pinned: text, offered: text, reason: Reason, prev: seq<HeldStatus>, now: int): HeldStatus {
    HeldStatus(HUB, [], pinned, offered, SinceOf(prev, HUB, offered, reason == Unsigned, now), reason)
  }

  function Statuses(pins: PinMap, ps: seq<Peer>, reason: Reason, prev: seq<HeldStatus>, now: int): seq<HeldStatus> {
    if ps == [] then []
    else Statuses(pins, ps[..|ps| - 1], reason, prev, now) + [StatusOf(pins, ps[|ps| - 1], reason, prev, now)]
  }

  function HeldByPins(f: PinFile, nm: NetMap, prev: seq<HeldStatus>, now: int): seq<HeldStatus> {
    (if HubPasses(f.hub, nm.hub.key) then [] else [HubStatus(f.hub, nm.hub.key, KeyChanged, prev, now)])
    + Statuses(f.peers, Drop(PinTest(f.peers), nm.peers), KeyChanged, prev, now)
  }

  // ----- the network lock -----

  /** signedBy: one of sigs is a valid signature over (id, name, key) by a
      key of the set. */
  predicate SignedBy(lib: Lib, set_: Record, id: text, name: text, key: text, sigs: seq<PeerSignature>) {
    var wk := lib.parseWgKey(key);
    wk.Some? &&
    var msg := PeerBytes(PeerRecord(id, name, wk.value));
    msg.Ok? && exists i :: 0 <= i < |sigs| && ValidSignature(lib, set_, msg.value, sigs[i])
  }

  predicate ValidSignature(lib: Lib, set_: Record, msg: seq<byte>, s: PeerSignature) {
    var signer, sig := lib.parseLockKey(s.signer), lib.parseSignature(s.signature);
    signer.Some? && sig.Some? && set_.Has(signer.value) && lib.verify(signer.value, msg, sig.value)
  }

  predicate PeerSigned(lib: Lib, set_: Record, p: Peer) {
    SignedBy(lib, set_, p.id, p.name, p.key, p.signatures)
  }

  predicate HubSigned(lib: Lib, set_: Record, h: HubPeer) {
    SignedBy(lib, set_, HUB, HUB, h.key, h.signatures)
  }

  function LockTest(lib: Lib, set_: Record): Peer -> bool {
    p => !Checked(p) || PeerSigned(lib, set_, p)
  }

  function AcceptPin(f: PinFile, name: text, e: PinEntry): PinFile {
    if name == HUB then f.(hub := e.key) else f.(peers := f.peers[name := e])
  }

  /** The zero value, what a missing name reads as. */
  const NO_PIN := PinEntry([], [])

  /** Accept on values: the hub's name stands for the hub pin. */
  function AcceptInto(s: PinSet, name: text, e: PinEntry): PinSet {
    var f := AcceptPin(s.file, name, e);
    if name != HUB && name !in s.file.peers && e == NO_PIN then s else PinSet(f, s.dirty || f != s.file)
  }

  function AcceptHub(lib: Lib, set_: Record, s: PinSet, h: HubPeer): PinSet {
    if h.key != [] && HubSigned(lib, set_, h) then AcceptInto(s, HUB, PinEntry([], h.key)) else s
  }

  /** The pins after accepting every signed entry of ps in turn. */
  function AcceptAll(signed: Peer -> bool, s: PinSet, ps: seq<Peer>): PinSet {
    if ps == [] then s
    else
      var before := AcceptAll(signed, s, ps[..|ps| - 1]);
      var p := ps[|ps| - 1];
      if Checked(p) && signed(p) then AcceptInto(before, p.name, PinOf(p)) else before
  }

  function AfterLock(lib: Lib, set_: Record, s: PinSet, nm: NetMap): PinSet {
    AcceptAll(LockTest(lib, set_), AcceptHub(lib, set_, s, nm.hub), nm.peers)
  }

  function UnsignedStatuses(signed: Peer -> bool, s: PinSet, ps: seq<Peer>, prev: seq<HeldStatus>,
                            now: int): seq<HeldStatus> {
    if ps == [] then []
    else
      var front, p := ps[..|ps| - 1], ps[|ps| - 1];
      UnsignedStatuses(signed, s, front, prev, now)
      + if signed(p) then [] else [StatusOf(AcceptAll(signed, s, front).file.peers, p, Unsigned, prev, now)]
  }

  function HeldByLock(lib: Lib, set_: Record, s: PinSet, nm: NetMap, prev: seq<HeldStatus>, now: int): seq<HeldStatus> {
    (if nm.hub.key == [] || HubSigned(lib, set_, nm.hub) then []
     else [HubStatus(s.file.hub, nm.hub.key, Unsigned, prev, now)])
    + UnsignedStatuses(LockTest(lib, set_), AcceptHub(lib, set_, s, nm.hub), nm.peers, prev, now)
  }

  function LockedMap(lib: Lib, set_: Record, nm: NetMap): NetMap {
    nm.(peers := Keep(LockTest(lib, set_), nm.peers),
        hub := if nm.hub.key == [] || HubSigned(lib, set_, nm.hub) then nm.hub else NO_HUB)
  }

  // ----- the lock record -----

  /** What UpdateLock answers; Quiet is the empty reason. */
  datatype LockReply = Quiet | KeepsPinned | FirstRefused | Waiting | Refused(error: LockError)

  predicate MatchesLockKey(lib: Lib, key: Key32, given: text) {
    lib.parseLockKey(lib.trimSpace(given)) == Some(key)
  }

  /** firstRecordBy: the first listed key that is the expected one must be
      the key that signed the record. */
  predicate FirstRecordBy(lib: Lib, offered: Signed, expected: text) {
    var msg := RecordBytes(offered.record);
    msg.Ok? && FirstMatchVerifies(lib, offered.record.signers, msg.value, offered.signature, expected)
  }

  predicate FirstMatchVerifies(lib: Lib, ss: seq<Signer>, msg: seq<byte>, sig: Signature, expected: text) {
    ss != [] &&
    if MatchesLockKey(lib, ss[0].key, expected) then lib.verify(ss[0].key, msg, sig)
    else FirstMatchVerifies(lib, ss[1..], msg, sig, expected)
  }

  predicate SameRecord(l: Option<Signed>, offered: Signed) {
    l.Some? && l.value.record.generation == offered.record.generation && l.value.signature == offered.signature
  }

  function LockAnswer(lib: Lib, pinned: Option<Signed>, offered: Option<Signed>, expected: text): LockReply {
    if offered.None? then (if pinned.None? then Quiet else KeepsPinned)
    else if SameRecord(pinned, offered.value) then Quiet
    else if pinned.None? && expected != [] && !FirstRecordBy(lib, offered.value, expected) then FirstRefused
    else
      var refusal := Accept(lib, CurrentRecord(pinned), offered.value);
      if refusal.Some? then Refused(refusal.value) else Quiet
  }

  predicate Adopts(lib: Lib, pinned: Option<Signed>, offered: Option<Signed>, expected: text) {
    offered.Some? && !SameRecord(pinned, offered.value) && LockAnswer(lib, pinned, offered, expected) == Quiet
  }

  function LockUpdated(lib: Lib, s: PinSet, offered: Option<Signed>, expected: text): PinSet {
    if Adopts(lib, s.file.lock, offered, expected) then PinSet(s.file.(lock := offered), true) else s
  }

  // ----- the file -----

  predicate CompleteEntry(n: text, e: PinEntry) {
    n != [] && e.id != [] && e.key != []
  }

  /** LoadPins: None for a file it refuses. */
  function Load(lib: Lib, disk: Option<PinFile>): Option<PinFile> {
    if disk.None? then Some(EMPTY_FILE)
    else if exists n :: n in disk.value.peers && !CompleteEntry(n, disk.value.peers[n]) then None
    else if disk.value.lock.Some? && Accept(lib, None, disk.value.lock.value).Some? then None
    else disk
  }

  /** The state directory; a write replaces the whole file or fails. */
  class StateDir {
    var pins: Option<PinFile>

    constructor (content: Option<PinFile>)
      ensures pins == content
    {
      pins := content;
    }
  }

  class Pins {
    var hub: text
    var peers: PinMap
    var lock: Option<Signed>
    var dirty: bool
    const dir: StateDir
    const lib: Lib

    ghost function View(): PinSet
      reads this
    {
      PinSet(PinFile(hub, peers, lock), dirty)
    }

    constructor Loaded(lib: Lib, dir: StateDir, f: PinFile)
      ensures View() == PinSet(f, false) && this.dir == dir && this.lib == lib
    {
      this.lib, this.dir := lib, dir;
      hub, peers, lock, dirty := f.hub, f.peers, f.lock, false;
    }

    /** save: written says whether the file system took the write. */
    method Save(written: bool)
      modifies dir
      ensures dir.pins == if written then Some(View().file) else old(dir.pins)
    {
      if written {
        dir.pins := Some(PinFile(hub, peers, lock));
      }
    }

    method IndexByID() returns (byID: PinMap)
      ensures Indexes(peers, byID)
    {
      byID := map[];
      var todo := peers.Keys;
      while todo != {}
        invariant todo <= peers.Keys
        invariant forall n :: n in peers && n !in todo ==> peers[n].id in byID
        invariant forall i :: i in byID ==> byID[i].id == i && byID[i] in peers.Values
        decreases |todo|
      {
        var n :| n in todo;
        byID := byID[peers[n].id := peers[n]];
        todo := todo - {n};
      }
    }

    /** The hub part of Apply. */
    method CheckHub(h: HubPeer, now: int, prev: seq<HeldStatus>)
      returns (changed: bool, passed: HubPeer, held: seq<HeldStatus>)
      modifies this`hub
      ensures hub == PinHub(old(hub), h.key) && changed == (hub != old(hub))
      ensures passed == if HubPasses(hub, h.key) then h else NO_HUB
      ensures held == if HubPasses(hub, h.key) then [] else [HubStatus(hub, h.key, KeyChanged, prev, now)]
    {
      changed, passed, held := false, h, [];
      if h.key != [] {
        if hub == [] {
          hub, changed := h.key, true;
        } else if hub != h.key {
          held := [HubStatus(hub, h.key, KeyChanged, prev, now)];
          passed := NO_HUB;
        }
      }
    }

    /** The peer loop of Apply. */
    method CheckPeers(ps: seq<Peer>, byID: PinMap, now: int, prev: seq<HeldStatus>)
      returns (changed: bool, passed: seq<Peer>, held: seq<HeldStatus>)
      modifies this`peers
      ensures peers == PinAll(old(peers), byID, ps)
      ensures changed == (peers != old(peers))
      ensures passed == Keep(PinTest(peers), ps)
      ensures held == Statuses(peers, Drop(PinTest(peers), ps), KeyChanged, prev, now)
    {
      changed, passed, held := false, [], [];
      for i := 0 to |ps|
        invariant peers == PinAll(old(peers), byID, ps[..i])
        invariant changed == (peers != old(peers))
        invariant passed == Keep(PinTest(peers), ps[..i])
        invariant held == Statuses(peers, Drop(PinTest(peers), ps[..i]), KeyChanged, prev, now)
      {
        var peer := ps[i];
        assert ps[..i + 1] == ps[..i] + [peer];
        CheckStep(old(peers), byID, ps[..i], peer);
        HeldStep(old(peers), byID, ps[..i], peer, prev, now);
        assert Drop(PinTest(peers), ps[..i]) + [] == Drop(PinTest(peers), ps[..i]);
        if !Checked(peer) {
          passed := passed + [peer];
        } else {
          var pin := if peer.name in peers then peers[peer.name] else FirstPin(byID, peer);
          if peer.name !in peers {
            peers, changed := peers[peer.name := pin], true;
          }
          if pin == PinOf(peer) {
            passed := passed + [peer];
          } else {
            held := held + [StatusOf(peers, peer, KeyChanged, prev, now)];
          }
        }
      }
      assert ps[..|ps|] == ps;
    }

    /** Apply: the pin check on nm, then the write of what changed. */
    method Apply(nm: NetMap, now: int, prev: seq<HeldStatus>, written: bool)
      returns (ok: bool, out: NetMap, held: seq<HeldStatus>, ghost byID: PinMap)
      modifies this, dir
      ensures Indexes(old(peers), byID)
      ensures var f := AfterCheck(old(View().file), byID, nm);
              var save := f != old(View().file) || old(dirty);
              && ok == (!save || written)
              && View() == PinSet(f, !ok)
              && dir.pins == (if save && written then Some(f) else old(dir.pins))
              && (ok ==>
                    && out == PassedMap(f, nm)
                    && multiset(held) == multiset(HeldByPins(f, nm, prev, now))
                    && Order.SortedBy(HeldName, held))
    {
      var index := IndexByID();
      byID := index;
      var changed, passed, found := Check(nm, index, now, prev);
      out := passed;
      ok := SaveChanges(changed, written);
      if !ok {
        return false, out, [], byID;
      }
      Order.SortSorts(HeldName, found);
      held := Order.Sort(HeldName, found);
    }

    /** Apply up to the write. */
    method Check(nm: NetMap, byID: PinMap, now: int, prev: seq<HeldStatus>)
      returns (changed: bool, out: NetMap, held: seq<HeldStatus>)
      modifies this`hub, this`peers
      ensures PinFile(hub, peers, lock) == AfterCheck(old(View().file), byID, nm)
      ensures changed == (PinFile(hub, peers, lock) != old(View().file))
      ensures out == PassedMap(PinFile(hub, peers, lock), nm)
              && held == HeldByPins(PinFile(hub, peers, lock), nm, prev, now)
    {
      var moved, passedHub, hubHeld := CheckHub(nm.hub, now, prev);
      var pinned, passed, heldPeers := CheckPeers(nm.peers, byID, now, prev);
      changed, out, held := moved || pinned, nm.(hub := passedHub, peers := passed), hubHeld + heldPeers;
    }

    /** The write at the end of Apply: only when something changed, now or
        before. */
    method SaveChanges(changed: bool, written: bool) returns (ok: bool)
      modifies this`dirty, dir
      ensures var save := changed || old(dirty);
              ok == (!save || written) && dirty == !ok
              && dir.pins == if save && written then Some(PinFile(hub, peers, lock)) else old(dir.pins)
    {
      if changed || dirty {
        dirty := true;
        Save(written);
        if !written {
          return false;
        }
        dirty := false;
      }
      return true;
    }

    /** Accept: the lock signers vouched for the key. */
    method AcceptKey(name: text, id: text, key: text)
      modifies this
      ensures View() == AcceptInto(old(View()), name, PinEntry(id, key))
    {
      if name == HUB {
        if hub != key {
          hub, dirty := key, true;
        }
        return;
      }
      var e := if name in peers then peers[name] else NO_PIN;
      if e.id != id || e.key != key {
        peers, dirty := peers[name := PinEntry(id, key)], true;
      }
    }

    /** The peer loop of HoldUnsigned; signed is the signature check. */
    method AcceptSigned(ps: seq<Peer>, signed: Peer -> bool, now: int, prev: seq<HeldStatus>)
      returns (out: seq<Peer>, held: seq<HeldStatus>)
      requires forall p :: !Checked(p) ==> signed(p)
      modifies this
      ensures View() == AcceptAll(signed, old(View()), ps)
      ensures out == Keep(signed, ps)
      ensures held == UnsignedStatuses(signed, old(View()), ps, prev, now)
    {
      out, held := [], [];
      for i := 0 to |ps|
        invariant View() == AcceptAll(signed, old(View()), ps[..i])
        invariant out == Keep(signed, ps[..i])
        invariant held == UnsignedStatuses(signed, old(View()), ps[..i], prev, now)
      {
        var peer := ps[i];
        assert ps[..i + 1][..i] == ps[..i];
        if !Checked(peer) {
          out := out + [peer];
        } else if signed(peer) {
          AcceptKey(peer.name, peer.id, peer.key);
          out := out + [peer];
        } else {
          held := held + [StatusOf(peers, peer, Unsigned, prev, now)];
        }
      }
      assert ps[..|ps|] == ps;
    }

    /** HoldUnsigned: what the signers of set_ vouch for enters the pins,
        the rest is held. */
    method HoldUnsigned(nm: NetMap, set_: Record, now: int, prev: seq<HeldStatus>)
      returns (out: NetMap, held: seq<HeldStatus>)
      modifies this
      ensures View() == AfterLock(lib, set_, old(View()), nm)
      ensures out == LockedMap(lib, set_, nm)
      ensures held == HeldByLock(lib, set_, old(View()), nm, prev, now)
    {
      out := nm;
      var hubHeld: seq<HeldStatus> := [];
      if nm.hub.key != [] {
        if HubSigned(lib, set_, nm.hub) {
          AcceptKey(HUB, [], nm.hub.key);
        } else {
          hubHeld := [HubStatus(hub, nm.hub.key, Unsigned, prev, now)];
          out := out.(hub := NO_HUB);
        }
      }
      var kept, heldPeers := AcceptSigned(nm.peers, LockTest(lib, set_), now, prev);
      out, held := out.(peers := kept), hubHeld + heldPeers;
    }

    /** UpdateLock: the offered record against the pinned one. */
    method UpdateLock(offered: Option<Signed>, expected: text) returns (reply: LockReply)
      modifies this
      ensures reply == LockAnswer(lib, old(lock), offered, expected)
      ensures View() == LockUpdated(lib, old(View()), offered, expected)
    {
      if offered.None? {
        return if lock.None? then Quiet else KeepsPinned;
      }
      if SameRecord(lock, offered.value) {
        return Quiet;
      }
      if lock.None? && expected != [] && !FirstRecordBy(lib, offered.value, expected) {
        return FirstRefused;
      }
      var refusal := Accept(lib, CurrentRecord(lock), offered.value);
      if refusal.Some? {
        return Refused(refusal.value);
      }
      lock, dirty := offered, true;
      return Quiet;
    }

    /** Trust: the offered key of one held entry replaces the pin. */
    method Trust(h: HeldStatus, written: bool) returns (ok: bool)
      modifies this, dir
      ensures ok == written
      ensures View() == PinSet(AcceptPin(old(View().file), h.name, PinEntry(h.id, h.offeredKey)), !written)
      ensures dir.pins == if written then Some(View().file) else old(dir.pins)
    {
      if h.name == HUB {
        hub := h.offeredKey;
      } else {
        peers := peers[h.name := PinEntry(h.id, h.offeredKey)];
      }
      dirty := true;
      Save(written);
      if !written {
        return false;
      }
      dirty := false;
      return true;
    }

    /** SetLock: a record this device produced itself. */
    method SetLock(s: Signed, written: bool) returns (ok: bool)
      modifies this, dir
      ensures ok == written
      ensures View() == PinSet(old(View().file).(lock := Some(s)), !written)
      ensures dir.pins == if written then Some(View().file) else old(dir.pins)
    {
      lock, dirty := Some(s), true;
      Save(written);
      if !written {
        return false;
      }
      dirty := false;
      return true;
    }
  }

  /** LoadPins: a missing file is the empty set; a file that cannot be read or
      parsed, with an incomplete entry, or with a record no listed signer
      signed is refused. */
  method LoadPins(lib: Lib, dir: StateDir, readable: bool) returns (p: Option<Pins>)
    ensures Load(lib, dir.pins).None? || (dir.pins.Some? && !readable) ==> p.None?
    ensures Load(lib, dir.pins).Some? && (dir.pins.None? || readable) ==>
              p.Some? && fresh(p.value) && p.value.dir == dir && p.value.lib == lib
              && p.value.View() == PinSet(Load(lib, dir.pins).value, false)
  {
    if dir.pins.None? {
      var s := new Pins.Loaded(lib, dir, EMPTY_FILE);
      return Some(s);
    }
    if !readable {
      return None;
    }
    var f := dir.pins.value;
    var complete := EntriesComplete(f.peers);
    if !complete || (f.lock.Some? && Accept(lib, None, f.lock.value).Some?) {
      return None;
    }
    var s := new Pins.Loaded(lib, dir, f);
    return Some(s);
  }

  method EntriesComplete(peers: PinMap) returns (ok: bool)
    ensures ok <==> !exists n :: n in peers && !CompleteEntry(n, peers[n])
  {
    var todo := peers.Keys;
    while todo != {}
      invariant todo <= peers.Keys && forall n :: n in peers && n !in todo ==> CompleteEntry(n, peers[n])
      decreases |todo|
    {
      var n :| n in todo;
      if n == [] || peers[n].id == [] || peers[n].key == [] {
        assert !CompleteEntry(n, peers[n]);
        return false;
      }
      todo := todo - {n};
    }
    return true;
  }

  /** No pin is ever replaced, and every entry seen ends up with a pin. */
  lemma {:induction false} PinAllGrows(pins: PinMap, byID: PinMap, ps: seq<Peer>)
    ensures var after := PinAll(pins, byID, ps);
            && pins.Keys <= after.Keys
            && (forall n :: n in pins ==> after[n] == pins[n])
            && (forall i :: 0 <= i < |ps| && Checked(ps[i]) ==> ps[i].name in after)
  {
    if ps != [] {
      PinAllGrows(pins, byID, ps[..|ps| - 1]);
    }
  }

  lemma PinOneMore(base: PinMap, byID: PinMap, ps: seq<Peer>, p: Peer)
    ensures var before, after := PinAll(base, byID, ps), PinAll(base, byID, ps + [p]);
            && after == (if Checked(p) && p.name !in before then before[p.name := FirstPin(byID, p)] else before)
            && (forall q ::
                 q in ps && Checked(q) ==> q.name in before && q.name in after && after[q.name] == before[q.name])
            && (forall q :: q in ps ==> PinTest(before)(q) == PinTest(after)(q))
  {
    assert (ps + [p])[..|ps|] == ps;
    PinAllGrows(base, byID, ps);
  }

  /** One entry more changes no earlier verdict: the pins it finds are the
      pins it leaves, except for a name no earlier entry carries. */
  lemma CheckStep(base: PinMap, byID: PinMap, ps: seq<Peer>, p: Peer)
    ensures var before, after := PinAll(base, byID, ps), PinAll(base, byID, ps + [p]);
            && base.Keys <= before.Keys
            && (forall n :: n in base ==> before[n] == base[n])
            && after == (if Checked(p) && p.name !in before then before[p.name := FirstPin(byID, p)] else before)
            && Keep(PinTest(after), ps + [p]) == Keep(PinTest(before), ps) + (if PinTest(after)(p) then [p] else [])
            && Drop(PinTest(after), ps + [p]) == Drop(PinTest(before), ps) + (if PinTest(after)(p) then [] else [p])
  {
    var before, after := PinAll(base, byID, ps), PinAll(base, byID, ps + [p]);
    PinAllGrows(base, byID, ps);
    PinOneMore(base, byID, ps, p);
    SameVerdicts(PinTest(before), PinTest(after), ps);
    OneMoreVerdict(PinTest(after), ps, p);
  }

  /** Nor does it change what is said about an earlier entry. */
  lemma HeldStep(base: PinMap, byID: PinMap, ps: seq<Peer>, p: Peer, prev: seq<HeldStatus>, now: int)
    ensures var before, after := PinAll(base, byID, ps), PinAll(base, byID, ps + [p]);
            var held := Drop(PinTest(before), ps);
            && Statuses(after, held, KeyChanged, prev, now) == Statuses(before, held, KeyChanged, prev, now)
            && Statuses(after, held + [p], KeyChanged, prev, now)
               == Statuses(before, held, KeyChanged, prev, now) + [StatusOf(after, p, KeyChanged, prev, now)]
  {
    var before, after := PinAll(base, byID, ps), PinAll(base, byID, ps + [p]);
    var held := Drop(PinTest(before), ps);
    PinOneMore(base, byID, ps, p);
    KeepOrDrop(PinTest(before), ps);
    SameStatuses(before, after, held, prev, now);
    OneMoreStatus(after, held, p, prev, now);
  }

  lemma OneMoreStatus(pins: PinMap, held: seq<Peer>, p: Peer, prev: seq<HeldStatus>, now: int)
    ensures Statuses(pins, held + [p], KeyChanged, prev, now)
         == Statuses(pins, held, KeyChanged, prev, now) + [StatusOf(pins, p, KeyChanged, prev, now)]
  {
    assert (held + [p])[..|held|] == held;
  }

  lemma {:induction false} SameStatuses(pins: PinMap, more: PinMap, ps: seq<Peer>, prev: seq<HeldStatus>, now: int)
    requires forall p :: p in ps ==> p.name in pins && p.name in more && pins[p.name] == more[p.name]
    ensures Statuses(more, ps, KeyChanged, prev, now) == Statuses(pins, ps, KeyChanged, prev, now)
  {
    if ps != [] {
      SameStatuses(pins, more, ps[..|ps| - 1], prev, now);
    }
  }
}
