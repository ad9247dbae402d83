/** What the client keeps true over whole runs: any offers, trust steps, own
    lock records, failed writes and restarts in any order. */
module TrustRuns {
  import opened Basics
  import opened LockRecord
  import opened ClientPins
  import opened Daemon

  /** Trusting is the acceptance of one held entry, Setting that of a record
      this device produced itself. */
  datatype Event =
    | Offer(nm: NetMap, byID: PinMap, written: bool)
    | Trusting(h: HeldStatus, written: bool)
    | Setting(rec: Signed, written: bool)
    | Restart

  /** A held entry names the hub or has name, id and key. */
  predicate HeldComplete(h: HeldStatus) {
    h.name == HUB || CompleteEntry(h.name, PinEntry(h.id, h.offeredKey))
  }

  /** The pins become f and are saved, if the write succeeds. */
  function Saving(w: World, f: PinFile, written: bool): World {
    World(PinSet(f, !written), if written then Some(f) else w.disk)
  }

  /** One event; an offer may index the pins by id in any order, a restart
      reads the file back. */
  ghost predicate Next(lib: Lib, expected: text, w: World, e: Event, w': World) {
    match e
    case Offer(nm, byID, written) =>
      && Indexes(LockStages(lib, expected, w.pins, nm).locked.file.peers, byID)
      && w' == ApplyStep(lib, expected, w, nm, byID, written).world
    case Trusting(h, written) =>
      HeldComplete(h) && w' == Saving(w, AcceptPin(w.pins.file, h.name, PinEntry(h.id, h.offeredKey)), written)
    case Setting(rec, written) =>
      w' == Saving(w, w.pins.file.(lock := Some(rec)), written)
    case Restart =>
      && Load(lib, w.disk).Some?
      && w' == World(PinSet(Load(lib, w.disk).value, false), w.disk)
  }

  ghost predicate Run(lib: Lib, expected: text, ws: seq<World>, es: seq<Event>) {
    |ws| == |es| + 1 && forall i :: 0 <= i < |es| ==> Next(lib, expected, ws[i], es[i], ws[i + 1])
  }

  /** The netmap an event hands to the device. */
  function AppliedBy(lib: Lib, expected: text, w: World, e: Event): Option<NetMap> {
    match e
    case Offer(nm, byID, written) => ApplyStep(lib, expected, w, nm, byID, written).applied
    case _ => None
  }

  ghost predicate AppliesPeer(lib: Lib, expected: text, w: World, e: Event, p: Peer) {
    Checked(p) && AppliedBy(lib, expected, w, e).Some? && p in AppliedBy(lib, expected, w, e).value.peers
  }

  ghost predicate AppliesHub(lib: Lib, expected: text, w: World, e: Event, key: text) {
    key != [] && AppliedBy(lib, expected, w, e).Some? && AppliedBy(lib, expected, w, e).value.hub.key == key
  }

  // ----- memory and disk -----

  function FileOf(disk: Option<PinFile>): PinFile {
    if disk.None? then EMPTY_FILE else disk.value
  }

  /** Without the dirty flag memory and disk agree. */
  ghost predicate Clean(w: World) {
    !w.pins.dirty ==> w.pins.file == FileOf(w.disk)
  }

  lemma {:induction false} AcceptAllFrame(signed: Peer -> bool, s: PinSet, ps: seq<Peer>)
    ensures var t := AcceptAll(signed, s, ps);
            t.file.lock == s.file.lock && (s.dirty ==> t.dirty) && (!t.dirty ==> t == s)
  {
    if ps != [] {
      AcceptAllFrame(signed, s, ps[..|ps| - 1]);
    }
  }

  lemma LockStageFrame(lib: Lib, expected: text, s: PinSet, nm: NetMap)
    ensures var st := LockStages(lib, expected, s, nm);
            st.locked.file.lock == st.updated.file.lock && (!st.locked.dirty ==> st.locked == st.updated == s)
  {
    var st := LockStages(lib, expected, s, nm);
    if st.updated.Enabled() {
      var set_ := st.updated.file.lock.value.record;
      AcceptAllFrame(LockTest(lib, set_), AcceptHub(lib, set_, st.updated, st.gated.hub), st.gated.peers);
    }
  }

  /** Whatever is applied was on disk first, under exactly that id and key;
      this holds with the lock on and off, and for every offer. */
  lemma AppliedIsOnDisk(lib: Lib, expected: text, w: World, nm: NetMap, byID: PinMap, written: bool)
    requires Clean(w)
    ensures var st := ApplyStep(lib, expected, w, nm, byID, written);
            && Clean(st.world)
            && (st.applied.Some? ==>
                  && st.world.pins.file == FileOf(st.world.disk)
                  && (forall p :: p in st.applied.value.peers && Checked(p) ==> Matches(FileOf(st.world.disk).peers, p))
                  && (st.applied.value.hub.key != [] ==> FileOf(st.world.disk).hub == st.applied.value.hub.key))
  {
    var st := LockStages(lib, expected, w.pins, nm);
    LockStageFrame(lib, expected, w.pins, nm);
    var f := AfterCheck(st.locked.file, byID, st.signed);
    KeepOrDrop(PinTest(f.peers), st.signed.peers);
  }

  /** Over any run, trust steps and own records included, memory is ahead of
      the file only while the dirty flag says so. */
  lemma {:induction false} AlwaysClean(lib: Lib, expected: text, ws: seq<World>, es: seq<Event>, j: nat)
    requires Run(lib, expected, ws, es) && Clean(ws[0]) && j < |ws|
    ensures Clean(ws[j])
  {
    if j > 0 {
      var i := j - 1;
      AlwaysClean(lib, expected, ws, es, i);
      assert Next(lib, expected, ws[i], es[i], ws[i + 1]);
      if es[i].Offer? {
        AppliedIsOnDisk(lib, expected, ws[i], es[i].nm, es[i].byID, es[i].written);
      }
    }
  }

  lemma {:induction false} StatusesComplete(pins: PinMap, ps: seq<Peer>, reason: Reason, prev: seq<HeldStatus>,
                                            now: int)
    requires forall p :: p in ps ==> Checked(p)
    ensures forall h :: h in Statuses(pins, ps, reason, prev, now) ==> HeldComplete(h)
  {
    if ps != [] {
      StatusesComplete(pins, ps[..|ps| - 1], reason, prev, now);
      assert ps[|ps| - 1] in ps;
    }
  }

  lemma {:induction false} UnsignedComplete(signed: Peer -> bool, s: PinSet, ps: seq<Peer>, prev: seq<HeldStatus>,
                                            now: int)
    requires forall p :: p in ps && !Checked(p) ==> signed(p)
    ensures forall h :: h in UnsignedStatuses(signed, s, ps, prev, now) ==> HeldComplete(h)
  {
    if ps != [] {
      UnsignedComplete(signed, s, ps[..|ps| - 1], prev, now);
    }
  }

  /** What a trust step may accept: every held entry is complete, so trusting
      it keeps the file readable. */
  lemma HeldIsComplete(lib: Lib, expected: text, w: World, nm: NetMap, byID: PinMap, prev: seq<HeldStatus>, now: int)
    ensures forall h :: h in HeldAfter(lib, expected, w, nm, byID, prev, now) ==> HeldComplete(h)
  {
    var st := LockStages(lib, expected, w.pins, nm);
    var f := AfterCheck(st.locked.file, byID, st.signed);
    KeepOrDrop(PinTest(f.peers), st.signed.peers);
    StatusesComplete(f.peers, Drop(PinTest(f.peers), st.signed.peers), KeyChanged, prev, now);
    if st.updated.Enabled() {
      var set_ := st.updated.file.lock.value.record;
      UnsignedComplete(LockTest(lib, set_), AcceptHub(lib, set_, st.updated, st.gated.hub), st.gated.peers, prev, now);
    }
  }

  // ----- pin safety with the lock off -----

  ghost predicate NoTrust(es: seq<Event>) {
    forall i :: 0 <= i < |es| ==> !es[i].Trusting?
  }

  ghost predicate Extends(f: PinFile, g: PinFile) {
    && f.peers.Keys <= g.peers.Keys
    && (forall n :: n in f.peers ==> g.peers[n] == f.peers[n])
    && (f.hub != [] ==> g.hub == f.hub)
  }

  /** What holds between memory and disk while no lock is on. */
  ghost predicate Sound(w: World) {
    Clean(w) && Extends(FileOf(w.disk), w.pins.file)
  }

  lemma SoundStep(lib: Lib, expected: text, w: World, e: Event, w': World)
    requires Sound(w) && Next(lib, expected, w, e, w') && !w'.pins.Enabled() && !e.Trusting?
    ensures Sound(w')
    ensures Extends(FileOf(w.disk), FileOf(w'.disk))
    ensures !e.Restart? ==> Extends(w.pins.file, w'.pins.file)
  {
    if e.Offer? {
      var st := LockStages(lib, expected, w.pins, e.nm);
      LockStageFrame(lib, expected, w.pins, e.nm);
      assert !st.updated.Enabled();
      PinAllGrows(st.locked.file.peers, e.byID, st.signed.peers);
      AppliedIsOnDisk(lib, expected, w, e.nm, e.byID, e.written);
    }
  }

  ghost predicate LockOff(ws: seq<World>) {
    forall i :: 0 <= i < |ws| ==> !ws[i].pins.Enabled()
  }

  lemma {:induction false} DiskOnlyGrows(lib: Lib, expected: text, ws: seq<World>, es: seq<Event>, i: nat, j: nat)
    requires Run(lib, expected, ws, es) && Sound(ws[0]) && LockOff(ws) && NoTrust(es)
    requires i <= j < |ws|
    ensures Sound(ws[j]) && Extends(FileOf(ws[i].disk), FileOf(ws[j].disk))
    decreases j
  {
    if j > 0 {
      var mid := if i < j then i else j - 1;
      DiskOnlyGrows(lib, expected, ws, es, mid, j - 1);
      SoundStep(lib, expected, ws[j - 1], es[j - 1], ws[j]);
    }
  }

  /** With the lock off and no trust step, no name ever reaches the device
      with two different (id, key) pairs, and the hub never with two keys,
      whatever the server offers, whichever records the device sets itself,
      whichever writes fail and however often the client restarts. */
  lemma PinSafety(lib: Lib, expected: text, ws: seq<World>, es: seq<Event>)
    requires Run(lib, expected, ws, es) && Sound(ws[0]) && LockOff(ws) && NoTrust(es)
    ensures forall i, j, p, q ::
              0 <= i <= j < |es| && AppliesPeer(lib, expected, ws[i], es[i], p)
              && AppliesPeer(lib, expected, ws[j], es[j], q) && p.name == q.name
              ==> p.id == q.id && p.key == q.key
    ensures forall i, j, k, l ::
              0 <= i <= j < |es| && AppliesHub(lib, expected, ws[i], es[i], k)
              && AppliesHub(lib, expected, ws[j], es[j], l)
              ==> k == l
  {
    forall i, j, p, q |
      0 <= i <= j < |es| && AppliesPeer(lib, expected, ws[i], es[i], p)
      && AppliesPeer(lib, expected, ws[j], es[j], q) && p.name == q.name
      ensures p.id == q.id && p.key == q.key
    {
      AppliedStays(lib, expected, ws, es, i, j + 1);
      AppliedStays(lib, expected, ws, es, j, j + 1);
    }
    forall i, j, k, l |
      0 <= i <= j < |es| && AppliesHub(lib, expected, ws[i], es[i], k) && AppliesHub(lib, expected, ws[j], es[j], l)
      ensures k == l
    {
      AppliedStays(lib, expected, ws, es, i, j + 1);
      AppliedStays(lib, expected, ws, es, j, j + 1);
    }
  }

  /** What event i applied is pinned on disk and in memory ever after. */
  lemma AppliedStays(lib: Lib, expected: text, ws: seq<World>, es: seq<Event>, i: nat, j: nat)
    requires Run(lib, expected, ws, es) && Sound(ws[0]) && LockOff(ws) && NoTrust(es)
    requires i < j < |ws|
    ensures forall p ::
              AppliesPeer(lib, expected, ws[i], es[i], p) ==>
                Matches(FileOf(ws[j].disk).peers, p) && Matches(ws[j].pins.file.peers, p)
    ensures forall k ::
              AppliesHub(lib, expected, ws[i], es[i], k) ==> FileOf(ws[j].disk).hub == k == ws[j].pins.file.hub
  {
    DiskOnlyGrows(lib, expected, ws, es, i, i);
    DiskOnlyGrows(lib, expected, ws, es, i + 1, j);
    match es[i]
    case Offer(nm, byID, written) => AppliedIsOnDisk(lib, expected, ws[i], nm, byID, written);
    case _ =>
  }

  // ----- one key per id -----

  ghost predicate OneKeyPerID(pins: PinMap) {
    forall m, n :: m in pins && n in pins && pins[m].id == pins[n].id ==> pins[m].key == pins[n].key
  }

  ghost predicate DistinctIDs(ps: seq<Peer>) {
    forall i, j :: 0 <= i < j < |ps| && Checked(ps[i]) && Checked(ps[j]) ==> ps[i].id != ps[j].id
  }

  /** A pin is an old one or that of an entry whose id no pin carried. */
  lemma {:induction false} PinOrigin(pins: PinMap, byID: PinMap, ps: seq<Peer>, n: text)
    requires Indexes(pins, byID) && n in PinAll(pins, byID, ps)
    ensures var e := PinAll(pins, byID, ps)[n];
            e in pins.Values || exists i :: 0 <= i < |ps| && Checked(ps[i]) && e == PinOf(ps[i]) && ps[i].id !in byID
  {
    if ps == [] {
      assert pins[n] in pins.Values;
    } else {
      var front, p := ps[..|ps| - 1], ps[|ps| - 1];
      var before := PinAll(pins, byID, front);
      if n in before {
        PinOrigin(pins, byID, front, n);
        assert PinAll(pins, byID, ps)[n] == before[n];
        if before[n] !in pins.Values {
          var i :| 0 <= i < |front| && Checked(front[i]) && before[n] == PinOf(front[i]) && front[i].id !in byID;
          assert ps[i] == front[i];
        }
      } else if p.id !in byID {
        assert ps[|ps| - 1] == p;
      }
    }
  }

  lemma PinAllKeepsIDs(pins: PinMap, byID: PinMap, ps: seq<Peer>)
    requires Indexes(pins, byID) && OneKeyPerID(pins) && DistinctIDs(ps)
    ensures OneKeyPerID(PinAll(pins, byID, ps))
  {
    var after := PinAll(pins, byID, ps);
    forall m, n | m in after && n in after && after[m].id == after[n].id ensures after[m].key == after[n].key {
      PinOrigin(pins, byID, ps, m);
      PinOrigin(pins, byID, ps, n);
    }
  }

  lemma OfferKeepsIDs(lib: Lib, expected: text, w: World, e: Event, w': World)
    requires Next(lib, expected, w, e, w') && e.Offer? && !w'.pins.Enabled() && DistinctIDs(e.nm.peers)
    requires OneKeyPerID(w.pins.file.peers)
    ensures OneKeyPerID(w'.pins.file.peers)
  {
    var st := LockStages(lib, expected, w.pins, e.nm);
    LockStageFrame(lib, expected, w.pins, e.nm);
    assert st.locked == st.updated && st.signed == st.gated;
    assert DistinctIDs(st.signed.peers);
    PinAllKeepsIDs(st.locked.file.peers, e.byID, st.signed.peers);
  }

  lemma IDsKeptStep(lib: Lib, expected: text, w: World, e: Event, w': World)
    requires Next(lib, expected, w, e, w') && !e.Trusting? && !w'.pins.Enabled()
             && (e.Offer? ==> DistinctIDs(e.nm.peers))
    requires Sound(w) && OneKeyPerID(w.pins.file.peers)
    ensures OneKeyPerID(w'.pins.file.peers)
  {
    if e.Offer? {
      OfferKeepsIDs(lib, expected, w, e, w');
    }
  }

  lemma {:induction false} IDsKept(lib: Lib, expected: text, ws: seq<World>, es: seq<Event>, j: nat)
    requires Run(lib, expected, ws, es) && Sound(ws[0]) && LockOff(ws) && NoTrust(es) && j < |ws|
    requires OneKeyPerID(ws[0].pins.file.peers)
    requires forall i :: 0 <= i < |es| && es[i].Offer? ==> DistinctIDs(es[i].nm.peers)
    ensures OneKeyPerID(ws[j].pins.file.peers)
  {
    if j > 0 {
      var i := j - 1;
      IDsKept(lib, expected, ws, es, i);
      DiskOnlyGrows(lib, expected, ws, es, i, i);
      assert Next(lib, expected, ws[i], es[i], ws[i + 1]);
      IDsKeptStep(lib, expected, ws[i], es[i], ws[j]);
    }
  }

  /** When no netmap lists an id twice, no id is ever applied with two keys,
      also across renames. */
  lemma OneKeyAcrossRenames(lib: Lib, expected: text, ws: seq<World>, es: seq<Event>)
    requires Run(lib, expected, ws, es) && Sound(ws[0]) && LockOff(ws) && NoTrust(es)
    requires OneKeyPerID(ws[0].pins.file.peers)
    requires forall i :: 0 <= i < |es| && es[i].Offer? ==> DistinctIDs(es[i].nm.peers)
    ensures forall i, j, p, q ::
              0 <= i <= j < |es| && AppliesPeer(lib, expected, ws[i], es[i], p)
              && AppliesPeer(lib, expected, ws[j], es[j], q) && p.id == q.id
              ==> p.key == q.key
  {
    forall i, j, p, q |
      0 <= i <= j < |es| && AppliesPeer(lib, expected, ws[i], es[i], p)
      && AppliesPeer(lib, expected, ws[j], es[j], q) && p.id == q.id
      ensures p.key == q.key
    {
      AppliedStays(lib, expected, ws, es, i, j + 1);
      AppliedStays(lib, expected, ws, es, j, j + 1);
      IDsKept(lib, expected, ws, es, j + 1);
      var pins := ws[j + 1].pins.file.peers;
      assert pins[p.name] == PinOf(p) && pins[q.name] == PinOf(q);
    }
  }

  // ----- the lock on -----

  /** With the lock on, every checked entry and the hub of what is applied
      carry a valid signature by a key of the pinned set over exactly that
      id, name and key: for every netmap and every prior state. */
  lemma EnabledMeansSigned(lib: Lib, expected: text, w: World, nm: NetMap, byID: PinMap, written: bool)
    requires ApplyStep(lib, expected, w, nm, byID, written).world.pins.Enabled()
    requires ApplyStep(lib, expected, w, nm, byID, written).applied.Some?
    ensures var st := ApplyStep(lib, expected, w, nm, byID, written);
            var set_ := st.world.pins.file.lock.value.record;
            && (forall p :: p in st.applied.value.peers && Checked(p) ==> PeerSigned(lib, set_, p))
            && (st.applied.value.hub.key != [] ==> HubSigned(lib, set_, st.applied.value.hub))
  {
    var st := LockStages(lib, expected, w.pins, nm);
    LockStageFrame(lib, expected, w.pins, nm);
    assert st.updated.Enabled();
    var set_ := st.updated.file.lock.value.record;
    KeepOrDrop(LockTest(lib, set_), st.gated.peers);
    var f := AfterCheck(st.locked.file, byID, st.signed);
    KeepOrDrop(PinTest(f.peers), st.signed.peers);
  }

  /** Entries without name, id or key pass both checks: unless the client
      fails closed they are applied, lock on or off, whatever their
      signatures. */
  lemma IncompleteIsApplied(lib: Lib, expected: text, w: World, nm: NetMap, byID: PinMap, written: bool, p: Peer)
    requires !FailsClosed(expected, LockUpdated(lib, w.pins, nm.lock, expected))
    requires ApplyStep(lib, expected, w, nm, byID, written).applied.Some? && !Checked(p)
    ensures p in ApplyStep(lib, expected, w, nm, byID, written).applied.value.peers <==> p in nm.peers
  {
    AppliedWasOffered(lib, expected, w, nm, byID, written);
    var st := LockStages(lib, expected, w.pins, nm);
    if st.updated.Enabled() {
      KeepOrDrop(LockTest(lib, st.updated.file.lock.value.record), st.gated.peers);
    }
    KeepOrDrop(PinTest(AfterCheck(st.locked.file, byID, st.signed).peers), st.signed.peers);
  }

  /** With the lock on, an offered entry is applied if and only if it is
      incomplete or via the hub, or signed by the pinned set and in agreement
      with the pins. */
  lemma EnabledAppliedIff(lib: Lib, expected: text, w: World, nm: NetMap, byID: PinMap, written: bool, p: Peer)
    requires ApplyStep(lib, expected, w, nm, byID, written).world.pins.Enabled()
    requires ApplyStep(lib, expected, w, nm, byID, written).applied.Some?
    ensures var st := ApplyStep(lib, expected, w, nm, byID, written);
            p in st.applied.value.peers <==>
              p in nm.peers
              && (!Checked(p)
                  || (PeerSigned(lib, st.world.pins.file.lock.value.record, p) && Matches(st.world.pins.file.peers, p)))
  {
    var st := LockStages(lib, expected, w.pins, nm);
    LockStageFrame(lib, expected, w.pins, nm);
    assert st.updated.Enabled();
    KeepOrDrop(LockTest(lib, st.updated.file.lock.value.record), st.gated.peers);
    KeepOrDrop(PinTest(AfterCheck(st.locked.file, byID, st.signed).peers), st.signed.peers);
  }

  /** With the lock on, the hub is applied if and only if it is offered, signed
      by the pinned set and as pinned. */
  lemma EnabledHubIff(lib: Lib, expected: text, w: World, nm: NetMap, byID: PinMap, written: bool)
    requires ApplyStep(lib, expected, w, nm, byID, written).world.pins.Enabled()
    requires ApplyStep(lib, expected, w, nm, byID, written).applied.Some?
    ensures var st := ApplyStep(lib, expected, w, nm, byID, written);
            st.applied.value.hub ==
              if nm.hub.key == [] || (HubSigned(lib, st.world.pins.file.lock.value.record, nm.hub)
                                      && st.world.pins.file.hub == nm.hub.key)
              then nm.hub else NO_HUB
  {
    LockStageFrame(lib, expected, w.pins, nm);
    assert LockStages(lib, expected, w.pins, nm).updated.Enabled();
  }

  /** The same for the WireGuard configuration: a key is a device peer if and
      only if it is that of the offered hub, signed and as pinned, or of an
      offered direct entry that is incomplete or signed and as pinned. */
  lemma EnabledConfigIff(lib: Lib, expected: text, w: World, nm: NetMap, byID: PinMap, written: bool, k: Key32)
    requires ApplyStep(lib, expected, w, nm, byID, written).world.pins.Enabled()
    requires var st := ApplyStep(lib, expected, w, nm, byID, written);
             st.applied.Some? && Config(lib, st.applied.value).Some?
    ensures var st := ApplyStep(lib, expected, w, nm, byID, written);
            var set_ := st.world.pins.file.lock.value.record;
            k in Config(lib, st.applied.value).value <==>
              || (nm.hub.key != [] && lib.parseWgKey(nm.hub.key) == Some(k)
                  && HubSigned(lib, set_, nm.hub) && st.world.pins.file.hub == nm.hub.key)
              || (exists p :: p in nm.peers && !p.viaHub && lib.parseWgKey(p.key) == Some(k)
                              && (!Checked(p) || (PeerSigned(lib, set_, p) && Matches(st.world.pins.file.peers, p))))
  {
    var st := ApplyStep(lib, expected, w, nm, byID, written);
    EnabledHubIff(lib, expected, w, nm, byID, written);
    ConfigPeersFrom(lib, st.applied.value.peers, k);
    forall p ensures p in st.applied.value.peers <==>
      p in nm.peers
      && (!Checked(p)
          || (PeerSigned(lib, st.world.pins.file.lock.value.record, p) && Matches(st.world.pins.file.peers, p)))
    {
      EnabledAppliedIff(lib, expected, w, nm, byID, written, p);
    }
  }

  /** So with the lock on, an entry without an id and without any signature
      does reach the device, whatever its name and key and whatever the pinned
      record. */
  lemma UnsignedReachesDevice(lib: Lib, rec: Signed, name: text, key: text, k: Key32)
    returns (w: World, nm: NetMap, byID: PinMap)
    requires rec.record.Enabled() && lib.parseWgKey(key) == Some(k)
    ensures var st := ApplyStep(lib, [], w, nm, byID, true);
            && st.world.pins.Enabled() && Indexes(LockStages(lib, [], w.pins, nm).locked.file.peers, byID)
            && nm.peers == [Peer([], name, key, false, [], false, 0)]
            && st.applied.Some? && Config(lib, st.applied.value) == Some([k])
  {
    var p := Peer([], name, key, false, [], false, 0);
    var f := PinFile([], map[], Some(rec));
    w, nm, byID := World(PinSet(f, false), Some(f)), NetMap([p], NO_HUB, None), map[];
    OnePassed(LockTest(lib, rec.record), w.pins, p);
    assert LockStages(lib, [], w.pins, nm) == Stages(w.pins, nm, w.pins, nm);
    OneUnpinned(map[], map[], p);
    assert CheckStage(w, nm, byID, true) == Step(w, Some(nm));
    OneConfigured(lib, p, k);
  }

  lemma OnePassed(signed: Peer -> bool, s: PinSet, p: Peer)
    requires !Checked(p) && signed(p)
    ensures AcceptAll(signed, s, [p]) == s && Keep(signed, [p]) == [p]
  {
    assert [p][..0] == [];
    assert AcceptAll(signed, s, []) == s && Keep(signed, []) == [];
  }

  lemma OneUnpinned(pins: PinMap, byID: PinMap, p: Peer)
    requires !Checked(p)
    ensures PinAll(pins, byID, [p]) == pins && Keep(PinTest(pins), [p]) == [p]
  {
    assert [p][..0] == [];
    assert PinAll(pins, byID, []) == pins && Keep(PinTest(pins), []) == [];
  }

  lemma OneConfigured(lib: Lib, p: Peer, k: Key32)
    requires !p.viaHub && lib.parseWgKey(p.key) == Some(k)
    ensures ConfigPeers(lib, [p]) == Some([k])
  {
    assert [p][..0] == [];
    assert ConfigPeers(lib, []) == Some([]) && [] + [k] == [k];
  }

  lemma AppliedWasOffered(lib: Lib, expected: text, w: World, nm: NetMap, byID: PinMap, written: bool)
    requires ApplyStep(lib, expected, w, nm, byID, written).applied.Some?
    ensures forall p :: p in ApplyStep(lib, expected, w, nm, byID, written).applied.value.peers ==> p in nm.peers
  {
    var st := LockStages(lib, expected, w.pins, nm);
    if st.updated.Enabled() {
      KeepOrDrop(LockTest(lib, st.updated.file.lock.value.record), st.gated.peers);
    }
    KeepOrDrop(PinTest(AfterCheck(st.locked.file, byID, st.signed).peers), st.signed.peers);
  }

  /** What a signed entry's signature covers: some key of the set signed the
      bytes of this id, name and key, and those of no other record. */
  lemma SignatureCovers(lib: Lib, set_: Record, p: Peer)
    requires PeerSigned(lib, set_, p)
    ensures exists key: Key32, sig: Signature, wk: Key32 ::
              && set_.Has(key) && lib.parseWgKey(p.key) == Some(wk)
              && PeerBytes(PeerRecord(p.id, p.name, wk)).Ok?
              && lib.verify(key, PeerBytes(PeerRecord(p.id, p.name, wk)).value, sig)
              && (forall r ::
                   PeerBytes(r) == PeerBytes(PeerRecord(p.id, p.name, wk)) ==> r == PeerRecord(p.id, p.name, wk))
              && (forall r ::
                   RecordBytes(r).Ok? ==> RecordBytes(r).value != PeerBytes(PeerRecord(p.id, p.name, wk)).value)
  {
    var wk := lib.parseWgKey(p.key).value;
    var rec := PeerRecord(p.id, p.name, wk);
    var msg := PeerBytes(rec).value;
    var i :| 0 <= i < |p.signatures| && ValidSignature(lib, set_, msg, p.signatures[i]);
    var key, sig := lib.parseLockKey(p.signatures[i].signer).value, lib.parseSignature(p.signatures[i].signature).value;
    forall r | PeerBytes(r) == PeerBytes(rec) ensures r == rec {
      PeerBytesInjective(rec, r);
    }
    forall r | RecordBytes(r).Ok? ensures RecordBytes(r).value != msg {
      KindsDisjoint(rec, r);
    }
    assert set_.Has(key) && lib.verify(key, msg, sig);
  }
}
