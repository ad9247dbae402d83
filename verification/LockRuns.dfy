/** The lock record over runs: which record may follow which, when the
    client fails closed, and what is held, trusted and reloaded. */
module LockRuns {
  import opened Numbers
  import opened Basics
  import opened LockRecord
  import opened ClientPins
  import opened Daemon
  import opened TrustRuns

  // ----- lineage -----

  /** next may follow current: it starts a lineage signed by a key of its
      own, or it is newer and signed by a key of the current set. */
  ghost predicate Succeeds(lib: Lib, current: Option<Record>, next: Signed) {
    && EncodableRecord(next.record)
    && var msg := RecordBytes(next.record).value;
    if LineageEnded(current) then SignedByAny(lib, next.record, msg, next.signature)
    else next.record.generation > current.value.generation && SignedByAny(lib, current.value, msg, next.signature)
  }

  function LockOf(w: World): Option<Signed> {
    w.pins.file.lock
  }

  /** The pin after an offer is the pin before it or a successor the offer
      carried. */
  lemma PinnedRecordStep(lib: Lib, expected: text, w: World, e: Event, w': World)
    requires Next(lib, expected, w, e, w') && e.Offer?
    ensures LockOf(w') == LockOf(w)
            || (LockOf(w').Some? && LockOf(w') == e.nm.lock
               && Succeeds(lib, CurrentRecord(LockOf(w)), LockOf(w').value))
  {
    LockStageFrame(lib, expected, w.pins, e.nm);
  }

  ghost predicate OneProcess(es: seq<Event>) {
    forall i :: 0 <= i < |es| ==> es[i].Offer?
  }

  ghost predicate HasSigners(w: World) {
    LockOf(w).Some? && LockOf(w).value.record.signers != []
  }

  lemma RecordRisesStep(lib: Lib, expected: text, w: World, e: Event, w': World)
    requires Next(lib, expected, w, e, w') && e.Offer? && HasSigners(w)
    ensures LockOf(w').Some?
    ensures LockOf(w') == LockOf(w) || LockOf(w').value.record.generation > LockOf(w).value.record.generation
  {
    PinnedRecordStep(lib, expected, w, e, w');
  }

  /** Within one process, as long as the pinned set is not empty, the pinned
      generation never falls and the record changes only to a newer one. */
  lemma {:induction false} GenerationsRise(lib: Lib, expected: text, ws: seq<World>, es: seq<Event>, i: nat, j: nat)
    requires Run(lib, expected, ws, es) && OneProcess(es)
    requires i <= j < |ws| && forall k :: i <= k < j ==> HasSigners(ws[k])
    ensures i < j ==> LockOf(ws[j]).Some?
    ensures LockOf(ws[j]) == LockOf(ws[i])
            || (LockOf(ws[i]).Some? && LockOf(ws[j]).Some?
               && LockOf(ws[j]).value.record.generation > LockOf(ws[i]).value.record.generation)
    decreases j
  {
    if i < j {
      var k := j - 1;
      GenerationsRise(lib, expected, ws, es, i, k);
      assert HasSigners(ws[k]) && Next(lib, expected, ws[k], es[k], ws[k + 1]) && es[k].Offer?;
      RecordRisesStep(lib, expected, ws[k], es[k], ws[j]);
    }
  }

  /** m is l or a later record; no record is before any. */
  ghost predicate Rises(l: Option<Signed>, m: Option<Signed>) {
    l.None? || l == m || (m.Some? && m.value.record.generation > l.value.record.generation)
  }

  function DiskLock(w: World): Option<Signed> {
    FileOf(w.disk).lock
  }

  /** The device sets no record of its own. */
  ghost predicate NoOwnRecord(es: seq<Event>) {
    forall i :: 0 <= i < |es| ==> !es[i].Setting?
  }

  /** A record without signers would end the lineage. */
  ghost predicate NotEnded(w: World) {
    LockOf(w).Some? ==> LockOf(w).value.record.signers != []
  }

  lemma RisesStep(lib: Lib, expected: text, w: World, e: Event, w': World)
    requires Next(lib, expected, w, e, w') && !e.Setting? && NotEnded(w) && Rises(DiskLock(w), LockOf(w))
    ensures Rises(DiskLock(w), DiskLock(w')) && Rises(DiskLock(w'), LockOf(w'))
  {
    if e.Offer? {
      PinnedRecordStep(lib, expected, w, e, w');
    }
  }

  /** Also across restarts and failed writes: while no record without signers
      is pinned, the record on disk changes only to a newer one, and the one in
      memory is never behind it. */
  lemma {:induction false} DiskRecordRises(lib: Lib, expected: text, ws: seq<World>, es: seq<Event>, i: nat, j: nat)
    requires Run(lib, expected, ws, es) && NoOwnRecord(es) && Rises(DiskLock(ws[0]), LockOf(ws[0]))
    requires i <= j < |ws| && forall k :: 0 <= k < j ==> NotEnded(ws[k])
    ensures Rises(DiskLock(ws[i]), DiskLock(ws[j])) && Rises(DiskLock(ws[j]), LockOf(ws[j]))
    decreases j
  {
    if j > 0 {
      var k := j - 1;
      DiskRecordRises(lib, expected, ws, es, if i < j then i else k, k);
      assert Next(lib, expected, ws[k], es[k], ws[k + 1]);
      RisesStep(lib, expected, ws[k], es[k], ws[j]);
    }
  }

  /** A record under which something was applied is never rolled back: every
      later record, in memory or on disk, restarted or not, is that one or a
      newer one. */
  lemma AppliedRecordStays(lib: Lib, expected: text, ws: seq<World>, es: seq<Event>, i: nat, j: nat)
    requires Run(lib, expected, ws, es) && NoOwnRecord(es) && Clean(ws[0]) && Rises(DiskLock(ws[0]), LockOf(ws[0]))
    requires i < j < |ws| && forall k :: 0 <= k < j ==> NotEnded(ws[k])
    requires AppliedBy(lib, expected, ws[i], es[i]).Some?
    ensures Rises(LockOf(ws[i + 1]), DiskLock(ws[j])) && Rises(LockOf(ws[i + 1]), LockOf(ws[j]))
  {
    AlwaysClean(lib, expected, ws, es, i);
    assert Next(lib, expected, ws[i], es[i], ws[i + 1]);
    AppliedIsOnDisk(lib, expected, ws[i], es[i].nm, es[i].byID, es[i].written);
    DiskRecordRises(lib, expected, ws, es, i + 1, j);
  }

  /** An enabled lock is turned off only by an offered disabled record that
      is newer than the pinned one and signed by a key of the pinned set;
      an offer without a record or an old one never does it. */
  lemma {:induction false} OnlySignersTurnOff(lib: Lib, expected: text, ws: seq<World>, es: seq<Event>, i: nat, j: nat)
    returns (k: nat)
    requires Run(lib, expected, ws, es) && OneProcess(es)
    requires i < j < |ws| && ws[i].pins.Enabled() && !ws[j].pins.Enabled()
    ensures i <= k < j && ws[k].pins.Enabled() && !ws[k + 1].pins.Enabled()
    ensures es[k].nm.lock.Some? && LockOf(ws[k + 1]) == es[k].nm.lock
    ensures es[k].nm.lock.value.record.disabled
    ensures es[k].nm.lock.value.record.generation > LockOf(ws[k]).value.record.generation
    ensures EncodableRecord(es[k].nm.lock.value.record)
            && SignedByAny(lib, LockOf(ws[k]).value.record, RecordBytes(es[k].nm.lock.value.record).value,
                           es[k].nm.lock.value.signature)
    decreases j - i
  {
    if ws[i + 1].pins.Enabled() {
      k := OnlySignersTurnOff(lib, expected, ws, es, i + 1, j);
    } else {
      k := i;
      assert Next(lib, expected, ws[i], es[i], ws[i + 1]) && es[i].Offer?;
      PinnedRecordStep(lib, expected, ws[i], es[i], ws[i + 1]);
    }
  }

  /** The lineage bound is exact: once the pinned record lists no signer, a
      record of any generation that signs itself replaces it. */
  lemma EndedLineageRestarts(lib: Lib, s: PinSet, offered: Signed, expected: text)
    requires s.file.lock.Some? && s.file.lock.value.record.signers == []
    requires !SameRecord(s.file.lock, offered)
    ensures LockUpdated(lib, s, Some(offered), expected).file.lock == Some(offered)
            <==>
            (EncodableRecord(offered.record)
             && SignedByAny(lib, offered.record, RecordBytes(offered.record).value, offered.signature))
  {}

  // ----- failing closed -----

  /** Which key signs the first record of a device enrolled with a signer. */
  lemma {:induction false} FirstMatchIsExpected(lib: Lib, ss: seq<Signer>, msg: seq<byte>, sig: Signature,
                                                expected: text)
    requires FirstMatchVerifies(lib, ss, msg, sig, expected)
    ensures lib.parseLockKey(lib.trimSpace(expected)).Some?
    ensures var key := lib.parseLockKey(lib.trimSpace(expected)).value;
            lib.verify(key, msg, sig) && exists s :: s in ss && s.key == key
  {
    if MatchesLockKey(lib, ss[0].key, expected) {
      assert ss[0] in ss;
    } else {
      FirstMatchIsExpected(lib, ss[1..], msg, sig, expected);
      var s :| s in ss[1..] && s.key == lib.parseLockKey(lib.trimSpace(expected)).value;
      assert s in ss;
    }
  }

  /** The first record ever pinned is signed by the expected key itself. */
  lemma FirstRecordIsExpected(lib: Lib, expected: text, w: World, e: Event, w': World)
    requires Next(lib, expected, w, e, w') && e.Offer?
    requires expected != [] && LockOf(w).None? && LockOf(w').Some?
    ensures lib.parseLockKey(lib.trimSpace(expected)).Some?
    ensures var key, rec := lib.parseLockKey(lib.trimSpace(expected)).value, LockOf(w').value;
            && rec.record.Has(key)
            && EncodableRecord(rec.record)
            && lib.verify(key, RecordBytes(rec.record).value, rec.signature)
  {
    LockStageFrame(lib, expected, w.pins, e.nm);
    var rec := LockOf(w').value;
    FirstMatchIsExpected(lib, rec.record.signers, RecordBytes(rec.record).value, rec.signature, expected);
  }

  ghost predicate AppliesNothing(lib: Lib, expected: text, w: World, e: Event) {
    AppliedBy(lib, expected, w, e).Some? ==>
      AppliedBy(lib, expected, w, e).value.peers == [] && AppliedBy(lib, expected, w, e).value.hub == NO_HUB
  }

  /** A process that just read its pins. */
  ghost predicate Started(w: World) {
    w.pins == PinSet(FileOf(w.disk), false)
  }

  /** A client that fails closed holds nothing, so there is nothing to trust. */
  lemma ClosedHoldsNothing(lib: Lib, expected: text, w: World, nm: NetMap, byID: PinMap, prev: seq<HeldStatus>,
                           now: int)
    requires FailsClosed(expected, LockUpdated(lib, w.pins, nm.lock, expected))
    ensures HeldAfter(lib, expected, w, nm, byID, prev, now) == []
  {
  }

  /** Trust steps accept what an earlier offer of the run left held. */
  ghost predicate TrustsHeld(lib: Lib, expected: text, ws: seq<World>, es: seq<Event>) {
    |ws| > |es| && forall i :: 0 <= i < |es| && es[i].Trusting? ==>
      exists k, prev, now :: 0 <= k < i && es[k].Offer?
                             && es[i].h in HeldAfter(lib, expected, ws[k], es[k].nm, es[k].byID, prev, now)
  }

  lemma NothingToTrust(lib: Lib, expected: text, ws: seq<World>, es: seq<Event>, i: nat)
    requires Run(lib, expected, ws, es) && TrustsHeld(lib, expected, ws, es) && i < |es| && expected != []
    requires forall k :: 0 <= k <= i ==> LockOf(ws[k]).None?
    ensures !es[i].Trusting?
  {
    forall k, prev, now | 0 <= k < i && es[k].Offer?
      ensures HeldAfter(lib, expected, ws[k], es[k].nm, es[k].byID, prev, now) == []
    {
      assert Next(lib, expected, ws[k], es[k], ws[k + 1]) && LockOf(ws[k + 1]).None?;
      LockStageFrame(lib, expected, ws[k].pins, es[k].nm);
      ClosedHoldsNothing(lib, expected, ws[k], es[k].nm, es[k].byID, prev, now);
    }
  }

  lemma ClosedStep(lib: Lib, expected: text, w: World, e: Event, w': World)
    requires Next(lib, expected, w, e, w') && !e.Trusting? && expected != [] && Started(w)
    requires LockOf(w).None? && LockOf(w').None?
    ensures w' == w && AppliesNothing(lib, expected, w, e)
  {
    if e.Offer? {
      LockStageFrame(lib, expected, w.pins, e.nm);
    }
  }

  /** While a signer is expected and no record is pinned, a run of offers,
      trust steps and restarts applies nothing and changes no pin, in memory or
      on disk. */
  lemma {:induction false} FailClosed(lib: Lib, expected: text, ws: seq<World>, es: seq<Event>, n: nat)
    requires Run(lib, expected, ws, es) && TrustsHeld(lib, expected, ws, es) && Started(ws[0]) && n < |ws|
    requires expected != [] && forall i :: 0 <= i <= n ==> LockOf(ws[i]).None?
    ensures ws[n] == ws[0]
    ensures n > 0 ==> AppliesNothing(lib, expected, ws[n - 1], es[n - 1])
  {
    if n > 0 {
      var k := n - 1;
      FailClosed(lib, expected, ws, es, k);
      NothingToTrust(lib, expected, ws, es, k);
      assert Next(lib, expected, ws[k], es[k], ws[k + 1]);
      ClosedStep(lib, expected, ws[k], es[k], ws[n]);
    }
  }

  // ----- nothing is lost between applied and held -----

  datatype Offered = Offered(name: text, id: text, key: text)

  function OfferedBy(p: Peer): Offered {
    Offered(p.name, p.id, p.key)
  }

  function EntriesOf(ps: seq<Peer>): seq<Offered> {
    if ps == [] then [] else EntriesOf(ps[..|ps| - 1]) + [OfferedBy(ps[|ps| - 1])]
  }

  function Shown(h: HeldStatus): Offered {
    Offered(h.name, h.id, h.offeredKey)
  }

  function EntriesHeld(hs: seq<HeldStatus>): seq<Offered> {
    if hs == [] then [] else EntriesHeld(hs[..|hs| - 1]) + [Shown(hs[|hs| - 1])]
  }

  lemma {:induction false} EntriesHeldAppend(a: seq<HeldStatus>, b: seq<HeldStatus>)
    ensures EntriesHeld(a + b) == EntriesHeld(a) + EntriesHeld(b)
  {
    if b == [] {
      assert a + b == a;
    } else {
      EntriesHeldAppend(a, b[..|b| - 1]);
      assert (a + b)[..|a + b| - 1] == a + b[..|b| - 1];
    }
  }

  lemma {:induction false} StatusesDescribe(pins: PinMap, ps: seq<Peer>, reason: Reason, prev: seq<HeldStatus>,
                                            now: int)
    ensures EntriesHeld(Statuses(pins, ps, reason, prev, now)) == EntriesOf(ps)
    ensures forall h :: h in Statuses(pins, ps, reason, prev, now) ==> h.reason == reason
  {
    if ps != [] {
      var front := Statuses(pins, ps[..|ps| - 1], reason, prev, now);
      StatusesDescribe(pins, ps[..|ps| - 1], reason, prev, now);
      assert Statuses(pins, ps, reason, prev, now)[..|front|] == front;
    }
  }

  lemma {:induction false} UnsignedDescribe(signed: Peer -> bool, s: PinSet, ps: seq<Peer>, prev: seq<HeldStatus>,
                                            now: int)
    ensures EntriesHeld(UnsignedStatuses(signed, s, ps, prev, now)) == EntriesOf(Drop(signed, ps))
    ensures forall h :: h in UnsignedStatuses(signed, s, ps, prev, now) ==> h.reason == Unsigned
  {
    if ps != [] {
      var front, dropped := UnsignedStatuses(signed, s, ps[..|ps| - 1], prev, now), Drop(signed, ps[..|ps| - 1]);
      UnsignedDescribe(signed, s, ps[..|ps| - 1], prev, now);
      if signed(ps[|ps| - 1]) {
        assert UnsignedStatuses(signed, s, ps, prev, now) == front && Drop(signed, ps) == dropped;
      } else {
        assert UnsignedStatuses(signed, s, ps, prev, now)[..|front|] == front
               && Drop(signed, ps)[..|dropped|] == dropped;
      }
    }
  }

  /** The entries the lock and the pins hold, in netmap order. */
  function LockHolds(lib: Lib, st: Stages): seq<Peer> {
    if st.updated.Enabled() then Drop(LockTest(lib, st.updated.file.lock.value.record), st.gated.peers) else []
  }

  function PinsHold(st: Stages, byID: PinMap): seq<Peer> {
    Drop(PinTest(AfterCheck(st.locked.file, byID, st.signed).peers), st.signed.peers)
  }

  function HubEntry(held: bool, key: text): seq<Offered> {
    if held then [Offered(HUB, [], key)] else []
  }

  /** Unless the client fails closed, each offered entry is applied or held,
      once. */
  lemma Conservation(lib: Lib, expected: text, w: World, nm: NetMap, byID: PinMap, written: bool)
    requires !FailsClosed(expected, LockUpdated(lib, w.pins, nm.lock, expected))
    requires ApplyStep(lib, expected, w, nm, byID, written).applied.Some?
    ensures var st := LockStages(lib, expected, w.pins, nm);
            var applied := ApplyStep(lib, expected, w, nm, byID, written).applied.value;
            multiset(nm.peers) == multiset(applied.peers) + multiset(LockHolds(lib, st)) + multiset(PinsHold(st, byID))
  {
    var st := LockStages(lib, expected, w.pins, nm);
    NoneLost(PinTest(AfterCheck(st.locked.file, byID, st.signed).peers), st.signed.peers);
    if st.updated.Enabled() {
      NoneLost(LockTest(lib, st.updated.file.lock.value.record), nm.peers);
    }
  }

  lemma LockHeldList(lib: Lib, expected: text, s: PinSet, nm: NetMap, prev: seq<HeldStatus>, now: int)
    ensures var st := LockStages(lib, expected, s, nm);
            EntriesHeld(HeldUnsigned(lib, st, prev, now))
            == HubEntry(st.gated.hub.key != [] && st.signed.hub != st.gated.hub, st.gated.hub.key)
               + EntriesOf(LockHolds(lib, st))
  {
    var st := LockStages(lib, expected, s, nm);
    if st.updated.Enabled() {
      var set_, nm := st.updated.file.lock.value.record, st.gated;
      var start := AcceptHub(lib, set_, st.updated, nm.hub);
      var peers := UnsignedStatuses(LockTest(lib, set_), start, nm.peers, prev, now);
      UnsignedDescribe(LockTest(lib, set_), start, nm.peers, prev, now);
      var hub := HubStatus(st.updated.file.hub, nm.hub.key, Unsigned, prev, now);
      EntriesHeldAppend([], peers);
      EntriesHeldAppend([hub], peers);
      assert EntriesHeld([hub]) == [Shown(hub)] by { assert [hub][..0] == []; }
    }
  }

  lemma PinHeldList(f: PinFile, nm: NetMap, prev: seq<HeldStatus>, now: int)
    ensures EntriesHeld(HeldByPins(f, nm, prev, now))
            == HubEntry(!HubPasses(f.hub, nm.hub.key), nm.hub.key) + EntriesOf(Drop(PinTest(f.peers), nm.peers))
  {
    var dropped := Drop(PinTest(f.peers), nm.peers);
    var peers := Statuses(f.peers, dropped, KeyChanged, prev, now);
    StatusesDescribe(f.peers, dropped, KeyChanged, prev, now);
    var hub := HubStatus(f.hub, nm.hub.key, KeyChanged, prev, now);
    EntriesHeldAppend([], peers);
    EntriesHeldAppend([hub], peers);
    assert EntriesHeld([hub]) == [Shown(hub)] by { assert [hub][..0] == []; }
  }

  /** The held list shows exactly the entries that were not applied, and the
      hub exactly when it was offered and not applied. */
  lemma HeldListComplete(lib: Lib, expected: text, w: World, nm: NetMap, byID: PinMap, written: bool,
                         prev: seq<HeldStatus>, now: int)
    requires !FailsClosed(expected, LockUpdated(lib, w.pins, nm.lock, expected))
    requires ApplyStep(lib, expected, w, nm, byID, written).applied.Some?
    ensures var st := LockStages(lib, expected, w.pins, nm);
            var applied := ApplyStep(lib, expected, w, nm, byID, written).applied.value;
            multiset(EntriesHeld(HeldAfter(lib, expected, w, nm, byID, prev, now)))
            == multiset(EntriesOf(LockHolds(lib, st))) + multiset(EntriesOf(PinsHold(st, byID)))
               + multiset(HubEntry(nm.hub.key != [] && applied.hub != nm.hub, nm.hub.key))
  {
    var st := LockStages(lib, expected, w.pins, nm);
    var f := AfterCheck(st.locked.file, byID, st.signed);
    HeldParts(lib, expected, w, nm, byID, prev, now);
    assert st.gated == nm && (st.signed.hub == nm.hub || st.signed.hub == NO_HUB);
    HubHeldOnce(st.signed.hub, nm.hub, PassedMap(f, st.signed).hub, f.hub);
    Rearranged(HubEntry(nm.hub.key != [] && st.signed.hub != nm.hub, nm.hub.key), EntriesOf(LockHolds(lib, st)),
               HubEntry(!HubPasses(f.hub, st.signed.hub.key), st.signed.hub.key), EntriesOf(PinsHold(st, byID)));
  }

  /** The held list, part by part: hub and peers the lock holds, then the pins. */
  lemma HeldParts(lib: Lib, expected: text, w: World, nm: NetMap, byID: PinMap, prev: seq<HeldStatus>, now: int)
    ensures var st := LockStages(lib, expected, w.pins, nm);
            var f := AfterCheck(st.locked.file, byID, st.signed);
            EntriesHeld(HeldAfter(lib, expected, w, nm, byID, prev, now))
            == HubEntry(st.gated.hub.key != [] && st.signed.hub != st.gated.hub, st.gated.hub.key)
               + EntriesOf(LockHolds(lib, st))
               + (HubEntry(!HubPasses(f.hub, st.signed.hub.key), st.signed.hub.key) + EntriesOf(PinsHold(st, byID)))
  {
    var st := LockStages(lib, expected, w.pins, nm);
    var f := AfterCheck(st.locked.file, byID, st.signed);
    LockHeldList(lib, expected, w.pins, nm, prev, now);
    PinHeldList(f, st.signed, prev, now);
    EntriesHeldAppend(HeldUnsigned(lib, st, prev, now), HeldByPins(f, st.signed, prev, now));
  }

  lemma Rearranged(a: seq<Offered>, b: seq<Offered>, c: seq<Offered>, d: seq<Offered>)
    ensures multiset(a + b + (c + d)) == multiset(b) + multiset(d) + (multiset(a) + multiset(c))
  {
  }

  /** The hub is held by the lock, by the pins or not at all. */
  lemma HubHeldOnce(signed: HubPeer, offered: HubPeer, applied: HubPeer, pinned: text)
    requires signed == offered || signed == NO_HUB
    requires applied == if HubPasses(pinned, signed.key) then signed else NO_HUB
    ensures multiset(HubEntry(offered.key != [] && applied != offered, offered.key))
         == multiset(HubEntry(offered.key != [] && signed != offered, offered.key))
            + multiset(HubEntry(!HubPasses(pinned, signed.key), signed.key))
  {
  }

  // ----- the lock vouches, so the pins hold nothing -----

  /** Entries of one name agree on id and key; in particular when no name
      is listed twice. */
  ghost predicate NamesAgree(ps: seq<Peer>) {
    forall p, q :: p in ps && q in ps && Checked(p) && Checked(q) && p.name == q.name ==> PinOf(p) == PinOf(q)
  }

  ghost predicate NoneNamedHub(ps: seq<Peer>) {
    forall p :: p in ps && Checked(p) ==> p.name != HUB
  }

  lemma {:induction false} AcceptAllPins(signed: Peer -> bool, s: PinSet, ps: seq<Peer>, p: Peer)
    requires NoneNamedHub(ps) && p in ps && Checked(p) && signed(p)
    ensures p.name in AcceptAll(signed, s, ps).file.peers
    ensures exists q ::
              q in ps && Checked(q) && signed(q) && q.name == p.name
              && AcceptAll(signed, s, ps).file.peers[p.name] == PinOf(q)
  {
    var front, last := ps[..|ps| - 1], ps[|ps| - 1];
    if Checked(last) && signed(last) && last.name == p.name {
      assert last in ps;
    } else {
      assert p in front;
      AcceptAllPins(signed, s, front, p);
      var q :| q in front && Checked(q) && signed(q) && q.name == p.name
               && AcceptAll(signed, s, front).file.peers[p.name] == PinOf(q);
      assert q in ps;
    }
  }

  lemma {:induction false} AcceptAllHub(signed: Peer -> bool, s: PinSet, ps: seq<Peer>)
    requires NoneNamedHub(ps)
    ensures AcceptAll(signed, s, ps).file.hub == s.file.hub
  {
    if ps != [] {
      AcceptAllHub(signed, s, ps[..|ps| - 1]);
      assert ps[|ps| - 1] in ps;
    }
  }

  /** With the lock on and no peer named "hub", the pin check after the lock
      holds the hub never, and a peer exactly when the netmap lists one name
      with two signed (id, key) pairs. So a signed rotation or rename needs
      no trust step. */
  lemma SignedNeedsNoTrust(lib: Lib, expected: text, w: World, nm: NetMap, byID: PinMap, prev: seq<HeldStatus>,
                           now: int)
    requires LockUpdated(lib, w.pins, nm.lock, expected).Enabled() && NoneNamedHub(nm.peers)
    ensures var st := LockStages(lib, expected, w.pins, nm);
            var f := AfterCheck(st.locked.file, byID, st.signed);
            && HubPasses(f.hub, st.signed.hub.key)
            && (HeldByPins(f, st.signed, prev, now) == [] <==> NamesAgree(st.signed.peers))
  {
    var st := LockStages(lib, expected, w.pins, nm);
    var set_ := st.updated.file.lock.value.record;
    var test := LockTest(lib, set_);
    var start := AcceptHub(lib, set_, st.updated, nm.hub);
    AcceptAllHub(test, start, nm.peers);
    var f := AfterCheck(st.locked.file, byID, st.signed);
    KeepOrDrop(test, nm.peers);
    KeepOrDrop(PinTest(f.peers), st.signed.peers);
    StatusesDescribe(f.peers, Drop(PinTest(f.peers), st.signed.peers), KeyChanged, prev, now);
    PinAllGrows(st.locked.file.peers, byID, st.signed.peers);
    if NamesAgree(st.signed.peers) {
      forall p | p in st.signed.peers ensures PinTest(f.peers)(p) {
        if Checked(p) {
          AcceptAllPins(test, start, nm.peers, p);
        }
      }
      NothingDropped(PinTest(f.peers), st.signed.peers);
    }
    if HeldByPins(f, st.signed, prev, now) == [] {
      assert Drop(PinTest(f.peers), st.signed.peers) == [];
      forall p | p in st.signed.peers && Checked(p) ensures f.peers[p.name] == PinOf(p) {
        assert p !in Drop(PinTest(f.peers), st.signed.peers);
      }
    }
  }

  /** So with the lock on and no peer named "hub", the hub is applied if and
      only if it is signed. */
  lemma SignedHubApplied(lib: Lib, expected: text, w: World, nm: NetMap, byID: PinMap, written: bool)
    requires ApplyStep(lib, expected, w, nm, byID, written).world.pins.Enabled()
    requires ApplyStep(lib, expected, w, nm, byID, written).applied.Some? && NoneNamedHub(nm.peers) && nm.hub.key != []
    ensures var st := ApplyStep(lib, expected, w, nm, byID, written);
            st.applied.value.hub == nm.hub <==> HubSigned(lib, st.world.pins.file.lock.value.record, nm.hub)
  {
    LockStageFrame(lib, expected, w.pins, nm);
    assert LockStages(lib, expected, w.pins, nm).updated.Enabled();
    SignedNeedsNoTrust(lib, expected, w, nm, byID, [], 0);
    EnabledHubIff(lib, expected, w, nm, byID, written);
  }

  lemma {:induction false} NothingDropped(ok: Peer -> bool, ps: seq<Peer>)
    requires forall p :: p in ps ==> ok(p)
    ensures Drop(ok, ps) == []
  {
    if ps != [] {
      NothingDropped(ok, ps[..|ps| - 1]);
    }
  }

  // ----- trust -----

  /** Applying the same netmap again leaves the lock record as it is: an
      offer is adopted at most once. */
  lemma UpdateIsIdempotent(lib: Lib, s: PinSet, t: PinSet, offered: Option<Signed>, expected: text)
    requires t.file.lock == LockUpdated(lib, s, offered, expected).file.lock
    ensures LockUpdated(lib, t, offered, expected) == t
  {}

  lemma {:induction false} TrustAllPins(f: PinFile, hs: seq<HeldStatus>, h: HeldStatus)
    requires h in hs && forall g :: g in hs && g.name == h.name ==> Shown(g) == Shown(h)
    ensures TrustAll(f, hs).lock == f.lock
    ensures h.name != HUB ==>
              h.name in TrustAll(f, hs).peers && TrustAll(f, hs).peers[h.name] == PinEntry(h.id, h.offeredKey)
    ensures h.name == HUB ==> TrustAll(f, hs).hub == h.offeredKey
  {
    var front, last := hs[..|hs| - 1], hs[|hs| - 1];
    if h in front {
      TrustAllPins(f, front, h);
    } else {
      TrustAllLock(f, front);
    }
  }

  lemma {:induction false} TrustAllLock(f: PinFile, hs: seq<HeldStatus>)
    ensures TrustAll(f, hs).lock == f.lock
  {
    if hs != [] {
      TrustAllLock(f, hs[..|hs| - 1]);
    }
  }

  /** With the lock off, an entry that is trusted, alone or with others, is
      applied when the same netmap is applied again; so is the hub. */
  lemma TrustReleases(lib: Lib, expected: text, w: World, nm: NetMap, byID: PinMap, byID': PinMap, written: bool,
                      hs: seq<HeldStatus>, h: HeldStatus)
    requires var st := LockStages(lib, expected, w.pins, nm);
             !st.updated.Enabled() && !FailsClosed(expected, st.updated)
    requires h in hs && forall g :: g in hs && g.name == h.name ==> Shown(g) == Shown(h)
    ensures var f := TrustAll(ApplyStep(lib, expected, w, nm, byID, true).world.pins.file, hs);
            var again := ApplyStep(lib, expected, World(PinSet(f, false), Some(f)), nm, byID', written);
            again.applied.Some? ==>
              && (h.name != HUB ==>
                    forall p :: p in nm.peers && Checked(p) && OfferedBy(p) == Shown(h)
                      ==> p in again.applied.value.peers)
              && (h.name == HUB && nm.hub.key == h.offeredKey ==> again.applied.value.hub == nm.hub)
  {
    var st := LockStages(lib, expected, w.pins, nm);
    LockStageFrame(lib, expected, w.pins, nm);
    var before := ApplyStep(lib, expected, w, nm, byID, true).world.pins.file;
    var f := TrustAll(before, hs);
    TrustAllPins(before, hs, h);
    UpdateIsIdempotent(lib, w.pins, PinSet(f, false), nm.lock, expected);
    PinAllGrows(f.peers, byID', nm.peers);
    KeepOrDrop(PinTest(AfterCheck(f, byID', nm).peers), nm.peers);
  }

  // ----- restarts -----

  ghost predicate Complete(f: PinFile) {
    forall n :: n in f.peers ==> CompleteEntry(n, f.peers[n])
  }

  ghost predicate SelfSigned(lib: Lib, s: Signed) {
    EncodableRecord(s.record) && SignedByAny(lib, s.record, RecordBytes(s.record).value, s.signature)
  }

  /** A saved file can be read back exactly when its lock record, if any, is
      signed by a key the record itself lists. */
  lemma ReloadsIff(lib: Lib, f: PinFile)
    requires Complete(f)
    ensures Load(lib, Some(f)) == Some(f) <==> f.lock.None? || SelfSigned(lib, f.lock.value)
  {}

  lemma {:induction false} AcceptAllComplete(signed: Peer -> bool, s: PinSet, ps: seq<Peer>)
    requires Complete(s.file)
    ensures Complete(AcceptAll(signed, s, ps).file)
  {
    if ps != [] {
      AcceptAllComplete(signed, s, ps[..|ps| - 1]);
    }
  }

  lemma {:induction false} PinAllComplete(f: PinFile, byID: PinMap, ps: seq<Peer>)
    requires Complete(f) && Indexes(f.peers, byID)
    ensures Complete(f.(peers := PinAll(f.peers, byID, ps)))
  {
    if ps != [] {
      PinAllComplete(f, byID, ps[..|ps| - 1]);
      var p := ps[|ps| - 1];
      if p.id in byID {
        var n :| n in f.peers && f.peers[n] == byID[p.id];
        assert CompleteEntry(n, f.peers[n]);
      }
    }
  }

  lemma OfferKeepsComplete(lib: Lib, expected: text, w: World, e: Event)
    requires e.Offer? && Indexes(LockStages(lib, expected, w.pins, e.nm).locked.file.peers, e.byID)
             && Complete(w.pins.file)
    ensures Complete(ApplyStep(lib, expected, w, e.nm, e.byID, e.written).world.pins.file)
  {
    var st := LockStages(lib, expected, w.pins, e.nm);
    if st.updated.Enabled() {
      var set_ := st.updated.file.lock.value.record;
      AcceptAllComplete(LockTest(lib, set_), AcceptHub(lib, set_, st.updated, st.gated.hub), st.gated.peers);
    }
    PinAllComplete(st.locked.file, e.byID, st.signed.peers);
  }

  lemma {:induction false} FilesStayComplete(lib: Lib, expected: text, ws: seq<World>, es: seq<Event>, j: nat)
    requires Run(lib, expected, ws, es) && j < |ws|
    requires Complete(ws[0].pins.file) && Complete(FileOf(ws[0].disk))
    ensures Complete(ws[j].pins.file) && Complete(FileOf(ws[j].disk))
  {
    if j > 0 {
      FilesStayComplete(lib, expected, ws, es, j - 1);
      var w, e := ws[j - 1], es[j - 1];
      assert Next(lib, expected, w, e, ws[j]);
      if e.Offer? {
        OfferKeepsComplete(lib, expected, w, e);
      }
    }
  }

  /** After any run, trust steps and own records included, the client can
      start again exactly when the record it saved is signed by one of its own
      signers. */
  lemma RestartsIff(lib: Lib, expected: text, ws: seq<World>, es: seq<Event>, j: nat)
    requires Run(lib, expected, ws, es) && j < |ws|
    requires Complete(ws[0].pins.file) && Complete(FileOf(ws[0].disk))
    ensures Load(lib, ws[j].disk).Some? <==>
              FileOf(ws[j].disk).lock.None? || SelfSigned(lib, FileOf(ws[j].disk).lock.value)
  {
    FilesStayComplete(lib, expected, ws, es, j);
    ReloadsIff(lib, FileOf(ws[j].disk));
  }

  /** Sharper: a disabled record that drops its signers may end a lineage, and
      every client that adopts and saves it cannot start again. */
  lemma SignerlessStrands(lib: Lib, expected: text, w: World, nm: NetMap, byID: PinMap)
    requires LockOf(w).Some? && LockOf(w).value.record.signers != []
    requires nm.lock.Some? && nm.lock.value.record.signers == []
             && Succeeds(lib, CurrentRecord(LockOf(w)), nm.lock.value)
    ensures var after := ApplyStep(lib, expected, w, nm, byID, true).world;
            LockOf(after) == nm.lock && after.disk == Some(after.pins.file) && Load(lib, after.disk).None?
  {
    LockStageFrame(lib, expected, w.pins, nm);
    assert LockUpdated(lib, w.pins, nm.lock, expected) == PinSet(w.pins.file.(lock := nm.lock), true);
  }

  /** A record with one signer. */
  function Sole(generation: u64, k: Key32, sig: Signature): Signed {
    Signed(Record(generation, false, [Signer(k, [1])]), sig)
  }

  lemma SoleSigned(lib: Lib, r: Signed, m: seq<byte>)
    requires |r.record.signers| == 1
    ensures SignedByAny(lib, r.record, m, r.signature) <==> lib.verify(r.record.signers[0].key, m, r.signature)
  {
    if lib.verify(r.record.signers[0].key, m, r.signature) {
      assert SignedByAny(lib, r.record, m, r.signature);
    }
  }

  /** The condition is not implied by acceptance: a signer that hands the set
      over to another key, one that did not sign, gets a record pinned and
      saved that the next start refuses. */
  lemma HandOver(lib: Lib, a: Key32, b: Key32, sig: Signature)
    requires !IsZero(a) && !IsZero(b) && RecordBytes(Sole(1, a, sig).record).Ok?
             && RecordBytes(Sole(2, b, sig).record).Ok?
    requires lib.verify(a, RecordBytes(Sole(1, a, sig).record).value, sig)
             && lib.verify(a, RecordBytes(Sole(2, b, sig).record).value, sig)
    requires !lib.verify(b, RecordBytes(Sole(2, b, sig).record).value, sig)
    ensures var s := PinSet(PinFile([], map[], Some(Sole(1, a, sig))), false);
            var later := LockUpdated(lib, s, Some(Sole(2, b, sig)), []);
            Load(lib, Some(s.file)) == Some(s.file) && later.file.lock == Some(Sole(2, b, sig))
            && Load(lib, Some(later.file)).None?
  {
    SoleSigned(lib, Sole(1, a, sig), RecordBytes(Sole(1, a, sig).record).value);
    SoleSigned(lib, Sole(1, a, sig), RecordBytes(Sole(2, b, sig).record).value);
    SoleSigned(lib, Sole(2, b, sig), RecordBytes(Sole(2, b, sig).record).value);
  }

  lemma AcceptedButNotReloadable() returns (lib: Lib, s: PinSet, next: Signed)
    ensures LockUpdated(lib, s, Some(next), []).file.lock == Some(next)
    ensures Load(lib, Some(s.file)) == Some(s.file)
    ensures Load(lib, Some(LockUpdated(lib, s, Some(next), []).file)).None?
  {
    var a: Key32, b: Key32, sig: Signature := seq(32, _ => 1), seq(32, _ => 2), seq(64, _ => 0);
    assert a[0] == 1 && b[0] == 2;
    lib := Lib((k, m, g) => k == a, t => None, t => None, t => None, k => [], g => [], t => t, t => t);
    next := Sole(2, b, sig);
    s := PinSet(PinFile([], map[], Some(Sole(1, a, sig))), false);
    HandOver(lib, a, b, sig);
  }
}
