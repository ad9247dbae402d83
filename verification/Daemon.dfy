/** The client daemon's handling of one netmap: lock record, lock check,
    pin check, write, device configuration. */
module Daemon {
  import opened Basics
  import opened LockRecord
  import opened ClientPins
  import Order

  /** The pins in memory and the copy of them on disk. */
  datatype World = World(pins: PinSet, disk: Option<PinFile>)

  /** Enrolled with a lock signer and no record pinned: nothing is applied. */
  predicate FailsClosed(expected: text, s: PinSet) {
    expected != [] && s.file.lock.None?
  }

  /** What of the netmap the lock stage passes on to the pin check. */
  function Gated(expected: text, s: PinSet, nm: NetMap): NetMap {
    if FailsClosed(expected, s) then nm.(peers := [], hub := NO_HUB) else nm
  }

  function LockStagePins(lib: Lib, s: PinSet, nm: NetMap): PinSet {
    if s.Enabled() then AfterLock(lib, s.file.lock.value.record, s, nm) else s
  }

  function LockStageMap(lib: Lib, s: PinSet, nm: NetMap): NetMap {
    if s.Enabled() then LockedMap(lib, s.file.lock.value.record, nm) else nm
  }

  /** One offered netmap, stage by stage. */
  datatype Stages = Stages(updated: PinSet, gated: NetMap, locked: PinSet, signed: NetMap)

  function LockStages(lib: Lib, expected: text, s: PinSet, nm: NetMap): Stages {
    var updated := LockUpdated(lib, s, nm.lock, expected);
    var gated := Gated(expected, updated, nm);
    Stages(updated, gated, LockStagePins(lib, updated, gated), LockStageMap(lib, updated, gated))
  }

  /** The state after an offer and what was applied; None when the pins
      could not be written, in which case nothing is. */
  datatype Step = Step(world: World, applied: Option<NetMap>)

  function ApplyStep(lib: Lib, expected: text, w: World, nm: NetMap, byID: PinMap, written: bool): Step {
    var st := LockStages(lib, expected, w.pins, nm);
    CheckStage(World(st.locked, w.disk), st.signed, byID, written)
  }

  /** The pin check on what the lock stage passed on, and the write. */
  function CheckStage(w: World, nm: NetMap, byID: PinMap, written: bool): Step {
    var f := AfterCheck(w.pins.file, byID, nm);
    var save := f != w.pins.file || w.pins.dirty;
    var ok := !save || written;
    Step(World(PinSet(f, !ok), if save && written then Some(f) else w.disk),
         if ok then Some(PassedMap(f, nm)) else None)
  }

  function HeldUnsigned(lib: Lib, st: Stages, prev: seq<HeldStatus>, now: int): seq<HeldStatus> {
    if !st.updated.Enabled() then []
    else HeldByLock(lib, st.updated.file.lock.value.record, st.updated, st.gated, prev, now)
  }

  ghost function HeldAfter(lib: Lib, expected: text, w: World, nm: NetMap, byID: PinMap, prev: seq<HeldStatus>,
                           now: int): seq<HeldStatus> {
    var st := LockStages(lib, expected, w.pins, nm);
    HeldUnsigned(lib, st, prev, now)
    + HeldByPins(AfterCheck(st.locked.file, byID, st.signed), st.signed, prev, now)
  }

  // ----- the device configuration -----

  /** The WireGuard peers of a netmap, hub first; None when a key does not
      parse. */
  function ConfigPeers(lib: Lib, ps: seq<Peer>): Option<seq<Key32>> {
    if ps == [] then Some([])
    else
      var front := ConfigPeers(lib, ps[..|ps| - 1]);
      var p := ps[|ps| - 1];
      if front.None? || p.viaHub then front
      else
        var k := lib.parseWgKey(p.key);
        if k.None? then None else Some(front.value + [k.value])
  }

  function Config(lib: Lib, nm: NetMap): Option<seq<Key32>> {
    var key := lib.parseWgKey(nm.hub.key);
    var hub := if nm.hub.key == [] then Some(None) else if key.None? then None else Some(key);
    var peers := ConfigPeers(lib, nm.peers);
    if hub.None? || peers.None? then None
    else Some((if hub.value.None? then [] else [hub.value.value]) + peers.value)
  }

  method BuildConfig(lib: Lib, nm: NetMap) returns (cfg: Option<seq<Key32>>)
    ensures cfg == Config(lib, nm)
  {
    var hub: seq<Key32> := [];
    if nm.hub.key != [] {
      var k := lib.parseWgKey(nm.hub.key);
      if k.None? {
        return None;
      }
      hub := [k.value];
    }
    var peers: seq<Key32> := [];
    for i := 0 to |nm.peers|
      invariant ConfigPeers(lib, nm.peers[..i]) == Some(peers)
    {
      var p := nm.peers[i];
      assert nm.peers[..i + 1][..i] == nm.peers[..i];
      if !p.viaHub {
        var k := lib.parseWgKey(p.key);
        if k.None? {
          ConfigFails(lib, nm.peers, i);
          return None;
        }
        peers := peers + [k.value];
      }
    }
    assert nm.peers[..|nm.peers|] == nm.peers;
    return Some(hub + peers);
  }

  lemma {:induction false} ConfigFails(lib: Lib, ps: seq<Peer>, i: nat)
    requires i < |ps| && !ps[i].viaHub && lib.parseWgKey(ps[i].key).None?
    ensures ConfigPeers(lib, ps).None?
  {
    if i < |ps| - 1 {
      ConfigFails(lib, ps[..|ps| - 1], i);
    }
  }

  /** The device keys are exactly those of the direct entries. */
  lemma {:induction false} ConfigPeersFrom(lib: Lib, ps: seq<Peer>, k: Key32)
    requires ConfigPeers(lib, ps).Some?
    ensures k in ConfigPeers(lib, ps).value <==> exists p :: p in ps && !p.viaHub && lib.parseWgKey(p.key) == Some(k)
  {
    if ps != [] {
      var front, last := ps[..|ps| - 1], ps[|ps| - 1];
      ConfigPeersFrom(lib, front, k);
      assert ps == front + [last];
    }
  }

  // ----- trust -----

  const ALL: text := [97, 108, 108]

  /** The first held entry with that name. */
  function FirstNamed(held: seq<HeldStatus>, name: text): Option<HeldStatus> {
    if held == [] then None
    else if held[0].name == name then Some(held[0])
    else FirstNamed(held[1..], name)
  }

  /** A name a person may trust: held, and not for a missing signature. */
  predicate Trustable(held: seq<HeldStatus>, name: text) {
    name == ALL || (FirstNamed(held, name).Some? && FirstNamed(held, name).value.reason == KeyChanged)
  }

  predicate Selects(held: seq<HeldStatus>, name: text, h: HeldStatus) {
    h.reason == KeyChanged && if name == ALL then h in held else FirstNamed(held, name) == Some(h)
  }

  lemma {:induction false} FirstNamedIsHeld(held: seq<HeldStatus>, name: text)
    ensures FirstNamed(held, name).Some? ==>
              FirstNamed(held, name).value in held && FirstNamed(held, name).value.name == name
    ensures FirstNamed(held, name).None? ==> forall h :: h in held ==> h.name != name
  {
    if held != [] {
      FirstNamedIsHeld(held[1..], name);
      assert held == [held[0]] + held[1..];
    }
  }

  function ChangedOnly(held: seq<HeldStatus>): (r: seq<HeldStatus>)
    ensures forall h :: h in r <==> h in held && h.reason == KeyChanged
  {
    if held == [] then []
    else ChangedOnly(held[..|held| - 1]) + if held[|held| - 1].reason == KeyChanged then [held[|held| - 1]] else []
  }

  function SelectedBy(held: seq<HeldStatus>, name: text): seq<HeldStatus> {
    if name == ALL then ChangedOnly(held)
    else if FirstNamed(held, name).Some? then [FirstNamed(held, name).value]
    else []
  }

  /** What the names select, name by name. */
  function SelectedAll(lib: Lib, held: seq<HeldStatus>, names: seq<text>): seq<HeldStatus> {
    if names == [] then []
    else SelectedAll(lib, held, names[..|names| - 1]) + SelectedBy(held, lib.stripZone(names[|names| - 1]))
  }

  /** Every name may be trusted and something is selected. */
  predicate MayTrust(lib: Lib, held: seq<HeldStatus>, names: seq<text>) {
    AllTrustable(lib, held, names) && SelectedAll(lib, held, names) != []
  }

  lemma OneNameSelects(held: seq<HeldStatus>, name: text, h: HeldStatus)
    requires Trustable(held, name)
    ensures h in SelectedBy(held, name) <==> Selects(held, name, h)
    ensures h in SelectedBy(held, name) ==> h in held && h.reason == KeyChanged
  {
    FirstNamedIsHeld(held, name);
  }

  ghost predicate SomeSelects(lib: Lib, held: seq<HeldStatus>, names: seq<text>, h: HeldStatus) {
    exists i :: 0 <= i < |names| && Selects(held, lib.stripZone(names[i]), h)
  }

  lemma OneMoreName(lib: Lib, held: seq<HeldStatus>, names: seq<text>, name: text, h: HeldStatus)
    ensures SomeSelects(lib, held, names + [name], h) <==>
              SomeSelects(lib, held, names, h) || Selects(held, lib.stripZone(name), h)
  {
    var more := names + [name];
    if i :| 0 <= i < |names| && Selects(held, lib.stripZone(names[i]), h) {
      assert more[i] == names[i];
    }
    assert more[|names|] == name;
  }

  predicate AllTrustable(lib: Lib, held: seq<HeldStatus>, names: seq<text>) {
    forall i :: 0 <= i < |names| ==> Trustable(held, lib.stripZone(names[i]))
  }

  /** The selection is the held entries some name stands for, none of them
      unsigned. */
  lemma {:induction false} SelectedExactly(lib: Lib, held: seq<HeldStatus>, names: seq<text>, h: HeldStatus)
    requires AllTrustable(lib, held, names)
    ensures h in SelectedAll(lib, held, names) <==> SomeSelects(lib, held, names, h)
    ensures h in SelectedAll(lib, held, names) ==> h in held && h.reason == KeyChanged
  {
    if names != [] {
      var front, name := names[..|names| - 1], names[|names| - 1];
      assert names == front + [name];
      SelectedExactly(lib, held, front, h);
      OneMoreName(lib, held, front, name, h);
      OneNameSelects(held, lib.stripZone(name), h);
    }
  }

  lemma SelectedAreChanged(lib: Lib, held: seq<HeldStatus>, names: seq<text>)
    requires AllTrustable(lib, held, names)
    ensures forall h :: h in SelectedAll(lib, held, names) ==> h in held && h.reason == KeyChanged
  {
    forall h | h in SelectedAll(lib, held, names) ensures h in held && h.reason == KeyChanged {
      SelectedExactly(lib, held, names, h);
    }
  }

  /** selectHeld: the selection in order, or an error when a name is not held
      for a changed key or nothing is selected. */
  method SelectHeld(lib: Lib, held: seq<HeldStatus>, names: seq<text>) returns (ok: bool, accept: seq<HeldStatus>)
    ensures ok == MayTrust(lib, held, names)
    ensures accept == if ok then SelectedAll(lib, held, names) else []
    ensures ok ==> forall h :: h in accept <==> SomeSelects(lib, held, names, h)
    ensures forall h :: h in accept ==> h in held && h.reason == KeyChanged
  {
    ok, accept := SelectInOrder(lib, held, names);
    if ok {
      forall h ensures h in accept <==> SomeSelects(lib, held, names, h)
               ensures h in accept ==> h in held && h.reason == KeyChanged
      {
        SelectedExactly(lib, held, names, h);
      }
    }
  }

  /** The loop of selectHeld. */
  method SelectInOrder(lib: Lib, held: seq<HeldStatus>, names: seq<text>) returns (ok: bool, accept: seq<HeldStatus>)
    ensures ok == MayTrust(lib, held, names)
    ensures accept == if ok then SelectedAll(lib, held, names) else []
  {
    accept := [];
    for i := 0 to |names|
      invariant AllTrustable(lib, held, names[..i])
      invariant accept == SelectedAll(lib, held, names[..i])
    {
      assert names[..i + 1] == names[..i] + [names[i]] && (names[..i] + [names[i]])[..i] == names[..i];
      var picked := SelectName(held, lib.stripZone(names[i]));
      if picked.None? {
        assert !Trustable(held, lib.stripZone(names[i]));
        return false, [];
      }
      accept := accept + picked.value;
    }
    assert names[..|names|] == names;
    if |accept| == 0 {
      return false, [];
    }
    return true, accept;
  }

  /** What one name selects; None when it may not be trusted. */
  method SelectName(held: seq<HeldStatus>, name: text) returns (picked: Option<seq<HeldStatus>>)
    ensures picked == if Trustable(held, name) then Some(SelectedBy(held, name)) else None
  {
    if name == ALL {
      return Some(ChangedOnly(held));
    }
    var first := FirstNamed(held, name);
    if first.None? || first.value.reason == Unsigned {
      return None;
    }
    return Some([first.value]);
  }

  method SortHeld(kept: seq<HeldStatus>, more: seq<HeldStatus>, ghost want: seq<HeldStatus>)
    returns (held: seq<HeldStatus>)
    requires multiset(more) == multiset(want)
    ensures multiset(held) == multiset(kept + want)
    ensures Order.SortedBy(HeldName, held)
  {
    Order.SortSorts(HeldName, kept + more);
    held := Order.Sort(HeldName, kept + more);
  }

  /** What the status shows about the lock after an offer. */
  function ReplyTo(lib: Lib, expected: text, s: PinSet, nm: NetMap): LockReply {
    var answer := LockAnswer(lib, s.file.lock, nm.lock, expected);
    if answer == Quiet && FailsClosed(expected, LockUpdated(lib, s, nm.lock, expected)) then Waiting else answer
  }

  class Daemon {
    const lib: Lib
    const pins: Pins
    const expected: text
    var held: seq<HeldStatus>
    var offered: Option<NetMap>
    var rejected: LockReply
    var netmap: Option<NetMap>
    var device: seq<Key32>

    ghost function View(): World
      reads pins, pins.dir
    {
      World(pins.View(), pins.dir.pins)
    }

    constructor (pins: Pins, expected: text)
      ensures this.pins == pins && this.expected == expected && this.lib == pins.lib
      ensures held == [] && offered.None? && netmap.None? && device == []
    {
      this.lib, this.pins, this.expected := pins.lib, pins, expected;
      held, offered, rejected, netmap, device := [], None, Quiet, None, [];
    }

    /** applyLocked: written is the outcome of the pin write, configured
        that of the device call. */
    method ApplyLocked(nm: NetMap, now: int, written: bool, configured: bool)
      returns (ok: bool, ghost byID: PinMap)
      requires lib == pins.lib
      modifies this, pins, pins.dir
      ensures Indexes(LockStages(lib, expected, old(View().pins), nm).locked.file.peers, byID)
      ensures var st := ApplyStep(lib, expected, old(View()), nm, byID, written);
              && View() == st.world
              && (st.applied.None? ==> !ok && unchanged(this))
              && (st.applied.Some? ==>
                    var cfg := Config(lib, st.applied.value);
                    && offered == Some(nm) && rejected == ReplyTo(lib, expected, old(View().pins), nm)
                    && multiset(held) == multiset(HeldAfter(lib, expected, old(View()), nm, byID, old(held), now))
                    && Order.SortedBy(HeldName, held)
                    && ok == (cfg.Some? && configured)
                    && (ok ==> device == cfg.value && netmap == st.applied)
                    && (!ok ==> device == old(device) && netmap == old(netmap)))
    {
      ghost var st := LockStages(lib, expected, pins.View(), nm);
      var reply, signed, kept := LockStage(nm, now);
      var wrote, applied, heldKeys, index := pins.Apply(signed, now, held, written);
      byID := index;
      ghost var step := CheckStage(World(st.locked, old(View().disk)), st.signed, byID, written);
      assert step == ApplyStep(lib, expected, old(View()), nm, byID, written);
      assert View() == step.world && wrote == step.applied.Some?;
      if !wrote {
        return false, byID;
      }
      assert applied == step.applied.value;
      var all := SortHeld(kept, heldKeys, HeldByPins(step.world.pins.file, st.signed, held, now));
      held, offered, rejected := all, Some(nm), reply;
      ok := Configure(applied, configured);
    }

    /** The device call and the last step of applyLocked. */
    method Configure(applied: NetMap, configured: bool) returns (ok: bool)
      modifies this`device, this`netmap
      ensures ok == (Config(lib, applied).Some? && configured)
      ensures ok ==> device == Config(lib, applied).value && netmap == Some(applied)
      ensures !ok ==> device == old(device) && netmap == old(netmap)
    {
      var cfg := BuildConfig(lib, applied);
      if cfg.None? || !configured {
        return false;
      }
      device, netmap := cfg.value, Some(applied);
      return true;
    }

    /** The part of applyLocked before the pin check. */
    method LockStage(nm: NetMap, now: int) returns (reply: LockReply, signed: NetMap, kept: seq<HeldStatus>)
      requires lib == pins.lib
      modifies pins
      ensures var st := LockStages(lib, expected, old(pins.View()), nm);
              && pins.View() == st.locked
              && signed == st.signed
              && kept == HeldUnsigned(lib, st, held, now)
      ensures reply == ReplyTo(lib, expected, old(pins.View()), nm)
    {
      reply := pins.UpdateLock(nm.lock, expected);
      kept, signed := [], nm;
      if expected != [] && pins.lock.None? {
        if reply == Quiet {
          reply := Waiting;
        }
        signed := nm.(peers := [], hub := NO_HUB);
      }
      if pins.lock.Some? && pins.lock.value.record.Enabled() {
        signed, kept := pins.HoldUnsigned(signed, pins.lock.value.record, now, held);
      }
    }

    /** Trust up to the re-apply: the selected entries are pinned and saved
        one by one until a write fails; n were saved. */
    method PinTrusted(names: seq<text>, writes: nat -> bool) returns (ok: bool, accept: seq<HeldStatus>, n: nat)
      modifies pins, pins.dir
      ensures accept == if MayTrust(lib, held, names) then SelectedAll(lib, held, names) else []
      ensures n <= |accept| && forall h :: h in accept ==> h in held && h.reason == KeyChanged
      ensures ok <==> accept != [] && n == |accept|
      ensures var saved := TrustAll(old(View().pins.file), accept[..n]);
              && View().disk == (if n == 0 then old(View().disk) else Some(saved))
              && (ok ==> View().pins == PinSet(saved, false))
              && (!ok && accept != [] ==> View().pins == PinSet(TrustAll(old(View().pins.file), accept[..n + 1]), true))
              && (accept == [] ==> View().pins == old(View().pins))
    {
      ok, accept := SelectInOrder(lib, held, names);
      if !ok {
        return false, [], 0;
      }
      n := PinEach(accept, writes);
      SelectedAreChanged(lib, held, names);
      ok := n == |accept|;
    }

    /** The loop of Trust. */
    method PinEach(accept: seq<HeldStatus>, writes: nat -> bool) returns (n: nat)
      modifies pins, pins.dir
      ensures n <= |accept|
      ensures var saved := TrustAll(old(View().pins.file), accept[..n]);
              && View().disk == (if n == 0 then old(View().disk) else Some(saved))
              && (n == |accept| > 0 ==> View().pins == PinSet(saved, false))
              && (n < |accept| ==> View().pins == PinSet(TrustAll(old(View().pins.file), accept[..n + 1]), true))
              && (accept == [] ==> View().pins == old(View().pins))
    {
      for i := 0 to |accept|
        invariant pins.View().file == TrustAll(old(View().pins.file), accept[..i])
        invariant if i > 0 then View() == World(PinSet(pins.View().file, false), Some(pins.View().file))
                  else View() == old(View())
      {
        assert accept[..i + 1][..i] == accept[..i];
        var written := pins.Trust(accept[i], writes(i));
        if !written {
          return i;
        }
      }
      return |accept|;
    }

    /** reapply: the last offered netmap goes through the same step again. */
    method Reapply(now: int, written: bool, configured: bool) returns (ok: bool, ghost byID: PinMap)
      requires lib == pins.lib
      modifies this, pins, pins.dir
      ensures old(offered).None? ==> ok && unchanged(this) && View() == old(View())
      ensures old(offered).Some? ==>
                Indexes(LockStages(lib, expected, old(View().pins), old(offered).value).locked.file.peers, byID)
      ensures old(offered).Some? ==>
                var nm := old(offered).value;
                var st := ApplyStep(lib, expected, old(View()), nm, byID, written);
                && View() == st.world && offered == old(offered)
                && (st.applied.None? ==> !ok && unchanged(this))
                && (st.applied.Some? ==>
                      var cfg := Config(lib, st.applied.value);
                      && rejected == ReplyTo(lib, expected, old(View().pins), nm)
                      && multiset(held) == multiset(HeldAfter(lib, expected, old(View()), nm, byID, old(held), now))
                      && Order.SortedBy(HeldName, held)
                      && ok == (cfg.Some? && configured)
                      && (ok ==> device == cfg.value && netmap == st.applied)
                      && (!ok ==> device == old(device) && netmap == old(netmap)))
    {
      byID := map[];
      if offered.None? {
        return true, byID;
      }
      ok, byID := ApplyLocked(offered.value, now, written, configured);
    }
  }

  function TrustAll(f: PinFile, hs: seq<HeldStatus>): PinFile {
    if hs == [] then f
    else
      var h := hs[|hs| - 1];
      AcceptPin(TrustAll(f, hs[..|hs| - 1]), h.name, PinEntry(h.id, h.offeredKey))
  }
}
