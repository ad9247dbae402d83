/** The hub: the netmap sequence, wake-ups of open streams, presence, and
    reach requests. Times are nanoseconds. */
module Hub {
  import opened Basics

  const WANT_TTL := 30 * SECOND
  const WANT_REPEAT := 5 * SECOND
  const OFFLINE_AFTER := 90 * SECOND

  /** A stream's wake-up channel has one slot: full or empty. */
  datatype Subscriber = Subscriber(peer: text, token: bool)

  datatype Presence = Presence(streams: nat, disconnectedAt: int, online: bool)

  /** When the request was last made, when it last woke the target, and the
      number of that wake. */
  datatype WantReq = WantReq(at: int, woke: int, number: nat)

  type Requests = map<text, WantReq>

  datatype HubState = HubState(
    sequence: int,
    pending: bool,
    subs: map<nat, Subscriber>,
    presence: map<text, Presence>,
    wants: map<text, Requests>,
    wantSeq: nat)

  /** NewHub: the sequence starts at the stored generation, the wake numbers
      at the clock. */
  function Fresh(generation: int, now: int): HubState {
    HubState(generation, false, map[], map[], map[], if now > 0 then now else 0)
  }

  // ----- change notification -----

  /** Changed; stored is the database generation, None when it could not be
      read. */
  function Changed(h: HubState, stored: Option<int>): (r: HubState)
    ensures r.sequence > h.sequence && (stored.Some? ==> r.sequence >= stored.value)
    ensures r.pending && r.subs == h.subs
  {
    var next := h.sequence + 1;
    h.(sequence := if stored.Some? && stored.value > next then stored.value else next, pending := true)
  }

  function Filled(subs: map<nat, Subscriber>, due: Subscriber -> bool): map<nat, Subscriber> {
    map s | s in subs :: if due(subs[s]) then subs[s].(token := true) else subs[s]
  }

  function Everyone(): Subscriber -> bool {
    (s: Subscriber) => true
  }

  function ForPeer(to: text): Subscriber -> bool {
    (s: Subscriber) => s.peer == to
  }

  function Flushed(h: HubState): HubState {
    h.(pending := false, subs := Filled(h.subs, Everyone()))
  }

  // ----- reach requests -----

  function Live(reqs: Requests, now: int): Requests {
    map id | id in reqs && now - reqs[id].at < WANT_TTL :: reqs[id]
  }

  function RequestsFor(h: HubState, to: text): Requests {
    if to in h.wants then h.wants[to] else map[]
  }

  /** Want does nothing for a peer without an open stream. */
  predicate Reachable(h: HubState, to: text) {
    to in h.presence && h.presence[to].streams > 0
  }

  /** Whether Want wakes the target: no live request, or the last wake is at
      least WANT_REPEAT ago. */
  predicate Wakes(h: HubState, to: text, from: text, now: int) {
    Reachable(h, to) &&
    var reqs := Live(RequestsFor(h, to), now);
    from !in reqs || now - reqs[from].woke >= WANT_REPEAT
  }

  function Want(h: HubState, to: text, from: text, now: int): HubState {
    if !Reachable(h, to) then h
    else
      var reqs := Live(RequestsFor(h, to), now);
      if Wakes(h, to, from, now) then
        h.(wants := h.wants[to := reqs[from := WantReq(now, now, h.wantSeq + 1)]],
           wantSeq := h.wantSeq + 1,
           subs := Filled(h.subs, ForPeer(to)))
      else h.(wants := h.wants[to := reqs[from := reqs[from].(at := now)]])
  }

  function Request(h: HubState, to: text, from: text): Option<WantReq> {
    if to in h.wants && from in h.wants[to] then Some(h.wants[to][from]) else None
  }

  /** What WantSeq answers: the number of the latest wake, 0 for none. */
  function WantNumber(h: HubState, to: text, from: text, now: int): nat {
    var r := Request(h, to, from);
    if r.Some? && now - r.value.at < WANT_TTL then r.value.number else 0
  }

  function Dropped(wants: map<text, Requests>, to: text, from: text): map<text, Requests> {
    if to !in wants then wants
    else if Others(wants[to], from) == map[] then wants - {to}
    else wants[to := Others(wants[to], from)]
  }

  /** WantSeq also forgets a request it finds expired. */
  function AfterWantSeq(h: HubState, to: text, from: text, now: int): HubState {
    var r := Request(h, to, from);
    if r.Some? && now - r.value.at >= WANT_TTL then h.(wants := Dropped(h.wants, to, from)) else h
  }

  /** The requests of everyone but id. */
  function Others(reqs: Requests, id: text): Requests {
    reqs - {id}
  }

  function Forgotten(wants: map<text, Requests>, id: text): map<text, Requests> {
    map to | to in wants && to != id && Others(wants[to], id) != map[] :: Others(wants[to], id)
  }

  /** Halfway through the loop: the targets in todo are still as they were. */
  ghost function HalfForgotten(wants: map<text, Requests>, id: text, todo: set<text>): map<text, Requests> {
    map to | to in wants && to != id && (to in todo || Others(wants[to], id) != map[]) ::
      if to in todo then wants[to] else Others(wants[to], id)
  }

  lemma HalfStep(wants: map<text, Requests>, id: text, todo: set<text>, to: text)
    requires to in todo && to in wants && to != id
    ensures var half, rest := HalfForgotten(wants, id, todo), Others(wants[to], id);
            && to in half && half[to] == wants[to]
            && HalfForgotten(wants, id, todo - {to}) == if rest == map[] then half - {to} else half[to := rest]
  {
  }

  lemma HalfEnds(wants: map<text, Requests>, id: text)
    ensures HalfForgotten(wants, id, wants.Keys - {id}) == wants - {id}
    ensures HalfForgotten(wants, id, {}) == Forgotten(wants, id)
  {
  }

  function Forget(h: HubState, id: text): HubState {
    h.(presence := h.presence - {id}, wants := Forgotten(h.wants, id))
  }

  // ----- presence -----

  function Connected(h: HubState, id: text): HubState {
    var e := if id in h.presence then h.presence[id] else Presence(0, 0, false);
    h.(presence := h.presence[id := e.(streams := e.streams + 1, online := true)])
  }

  function Disconnected(h: HubState, id: text, now: int): HubState {
    if id !in h.presence then h
    else
      var e := h.presence[id];
      var left := if e.streams > 0 then e.streams - 1 else 0;
      var at := if left == 0 then now else e.disconnectedAt;
      h.(presence := h.presence[id := e.(streams := left, disconnectedAt := at)])
  }

  predicate GoesOffline(e: Presence, now: int) {
    e.online && e.streams == 0 && now - e.disconnectedAt >= OFFLINE_AFTER
  }

  function Swept(presence: map<text, Presence>, now: int): map<text, Presence> {
    map id | id in presence :: if GoesOffline(presence[id], now) then presence[id].(online := false) else presence[id]
  }

  // ----- the hub as the program runs it -----

  class Hub {
    var sequence: int
    var pending: bool
    var subs: map<nat, Subscriber>
    var presence: map<text, Presence>
    var wants: map<text, Requests>
    var wantSeq: nat

    ghost function View(): HubState
      reads this
    {
      HubState(sequence, pending, subs, presence, wants, wantSeq)
    }

    constructor (generation: int, now: int)
      ensures View() == Fresh(generation, now)
    {
      sequence, pending, subs, presence, wants := generation, false, map[], map[], map[];
      wantSeq := if now > 0 then now else 0;
    }

    /** Subscribe: key names the new channel. */
    method Subscribe(key: nat, peer: text)
      requires key !in subs
      modifies this`subs
      ensures View() == old(View()).(subs := old(subs)[key := Subscriber(peer, false)])
    {
      subs := subs[key := Subscriber(peer, false)];
    }

    method NotifyChanged(stored: Option<int>)
      modifies this`sequence, this`pending
      ensures View() == Changed(old(View()), stored)
    {
      sequence := sequence + 1;
      if stored.Some? && stored.value > sequence {
        sequence := stored.value;
      }
      if pending {
        return;
      }
      pending := true;
    }

    /** Offer a token to every due subscriber; a full slot stays full. */
    method Fill(due: Subscriber -> bool)
      modifies this`subs
      ensures subs == Filled(old(subs), due)
    {
      var todo := subs.Keys;
      while todo != {}
        invariant todo <= old(subs).Keys == subs.Keys
        invariant forall s :: s in subs ==>
          subs[s] == if s !in todo && due(old(subs)[s]) then old(subs)[s].(token := true) else old(subs)[s]
        decreases |todo|
      {
        var s :| s in todo;
        if due(subs[s]) {
          subs := subs[s := subs[s].(token := true)];
        }
        todo := todo - {s};
      }
    }

    method Flush()
      modifies this`pending, this`subs
      ensures View() == Flushed(old(View()))
    {
      pending := false;
      Fill(Everyone());
    }

    method Prune(reqs: Requests, now: int) returns (live: Requests)
      ensures live == Live(reqs, now)
    {
      live := reqs;
      var todo := reqs.Keys;
      while todo != {}
        invariant todo <= reqs.Keys
        invariant live == map id | id in reqs && (id in todo || now - reqs[id].at < WANT_TTL) :: reqs[id]
        decreases |todo|
      {
        var id :| id in todo;
        if now - reqs[id].at >= WANT_TTL {
          live := live - {id};
        }
        todo := todo - {id};
      }
    }

    method RequestReach(to: text, from: text, now: int)
      modifies this`wants, this`wantSeq, this`subs
      ensures View() == Want(old(View()), to, from, now)
    {
      if to !in presence || presence[to].streams == 0 {
        return;
      }
      var reqs := if to in wants then wants[to] else map[];
      reqs := Prune(reqs, now);
      var seen := from in reqs;
      var r := if seen then reqs[from] else WantReq(0, 0, 0);
      var wake := !seen || now - r.woke >= WANT_REPEAT;
      r := r.(at := now);
      if wake {
        wantSeq := wantSeq + 1;
        r := r.(woke := now, number := wantSeq);
      }
      wants := wants[to := reqs[from := r]];
      if wake {
        Fill(ForPeer(to));
      }
    }

    method WantSeq(to: text, from: text, now: int) returns (n: nat)
      modifies this`wants
      ensures n == WantNumber(old(View()), to, from, now)
      ensures View() == AfterWantSeq(old(View()), to, from, now)
    {
      if to !in wants || from !in wants[to] {
        return 0;
      }
      var r := wants[to][from];
      if now - r.at < WANT_TTL {
        return r.number;
      }
      wants := wants[to := Others(wants[to], from)];
      if wants[to] == map[] {
        wants := wants - {to};
      }
      assert wants == Dropped(old(wants), to, from);
      return 0;
    }

    /** The request loop of Forget. */
    static method ForgetRequests(wants: map<text, Requests>, id: text) returns (left: map<text, Requests>)
      ensures left == Forgotten(wants, id)
    {
      left := wants - {id};
      var todo := wants.Keys - {id};
      HalfEnds(wants, id);
      while todo != {}
        invariant todo <= wants.Keys - {id} && left == HalfForgotten(wants, id, todo)
        decreases |todo|
      {
        var to :| to in todo;
        HalfStep(wants, id, todo, to);
        var rest := Others(left[to], id);
        if rest == map[] {
          left := left - {to};
        } else {
          left := left[to := rest];
        }
        todo := todo - {to};
      }
    }

    method ForgetPeer(id: text)
      modifies this`presence, this`wants
      ensures View() == Forget(old(View()), id)
    {
      presence := presence - {id};
      wants := ForgetRequests(wants, id);
    }

    /** Sweep reports whether it must notify. */
    method Sweep(now: int) returns (changed: bool)
      modifies this`presence
      ensures presence == Swept(old(presence), now)
      ensures changed <==> exists id :: id in old(presence) && GoesOffline(old(presence)[id], now)
    {
      changed := false;
      var todo := presence.Keys;
      while todo != {}
        invariant todo <= old(presence).Keys == presence.Keys
        invariant forall id :: id in presence ==>
          presence[id] == if id !in todo && GoesOffline(old(presence)[id], now) then old(presence)[id].(online := false)
                          else old(presence)[id]
        invariant changed <==> exists id :: id in old(presence) && id !in todo && GoesOffline(old(presence)[id], now)
        decreases |todo|
      {
        var id :| id in todo;
        var e := presence[id];
        if e.online && e.streams == 0 && now - e.disconnectedAt >= OFFLINE_AFTER {
          presence, changed := presence[id := e.(online := false)], true;
          assert GoesOffline(old(presence)[id], now);
        }
        todo := todo - {id};
      }
    }
  }
}
