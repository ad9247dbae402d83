/** Open Sync streams against the hub, as an interleaving of small steps: a
    stream with anything new to say to its client is always on its way. */
module SyncStreams {
  import opened Basics
  import H = Hub

  /** Where a stream's loop is. A build reads the store after it started, so
      it sees every change notified before its start. */
  datatype Phase = Opening | Idle | Building(start: nat, keepalive: bool)

  /** delivered: how many changes had been notified when the last netmap that
      was sent as new (not as keepalive) was started; -1 before the first. */
  datatype Stream = Stream(phase: Phase, delivered: int)

  /** changes counts the Changed calls so far. */
  datatype System = System(hub: H.HubState, streams: map<nat, Stream>, changes: nat)

  datatype Action =
    | Changed(stored: Option<int>)
    | Flush
    | Want(to: text, from: text, now: int)
    | Subscribe(s: nat, peer: text)
    | First(s: nat)
    | Receive(s: nat)
    | Keepalive(s: nat)
    | Finish(s: nat)
    | Close(s: nat)

  predicate Enabled(x: System, a: Action) {
    match a
    case Changed(_) => true
    case Flush => x.hub.pending
    case Want(_, _, _) => true
    case Subscribe(s, _) => s !in x.streams && s !in x.hub.subs
    case First(s) => s in x.streams && x.streams[s].phase.Opening?
    case Receive(s) => s in x.streams && x.streams[s].phase.Idle? && s in x.hub.subs && x.hub.subs[s].token
    case Keepalive(s) => s in x.streams && x.streams[s].phase.Idle?
    case Finish(s) => s in x.streams && x.streams[s].phase.Building?
    case Close(s) => s in x.streams
  }

  function WithPhase(x: System, s: nat, p: Phase): System
    requires s in x.streams
  {
    x.(streams := x.streams[s := x.streams[s].(phase := p)])
  }

  function Do(x: System, a: Action): System
    requires Enabled(x, a)
  {
    match a
    case Changed(stored) => x.(hub := H.Changed(x.hub, stored), changes := x.changes + 1)
    case Flush => x.(hub := H.Flushed(x.hub))
    case Want(to, from, now) => x.(hub := H.Want(x.hub, to, from, now))
    case Subscribe(s, peer) =>
      x.(hub := x.hub.(subs := x.hub.subs[s := H.Subscriber(peer, false)]),
         streams := x.streams[s := Stream(Opening, -1)])
    case First(s) => WithPhase(x, s, Building(x.changes, false))
    case Receive(s) =>
      WithPhase(x.(hub := x.hub.(subs := x.hub.subs[s := x.hub.subs[s].(token := false)])), s,
                Building(x.changes, false))
    case Keepalive(s) => WithPhase(x, s, Building(x.changes, true))
    case Finish(s) =>
      var b := x.streams[s].phase;
      x.(streams := x.streams[s := Stream(Idle, if b.keepalive then x.streams[s].delivered else b.start)])
    case Close(s) =>
      x.(hub := x.hub.(subs := x.hub.subs - {s}), streams := x.streams - {s})
  }

  ghost predicate Run(xs: seq<System>, actions: seq<Action>) {
    |xs| == |actions| + 1
    && forall i :: 0 <= i < |actions| ==> Enabled(xs[i], actions[i]) && xs[i + 1] == Do(xs[i], actions[i])
  }

  ghost predicate Initial(x: System) {
    x.streams == map[] && x.hub.subs == map[]
  }

  /** The stream's last new netmap was started after the latest change, or
      the next one is being built from data read after it. */
  predicate Current(x: System, st: Stream) {
    match st.phase
    case Opening => true
    case Idle => st.delivered == x.changes
    case Building(start, keepalive) => if keepalive then st.delivered == x.changes else start == x.changes
  }

  predicate Woken(x: System, s: nat) {
    x.hub.pending || (s in x.hub.subs && x.hub.subs[s].token)
  }

  ghost predicate Inv(x: System) {
    && x.streams.Keys == x.hub.subs.Keys
    && (forall s :: s in x.streams ==> Current(x, x.streams[s]) || Woken(x, s))
    && (forall s :: s in x.streams && x.streams[s].phase.Building? ==> x.streams[s].phase.start <= x.changes)
    && (forall s :: s in x.streams ==> x.streams[s].delivered <= x.changes)
  }

  /** One step leaves every stream current or woken. */
  lemma WakeStep(x: System, a: Action, s: nat)
    requires Inv(x) && Enabled(x, a) && s in Do(x, a).streams
    ensures Current(Do(x, a), Do(x, a).streams[s]) || Woken(Do(x, a), s)
  {
    var y := Do(x, a);
    if s in x.streams && y.streams[s] == x.streams[s] {
      assert s in x.hub.subs && (Current(x, x.streams[s]) || Woken(x, s));
    }
  }

  lemma InvStep(x: System, a: Action)
    requires Inv(x) && Enabled(x, a)
    ensures Inv(Do(x, a))
  {
    var y := Do(x, a);
    forall s | s in y.streams ensures Current(y, y.streams[s]) || Woken(y, s) {
      WakeStep(x, a, s);
    }
  }

  lemma {:induction false} InvAlways(xs: seq<System>, actions: seq<Action>, i: nat)
    requires Run(xs, actions) && Initial(xs[0]) && i < |xs|
    ensures Inv(xs[i])
  {
    if i > 0 {
      InvAlways(xs, actions, i - 1);
      InvStep(xs[i - 1], actions[i - 1]);
    }
  }

  /** No lost wake-up: in every interleaving, a stream whose last new netmap
      was started before the latest Changed has a flush pending, a token
      queued, or a new netmap in the making; and the last of these alone is
      enough only if that netmap is read after the latest change. */
  lemma NoLostWakeUp(xs: seq<System>, actions: seq<Action>, i: nat, s: nat)
    requires Run(xs, actions) && Initial(xs[0]) && i < |xs|
    requires s in xs[i].streams && xs[i].streams[s].delivered < xs[i].changes
    ensures var p := xs[i].streams[s].phase;
            || xs[i].hub.pending
            || (s in xs[i].hub.subs && xs[i].hub.subs[s].token)
            || p.Opening?
            || (p.Building? && !p.keepalive && p.start == xs[i].changes)
  {
    InvAlways(xs, actions, i);
  }

  /** When nothing is left to do, every client has the newest netmap. */
  lemma QuietMeansCurrent(xs: seq<System>, actions: seq<Action>, i: nat)
    requires Run(xs, actions) && Initial(xs[0]) && i < |xs|
    requires !Enabled(xs[i], Flush)
    requires forall s :: s in xs[i].streams ==> xs[i].streams[s].phase.Idle? && !Enabled(xs[i], Receive(s))
    ensures forall s :: s in xs[i].streams ==> xs[i].streams[s].delivered == xs[i].changes
  {
    InvAlways(xs, actions, i);
    forall s | s in xs[i].streams ensures xs[i].streams[s].delivered == xs[i].changes {
      assert s in xs[i].hub.subs;
    }
  }

  /** From every reachable state a stream gets there by its own steps and the
      flush alone. */
  lemma CanCatchUp(x: System, s: nat) returns (xs: seq<System>, actions: seq<Action>)
    requires Inv(x) && s in x.streams
    ensures Run(xs, actions) && xs[0] == x
    ensures forall i :: 0 <= i < |actions| ==> actions[i] in {Flush, First(s), Receive(s), Finish(s)}
    ensures var y := xs[|actions|]; y.changes == x.changes && s in y.streams && y.streams[s] == Stream(Idle, x.changes)
    decreases Distance(x, s)
  {
    var p := x.streams[s].phase;
    if p.Idle? && x.streams[s].delivered == x.changes {
      return [x], [];
    }
    var a :=
      if p.Opening? then First(s)
      else if p.Building? then Finish(s)
      else if x.hub.pending then Flush
      else Receive(s);
    assert s in x.hub.subs;
    InvStep(x, a);
    var ys, rest := CanCatchUp(Do(x, a), s);
    xs, actions := [x] + ys, [a] + rest;
  }

  /** Steps left until the stream is current. */
  function Distance(x: System, s: nat): nat
    requires s in x.streams
  {
    var st := x.streams[s];
    var flush := if x.hub.pending then 1 else 0;
    match st.phase
    case Opening => 6 + flush
    case Idle => if st.delivered == x.changes then 0 else 3 + flush
    case Building(start, keepalive) => if !keepalive && start == x.changes then 1 else 5 + flush
  }
}
