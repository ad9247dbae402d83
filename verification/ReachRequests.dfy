/** Reach requests over whole runs of the hub, and what one path machine on
    the receiving client makes of them. */
module ReachRequests {
  import opened Basics
  import opened Hub

  /** now is the clock at the event. Other is any hub operation that leaves
      the requests alone: Changed, flush, subscribing. */
  datatype Event =
    | Wanting(to: text, from: text, now: int)
    | Asking(to: text, from: text, now: int)
    | Forgetting(id: text, now: int)
    | Connecting(id: text, now: int)
    | Disconnecting(id: text, now: int)
    | Sweeping(now: int)
    | Restarting(generation: int, now: int)
    | Other(now: int)

  ghost predicate Next(h: HubState, e: Event, h': HubState) {
    match e
    case Wanting(to, from, now) => h' == Want(h, to, from, now)
    case Asking(to, from, now) => h' == AfterWantSeq(h, to, from, now)
    case Forgetting(id, _) => h' == Forget(h, id)
    case Connecting(id, _) => h' == Connected(h, id)
    case Disconnecting(id, now) => h' == Disconnected(h, id, now)
    case Sweeping(now) => h' == h.(presence := Swept(h.presence, now))
    case Restarting(generation, now) => h' == Fresh(generation, now)
    case Other(_) => h'.presence == h.presence && h'.wants == h.wants && h'.wantSeq == h.wantSeq
  }

  ghost predicate Run(hs: seq<HubState>, es: seq<Event>) {
    && |hs| == |es| + 1
    && (forall i :: 0 <= i < |es| ==> Next(hs[i], es[i], hs[i + 1]))
    && (forall i, j :: 0 <= i <= j < |es| ==> es[i].now <= es[j].now)
  }

  // ----- the table stays small and consistent -----

  /** Every inner request map is non-empty and belongs to a peer with a
      presence entry. */
  ghost predicate Tidy(h: HubState) {
    forall to :: to in h.wants ==> h.wants[to] != map[] && to in h.presence
  }

  ghost predicate SaneRequest(r: WantReq, last: nat, clock: int) {
    r.woke <= r.at <= clock && 1 <= r.number <= last
  }

  ghost predicate Sane(h: HubState, clock: int) {
    forall to, from :: Request(h, to, from).Some? ==> SaneRequest(Request(h, to, from).value, h.wantSeq, clock)
  }

  lemma TidyStep(h: HubState, e: Event, h': HubState)
    requires Tidy(h) && Next(h, e, h')
    ensures Tidy(h')
  {
    match e
    case Wanting(to, from, now) =>
      if Reachable(h, to) {
        assert from in h'.wants[to];
      }
    case _ =>
  }

  /** The table never holds an empty request map or one of a peer without
      presence, whatever ids clients report. */
  lemma {:induction false} AlwaysTidy(hs: seq<HubState>, es: seq<Event>, i: nat)
    requires Run(hs, es) && StartsEmpty(hs) && i < |hs|
    ensures Tidy(hs[i])
  {
    if i > 0 {
      var k := i - 1;
      AlwaysTidy(hs, es, k);
      assert Next(hs[k], es[k], hs[k + 1]);
      TidyStep(hs[k], es[k], hs[i]);
    }
  }

  lemma SaneStep(h: HubState, e: Event, h': HubState)
    requires Sane(h, e.now) && Next(h, e, h')
    ensures Sane(h', e.now)
  {
    forall to, from | Request(h', to, from).Some? ensures SaneRequest(Request(h', to, from).value, h'.wantSeq, e.now) {
      RequestStep(h, e, h', to, from);
    }
  }

  ghost predicate StartsEmpty(hs: seq<HubState>) {
    |hs| > 0 && hs[0].wants == map[]
  }

  lemma {:induction false} AlwaysSane(hs: seq<HubState>, es: seq<Event>, i: nat)
    requires Run(hs, es) && StartsEmpty(hs) && i < |es|
    ensures Sane(hs[i], es[i].now)
  {
    if i > 0 {
      AlwaysSane(hs, es, i - 1);
      assert Next(hs[i - 1], es[i - 1], hs[i]);
      SaneStep(hs[i - 1], es[i - 1], hs[i]);
    }
  }

  /** What one event does to one pair's request: nothing, or the pair itself
      asks again, or the request ends because it expired or was cleared. */
  lemma RequestStep(h: HubState, e: Event, h': HubState, to: text, from: text)
    requires Next(h, e, h')
    ensures var r, r' := Request(h, to, from), Request(h', to, from);
            || r' == r
            || (r'.None? && (Clears(e, to, from) || (r.Some? && e.now - r.value.at >= WANT_TTL)))
            || (e.Wanting? && e.to == to && e.from == from && r'.Some? &&
                if Issues(h, e) then r'.value == WantReq(e.now, e.now, Number(h))
                else r.Some? && r'.value == r.value.(at := e.now))
    ensures h'.wantSeq == if e.Restarting? then Fresh(e.generation, e.now).wantSeq
            else if Issues(h, e) then Number(h) else h.wantSeq
  {
    match e
    case Wanting(t, f, now) => WantStep(h, t, f, now, to, from);
    case Asking(t, f, now) => AskStep(h, t, f, now, to, from);
    case Forgetting(id, _) => ForgetStep(h, id, to, from);
    case _ =>
  }

  lemma WantStep(h: HubState, t: text, f: text, now: int, to: text, from: text)
    ensures var r, r' := Request(h, to, from), Request(Want(h, t, f, now), to, from);
            if !Reachable(h, t) || t != to then r' == r
            else if f != from then r' == r || (r'.None? && r.Some? && now - r.value.at >= WANT_TTL)
            else if Wakes(h, t, f, now) then r' == Some(WantReq(now, now, h.wantSeq + 1))
            else r.Some? && r' == Some(r.value.(at := now))
  {
    var reqs, live := RequestsFor(h, t), Live(RequestsFor(h, t), now);
    assert from in reqs && from !in live ==> now - reqs[from].at >= WANT_TTL;
  }

  lemma AskStep(h: HubState, t: text, f: text, now: int, to: text, from: text)
    ensures var r, r' := Request(h, to, from), Request(AfterWantSeq(h, t, f, now), to, from);
            r' == r || (r'.None? && r.Some? && now - r.value.at >= WANT_TTL)
  {
    if t == to && to in h.wants && from in h.wants[to] && f != from {
      assert from in Others(h.wants[to], f);
    }
  }

  lemma ForgetStep(h: HubState, id: text, to: text, from: text)
    ensures var r, r' := Request(h, to, from), Request(Forget(h, id), to, from);
            if id == to || id == from then r'.None? else r' == r
  {
    if id != to && id != from && to in h.wants && from in h.wants[to] {
      assert from in Others(h.wants[to], id);
    }
  }

  // ----- wake numbers -----

  predicate Issues(h: HubState, e: Event) {
    e.Wanting? && Wakes(h, e.to, e.from, e.now)
  }

  function Number(h: HubState): nat {
    h.wantSeq + 1
  }

  /** The clock at each restart is past the last number handed out. */
  ghost predicate ClockAhead(hs: seq<HubState>, es: seq<Event>) {
    |es| <= |hs| && forall i :: 0 <= i < |es| && es[i].Restarting? ==> es[i].now >= hs[i].wantSeq
  }

  function IssuedIn(hs: seq<HubState>, es: seq<Event>, i: nat, j: nat): nat
    requires i <= j <= |es| <= |hs|
  {
    if i == j then 0 else IssuedIn(hs, es, i, j - 1) + if Issues(hs[j - 1], es[j - 1]) then 1 else 0
  }

  /** The last number is the starting clock plus the wakes since, so the
      clock is past it when it advanced by at least one nanosecond a wake. */
  lemma {:induction false} NumbersCountWakes(hs: seq<HubState>, es: seq<Event>, i: nat, j: nat)
    requires Run(hs, es) && i <= j <= |es| && forall k :: i <= k < j ==> !es[k].Restarting?
    ensures hs[j].wantSeq == hs[i].wantSeq + IssuedIn(hs, es, i, j)
    decreases j
  {
    if i < j {
      NumbersCountWakes(hs, es, i, j - 1);
      assert Next(hs[j - 1], es[j - 1], hs[j]);
    }
  }

  /** Where the process running at event r started: after the last restart. */
  function StartOf(es: seq<Event>, r: nat): (s: nat)
    requires r <= |es|
    ensures s <= r && (s > 0 ==> es[s - 1].Restarting?) && forall k :: s <= k < r ==> !es[k].Restarting?
  {
    if r == 0 || es[r - 1].Restarting? then r else StartOf(es, r - 1)
  }

  /** The number a process starts from: the clock at its start. */
  function StartClock(hs: seq<HubState>, es: seq<Event>, s: nat): nat
    requires s <= |es| && hs != []
  {
    if s == 0 then hs[0].wantSeq else if es[s - 1].now > 0 then es[s - 1].now else 0
  }

  /** By each restart the clock advanced by at least the wakes issued. */
  ghost predicate ClockKeepsUp(hs: seq<HubState>, es: seq<Event>) {
    && |es| < |hs|
    && forall r :: 0 <= r < |es| && es[r].Restarting? ==>
         es[r].now - StartClock(hs, es, StartOf(es, r)) >= IssuedIn(hs, es, StartOf(es, r), r)
  }

  /** That is what it takes for the clock to be past the last number. */
  lemma ClockAheadIff(hs: seq<HubState>, es: seq<Event>)
    requires Run(hs, es)
    ensures ClockAhead(hs, es) <==> ClockKeepsUp(hs, es)
  {
    forall r | 0 <= r < |es|
      ensures hs[r].wantSeq == StartClock(hs, es, StartOf(es, r)) + IssuedIn(hs, es, StartOf(es, r), r)
    {
      var s := StartOf(es, r);
      if s > 0 {
        assert Next(hs[s - 1], es[s - 1], hs[s - 1 + 1]);
      }
      NumbersCountWakes(hs, es, s, r);
    }
  }

  lemma {:induction false} NumbersRise(hs: seq<HubState>, es: seq<Event>, i: nat, j: nat)
    requires Run(hs, es) && ClockAhead(hs, es) && i <= j < |hs|
    ensures hs[i].wantSeq <= hs[j].wantSeq
    decreases j
  {
    if i < j {
      NumbersRise(hs, es, i, j - 1);
      assert Next(hs[j - 1], es[j - 1], hs[j]);
    }
  }

  /** No wake number is issued twice, also across restarts. */
  lemma NumbersNeverReissued(hs: seq<HubState>, es: seq<Event>, i: nat, j: nat)
    requires Run(hs, es) && ClockAhead(hs, es) && i < j < |es|
    requires Issues(hs[i], es[i]) && Issues(hs[j], es[j])
    ensures Number(hs[i]) < Number(hs[j])
  {
    assert Next(hs[i], es[i], hs[i + 1]);
    NumbersRise(hs, es, i + 1, j);
  }

  // ----- the repeat gate -----

  predicate Clears(e: Event, to: text, from: text) {
    e.Restarting? || (e.Forgetting? && (e.id == to || e.id == from))
  }

  /** What remains of a wake at time t: the request remembers a wake at least
      as late, or it expired, at least WANT_TTL after t. */
  ghost predicate Remembers(h: HubState, to: text, from: text, t: int, clock: int) {
    var r := Request(h, to, from);
    (r.Some? && r.value.woke >= t) || (r.None? && clock >= t + WANT_TTL)
  }

  lemma RemembersStep(h: HubState, e: Event, h': HubState, to: text, from: text, t: int, clock: int)
    requires Sane(h, e.now) && Next(h, e, h') && Remembers(h, to, from, t, clock) && clock <= e.now
    requires t <= e.now && !Clears(e, to, from)
    ensures Remembers(h', to, from, t, e.now)
  {
    RequestStep(h, e, h', to, from);
  }

  lemma {:induction false} WakeRemembered(hs: seq<HubState>, es: seq<Event>, i: nat, j: nat)
    requires Run(hs, es) && StartsEmpty(hs) && i < j <= |es| && Issues(hs[i], es[i])
    requires forall k :: i < k < j ==> !Clears(es[k], es[i].to, es[i].from)
    ensures Remembers(hs[j], es[i].to, es[i].from, es[i].now, es[j - 1].now)
    decreases j
  {
    if j == i + 1 {
      assert Next(hs[i], es[i], hs[i + 1]);
    } else {
      WakeRemembered(hs, es, i, j - 1);
      AlwaysSane(hs, es, j - 1);
      var k := j - 1;
      assert Next(hs[k], es[k], hs[j]) && es[i].now <= es[k].now && es[k - 1].now <= es[k].now;
      RemembersStep(hs[j - 1], es[j - 1], hs[j], es[i].to, es[i].from, es[i].now, es[j - 2].now);
    }
  }

  /** Two wakes of one pair are at least WANT_REPEAT apart, unless one of the
      two peers was forgotten or the hub restarted in between. */
  lemma WakesAreSpaced(hs: seq<HubState>, es: seq<Event>, i: nat, j: nat)
    requires Run(hs, es) && StartsEmpty(hs) && i < j < |es|
    requires Issues(hs[i], es[i]) && Issues(hs[j], es[j]) && es[i].to == es[j].to && es[i].from == es[j].from
    requires forall k :: i < k < j ==> !Clears(es[k], es[i].to, es[i].from)
    ensures es[j].now - es[i].now >= WANT_REPEAT
  {
    WakeRemembered(hs, es, i, j);
    AlwaysSane(hs, es, j);
  }

  // ----- what the receiver is told -----

  /** The request carrying number n is over for good: any later one has a
      larger number. */
  ghost predicate Over(h: HubState, to: text, from: text, n: nat) {
    n <= h.wantSeq && (Request(h, to, from).Some? ==> Request(h, to, from).value.number > n)
  }

  ghost predicate StandsOrOver(h: HubState, to: text, from: text, n: nat) {
    Over(h, to, from, n) || (Request(h, to, from).Some? && Request(h, to, from).value.number == n <= h.wantSeq)
  }

  lemma OverStep(h: HubState, e: Event, h': HubState, to: text, from: text, n: nat)
    requires Next(h, e, h') && (e.Restarting? ==> e.now >= h.wantSeq)
    ensures Over(h, to, from, n) ==> Over(h', to, from, n)
    ensures StandsOrOver(h, to, from, n) ==> StandsOrOver(h', to, from, n)
  {
    RequestStep(h, e, h', to, from);
  }

  lemma {:induction false} OverStays(hs: seq<HubState>, es: seq<Event>, to: text, from: text, n: nat, i: nat, j: nat)
    requires Run(hs, es) && ClockAhead(hs, es) && i <= j < |hs|
    ensures Over(hs[i], to, from, n) ==> Over(hs[j], to, from, n)
    ensures StandsOrOver(hs[i], to, from, n) ==> StandsOrOver(hs[j], to, from, n)
    decreases j
  {
    if i < j {
      var k := j - 1;
      OverStays(hs, es, to, from, n, i, k);
      assert Next(hs[k], es[k], hs[k + 1]);
      OverStep(hs[k], es[k], hs[j], to, from, n);
    }
  }

  function Answer(h: HubState, e: Event): nat
    requires e.Asking?
  {
    WantNumber(h, e.to, e.from, e.now)
  }

  /** Once the answer for a pair has moved on from a number, to another or to
      none, that number never comes back. */
  lemma AnswersMoveOn(hs: seq<HubState>, es: seq<Event>, i: nat, k: nat, j: nat)
    requires Run(hs, es) && ClockAhead(hs, es) && StartsEmpty(hs) && i < k < j < |es|
    requires es[i].Asking? && es[k].Asking? && es[j].Asking?
    requires es[i].to == es[k].to == es[j].to && es[i].from == es[k].from == es[j].from
    requires Answer(hs[i], es[i]) != 0 && Answer(hs[k], es[k]) != Answer(hs[i], es[i])
    ensures Answer(hs[j], es[j]) != Answer(hs[i], es[i])
  {
    var to, from, n := es[i].to, es[i].from, Answer(hs[i], es[i]);
    AlwaysSane(hs, es, i);
    AlwaysSane(hs, es, k);
    assert StandsOrOver(hs[i], to, from, n);
    OverStays(hs, es, to, from, n, i, k);
    assert Next(hs[k], es[k], hs[k + 1]);
    if !Over(hs[k], to, from, n) {
      assert Request(hs[k + 1], to, from).None?;
    } else {
      OverStep(hs[k], es[k], hs[k + 1], to, from, n);
    }
    OverStays(hs, es, to, from, n, k + 1, j);
  }
}
