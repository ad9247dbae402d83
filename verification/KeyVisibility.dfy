/** The relay's lookup of peers by public key, cached per hub sequence. */
module KeyVisibility {
  import opened Basics
  import opened Control
  import H = Hub

  // ----- the cache -----

  datatype Cache<T> = Cache(gen: int, table: Option<T>) {
    predicate Fits(g: int) {
      table.Some? && gen == g
    }
  }

  /** byKey holds the row of every key that some row has. */
  ghost predicate ByKey(rows: seq<PeerRow>, byKey: map<text, PeerRow>) {
    && (forall r :: r in rows ==> r.key in byKey)
    && (forall k :: k in byKey ==> byKey[k] in rows && byKey[k].key == k)
  }

  method Index(rows: seq<PeerRow>) returns (byKey: map<text, PeerRow>)
    ensures ByKey(rows, byKey)
  {
    byKey := map[];
    for i := 0 to |rows|
      invariant ByKey(rows[..i], byKey)
    {
      byKey := byKey[rows[i].key := rows[i]];
    }
    assert rows[..|rows|] == rows;
  }

  ghost predicate KeysUnique(rows: seq<PeerRow>) {
    forall a, b :: a in rows && b in rows && a.key == b.key ==> a == b
  }

  class Lookup {
    var cache: Cache<map<text, PeerRow>>

    constructor ()
      ensures cache == Cache(-1, None)
    {
      cache := Cache(-1, None);
    }

    /** One lookup under the mutex: gen is the sequence read before it, listed
        what the peer table read would return, None for an error. */
    method Peers(gen: int, listed: Option<seq<PeerRow>>) returns (peers: Option<map<text, PeerRow>>)
      modifies this
      ensures old(cache).Fits(gen) ==> cache == old(cache) && peers == cache.table
      ensures !old(cache).Fits(gen) && listed.None? ==> cache == old(cache) && peers.None?
      ensures !old(cache).Fits(gen) && listed.Some? ==>
                cache.Fits(gen) && peers == cache.table && ByKey(listed.value, cache.table.value)
    {
      if cache.table.Some? && gen == cache.gen {
        return cache.table;
      }
      if listed.None? {
        return None;
      }
      var m := Index(listed.value);
      cache := Cache(gen, Some(m));
      return Some(m);
    }

    /** Visible exactly when both keys belong to peers the rule lets talk. */
    static method Visible(ghost rows: seq<PeerRow>, byKey: map<text, PeerRow>, rule: (PeerRow, PeerRow) -> bool,
                          src: text, dst: text) returns (ok: bool)
      requires ByKey(rows, byKey) && KeysUnique(rows)
      ensures ok <==> exists a, b :: a in rows && b in rows && a.key == src && b.key == dst && rule(a, b)
    {
      if src !in byKey || dst !in byKey {
        return false;
      }
      return rule(byKey[src], byKey[dst]);
    }
  }

  // ----- lookups, commits and notifications, interleaved -----

  /** table is the position in the log of the table the answer came from. */
  datatype Call =
    | Idle
    | HasGen(gen: int)
    | Holding(gen: int)
    | Listed(gen: int, table: nat)
    | Done(gen: int, table: nat)
    | Failed

  /** log holds every state of the peer table, the last one current; holder
      is the call inside the mutex; marks is the history of notifications:
      the sequence each one set, and the table it could rely on. */
  datatype System = System(
    log: seq<seq<PeerRow>>,
    hub: H.HubState,
    marks: map<int, nat>,
    cache: Cache<nat>,
    holder: Option<nat>,
    calls: map<nat, Call>)

  datatype Action =
    | Commit(rows: seq<PeerRow>)
    | Notify(stored: Option<int>)
    | ReadGen(k: nat)
    | Enter(k: nat)
    | List(k: nat, ok: bool)
    | Publish(k: nat)
    | Return(k: nat)

  function At(s: System, k: nat): Call {
    if k in s.calls then s.calls[k] else Idle
  }

  function Last(s: System): nat {
    if s.log == [] then 0 else |s.log| - 1
  }

  predicate Enabled(s: System, a: Action) {
    match a
    case Commit(_) => true
    case Notify(_) => true
    case ReadGen(k) => At(s, k).Idle?
    case Enter(k) => At(s, k).HasGen? && s.holder.None?
    case List(k, _) => At(s, k).Holding? && s.holder == Some(k)
    case Publish(k) => At(s, k).Listed? && s.holder == Some(k)
    case Return(k) => At(s, k).Done? || At(s, k).Failed?
  }

  function Do(s: System, a: Action): System
    requires Enabled(s, a)
  {
    match a
    case Commit(rows) => s.(log := s.log + [rows])
    case Notify(stored) =>
      var hub := H.Changed(s.hub, stored);
      s.(hub := hub, marks := s.marks[hub.sequence := Last(s)])
    case ReadGen(k) => s.(calls := s.calls[k := HasGen(s.hub.sequence)])
    case Enter(k) =>
      var gen := At(s, k).gen;
      if s.cache.Fits(gen) then s.(calls := s.calls[k := Done(gen, s.cache.table.value)])
      else s.(holder := Some(k), calls := s.calls[k := Holding(gen)])
    case List(k, ok) =>
      if ok then s.(calls := s.calls[k := Listed(At(s, k).gen, Last(s))])
      else s.(holder := None, calls := s.calls[k := Failed])
    case Publish(k) =>
      var c := At(s, k);
      s.(holder := None, cache := Cache(c.gen, Some(c.table)), calls := s.calls[k := Done(c.gen, c.table)])
    case Return(k) => s.(calls := s.calls - {k})
  }

  ghost predicate Run(ss: seq<System>, acts: seq<Action>) {
    && |ss| == |acts| + 1
    && (forall i :: 0 <= i < |acts| ==> Enabled(ss[i], acts[i]) && ss[i + 1] == Do(ss[i], acts[i]))
    && |ss[0].log| == 1 && ss[0].marks == map[] && ss[0].cache == Cache(-1, None) && ss[0].holder.None?
       && ss[0].calls == map[]
  }

  // ----- what holds throughout -----

  /** A table listed under sequence gen holds every commit notified up to
      that sequence. */
  ghost predicate Covers(s: System, gen: int, table: nat) {
    forall q :: q in s.marks && q <= gen ==> s.marks[q] <= table
  }

  ghost predicate GoodCall(s: System, c: Call) {
    match c
    case Idle => true
    case Failed => true
    case HasGen(gen) => gen <= s.hub.sequence
    case Holding(gen) => gen <= s.hub.sequence
    case Listed(gen, table) => gen <= s.hub.sequence && Covers(s, gen, table)
    case Done(gen, table) => gen <= s.hub.sequence && Covers(s, gen, table)
  }

  ghost predicate Inv(s: System) {
    && (forall q :: q in s.marks ==> q <= s.hub.sequence && s.marks[q] <= Last(s))
    && (s.cache.table.Some? ==> s.cache.gen <= s.hub.sequence && Covers(s, s.cache.gen, s.cache.table.value))
    && (forall k :: k in s.calls ==> GoodCall(s, s.calls[k]))
  }

  lemma CallStep(s: System, a: Action, k: nat)
    requires Inv(s) && Enabled(s, a) && k in Do(s, a).calls
    ensures GoodCall(Do(s, a), Do(s, a).calls[k])
  {
    assert k in s.calls ==> GoodCall(s, s.calls[k]);
  }

  lemma InvStep(s: System, a: Action)
    requires Inv(s) && Enabled(s, a)
    ensures Inv(Do(s, a))
  {
    forall k | k in Do(s, a).calls ensures GoodCall(Do(s, a), Do(s, a).calls[k]) {
      CallStep(s, a, k);
    }
    if a.Publish? {
      assert GoodCall(s, s.calls[a.k]);
    }
  }

  lemma {:induction false} InvAlways(ss: seq<System>, acts: seq<Action>, i: nat)
    requires Run(ss, acts) && i < |ss|
    ensures Inv(ss[i])
  {
    if i > 0 {
      var m := i - 1;
      InvAlways(ss, acts, m);
      assert Enabled(ss[m], acts[m]) && ss[m + 1] == Do(ss[m], acts[m]);
      InvStep(ss[m], acts[m]);
    }
  }

  /** A notification's mark stays, and later ones have a larger sequence. */
  lemma {:induction false} MarkStays(ss: seq<System>, acts: seq<Action>, c: nat, j: nat)
    requires Run(ss, acts) && c < j < |ss| && acts[c].Notify?
    ensures var q := ss[c + 1].hub.sequence;
            q in ss[j].marks && ss[j].marks[q] == Last(ss[c]) && q <= ss[j].hub.sequence
    decreases j
  {
    var m := j - 1;
    assert Enabled(ss[m], acts[m]) && ss[m + 1] == Do(ss[m], acts[m]);
    if c < m {
      MarkStays(ss, acts, c, m);
    }
  }

  function GenOf(c: Call): Option<int> {
    if c.Idle? || c.Failed? then None else Some(c.gen)
  }

  /** A call keeps the sequence it read to its end. */
  lemma {:induction false} CallKeepsGen(ss: seq<System>, acts: seq<Action>, i: nat, j: nat, k: nat)
    requires Run(ss, acts) && i < j < |ss| && acts[i] == ReadGen(k)
    requires forall m :: i < m <= j ==> !At(ss[m], k).Idle?
    ensures At(ss[j], k).Failed? || GenOf(At(ss[j], k)) == Some(ss[i].hub.sequence)
    decreases j
  {
    var m := j - 1;
    assert Enabled(ss[m], acts[m]) && ss[m + 1] == Do(ss[m], acts[m]);
    if i < m {
      CallKeepsGen(ss, acts, i, m, k);
      assert !At(ss[j], k).Idle?;
    }
  }

  /** A lookup that starts after a notification answers from a peer table
      that holds everything committed before it, in whatever order lookups
      publish what they listed. */
  lemma NeverStale(ss: seq<System>, acts: seq<Action>, c: nat, i: nat, j: nat, k: nat)
    requires Run(ss, acts) && c < i < j < |ss| && acts[c].Notify? && acts[i] == ReadGen(k)
    requires (forall m :: i < m <= j ==> !At(ss[m], k).Idle?) && At(ss[j], k).Done?
    ensures At(ss[j], k).table >= Last(ss[c])
  {
    CallKeepsGen(ss, acts, i, j, k);
    MarkStays(ss, acts, c, i);
    MarkStays(ss, acts, c, j);
    InvAlways(ss, acts, j);
    assert GoodCall(ss[j], ss[j].calls[k]);
  }

  /** The cache too: under the present sequence it never hides a notified
      commit. */
  lemma CacheNeverStale(ss: seq<System>, acts: seq<Action>, c: nat, j: nat)
    requires Run(ss, acts) && c < j < |ss| && acts[c].Notify? && ss[j].cache.Fits(ss[j].hub.sequence)
    ensures ss[j].cache.table.value >= Last(ss[c])
  {
    MarkStays(ss, acts, c, j);
    InvAlways(ss, acts, j);
  }
}
