/** The client's side of reach requests: the probing state it keeps per peer,
    and when a request in a netmap sets a new probing round off. */
module PathWants {
  import opened Basics
  import opened ClientPins
  import opened Hub
  import opened ReachRequests

  /** One peer's path: the key its machine was made for, a request not yet
      stepped, and the last request seen. */
  datatype Path = Path(key: Key32, reach: bool, wanted: bool, wantSeq: nat)

  type Paths = map<text, Path>

  /** The parsed key of an entry that is probed: a direct peer whose key and
      overlay address parse. */
  function Probed(lib: Lib, addressed: Peer -> bool, p: Peer): Option<Key32> {
    if p.viaHub || !addressed(p) then None else lib.parseWgKey(p.key)
  }

  /** Whether the entry's request is new to the path: to a machine that has
      seen nothing any request is, otherwise one with another number, or a
      raised flag when the server numbers nothing. */
  predicate Acts(paths: Paths, p: Peer, key: Key32) {
    p.wanted &&
    if p.id !in paths || paths[p.id].key != key then true
    else if p.wantSeq != 0 then p.wantSeq != paths[p.id].wantSeq
    else !paths[p.id].wanted
  }

  /** One entry; sink says whether a sink for a new peer could be made. */
  function Noted(paths: Paths, p: Peer, key: Key32, sink: bool): Paths {
    if p.id !in paths && !sink then paths
    else paths[p.id := Path(key, (p.id in paths && paths[p.id].reach) || Acts(paths, p, key), p.wanted, p.wantSeq)]
  }

  function NotedAll(lib: Lib, addressed: Peer -> bool, sinks: nat -> bool, paths: Paths, ps: seq<Peer>): Paths {
    if ps == [] then paths
    else
      var i := |ps| - 1;
      var before := NotedAll(lib, addressed, sinks, paths, ps[..i]);
      var key := Probed(lib, addressed, ps[i]);
      if key.Some? then Noted(before, ps[i], key.value, sinks(i)) else before
  }

  function SeenIDs(lib: Lib, addressed: Peer -> bool, ps: seq<Peer>): set<text> {
    set p | p in ps && Probed(lib, addressed, p).Some? :: p.id
  }

  /** Paths of peers that are no longer probed are dropped. */
  function Synced(lib: Lib, addressed: Peer -> bool, sinks: nat -> bool, paths: Paths, ps: seq<Peer>): Paths {
    var noted := NotedAll(lib, addressed, sinks, paths, ps);
    map id | id in noted && id in SeenIDs(lib, addressed, ps) :: noted[id]
  }

  class PathTable {
    var paths: Paths

    constructor ()
      ensures paths == map[]
    {
      paths := map[];
    }

    /** The loop over the netmap's entries. */
    method Note(lib: Lib, addressed: Peer -> bool, sinks: nat -> bool, ps: seq<Peer>) returns (seen: set<text>)
      modifies this
      ensures paths == NotedAll(lib, addressed, sinks, old(paths), ps)
      ensures seen == SeenIDs(lib, addressed, ps)
    {
      seen := {};
      for i := 0 to |ps|
        invariant paths == NotedAll(lib, addressed, sinks, old(paths), ps[..i])
        invariant seen == SeenIDs(lib, addressed, ps[..i])
      {
        var p := ps[i];
        assert ps[..i + 1] == ps[..i] + [p];
        var key := Probed(lib, addressed, p);
        if key.Some? {
          seen := seen + {p.id};
          var known := p.id in paths;
          if known || sinks(i) {
            var last := if known then paths[p.id] else Path(key.value, false, false, 0);
            var reset := !known || last.key != key.value;
            var newer := (p.wantSeq != 0 && p.wantSeq != last.wantSeq) || (p.wantSeq == 0 && !last.wanted);
            if p.wanted && (reset || newer) {
              last := last.(reach := true);
            }
            paths := paths[p.id := last.(key := key.value, wanted := p.wanted, wantSeq := p.wantSeq)];
          }
        }
      }
      assert ps[..|ps|] == ps;
    }

    method Sync(lib: Lib, addressed: Peer -> bool, sinks: nat -> bool, ps: seq<Peer>)
      modifies this
      ensures paths == Synced(lib, addressed, sinks, old(paths), ps)
    {
      var seen := Note(lib, addressed, sinks, ps);
      ghost var noted := paths;
      var todo := paths.Keys;
      while todo != {}
        invariant todo <= noted.Keys
        invariant paths == map id | id in noted && (id in todo || id in seen) :: noted[id]
        decreases |todo|
      {
        var id :| id in todo;
        if id !in seen {
          paths := paths - {id};
        }
        todo := todo - {id};
      }
    }
  }

  /** Entry i is the netmap's only probed one with its id. */
  ghost predicate OnlyEntry(lib: Lib, addressed: Peer -> bool, ps: seq<Peer>, i: nat) {
    && i < |ps| && Probed(lib, addressed, ps[i]).Some?
    && forall j :: 0 <= j < |ps| && j != i && Probed(lib, addressed, ps[j]).Some? ==> ps[j].id != ps[i].id
  }

  lemma {:induction false} OthersUntouched(lib: Lib, addressed: Peer -> bool, sinks: nat -> bool, paths: Paths,
                                           ps: seq<Peer>, id: text)
    requires forall j :: 0 <= j < |ps| && Probed(lib, addressed, ps[j]).Some? ==> ps[j].id != id
    ensures var r := NotedAll(lib, addressed, sinks, paths, ps);
            (id in r <==> id in paths) && (id in paths ==> r[id] == paths[id])
  {
    if ps != [] {
      OthersUntouched(lib, addressed, sinks, paths, ps[..|ps| - 1], id);
    }
  }

  /** A pass treats each peer by its own entry alone, wherever it stands. */
  lemma {:induction false} EntryAlone(lib: Lib, addressed: Peer -> bool, sinks: nat -> bool, paths: Paths,
                                      ps: seq<Peer>, i: nat)
    requires OnlyEntry(lib, addressed, ps, i)
    ensures var id := ps[i].id;
            var r, one := NotedAll(lib, addressed, sinks, paths, ps),
                Noted(paths, ps[i], Probed(lib, addressed, ps[i]).value, sinks(i));
            (id in r <==> id in one) && (id in one ==> r[id] == one[id])
    decreases |ps|
  {
    var last := |ps| - 1;
    if i == last {
      OthersUntouched(lib, addressed, sinks, paths, ps[..last], ps[i].id);
    } else {
      EntryAlone(lib, addressed, sinks, paths, ps[..last], i);
    }
  }

  /** Consecutive netmaps from one peer's point of view: entry[k] is its place
      in the k-th netmap; between two passes the path loop may only take or
      put back the pending request. */
  ghost predicate Life(lib: Lib, addressed: Peer -> bool, id: text, key: Key32, states: seq<Paths>,
                       maps: seq<seq<Peer>>, sinks: seq<nat -> bool>, entry: seq<nat>)
  {
    && |states| == |maps| == |sinks| == |entry|
    && (forall k :: 0 <= k < |maps| ==> OnlyEntry(lib, addressed, maps[k], entry[k]) && maps[k][entry[k]].id == id)
    && (forall k :: 0 <= k < |maps| ==> Probed(lib, addressed, maps[k][entry[k]]) == Some(key))
    && (forall k ::
         0 < k < |maps| ==> SamePath(states[k], Synced(lib, addressed, sinks[k - 1], states[k - 1], maps[k - 1]), id))
  }

  ghost predicate SamePath(a: Paths, b: Paths, id: text) {
    (id in a <==> id in b) && (id in a ==> a[id] == b[id].(reach := a[id].reach))
  }

  /** The path remembers exactly the request of the netmap before. */
  lemma {:induction false} PathRemembers(lib: Lib, addressed: Peer -> bool, id: text, key: Key32, states: seq<Paths>,
                                         maps: seq<seq<Peer>>, sinks: seq<nat -> bool>, entry: seq<nat>, k: nat)
    requires Life(lib, addressed, id, key, states, maps, sinks, entry)
    requires 0 < k < |maps| && sinks[0](entry[0])
    ensures id in states[k] && states[k][id].key == key
    ensures var p := maps[k - 1][entry[k - 1]]; states[k][id].wanted == p.wanted && states[k][id].wantSeq == p.wantSeq
  {
    var j := k - 1;
    if j > 0 {
      PathRemembers(lib, addressed, id, key, states, maps, sinks, entry, j);
    }
    assert OnlyEntry(lib, addressed, maps[j], entry[j]);
    EntryAlone(lib, addressed, sinks[j], states[j], maps[j], entry[j]);
    assert maps[j][entry[j]] in maps[j] && id in SeenIDs(lib, addressed, maps[j]);
    assert SamePath(states[k], Synced(lib, addressed, sinks[k - 1], states[k - 1], maps[k - 1]), id);
  }

  /** The netmaps carry the hub's answers, oldest first: asked[k] is the event
      whose answer the k-th netmap shows; a netmap may be applied again. */
  ghost predicate Carries(hs: seq<HubState>, es: seq<Event>, to: text, id: text, maps: seq<seq<Peer>>, entry: seq<nat>,
                          asked: seq<nat>) {
    && |hs| > |es| && |asked| == |maps| == |entry|
    && (forall j, k :: 0 <= j <= k < |asked| ==> asked[j] <= asked[k])
    && (forall k ::
         0 <= k < |asked| ==>
           asked[k] < |es| && es[asked[k]].Asking? && es[asked[k]].to == to && es[asked[k]].from == id)
    && (forall k ::
         0 <= k < |asked| ==> entry[k] < |maps[k]| && maps[k][entry[k]].wantSeq == Answer(hs[asked[k]], es[asked[k]]))
    && (forall k ::
         0 <= k < |asked| ==> entry[k] < |maps[k]| && maps[k][entry[k]].wanted == (maps[k][entry[k]].wantSeq != 0))
  }

  /** A number that was seen and left behind is not seen again. */
  lemma SeenOnce(hs: seq<HubState>, es: seq<Event>, to: text, id: text, maps: seq<seq<Peer>>, entry: seq<nat>,
                 asked: seq<nat>, j: nat, k: nat)
    requires Run(hs, es) && ClockAhead(hs, es) && StartsEmpty(hs) && Carries(hs, es, to, id, maps, entry, asked)
    requires j < k < |asked| && maps[j][entry[j]].wantSeq == maps[k][entry[k]].wantSeq != 0
    ensures maps[k - 1][entry[k - 1]].wantSeq == maps[k][entry[k]].wantSeq
  {
    var m := k - 1;
    assert asked[j] <= asked[m] <= asked[k];
    if asked[j] < asked[m] < asked[k] && Answer(hs[asked[m]], es[asked[m]]) != Answer(hs[asked[j]], es[asked[j]]) {
      AnswersMoveOn(hs, es, asked[j], asked[m], asked[k]);
    }
  }

  /** One machine acts on every request number it is shown, and on each just
      once: at the first netmap that carries it. */
  lemma ActsOncePerNumber(lib: Lib, addressed: Peer -> bool, id: text, key: Key32, states: seq<Paths>,
                          maps: seq<seq<Peer>>, sinks: seq<nat -> bool>, entry: seq<nat>,
                          hs: seq<HubState>, es: seq<Event>, to: text, asked: seq<nat>, k: nat)
    requires Life(lib, addressed, id, key, states, maps, sinks, entry)
    requires Run(hs, es) && ClockAhead(hs, es) && StartsEmpty(hs) && Carries(hs, es, to, id, maps, entry, asked)
    requires k < |maps| && id !in states[0] && sinks[0](entry[0])
    ensures var n := maps[k][entry[k]].wantSeq;
            Acts(states[k], maps[k][entry[k]], key) <==>
              n != 0 && forall j :: 0 <= j < k ==> maps[j][entry[j]].wantSeq != n
  {
    var n := maps[k][entry[k]].wantSeq;
    assert OnlyEntry(lib, addressed, maps[k], entry[k]);
    if k > 0 {
      PathRemembers(lib, addressed, id, key, states, maps, sinks, entry, k);
      var m := k - 1;
      if n != 0 && maps[m][entry[m]].wantSeq != n {
        forall j | 0 <= j < k ensures maps[j][entry[j]].wantSeq != n {
          if maps[j][entry[j]].wantSeq == n {
            SeenOnce(hs, es, to, id, maps, entry, asked, j, k);
          }
        }
      }
    }
  }

  function Seen(n: nat, key: Key32): Paths {
    map[[1] := Path(key, false, n != 0, n)]
  }

  /** The comparison with the last number alone would not do: shown a number,
      another and the first again, a path acts on the first again. */
  lemma LastNumberAloneActsTwice(key: Key32, p: Peer)
    requires p.id == [1] && p.wanted && p.wantSeq == 5
    ensures !Acts(Seen(5, key), p, key)
    ensures Acts(Noted(Seen(5, key), p.(wantSeq := 6), key, true), p, key)
  {
    var later := Noted(Seen(5, key), p.(wantSeq := 6), key, true);
    assert p.(wantSeq := 6).id in later;
  }
}
