/** The running policy and its compiled form, cached per database generation
    while callers read the registry without a lock. */
module PolicyCache {
  import opened Basics

  // ----- the registry -----

  type Users = map<text, text>

  /** A peer's columns the compiler sees; owner is empty for none. */
  datatype PolicyRow = PolicyRow(id: text, name: text, owner: text, addresses: text, tags: seq<text>)

  /** prefix is None when the stored text does not parse. */
  datatype RouteRow = RouteRow(peer: text, prefix: Option<text>, approved: bool)

  datatype Registry = Registry(users: Users, peers: seq<PolicyRow>, routes: seq<RouteRow>, generation: nat)

  datatype PolicyPeer = PolicyPeer(row: PolicyRow, ownerName: text, routes: seq<text>)

  function ApprovedOf(r: RouteRow, peer: text): seq<text> {
    if r.approved && r.prefix.Some? && r.peer == peer then [r.prefix.value] else []
  }

  function ApprovedFor(rows: seq<RouteRow>, peer: text): seq<text> {
    if rows == [] then []
    else
      var r := rows[|rows| - 1];
      ApprovedFor(rows[..|rows| - 1], peer) + ApprovedOf(r, peer)
  }

  function OwnerName(users: Users, p: PolicyRow): text {
    if p.owner in users then users[p.owner] else []
  }

  /** What a policy is compiled against. */
  function PolicyPeers(users: Users, peers: seq<PolicyRow>, routes: seq<RouteRow>): seq<PolicyPeer> {
    seq(|peers|, i requires 0 <= i < |peers| => ForCompiler(users, peers[i], routes))
  }

  function ForCompiler(users: Users, p: PolicyRow, routes: seq<RouteRow>): PolicyPeer {
    PolicyPeer(p, OwnerName(users, p), ApprovedFor(routes, p.id))
  }

  /** The map holds each peer's approved prefixes. */
  ghost predicate Approves(m: map<text, seq<text>>, rows: seq<RouteRow>) {
    forall peer :: Lookup(m, peer) == ApprovedFor(rows, peer)
  }

  lemma ApprovesOneMore(m: map<text, seq<text>>, rows: seq<RouteRow>, r: RouteRow)
    requires Approves(m, rows)
    ensures !(r.approved && r.prefix.Some?) ==> Approves(m, rows + [r])
    ensures r.approved && r.prefix.Some? ==> Approves(m[r.peer := Lookup(m, r.peer) + [r.prefix.value]], rows + [r])
  {
    var after := if r.approved && r.prefix.Some? then m[r.peer := Lookup(m, r.peer) + [r.prefix.value]] else m;
    forall peer ensures Lookup(after, peer) == ApprovedFor(rows + [r], peer) {
      ApprovedOneMore(rows, r, peer);
      assert Lookup(m, peer) == ApprovedFor(rows, peer);
    }
  }

  lemma ApprovedOneMore(rows: seq<RouteRow>, r: RouteRow, peer: text)
    ensures ApprovedFor(rows + [r], peer) == ApprovedFor(rows, peer) + ApprovedOf(r, peer)
  {
    assert (rows + [r])[..|rows|] == rows;
  }

  method ApprovedRoutes(rows: seq<RouteRow>) returns (out: map<text, seq<text>>)
    ensures Approves(out, rows)
  {
    out := map[];
    for i := 0 to |rows|
      invariant Approves(out, rows[..i])
    {
      var r := rows[i];
      ApprovesOneMore(out, rows[..i], r);
      assert rows[..i + 1] == rows[..i] + [r];
      if r.approved && r.prefix.Some? {
        out := out[r.peer := Lookup(out, r.peer) + [r.prefix.value]];
      }
    }
    assert rows[..|rows|] == rows;
  }

  method ReadRegistry(users: Users, peers: seq<PolicyRow>, routes: seq<RouteRow>) returns (out: seq<PolicyPeer>)
    ensures out == PolicyPeers(users, peers, routes)
  {
    var approved := ApprovedRoutes(routes);
    out := [];
    for i := 0 to |peers|
      invariant |out| == i && forall j :: 0 <= j < i ==> out[j] == ForCompiler(users, peers[j], routes)
    {
      var p := peers[i];
      assert Lookup(approved, p.id) == ApprovedFor(routes, p.id);
      out := out + [PolicyPeer(p, OwnerName(users, p), Lookup(approved, p.id))];
    }
  }

  // ----- the service -----

  /** A loaded document; version names the object, hash its content. */
  datatype Policy = Policy(version: nat, hash: text)

  /** A compiled policy, named by the policy and by where in the history of
      the database the generation and then each table were read. */
  datatype Compiled = Compiled(policy: Policy, start: nat, users: nat, peers: nat, routes: nat)

  /** gen is None when the generation could not be read. */
  datatype Entry = Entry(compiled: Compiled, gen: Option<nat>, key: text)

  datatype Service = Service(current: Policy, cache: Option<Entry>)

  predicate Hit(s: Service, gen: Option<nat>) {
    s.cache.Some? && s.cache.value.gen == gen && s.cache.value.key == s.current.hash && gen.Some?
  }

  /** A compilation is kept only while its policy is still the current one. */
  function Published(s: Service, cur: Policy, c: Compiled, gen: Option<nat>): Service {
    if s.current == cur then s.(cache := Some(Entry(c, gen, cur.hash))) else s
  }

  function Installed(p: Policy): Service {
    Service(p, None)
  }

  /** The service's own fields, each section it guards with its mutex one
      method. */
  class PolicyService {
    var current: Policy
    var compiled: Option<Compiled>
    var cacheGen: Option<nat>
    var cacheKey: text

    ghost function View(): Service
      reads this
    {
      Service(current, if compiled.Some? then Some(Entry(compiled.value, cacheGen, cacheKey)) else None)
    }

    constructor (p: Policy)
      ensures View() == Installed(p)
    {
      current, compiled, cacheGen, cacheKey := p, None, None, [];
    }

    method Look(gen: Option<nat>) returns (cur: Policy, cached: Option<Compiled>, hit: bool)
      ensures cur == View().current && hit == Hit(View(), gen)
      ensures cached == if View().cache.Some? then Some(View().cache.value.compiled) else None
    {
      cur, cached := current, compiled;
      hit := cached.Some? && cacheGen == gen && cacheKey == cur.hash && gen.Some?;
    }

    method Publish(cur: Policy, c: Compiled, gen: Option<nat>)
      modifies this
      ensures View() == Published(old(View()), cur, c, gen)
    {
      if current == cur {
        compiled, cacheGen, cacheKey := Some(c), gen, cur.hash;
      }
    }

    method Install(p: Policy)
      modifies this
      ensures View() == Installed(p)
    {
      current, compiled := p, None;
    }
  }

  // ----- callers, reloads and transactions, interleaved -----

  /** Where a caller of Compiled stands. gen was read at position start;
      result None is the empty policy, failed a registry that could not be
      read. */
  datatype Caller =
    | Idle
    | Began(gen: Option<nat>, start: nat)
    | Looked(gen: Option<nat>, start: nat, cur: Policy, cached: Option<Compiled>)
    | ReadUsers(gen: Option<nat>, start: nat, cur: Policy, cached: Option<Compiled>, users: nat)
    | ReadPeers(gen: Option<nat>, start: nat, cur: Policy, cached: Option<Compiled>, users: nat, peers: nat)
    | ReadAll(gen: Option<nat>, start: nat, cur: Policy, made: Compiled)
    | Done(gen: Option<nat>, start: nat, cur: Policy, result: Option<Compiled>, failed: bool)

  /** log holds every state of the database so far, the last one current. */
  datatype System = System(log: seq<Registry>, service: Service, callers: map<nat, Caller>)

  datatype Action =
    | Begin(k: nat, ok: bool)
    | Look(k: nat)
    | ListUsers(k: nat, ok: bool)
    | ListPeers(k: nat, ok: bool)
    | ListRoutes(k: nat, ok: bool)
    | Publish(k: nat)
    | Return(k: nat)
    | Mutate(db: Registry)
    | AddUser(id: text, name: text)
    | Install(policy: Policy)

  function At(s: System, k: nat): Caller {
    if k in s.callers then s.callers[k] else Idle
  }

  function Now(s: System): nat
    requires s.log != []
  {
    |s.log| - 1
  }

  /** Owners refer to existing users. */
  predicate OwnersExist(db: Registry) {
    forall p :: p in db.peers && p.owner != [] ==> p.owner in db.users
  }

  /** Everything the compiler sees changes only together with the
      generation, by one or, for a lock record with its signatures, more;
      users are only ever added, under a new id, without it. A reload is a
      Mutate of nothing but the generation, then an Install. */
  predicate Enabled(s: System, a: Action) {
    s.log != [] &&
    match a
    case Begin(k, _) => At(s, k).Idle?
    case Look(k) => At(s, k).Began?
    case ListUsers(k, _) => At(s, k).Looked?
    case ListPeers(k, _) => At(s, k).ReadUsers?
    case ListRoutes(k, _) => At(s, k).ReadPeers?
    case Publish(k) => At(s, k).ReadAll?
    case Return(k) => At(s, k).Done?
    case Mutate(db) => db.generation > s.log[Now(s)].generation && OwnersExist(db)
    case AddUser(id, _) => id != [] && id !in s.log[Now(s)].users
    case Install(policy) => policy.version > s.service.current.version
  }

  function Do(s: System, a: Action): System
    requires Enabled(s, a)
  {
    var now := Now(s);
    match a
    case Begin(k, ok) => s.(callers := s.callers[k := Began(if ok then Some(s.log[now].generation) else None, now)])
    case Look(k) =>
      var c := At(s, k);
      var cached := if s.service.cache.Some? then Some(s.service.cache.value.compiled) else None;
      s.(callers := s.callers[k :=
        if Hit(s.service, c.gen) then Done(c.gen, c.start, s.service.current, cached, false)
        else Looked(c.gen, c.start, s.service.current, cached)])
    case ListUsers(k, ok) =>
      var c := At(s, k);
      s.(callers := s.callers[k :=
        if ok then ReadUsers(c.gen, c.start, c.cur, c.cached, now)
        else Done(c.gen, c.start, c.cur, c.cached, true)])
    case ListPeers(k, ok) =>
      var c := At(s, k);
      s.(callers := s.callers[k :=
        if ok then ReadPeers(c.gen, c.start, c.cur, c.cached, c.users, now)
        else Done(c.gen, c.start, c.cur, c.cached, true)])
    case ListRoutes(k, ok) =>
      var c := At(s, k);
      s.(callers := s.callers[k :=
        if ok then ReadAll(c.gen, c.start, c.cur, Compiled(c.cur, c.start, c.users, c.peers, now))
        else Done(c.gen, c.start, c.cur, c.cached, true)])
    case Publish(k) =>
      var c := At(s, k);
      s.(service := Published(s.service, c.cur, c.made, c.gen),
         callers := s.callers[k := Done(c.gen, c.start, c.cur, Some(c.made), false)])
    case Return(k) => s.(callers := s.callers - {k})
    case Mutate(db) => s.(log := s.log + [db])
    case AddUser(id, name) => s.(log := s.log + [s.log[now].(users := s.log[now].users[id := name])])
    case Install(policy) => s.(service := Installed(policy))
  }

  ghost predicate Run(ss: seq<System>, acts: seq<Action>) {
    && |ss| == |acts| + 1
    && (forall i :: 0 <= i < |acts| ==> Enabled(ss[i], acts[i]) && ss[i + 1] == Do(ss[i], acts[i]))
    && |ss[0].log| == 1 && OwnersExist(ss[0].log[0]) && ss[0].service.cache.None? && ss[0].callers == map[]
  }

  // ----- what holds throughout -----

  ghost predicate GoodLog(log: seq<Registry>) {
    && log != []
    && (forall i :: 0 <= i < |log| ==> OwnersExist(log[i]))
    && (forall i, j :: 0 <= i <= j < |log| ==> log[i].generation <= log[j].generation)
    && (forall i, j ::
         0 <= i <= j < |log| && log[i].generation == log[j].generation ==> SameForCompiler(log[i], log[j]))
  }

  /** b is a with users added. */
  ghost predicate SameForCompiler(a: Registry, b: Registry) {
    && a.peers == b.peers && a.routes == b.routes
    && (forall u :: u in a.users ==> u in b.users && b.users[u] == a.users[u])
    && ([] in b.users ==> [] in a.users)
  }

  ghost predicate Ordered(log: seq<Registry>, c: Compiled) {
    c.start <= c.users <= c.peers <= c.routes < |log|
  }

  /** A compilation read its tables after a generation, and no table was
      older than it. */
  ghost predicate ReadSince(log: seq<Registry>, c: Compiled, gen: Option<nat>) {
    Ordered(log, c) && (gen.Some? ==> log[c.start].generation == gen.value)
  }

  ghost predicate GoodStart(s: System, gen: Option<nat>, start: nat) {
    start < |s.log| && (gen.Some? ==> s.log[start].generation == gen.value)
  }

  ghost predicate GoodCaller(s: System, c: Caller) {
    match c
    case Idle => true
    case Began(gen, start) => GoodStart(s, gen, start)
    case Looked(gen, start, cur, cached) => GoodStart(s, gen, start) && GoodCached(s, cur, cached)
    case ReadUsers(gen, start, cur, cached, users) =>
      GoodStart(s, gen, start) && GoodCached(s, cur, cached) && start <= users < |s.log|
    case ReadPeers(gen, start, cur, cached, users, peers) =>
      GoodStart(s, gen, start) && GoodCached(s, cur, cached) && start <= users <= peers < |s.log|
    case ReadAll(gen, start, cur, made) => GoodStart(s, gen, start) && made.policy == cur && ReadSince(s.log, made, gen)
    case Done(gen, start, cur, result, failed) =>
      if failed then GoodCached(s, cur, result)
      else result.Some? && result.value.policy == cur && ReadSince(s.log, result.value, gen)
  }

  ghost predicate GoodCached(s: System, cur: Policy, cached: Option<Compiled>) {
    cached.Some? ==> cached.value.policy == cur && Ordered(s.log, cached.value)
  }

  ghost predicate Inv(s: System) {
    && GoodLog(s.log)
    && (s.service.cache.Some? ==>
          var e := s.service.cache.value;
          e.compiled.policy == s.service.current && e.key == s.service.current.hash
          && ReadSince(s.log, e.compiled, e.gen))
    && (forall k :: k in s.callers ==> GoodCaller(s, s.callers[k]))
  }

  lemma LogStep(log: seq<Registry>, db: Registry)
    requires GoodLog(log) && OwnersExist(db)
    requires var last := log[|log| - 1];
             db.generation > last.generation || (db.generation == last.generation && SameForCompiler(last, db))
    ensures GoodLog(log + [db])
  {
    var longer := log + [db];
    forall i, j | 0 <= i <= j < |longer| && longer[i].generation == longer[j].generation
      ensures SameForCompiler(longer[i], longer[j])
    {
      if i < |log| && j == |log| {
        assert log[i].generation <= log[|log| - 1].generation;
        assert SameForCompiler(log[i], log[|log| - 1]);
      }
    }
  }

  lemma LogAfter(s: System, a: Action)
    requires GoodLog(s.log) && Enabled(s, a)
    ensures GoodLog(Do(s, a).log) && s.log <= Do(s, a).log
  {
    var s' := Do(s, a);
    match a
    case Mutate(db) => LogStep(s.log, db);
    case AddUser(id, name) => LogStep(s.log, s'.log[|s'.log| - 1]);
    case _ =>
  }

  lemma CallerStays(s: System, s': System, c: Caller)
    requires GoodCaller(s, c) && s.log <= s'.log
    ensures GoodCaller(s', c)
  {
  }

  lemma CallerStep(s: System, a: Action, k: nat)
    requires Inv(s) && Enabled(s, a) && k in Do(s, a).callers && s.log <= Do(s, a).log
    ensures GoodCaller(Do(s, a), Do(s, a).callers[k])
  {
    var s' := Do(s, a);
    assert k in s.callers ==> GoodCaller(s, s.callers[k]);
    if k in s.callers && s'.callers[k] == s.callers[k] {
      CallerStays(s, s', s.callers[k]);
    } else {
      assert s'.log == s.log;
    }
  }

  lemma InvStep(s: System, a: Action)
    requires Inv(s) && Enabled(s, a)
    ensures Inv(Do(s, a))
  {
    LogAfter(s, a);
    forall k | k in Do(s, a).callers ensures GoodCaller(Do(s, a), Do(s, a).callers[k]) {
      CallerStep(s, a, k);
    }
    if a.Publish? {
      assert GoodCaller(s, s.callers[a.k]);
    }
  }

  lemma {:induction false} InvAlways(ss: seq<System>, acts: seq<Action>, i: nat)
    requires Run(ss, acts) && i < |ss|
    ensures Inv(ss[i])
  {
    if i > 0 {
      var k := i - 1;
      InvAlways(ss, acts, k);
      assert Enabled(ss[k], acts[k]) && ss[k + 1] == Do(ss[k], acts[k]);
      InvStep(ss[k], acts[k]);
    }
  }

  // ----- the results -----

  /** The argument the compiler was given for c. */
  function InputOf(log: seq<Registry>, c: Compiled): seq<PolicyPeer>
    requires c.users < |log| && c.peers < |log| && c.routes < |log|
  {
    PolicyPeers(log[c.users].users, log[c.peers].peers, log[c.routes].routes)
  }

  function FreshInput(db: Registry): seq<PolicyPeer> {
    PolicyPeers(db.users, db.peers, db.routes)
  }

  /** The cache always holds the current policy: no caller that was still
      compiling an older one overwrites what a reload published. The hash
      compared on a hit never decides. */
  lemma CacheIsCurrent(ss: seq<System>, acts: seq<Action>, i: nat)
    requires Run(ss, acts) && i < |ss| && ss[i].service.cache.Some?
    ensures ss[i].service.cache.value.compiled.policy == ss[i].service.current
    ensures ss[i].service.cache.value.key == ss[i].service.current.hash
  {
    InvAlways(ss, acts, i);
  }

  /** An answer compiles the policy its caller saw as current, from tables
      each at least as new as the generation it read, cached or not. */
  lemma AnswersAreRecent(ss: seq<System>, acts: seq<Action>, i: nat, k: nat)
    requires Run(ss, acts) && i < |ss| && At(ss[i], k).Done? && !At(ss[i], k).failed
    ensures var c, log := At(ss[i], k), ss[i].log;
            && c.result.Some? && c.result.value.policy == c.cur && Ordered(log, c.result.value)
            && (c.gen.Some? ==> var r := c.result.value;
                  log[r.users].generation >= c.gen.value && log[r.peers].generation >= c.gen.value
                  && log[r.routes].generation >= c.gen.value)
  {
    InvAlways(ss, acts, i);
    assert GoodCaller(ss[i], ss[i].callers[k]);
  }

  /** While the generation stands, tables read one after the other are as good
      as one snapshot. */
  lemma ReadsMakeOneSnapshot(log: seq<Registry>, c: Compiled)
    requires GoodLog(log) && Ordered(log, c) && log[c.start].generation == log[|log| - 1].generation
    ensures InputOf(log, c) == FreshInput(log[|log| - 1])
  {
    var last := |log| - 1;
    assert log[c.start].generation <= log[c.users].generation <= log[c.peers].generation;
    assert log[c.peers].generation <= log[c.routes].generation <= log[last].generation;
    assert SameForCompiler(log[c.users], log[last]) && SameForCompiler(log[c.peers], log[last])
           && SameForCompiler(log[c.routes], log[last]);
    assert SameForCompiler(log[c.users], log[c.peers]);
    forall p | p in log[last].peers ensures OwnerName(log[c.users].users, p) == OwnerName(log[last].users, p) {
      assert OwnersExist(log[c.users]) && p in log[c.users].peers;
    }
  }

  /** With no mutation since its generation was read, an answer equals a
      fresh compilation against the database as it now stands. */
  lemma AnswersEqualFreshCompiles(ss: seq<System>, acts: seq<Action>, i: nat, k: nat)
    requires Run(ss, acts) && i < |ss| && At(ss[i], k).Done? && !At(ss[i], k).failed
    requires ss[i].log != [] && At(ss[i], k).gen == Some(ss[i].log[Now(ss[i])].generation)
    ensures var r := At(ss[i], k).result;
            r.Some? && r.value.policy == At(ss[i], k).cur && Ordered(ss[i].log, r.value)
            && InputOf(ss[i].log, r.value) == FreshInput(ss[i].log[Now(ss[i])])
  {
    InvAlways(ss, acts, i);
    assert GoodCaller(ss[i], ss[i].callers[k]);
    ReadsMakeOneSnapshot(ss[i].log, At(ss[i], k).result.value);
  }

  /** A registry that cannot be read leaves the last compilation of the
      policy the caller saw, or the empty policy; never an older policy. */
  lemma FailuresKeepThePolicy(ss: seq<System>, acts: seq<Action>, i: nat, k: nat)
    requires Run(ss, acts) && i < |ss| && At(ss[i], k).Done? && At(ss[i], k).failed
    ensures At(ss[i], k).result.Some? ==> At(ss[i], k).result.value.policy == At(ss[i], k).cur
  {
    InvAlways(ss, acts, i);
    assert GoodCaller(ss[i], ss[i].callers[k]);
  }

  ghost predicate SeesAtLeast(c: Caller, version: nat) {
    c.Idle? || c.Began? || c.cur.version >= version
  }

  lemma {:induction false} PoliciesAdvance(ss: seq<System>, acts: seq<Action>, i: nat, j: nat)
    requires Run(ss, acts) && i <= j < |ss|
    ensures ss[i].service.current.version <= ss[j].service.current.version
    decreases j
  {
    if i < j {
      var m := j - 1;
      PoliciesAdvance(ss, acts, i, m);
      assert Enabled(ss[m], acts[m]) && ss[m + 1] == Do(ss[m], acts[m]);
    }
  }

  /** A call that begins after a policy was published never answers with an
      earlier one. */
  lemma {:induction false} NoOlderPolicy(ss: seq<System>, acts: seq<Action>, i: nat, j: nat, k: nat)
    requires Run(ss, acts) && i <= j < |ss| && At(ss[i], k).Idle?
    ensures SeesAtLeast(At(ss[j], k), ss[i].service.current.version)
    decreases j
  {
    if i < j {
      var m := j - 1;
      NoOlderPolicy(ss, acts, i, m, k);
      PoliciesAdvance(ss, acts, i, m);
      assert Enabled(ss[m], acts[m]) && ss[m + 1] == Do(ss[m], acts[m]);
    }
  }
}
