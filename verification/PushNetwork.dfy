/** Control words pushed through a network of cache-exchange servers (module-camd35-cacheex.c,
    ncam-cache.c): check, push out and push in as steps, and their runs. */
module PushNetwork {
  import opened Bytes
  import opened Cards
  import opened CachePush

  // ----- state -----

  /** Which word, and the nodes it went through, the newest first. The program does not record
      this: it is the trace against which its node lists are judged. */
  datatype Key = Key(id: nat, route: seq<NodeId>)

  /** A cached request with its control-word object (cw_cache). */
  datatype Entry = Entry(er: Request, cw: nat)

  /** `peers[a, b]` is the id that a has stored for its connection to b, `pushed` the lists of
      connections already served per control-word object, `sent` every push there was. */
  datatype Net = Net(
    nodes: set<NodeId>, limits: map<(NodeId, NodeId), Connection>, words: seq<Request>,
    cache: map<Key, Entry>, peers: map<(NodeId, NodeId), NodeId>,
    pushed: set<(NodeId, nat, NodeId)>, wire: map<Key, seq<byte>>, sent: set<Key>)

  function LimitsOf(s: Net, a: NodeId, b: NodeId): Connection {
    if (a, b) in s.limits then s.limits[(a, b)] else Connection(None, None)
  }

  function PeerOf(s: Net, a: NodeId, b: NodeId): Option<NodeId> {
    if (a, b) in s.peers then Some(s.peers[(a, b)]) else None
  }

  predicate InWidth(er: Request) {
    er.srvid < 0x10000 && er.caid < 0x10000 && er.prid < 0x100000000 && er.cspHash < 0x100000000
  }

  // ----- steps -----

  datatype Step =
    | Inject(n: NodeId, er: Request, cw: nat)
    | Keepalive(n: NodeId, peer: NodeId)
    | Send(key: Key, to: NodeId)
    | Receive(key: Key, cw: nat)
    | Forget(keys: set<Key>)

  /** A word that did not come from a cache-exchange peer. */
  ghost predicate InjectStep(s: Net, t: Net, n: NodeId, er: Request, cw: nat) {
    && n in s.nodes && InWidth(er) && er.lastNodes == [] && er.rc < E_NOTFOUND
    && t == s.(words := s.words + [er], cache := s.cache[Key(|s.words|, [n]) := Entry(er, cw)])
  }

  /** Identifiers are exchanged over the connection. */
  ghost predicate KeepaliveStep(s: Net, t: Net, n: NodeId, peer: NodeId) {
    t == s.(peers := s.peers[(n, peer) := peer])
  }

  /** A push goes out if the check allows it and the connection was not served before. */
  ghost predicate SendStep(s: Net, t: Net, key: Key, to: NodeId) {
    && key in s.cache && key.route != [] && to in s.nodes && to != key.route[0]
    && var own := key.route[0];
       var e := s.cache[key];
       && Pushable(e.er.rc) && PushOk(e.er, LimitsOf(s, own, to), PeerOf(s, own, to))
       && (own, e.cw, to) !in s.pushed
       && var next := Key(key.id, [to] + key.route);
          t == s.(pushed := s.pushed + {(own, e.cw, to)}, wire := s.wire[next := Encode(e.er, own)], sent := s.sent + {next})
  }

  /** A push arrives; what passes the limits is kept under some control-word object. */
  ghost predicate ReceiveStep(s: Net, t: Net, key: Key, cw: nat) {
    && key in s.wire && |key.route| >= 2 && Readable(s.wire[key])
    && var own, from := key.route[0], key.route[1];
       var rest := s.(wire := s.wire - {key});
       match Decode(s.wire[key])
       case None => t == rest
       case Some(er) =>
         var (kept, peer) := Received(er, NewFormat(s.wire[key]), LimitsOf(s, own, from), PeerOf(s, own, from));
         && (t.peers == if peer.Some? then s.peers[(own, from) := peer.value] else s.peers)
         && (t == rest.(peers := t.peers)
            || (kept.Some? && kept.value.rc < E_NOTFOUND
                && t == rest.(peers := t.peers, cache := s.cache[key := Entry(kept.value.(rc := E_CACHEEX), cw)])))
  }

  ghost predicate ForgetStep(s: Net, t: Net, keys: set<Key>) {
    t == s.(cache := s.cache - keys)
  }

  ghost predicate Next(s: Net, t: Net, step: Step) {
    match step
    case Inject(n, er, cw) => InjectStep(s, t, n, er, cw)
    case Keepalive(n, peer) => KeepaliveStep(s, t, n, peer)
    case Send(key, to) => SendStep(s, t, key, to)
    case Receive(key, cw) => ReceiveStep(s, t, key, cw)
    case Forget(keys) => ForgetStep(s, t, keys)
  }

  // ----- invariant: what a held or travelling request looks like -----

  predicate SimpleOver(route: seq<NodeId>, nodes: set<NodeId>) {
    Distinct(route) && forall i :: 0 <= i < |route| ==> route[i] in nodes
  }

  /** The request still says what was injected; the cycle time only if it leaves bit 7 free. */
  predicate Carries(er: Request, w: Request) {
    && er.srvid == w.srvid && er.caid == w.caid && er.prid == w.prid && er.ecmd5 == w.ecmd5
    && er.cspHash == w.cspHash && er.cw == w.cw && er.localGenerated == w.localGenerated
    && OddEven(er.ecm0) == OddEven(w.ecm0)
    && (0 < w.cycletime < 0x80 && w.nextCw < 2 ==> er.cycletime == w.cycletime && er.nextCw == w.nextCw)
  }

  /** The node list is the route without the holder, and was within the sender's limit. */
  predicate GoodRequest(s: Net, key: Key, er: Request) {
    && key.id < |s.words| && Carries(er, s.words[key.id]) && InWidth(er)
    && key.route != [] && SimpleOver(key.route, s.nodes) && er.lastNodes == key.route[1..]
    && (|key.route| >= 2 ==> |er.lastNodes| <= Limit(LimitsOf(s, key.route[1], key.route[0]), er.localGenerated))
  }

  predicate GoodEntry(s: Net, key: Key, er: Request) {
    && GoodRequest(s, key, er) && er.rc < E_NOTFOUND
    && (|key.route| >= 2 ==> |er.lastNodes| <= Limit(LimitsOf(s, key.route[0], key.route[1]), er.localGenerated))
  }

  predicate GoodMessage(s: Net, key: Key, b: seq<byte>) {
    && |key.route| >= 2 && Readable(b) && Decode(b).Some? && GoodRequest(s, key, Decode(b).value)
    && Decode(b).value.rc < E_NOTFOUND
  }

  ghost predicate Paths(s: Net) {
    && (forall k :: k in s.cache ==> GoodEntry(s, k, s.cache[k].er))
    && (forall k :: k in s.wire ==> GoodMessage(s, k, s.wire[k]))
    && (forall a, b :: (a, b) in s.peers ==> s.peers[(a, b)] == b)
    && (forall k :: k in s.sent ==> SimpleOver(k.route, s.nodes))
  }

  // ----- invariant: no push is repeated -----

  function Parent(k: Key): Key
    requires k.route != []
  {
    Key(k.id, k.route[1..])
  }

  ghost predicate Once(s: Net) {
    && (forall k :: k in s.sent ==> |k.route| >= 2 && k.id < |s.words|)
    && (forall k :: k in s.cache ==> k.id < |s.words| && k !in s.wire && k.route != [])
    && (forall k :: k in s.cache && |k.route| >= 2 ==> k in s.sent)
    && (forall k :: k in s.wire ==> k in s.sent)
    && (forall k :: k in s.sent && |k.route| > 2 ==> Parent(k) in s.sent)
    && (forall k :: k in s.sent ==> Parent(k) !in s.wire)
    && (forall k :: k in s.sent && Parent(k) in s.cache ==> (k.route[1], s.cache[Parent(k)].cw, k.route[0]) in s.pushed)
  }

  // ----- the steps keep the paths -----

  lemma DistinctCons(x: NodeId, route: seq<NodeId>)
    requires Distinct(route) && x !in route
    ensures Distinct([x] + route)
  {
    assert ([x] + route)[1..] == route;
  }

  lemma SimpleCons(x: NodeId, route: seq<NodeId>, nodes: set<NodeId>)
    requires SimpleOver(route, nodes) && x !in route && x in nodes
    ensures SimpleOver([x] + route, nodes)
  {
    hide Distinct;
    DistinctCons(x, route);
  }

  lemma {:induction false} SimpleFits(route: seq<NodeId>, nodes: set<NodeId>)
    requires SimpleOver(route, nodes)
    ensures |route| <= |nodes|
    decreases |route|
  {
    if route != [] {
      SimpleFits(route[1..], nodes - {route[0]});
    }
  }

  /** One push keeps what a request carries. */
  lemma CarriesOn(er: Request, w: Request, own: NodeId)
    requires Carries(er, w) && Pushable(er.rc) && |er.lastNodes| < 255 && InWidth(er)
    ensures
      var b := Encode(er, own);
      && Readable(b) && Decode(b).Some?
      && var r := Decode(b).value;
         Carries(r, w) && InWidth(r) && r.lastNodes == [own] + er.lastNodes && r.rc == PushedRc(er.rc)
  {
    hide Encode, Decode, Readable, CycleOf, CycleByte;
    RoundTrip(er, own);
    if 0 < w.cycletime < 0x80 && w.nextCw < 2 {
      CycleBackIff(er.cycletime, er.nextCw);
    }
  }

  lemma SentIsGood(s: Net, key: Key, to: NodeId)
    requires key in s.cache && GoodEntry(s, key, s.cache[key].er) && to in s.nodes && to != key.route[0]
    requires
      var own := key.route[0];
      PushOk(s.cache[key].er, LimitsOf(s, own, to), PeerOf(s, own, to))
    requires PeerOf(s, key.route[0], to).Some? ==> PeerOf(s, key.route[0], to).value == to
    requires Pushable(s.cache[key].er.rc)
    ensures GoodMessage(s, Key(key.id, [to] + key.route), Encode(s.cache[key].er, key.route[0]))
    ensures SimpleOver([to] + key.route, s.nodes)
  {
    hide Encode, Decode, Readable, LimitsOf, PeerOf, SimpleOver, Maxhop, MaxhopLg, OddEven;
    var own, er := key.route[0], s.cache[key].er;
    PushOkIsLimit(er, LimitsOf(s, own, to), PeerOf(s, own, to));
    CarriesOn(er, s.words[key.id], own);
    assert key.route == [own] + key.route[1..];
    SimpleCons(to, key.route, s.nodes);
    assert ([to] + key.route)[1..] == key.route;
    assert Limit(LimitsOf(s, own, to), er.localGenerated) < 128;
  }

  lemma SendKeepsPaths(s: Net, t: Net, key: Key, to: NodeId)
    requires Paths(s) && SendStep(s, t, key, to)
    ensures Paths(t)
  {
    hide GoodMessage, GoodEntry, SimpleOver, Encode, PushOk, LimitsOf;
    assert GoodEntry(s, key, s.cache[key].er);
    SentIsGood(s, key, to);
    SameConfig(s, t);
  }

  /** What is good depends on the nodes, the limits and the injected words alone. */
  lemma SameConfig(s: Net, t: Net)
    requires t.nodes == s.nodes && t.limits == s.limits && s.words <= t.words
    ensures forall k, er :: GoodRequest(s, k, er) ==> GoodRequest(t, k, er)
    ensures forall k, er :: GoodEntry(s, k, er) ==> GoodEntry(t, k, er)
    ensures forall k, b :: GoodMessage(s, k, b) ==> GoodMessage(t, k, b)
  {
    hide Decode, Readable, Carries, SimpleOver, Limit;
  }

  lemma InjectKeepsPaths(s: Net, t: Net, n: NodeId, er: Request, cw: nat)
    requires Paths(s) && InjectStep(s, t, n, er, cw)
    ensures Paths(t)
  {
    hide GoodMessage;
    SameConfig(s, t);
    assert GoodEntry(t, Key(|s.words|, [n]), er);
    hide GoodEntry;
  }

  lemma ReceivedIsGood(s: Net, key: Key, c: Connection, peer: Option<NodeId>)
    requires key in s.wire && GoodMessage(s, key, s.wire[key])
    requires c == LimitsOf(s, key.route[0], key.route[1])
    requires peer.Some? ==> peer.value == key.route[1]
    ensures
      var r := Received(Decode(s.wire[key]).value, NewFormat(s.wire[key]), c, peer);
      && (r.0.Some? ==> GoodEntry(s, key, r.0.value.(rc := E_CACHEEX)))
      && (r.1.Some? ==> r.1.value == key.route[1])
  {
    hide Decode, Readable, Limit, LimitsOf, SimpleOver, OddEven, NewFormat;
    NodesNeedNewFormat(s.wire[key]);
  }

  lemma ReceiveKeepsPaths(s: Net, t: Net, key: Key, cw: nat)
    requires Paths(s) && ReceiveStep(s, t, key, cw)
    ensures Paths(t)
  {
    hide GoodEntry, SimpleOver, Decode, Readable, LimitsOf, Received, GoodRequest;
    SameConfig(s, t);
    assert GoodMessage(s, key, s.wire[key]);
    ReceivedIsGood(s, key, LimitsOf(s, key.route[0], key.route[1]), PeerOf(s, key.route[0], key.route[1]));
  }

  lemma PathsKept(s: Net, t: Net, step: Step)
    requires Paths(s) && Next(s, t, step)
    ensures Paths(t)
  {
    hide Paths, InjectStep, SendStep, ReceiveStep;
    match step {
      case Inject(n, er, cw) => InjectKeepsPaths(s, t, n, er, cw);
      case Send(key, to) => SendKeepsPaths(s, t, key, to);
      case Receive(key, cw) => ReceiveKeepsPaths(s, t, key, cw);
      case Keepalive(_, _) => QuietKeepsPaths(s, t, step);
      case Forget(_) => QuietKeepsPaths(s, t, step);
    }
  }

  lemma QuietKeepsPaths(s: Net, t: Net, step: Step)
    requires Paths(s) && Next(s, t, step) && (step.Keepalive? || step.Forget?)
    ensures Paths(t)
  {
    hide GoodEntry, GoodMessage, SimpleOver;
    SameConfig(s, t);
  }

  // ----- the steps never repeat a push -----

  /** The push is a new one: neither it nor anything sent on from it was there before. */
  lemma SendIsNew(s: Net, t: Net, key: Key, to: NodeId)
    requires Once(s) && SendStep(s, t, key, to)
    ensures
      var next := Key(key.id, [to] + key.route);
      next !in s.sent && forall k :: k in s.sent ==> Parent(k) != next
  {
    hide PushOk, Encode, LimitsOf, PeerOf;
    var next := Key(key.id, [to] + key.route);
    assert Parent(next) == key;
    assert next.route[1] == key.route[0];
  }

  lemma SendKeepsOnce(s: Net, t: Net, key: Key, to: NodeId)
    requires Once(s) && SendStep(s, t, key, to)
    ensures Once(t)
  {
    hide PushOk, Encode, LimitsOf, PeerOf;
    SendIsNew(s, t, key, to);
    var next := Key(key.id, [to] + key.route);
    assert Parent(next) == key;
    assert next.route[1] == key.route[0];
  }

  lemma ReceiveKeepsOnce(s: Net, t: Net, key: Key, cw: nat)
    requires Once(s) && ReceiveStep(s, t, key, cw)
    ensures Once(t)
  {
    hide Decode, Readable, Received, LimitsOf, PeerOf, Once;
    if t.cache != s.cache {
      ArrivalKeepsOnce(s, t.(cache := s.cache), t, key);
    } else {
      ArrivalKeepsOnce(s, t, t, key);
    }
  }

  /** A message is read, and perhaps kept. */
  lemma ArrivalKeepsOnce(s: Net, m: Net, t: Net, key: Key)
    requires Once(s) && key in s.wire && |key.route| >= 2
    requires m.wire == s.wire - {key} && m.cache == s.cache && m.words == s.words && m.pushed == s.pushed && m.sent == s.sent
    requires t == m || (key in t.cache && t == m.(cache := m.cache[key := t.cache[key]]))
    ensures Once(t)
  {
    assert Once(m);
    if t != m {
      assert forall k :: k in s.sent ==> Parent(k) != key;
    }
  }

  lemma OnceKept(s: Net, t: Net, step: Step)
    requires Once(s) && Next(s, t, step)
    ensures Once(t)
  {
    hide SendStep, ReceiveStep;
    match step {
      case Inject(n, er, cw) =>
      case Send(key, to) => SendKeepsOnce(s, t, key, to);
      case Receive(key, cw) => ReceiveKeepsOnce(s, t, key, cw);
      case Keepalive(_, _) =>
      case Forget(_) =>
    }
  }

  // ----- runs -----

  ghost predicate IsRun(states: seq<Net>, steps: seq<Step>) {
    && |states| == |steps| + 1
    && forall i :: 0 <= i < |steps| ==> Next(states[i], states[i + 1], steps[i])
  }

  /** No word, no peer id and no message yet. */
  predicate Start(s: Net) {
    s == Net(s.nodes, s.limits, [], map[], map[], {}, map[], {})
  }

  lemma {:induction false} RunKeeps(states: seq<Net>, steps: seq<Step>, k: nat)
    requires IsRun(states, steps) && Start(states[0]) && k < |states|
    ensures Paths(states[k]) && Once(states[k]) && states[k].nodes == states[0].nodes
  {
    if k > 0 {
      RunKeeps(states, steps, k - 1);
      StepKeeps(states[k - 1], states[k - 1 + 1], steps[k - 1]);
    }
  }

  lemma StepKeeps(s: Net, t: Net, step: Step)
    requires Paths(s) && Once(s) && Next(s, t, step)
    ensures Paths(t) && Once(t) && t.nodes == s.nodes
  {
    hide Paths, Once;
    PathsKept(s, t, step);
    OnceKept(s, t, step);
    hide PushOk, Encode, Decode, Received;
  }

  /** Loop-freedom in every run: a pushed request held at node n that came over the connection
      to `from` has a node list without repetitions that starts with `from`, does not contain
      n, and is within the limits of that connection at both ends; it still carries what was
      injected. */
  lemma LoopFree(states: seq<Net>, steps: seq<Step>, k: nat, key: Key)
    requires IsRun(states, steps) && Start(states[0]) && k < |states|
    requires key in states[k].cache && |key.route| >= 2
    ensures
      var s, er, n, from := states[k], states[k].cache[key].er, key.route[0], key.route[1];
      && Distinct(er.lastNodes) && n !in er.lastNodes && er.lastNodes != [] && er.lastNodes[0] == from
      && |er.lastNodes| <= Limit(LimitsOf(s, n, from), er.localGenerated)
      && |er.lastNodes| <= Limit(LimitsOf(s, from, n), er.localGenerated)
      && |er.lastNodes| < |s.nodes|
      && key.id < |s.words|
      && var w := s.words[key.id];
         && er.srvid == w.srvid && er.caid == w.caid && er.prid == w.prid && er.ecmd5 == w.ecmd5
         && er.cspHash == w.cspHash && er.cw == w.cw && er.localGenerated == w.localGenerated
         && (0 < w.cycletime < 0x80 && w.nextCw < 2 ==> er.cycletime == w.cycletime && er.nextCw == w.nextCw)
  {
    hide IsRun, Start, Once, Limit, LimitsOf, GoodMessage;
    RunKeeps(states, steps, k);
    assert GoodEntry(states[k], key, states[k].cache[key].er);
    SimpleFits(key.route, states[k].nodes);
  }

  // ----- finitely many pushes -----

  /** How many sequences without repetitions there are over n nodes. */
  function Arrangements(n: nat): nat { if n == 0 then 1 else 1 + n * Arrangements(n - 1) }

  ghost predicate AllSimple(routes: set<seq<NodeId>>, nodes: set<NodeId>) {
    forall r :: r in routes ==> SimpleOver(r, nodes)
  }

  ghost function StartingWith(routes: set<seq<NodeId>>, x: NodeId): set<seq<NodeId>> {
    set r | r in routes && r != [] && r[0] == x
  }

  ghost function Tails(routes: set<seq<NodeId>>): set<seq<NodeId>> {
    set r | r in routes && r != [] :: r[1..]
  }

  lemma {:induction false} FewSimple(routes: set<seq<NodeId>>, nodes: set<NodeId>)
    requires AllSimple(routes, nodes)
    ensures |routes| <= Arrangements(|nodes|)
    decreases |nodes|, 1, 0
  {
    var rest := routes - {[]};
    FewByFirst(rest, nodes, nodes);
  }

  /** The same, one first node after the other. */
  lemma {:induction false} FewByFirst(routes: set<seq<NodeId>>, firsts: set<NodeId>, nodes: set<NodeId>)
    requires AllSimple(routes, nodes) && firsts <= nodes
    requires forall r :: r in routes ==> r != [] && r[0] in firsts
    ensures nodes == {} ==> routes == {}
    ensures nodes != {} ==> |routes| <= |firsts| * Arrangements(|nodes| - 1)
    decreases |nodes|, 0, |firsts|
  {
    if firsts == {} {
      assert routes == {};
    } else {
      var x :| x in firsts;
      var here := StartingWith(routes, x);
      FewSimple(Tails(here), nodes - {x});
      TailsCount(here, x);
      FewByFirst(routes - here, firsts - {x}, nodes);
      assert |routes| == |here| + |routes - here|;
      var a := Arrangements(|nodes| - 1);
      assert |firsts| * a == (|firsts| - 1) * a + a;
    }
  }

  lemma {:induction false} TailsCount(here: set<seq<NodeId>>, x: NodeId)
    requires forall r :: r in here ==> r != [] && r[0] == x
    ensures |Tails(here)| == |here|
    decreases |here|
  {
    if here != {} {
      var r :| r in here;
      TailsCount(here - {r}, x);
      forall q | q in here && q[1..] == r[1..]
        ensures q == r
      {
        assert q == [q[0]] + q[1..] && r == [r[0]] + r[1..];
      }
      assert r[1..] !in Tails(here - {r});
      assert Tails(here) == Tails(here - {r}) + {r[1..]};
    }
  }

  /** The pushes of one word so far, as steps and as recorded routes. */
  function Pushes(steps: seq<Step>, id: nat): nat
    decreases |steps|
  {
    if steps == [] then 0
    else
      var last := steps[|steps| - 1];
      Pushes(steps[..|steps| - 1], id) + if last.Send? && last.key.id == id then 1 else 0
  }

  ghost function Routes(s: Net, id: nat): set<seq<NodeId>> {
    set k | k in s.sent && k.id == id :: k.route
  }

  lemma {:induction false} EachPushIsNew(states: seq<Net>, steps: seq<Step>, k: nat, id: nat)
    requires IsRun(states, steps) && Start(states[0]) && k < |states|
    ensures Pushes(steps[..k], id) == |Routes(states[k], id)|
  {
    if k > 0 {
      EachPushIsNew(states, steps, k - 1, id);
      RunKeeps(states, steps, k - 1);
      assert steps[..k][..k - 1] == steps[..k - 1];
      RoutesGrow(states[k - 1], states[k - 1 + 1], steps[k - 1], id);
    } else {
      assert Routes(states[0], id) == {};
    }
  }

  lemma RoutesGrow(s: Net, t: Net, step: Step, id: nat)
    requires Once(s) && Next(s, t, step)
    ensures |Routes(t, id)| == |Routes(s, id)| + if step.Send? && step.key.id == id then 1 else 0
  {
    hide Once, PushOk, Encode, Decode, Received, Readable;
    if step.Send? {
      SendIsNew(s, t, step.key, step.to);
      var next := Key(step.key.id, [step.to] + step.key.route);
      if next.id == id {
        assert next.route !in Routes(s, id);
        assert Routes(t, id) == Routes(s, id) + {next.route};
      } else {
        assert Routes(t, id) == Routes(s, id);
      }
    } else {
      assert t.sent == s.sent;
    }
  }

  /** Each injected word is pushed finitely often: in no run more often than there are
      repetition-free sequences of nodes. */
  lemma FinitelyManyPushes(states: seq<Net>, steps: seq<Step>, id: nat)
    requires IsRun(states, steps) && Start(states[0])
    ensures Pushes(steps, id) <= Arrangements(|states[0].nodes|)
  {
    hide Next, Start, Once, Pushes, SimpleOver, Arrangements;
    var s := states[|steps|];
    RunKeeps(states, steps, |steps|);
    EachPushIsNew(states, steps, |steps|, id);
    assert steps[..|steps|] == steps;
    FewSimple(Routes(s, id), s.nodes);
  }

  // ----- words do travel -----

  /** A run after which b holds the first word with the list [a]. */
  ghost predicate Brings(states: seq<Net>, steps: seq<Step>, a: NodeId, b: NodeId) {
    && IsRun(states, steps) && Start(states[0])
    && var last := states[|steps|];
       Key(0, [b, a]) in last.cache && last.cache[Key(0, [b, a])].er.lastNodes == [a]
  }

  /** The other side of the bounds: between any two nodes with no limits set, a word that is
      injected at one and pushed when the peer is known reaches the other, with the list [a]. */
  lemma WordArrives(a: NodeId, b: NodeId, er: Request)
    requires a != b && er.lastNodes == [] && er.rc < E_NOTFOUND
    requires er.srvid < 0x10000 && er.caid < 0x10000 && er.prid < 0x100000000 && er.cspHash < 0x100000000
    ensures exists states, steps :: Brings(states, steps, a, b)
  {
    hide Encode, Decode, Readable, CycleOf, CycleByte;
    assert InWidth(er);
    hide InWidth;
    var s0 := Net({a, b}, map[], [], map[], map[], {}, map[], {});
    var s1 := s0.(words := [er], cache := map[Key(0, [a]) := Entry(er, 0)]);
    var s2 := s1.(peers := map[(a, b) := b]);
    var key := Key(0, [b, a]);
    var s3 := s2.(pushed := {(a, 0, b)}, wire := map[key := Encode(er, a)], sent := {key});
    RoundTrip(er, a);
    var got := Decode(Encode(er, a)).value;
    var s4 := s3.(wire := map[], peers := s3.peers[(b, a) := a], cache := s3.cache[key := Entry(got.(rc := E_CACHEEX), 0)]);
    FirstPush(s2, s3, a, b, er);
    var states, steps := [s0, s1, s2, s3, s4], [Inject(a, er, 0), Keepalive(a, b), Send(Key(0, [a]), b), Receive(key, 0)];
    assert s0.words + [er] == [er];
    assert Next(s0, s1, steps[0]);
    assert Next(s1, s2, steps[1]);
    assert Brings(states, steps, a, b);
  }

  lemma FirstPush(s: Net, t: Net, a: NodeId, b: NodeId, er: Request)
    requires a != b && er.lastNodes == [] && er.rc < E_NOTFOUND && s.limits == map[] && b in s.nodes
    requires s.cache == map[Key(0, [a]) := Entry(er, 0)] && s.peers == map[(a, b) := b] && s.pushed == {} && s.wire == map[] && s.sent == {}
    requires t == s.(pushed := {(a, 0, b)}, wire := map[Key(0, [b, a]) := Encode(er, a)], sent := {Key(0, [b, a])})
    ensures SendStep(s, t, Key(0, [a]), b)
  {
    hide Encode;
    PushOkIsLimit(er, LimitsOf(s, a, b), PeerOf(s, a, b));
    assert [b] + [a] == [b, a];
  }

}
