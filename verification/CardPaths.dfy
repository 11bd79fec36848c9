/** What every run of the card network keeps: the paths of the cards on their way and in the
    lists are free of loops. */
module CardPaths {
  import opened Bytes
  import opened Cards
  import opened CardCodec
  import opened CardList
  import opened CardNetwork
  import ShareUpdate

  // ----- invariant -----

  /** A path without repetitions that starts at the origin and stays inside the network, as
      long as the hop says. */
  predicate GoodPath(c: Traced, nodes: set<NodeId>) {
    && Distinct(c.card.remoteNodes) && c.card.remoteNodes != []
    && c.card.remoteNodes[0] == c.origin.node
    && (forall i :: 0 <= i < |c.card.remoteNodes| ==> c.card.remoteNodes[i] in nodes)
    && c.card.hop < 256
  }

  /** A remote card held at n. */
  predicate GoodAt(c: Traced, n: NodeId, nodes: set<NodeId>) {
    && GoodPath(c, nodes) && n !in c.card.remoteNodes
    && c.card.hop == c.origin.hop + |c.card.remoteNodes|
  }

  /** Every forwarding used up reshare. */
  predicate Spent(c: Traced) {
    c.card.reshare < 256 && |c.card.remoteNodes| + c.card.reshare <= c.origin.reshare + 1
  }

  predicate GoodNode(node: Node, n: NodeId, nodes: set<NodeId>, strict: bool) {
    && (forall p, i :: p in node.received && 0 <= i < |node.received[p]| ==> GoodReceived(node.received[p][i], p, n, nodes, strict))
    && (forall i :: 0 <= i < |node.shared| ==> GoodShared(node.shared[i], n, nodes, strict))
  }

  predicate GoodReceived(c: Traced, from: NodeId, n: NodeId, nodes: set<NodeId>, strict: bool) {
    && c.card.cardType == RemoteCard && GoodAt(c, n, nodes) && c.card.reshare < 256
    && c.card.remoteNodes[|c.card.remoteNodes| - 1] == from
    && (strict ==> Spent(c))
  }

  predicate GoodShared(c: Traced, n: NodeId, nodes: set<NodeId>, strict: bool) {
    && c.card.reshare < 256
    && if c.card.cardType == RemoteCard then GoodAt(c, n, nodes) && (strict ==> Spent(c))
       else c.card.remoteNodes == [] && c.card.hop < 256 && c.origin.node == n && c.origin.hop == c.card.hop
  }

  /** A card on its way: the sender is already in the path, the hop does not count it yet. */
  predicate GoodPacket(p: Packet, nodes: set<NodeId>, strict: bool) {
    && GoodPath(p.traced, nodes)
    && p.traced.card.remoteNodes[|p.traced.card.remoteNodes| - 1] == p.from
    && p.traced.card.hop + 1 == p.traced.origin.hop + |p.traced.card.remoteNodes|
    && p.traced.card.reshare < 256
    && (strict ==> Spent(p.traced))
  }

  /** `strict` adds the bound by reshare, which needs ignore-reshare off at every node. */
  ghost predicate Inv(s: Net, strict: bool) {
    && (forall n :: n in s.nodes ==> GoodNode(s.nodes[n], n, s.nodes.Keys, strict))
    && (forall p :: p in s.wire ==> GoodPacket(p, s.nodes.Keys, strict))
  }

  lemma SendKeeps(s: Net, t: Net, from: NodeId, to: NodeId, i: nat, r: Rules, x: Context, strict: bool)
    requires Inv(s, strict) && SendCard(s, t, from, to, i, r, x)
    requires strict ==> !r.ignoreReshare
    ensures Inv(t, strict)
  {
    hide GoodNode, GoodReceived, Project, Encode, Decode;
    assert t.nodes.Keys == s.nodes.Keys;
    var node := s.nodes[from];
    var c := node.shared[i].(card := Identified(node.shared[i].card, node.shareId));
    var new_reshare := NewReshare(c.card, r);
    RoundTrip(c.card, x, new_reshare);
    SharedAt(node, from, s.nodes.Keys, i, strict);
    SentIsGood(c, from, to, r, x, s.nodes.Keys, strict);
    ListedKeeps(node, from, s.nodes.Keys, i, c, t.nodes[from].shareId, strict);
  }

  /** Its id and the counter do not matter for a path. */
  lemma ListedKeeps(node: Node, n: NodeId, nodes: set<NodeId>, i: nat, c: Traced, shareId: nat, strict: bool)
    requires GoodNode(node, n, nodes, strict) && i < |node.shared|
    requires GoodShared(c, n, nodes, strict)
    ensures GoodNode(Node(node.shared[i := c], node.received, shareId), n, nodes, strict)
  {
    hide GoodReceived, GoodShared;
  }

  lemma SharedAt(node: Node, n: NodeId, nodes: set<NodeId>, i: nat, strict: bool)
    requires GoodNode(node, n, nodes, strict) && i < |node.shared|
    ensures GoodShared(node.shared[i], n, nodes, strict)
  {
  }

  lemma SentIsGood(c: Traced, from: NodeId, to: NodeId, r: Rules, x: Context, nodes: set<NodeId>, strict: bool)
    requires GoodShared(c, from, nodes, strict) && from in nodes && x.addOwn == Some(from)
    requires ValidForClient(c.card, to, r) && 0 <= NewReshare(c.card, r) < 256
    requires strict ==> !r.ignoreReshare
    ensures
      var origin := if c.card.cardType == RemoteCard then c.origin else c.origin.(reshare := NewReshare(c.card, r));
      GoodPacket(Packet(from, to, Traced(Project(c.card, x, NewReshare(c.card, r)), origin)), nodes, strict)
  {
    hide NewReshare, Assigned, Rejected, ProjectProviders, AsGood, AsBad, Low16;
    var path := c.card.remoteNodes;
    assert Nodes(c.card, x) == path + [from];
    if c.card.cardType == RemoteCard {
      if strict {
        ReshareDrops(c.card, to, r);
      }
    } else {
      assert path + [from] == [from];
    }
  }

  lemma ReceiveKeeps(s: Net, t: Net, p: Packet, l: Limits, strict: bool)
    requires Inv(s, strict) && ReceiveCard(s, t, p, l)
    ensures Inv(t, strict)
  {
    hide Known, GoodShared;
    if t != s {
      assert t.nodes.Keys == s.nodes.Keys;
      assert GoodPacket(p, s.nodes.Keys, strict);
      var held := ReceivedFrom(s.nodes[p.to], p.from);
      var kept := Traced(Accept(CardsOf(held), p.traced.card, p.to, l).value, p.traced.origin);
      assert GoodReceived(kept, p.from, p.to, s.nodes.Keys, strict);
      GoodNodeGrows(s.nodes[p.to], p.to, s.nodes.Keys, p.from, held, kept, strict);
    }
  }

  lemma GoodNodeGrows(node: Node, n: NodeId, nodes: set<NodeId>, from: NodeId, held: seq<Traced>, kept: Traced, strict: bool)
    requires GoodNode(node, n, nodes, strict) && held == ReceivedFrom(node, from)
    requires GoodReceived(kept, from, n, nodes, strict)
    ensures GoodNode(node.(received := node.received[from := held + [kept]]), n, nodes, strict)
  {
    hide GoodReceived, GoodShared;
    var m := node.(received := node.received[from := held + [kept]]);
    forall p, i | p in m.received && 0 <= i < |m.received[p]|
      ensures GoodReceived(m.received[p][i], p, n, nodes, strict)
    {
      if p == from {
        assert i < |held| ==> m.received[p][i] == held[i];
      } else {
        assert m.received[p] == node.received[p];
      }
    }
  }

  lemma DropKeeps(s: Net, t: Net, n: NodeId, strict: bool)
    requires Inv(s, strict) && DropCards(s, t, n)
    ensures Inv(t, strict)
  {
    hide GoodReceived, GoodShared, GoodPacket;
    assert t.nodes.Keys == s.nodes.Keys;
    forall p, i | p in t.nodes[n].received && 0 <= i < |t.nodes[n].received[p]|
      ensures GoodReceived(t.nodes[n].received[p][i], p, n, s.nodes.Keys, strict)
    {
      var c := t.nodes[n].received[p][i];
      assert c in multiset(t.nodes[n].received[p]) && c in multiset(s.nodes[n].received[p]);
      var j :| 0 <= j < |s.nodes[n].received[p]| && s.nodes[n].received[p][j] == c;
    }
  }

  lemma RebuildKeeps(s: Net, t: Net, n: NodeId, p: Policy, offers: seq<Offer>, now: int, strict: bool)
    requires p != MinimizeCaid && Inv(s, strict) && RebuildShares(s, t, n, p, offers, now)
    ensures Inv(t, strict)
  {
    hide Fold, GoodPacket, GoodReceived, ShareUpdate.Report, SamePath;
    assert t.nodes.Keys == s.nodes.Keys;
    forall i | 0 <= i < |t.nodes[n].shared|
      ensures GoodShared(t.nodes[n].shared[i], n, s.nodes.Keys, strict)
    {
      var c := t.nodes[n].shared[i];
      assert TracedBack(p, s.nodes[n], n, c);
      if c.card.cardType == RemoteCard {
        var q, j :| q in s.nodes[n].received && 0 <= j < |s.nodes[n].received[q]|
          && Stands(p, c.card, s.nodes[n].received[q][j].card) && c.origin == s.nodes[n].received[q][j].origin;
        assert GoodNode(s.nodes[n], n, s.nodes.Keys, strict);
        RemoteIsGood(s.nodes[n].received[q][j], q, n, s.nodes.Keys, c, strict);
      } else {
        var d := ListedFromBuilt(CardsOf(s.nodes[n].shared), Fold(p, [], offers), now, i);
        FoldFromOffer(p, [], [], offers, d);
        assert [] + offers == offers;
        var o :| 0 <= o < |offers| && SamePath(d, Entering(offers[o].card, offers[o].freeCard));
        assert OfferedBy(s.nodes[n], n, offers[o]);
        LocalIsGood(n, s.nodes.Keys, c, d, offers[o], strict);
      }
    }
  }

  /** A reported card differs from one of the built list by id and timeout at most. */
  lemma ListedFromBuilt(olds: seq<Card>, built: seq<Card>, now: int, i: nat) returns (d: Card)
    requires i < |ShareUpdate.Compare(olds, built, now).news|
    ensures d in built && SamePath(ShareUpdate.Compare(olds, built, now).news[i], d)
  {
    hide ShareUpdate.Report, ShareUpdate.Conserved, ShareUpdate.AddedOnce, SameCard;
    ShareUpdate.CompareAccounts(olds, built, now);
    d := built[i];
  }

  lemma RemoteIsGood(d: Traced, from: NodeId, n: NodeId, nodes: set<NodeId>, t: Traced, strict: bool)
    requires GoodReceived(d, from, n, nodes, strict) && t.card.cardType == RemoteCard
    requires SamePath(t.card, CopyOf(d.card)) && t.origin == d.origin
    ensures GoodShared(t, n, nodes, strict)
  {
    hide CopyOf, Distinct;
    CopyIsSame(d.card);
    CopyReshare(d.card);
  }

  lemma CopyReshare(c: Card)
    ensures CopyOf(c).reshare == c.reshare && CopyOf(c).cardType == c.cardType
  {
    hide MergeNodes, MergeProviders;
  }

  lemma LocalIsGood(n: NodeId, nodes: set<NodeId>, t: Traced, d: Card, o: Offer, strict: bool)
    requires t.card.cardType != RemoteCard && t.origin.node == n && t.origin.hop == t.card.hop
    requires o.card.cardType != RemoteCard ==> o.card.remoteNodes == [] && o.card.hop < 256 && o.card.reshare < 256
    requires SamePath(t.card, d) && SamePath(d, Entering(o.card, o.freeCard))
    ensures GoodShared(t, n, nodes, strict)
  {
    hide CopyOf;
    EmptyPathCopied(o.card);
    CopyReshare(o.card);
    CopyIsSame(o.card);
  }

  lemma EmptyPathCopied(c: Card)
    ensures c.remoteNodes == [] ==> CopyOf(c).remoteNodes == []
  {
  }

  // ----- every run -----

  lemma {:induction false} RunKeeps(states: seq<Net>, steps: seq<Step>, strict: bool, k: nat)
    requires IsRun(states, steps) && Quiet(states[0]) && k < |states| && PathsKept(steps)
    requires strict ==> IgnoreOff(steps)
    ensures Inv(states[k], strict)
  {
    hide Inv, RebuildShares, SendCard, ReceiveCard, DropCards, Quiet;
    if k == 0 {
      QuietIsGood(states[0], strict);
    } else {
      RunKeeps(states, steps, strict, k - 1);
      var s, t := states[k - 1], states[k - 1 + 1];
      assert Next(s, t, steps[k - 1]);
      match steps[k - 1] {
        case Rebuild(n, p, offers, now) => RebuildKeeps(s, t, n, p, offers, now, strict);
        case Send(from, to, i, r, x) => SendKeeps(s, t, from, to, i, r, x, strict);
        case Receive(packet, l) => ReceiveKeeps(s, t, packet, l, strict);
        case Drop(n) => DropKeeps(s, t, n, strict);
      }
    }
  }

  lemma QuietIsGood(s: Net, strict: bool)
    requires Quiet(s)
    ensures Inv(s, strict)
  {
  }

  lemma {:induction false} DistinctFitsSet(path: seq<NodeId>, nodes: set<NodeId>)
    requires Distinct(path) && forall i :: 0 <= i < |path| ==> path[i] in nodes
    ensures |path| <= |nodes|
    decreases |path|
  {
    if path != [] {
      DistinctFitsSet(path[1..], nodes - {path[0]});
    }
  }

  /** Loop-freedom in every state of every run without CAID merging. */
  lemma LoopFree(states: seq<Net>, steps: seq<Step>, k: nat)
    requires IsRun(states, steps) && Quiet(states[0]) && k < |states| && PathsKept(steps)
    ensures AllFreeOfLoops(states[k])
  {
    hide IsRun, Quiet, PathsKept;
    RunKeeps(states, steps, false, k);
    var s := states[k];
    forall n, peer, i | n in s.nodes && peer in s.nodes[n].received && 0 <= i < |s.nodes[n].received[peer]|
      ensures FreeOfLoops(s.nodes[n].received[peer][i], n, peer, |s.nodes|)
    {
      HeldIsFree(s, n, peer, i);
    }
  }

  lemma HeldIsFree(s: Net, n: NodeId, peer: NodeId, i: nat)
    requires Inv(s, false) && n in s.nodes && peer in s.nodes[n].received && i < |s.nodes[n].received[peer]|
    ensures FreeOfLoops(s.nodes[n].received[peer][i], n, peer, |s.nodes|)
  {
    var c := s.nodes[n].received[peer][i];
    assert GoodNode(s.nodes[n], n, s.nodes.Keys, false);
    assert GoodReceived(c, peer, n, s.nodes.Keys, false);
    DistinctFitsSet(c.card.remoteNodes, s.nodes.Keys - {n});
    assert |s.nodes.Keys| == |s.nodes|;
  }

  /** What that says of one card: how its path runs, and that its hop grew by one per node. */
  lemma HeldPath(states: seq<Net>, steps: seq<Step>, k: nat, n: NodeId, peer: NodeId, i: nat)
    requires IsRun(states, steps) && Quiet(states[0]) && k < |states|
    requires forall j :: 0 <= j < |steps| && steps[j].Rebuild? ==> steps[j].p != MinimizeCaid
    requires n in states[k].nodes && peer in states[k].nodes[n].received && i < |states[k].nodes[n].received[peer]|
    ensures
      var c := states[k].nodes[n].received[peer][i];
      var path := c.card.remoteNodes;
      && 1 <= |path| < |states[k].nodes| && path[0] == c.origin.node && path[|path| - 1] == peer
      && (forall x, y :: 0 <= x < y < |path| ==> path[x] != path[y]) && (forall x :: 0 <= x < |path| ==> path[x] != n)
      && c.card.hop == c.origin.hop + |path|
  {
    LoopFree(states, steps, k);
    assert FreeOfLoops(states[k].nodes[n].received[peer][i], n, peer, |states[k].nodes|);
  }

  /** Reshare is a termination measure: with ignore-reshare off everywhere, a card first sent
      with reshare r is at most r + 1 nodes away from its origin. */
  lemma ReshareBoundsPath(states: seq<Net>, steps: seq<Step>, k: nat, n: NodeId, peer: NodeId, i: nat)
    requires IsRun(states, steps) && Quiet(states[0]) && k < |states| && PathsKept(steps) && IgnoreOff(steps)
    requires n in states[k].nodes && peer in states[k].nodes[n].received && i < |states[k].nodes[n].received[peer]|
    ensures
      var c := states[k].nodes[n].received[peer][i];
      |c.card.remoteNodes| + c.card.reshare <= c.origin.reshare + 1
  {
    hide IsRun, Quiet;
    RunKeeps(states, steps, true, k);
    var s := states[k];
    assert GoodNode(s.nodes[n], n, s.nodes.Keys, true);
    assert GoodReceived(s.nodes[n].received[peer][i], peer, n, s.nodes.Keys, true);
  }
}
