/** Cards travelling through a network of servers (module-cccshare.c, module-cccam.c): the share
    list, what is sent, what is received, and the runs of these steps. */
module CardNetwork {
  import opened Bytes
  import opened Cards
  import opened CardCodec
  import opened CardList
  import ShareUpdate

  // ----- the sender's decision -----

  function ToInt8(x: int): int { (x + 128) % 256 - 128 }

  /** What an account and the configuration say about resharing; `otherOk` stands for the
      group, ident, caid and service checks, which look neither at path, hop nor reshare. */
  datatype Rules = Rules(usrReshare: int, cfgReshare: int, ignoreReshare: bool, maxHops: int, otherOk: bool)

  /** new_reshare in send_card_to_client, an 8-bit signed variable. */
  function NewReshare(c: Card, r: Rules): int {
    var usr := if r.usrReshare == -1 then r.cfgReshare else r.usrReshare;
    var reader0 := if c.originReader.Some? then ToInt8(c.rdrReshare) else usr;
    var reader := if reader0 == -1 then r.cfgReshare else reader0;
    var limit := if reader < usr then reader else usr;
    if c.cardType == CardByServiceUser then usr
    else if r.ignoreReshare then limit
    else
      var own := ToInt8(c.reshare);
      var new0 := if c.cardType == RemoteCard then ToInt8(own - 1) else own;
      if new0 > limit then limit else new0
  }

  predicate ValidForClient(c: Card, peer: NodeId, r: Rules) {
    && r.otherOk
    && (c.cardType == RemoteCard && !r.ignoreReshare ==> c.reshare != 0)
    && c.hop <= r.maxHops
    && peer !in c.remoteNodes
  }

  /** A forwarded remote card goes out with a reshare at least one lower, and not negative. */
  lemma ReshareDrops(c: Card, peer: NodeId, r: Rules)
    requires c.cardType == RemoteCard && !r.ignoreReshare && c.reshare < 256
    requires ValidForClient(c, peer, r) && NewReshare(c, r) >= 0
    ensures NewReshare(c, r) <= c.reshare - 1
  {
  }

  /** Why the policy matters: MINIMIZE_CAID clears the path of a merged card, so the card can
      be valid for a node it already passed through. */
  lemma MergedCardForgetsPath(a: Card, b: Card, peer: NodeId, r: Rules)
    requires CanMerge(b, a) && peer in a.remoteNodes && r.otherOk && a.hop <= r.maxHops
    requires r.ignoreReshare || a.reshare != 0
    ensures !ValidForClient(a, peer, r) && AddCaid([a], b, false) == [Merged(a, b)] && ValidForClient(Merged(a, b), peer, r)
  {
    assert FindMergeable([a], b, 0) == 0;
  }

  // ----- state -----

  /** Where a card started: the node, its hop there and the reshare it was first sent with. */
  datatype Origin = Origin(node: NodeId, hop: nat, reshare: nat)

  /** A card together with where it came from, which the program does not record. */
  datatype Traced = Traced(card: Card, origin: Origin)

  /** The list of reported cards, what every peer sent, and the counter of share ids. */
  datatype Node = Node(shared: seq<Traced>, received: map<NodeId, seq<Traced>>, shareId: nat)

  datatype Packet = Packet(from: NodeId, to: NodeId, traced: Traced)

  datatype Net = Net(nodes: map<NodeId, Node>, wire: set<Packet>)

  function ReceivedFrom(n: Node, peer: NodeId): seq<Traced> {
    if peer in n.received then n.received[peer] else []
  }

  // ----- steps -----

  function CardsOf(ts: seq<Traced>): (r: seq<Card>)
    ensures |r| == |ts|
    ensures forall i :: 0 <= i < |ts| ==> r[i] == ts[i].card
  {
    seq(|ts|, (i: nat) requires i < |ts| => ts[i].card)
  }

  /** update_card_list: the list built from own cards and from what was received, under a policy,
      is compared with the reported one and takes its place; a card that was there keeps its id. */
  ghost predicate RebuildShares(s: Net, t: Net, n: NodeId, p: Policy, offers: seq<Offer>, now: int) {
    && n in s.nodes && n in t.nodes && t == Net(s.nodes[n := s.nodes[n].(shared := t.nodes[n].shared)], s.wire)
    && (forall o :: 0 <= o < |offers| ==> OfferedBy(s.nodes[n], n, offers[o]))
    && CardsOf(t.nodes[n].shared) == ShareUpdate.Compare(CardsOf(s.nodes[n].shared), Fold(p, [], offers), now).news
    && forall i :: 0 <= i < |t.nodes[n].shared| ==> TracedBack(p, s.nodes[n], n, t.nodes[n].shared[i])
  }

  /** Own cards are new: they have no id, no path, and a hop that fits a byte; received cards are
      copied. */
  ghost predicate OfferedBy(node: Node, n: NodeId, o: Offer) {
    if o.card.cardType == RemoteCard then
      !o.freeCard && exists p, i :: p in node.received && 0 <= i < |node.received[p]| && node.received[p][i].card == o.card
    else o.freeCard && o.card.id == 0 && o.card.remoteNodes == [] && o.card.hop < 256 && o.card.reshare < 256
  }

  /** The trace of a listed remote card is that of a received one with the same hop, path and
      reshare; with CAID merging, of any received one of its class. Other cards start here. */
  ghost predicate TracedBack(p: Policy, node: Node, n: NodeId, t: Traced) {
    if t.card.cardType == RemoteCard then
      exists q, i :: q in node.received && 0 <= i < |node.received[q]|
        && Stands(p, t.card, node.received[q][i].card) && t.origin == node.received[q][i].origin
    else t.origin.node == n && t.origin.hop == t.card.hop
  }

  /** A listed card stands for a received one. */
  predicate Stands(p: Policy, c: Card, d: Card) {
    if p == MinimizeCaid then SameCard2(c, d, false) else SamePath(c, CopyOf(d))
  }

  /** A card without an id gets the next one of the 32-bit counter. */
  function Identified(c: Card, shareId: nat): Card { if c.id == 0 then c.(id := shareId) else c }

  function NextId(c: Card, shareId: nat): nat { if c.id == 0 then (shareId + 1) % 0x100000000 else shareId }

  /** send_card_to_client: the listed card keeps the id it is sent with. What travels is the
      message that write_card makes of the card, with the sender appended to the path; here it is
      seen through read_card. */
  ghost predicate SendCard(s: Net, t: Net, from: NodeId, to: NodeId, i: nat, r: Rules, x: Context) {
    && from in s.nodes && to in s.nodes && i < |s.nodes[from].shared| && x.addOwn == Some(from)
    && var node := s.nodes[from];
       var c := node.shared[i].(card := Identified(node.shared[i].card, node.shareId));
       var new_reshare := NewReshare(c.card, r);
       && ValidForClient(c.card, to, r) && 0 <= new_reshare < 256
       && |Encode(c.card, x, new_reshare)| <= CC_MAXMSGSIZE
       && Decode(Encode(c.card, x, new_reshare), x.ext).Some?
       && var origin := if c.card.cardType == RemoteCard then c.origin else c.origin.(reshare := new_reshare);
          t == Net(s.nodes[from := Node(node.shared[i := c], node.received, NextId(node.shared[i].card, node.shareId))],
                   s.wire + {Packet(from, to, Traced(Decode(Encode(c.card, x, new_reshare), x.ext).value, origin))})
  }

  /** The reader's limits (cc_maxhops is a signed byte) and what it stamps on a new card;
      `otherOk` stands for the caid and ident checks. */
  datatype Limits = Limits(maxHops: int, minDown: int, otherOk: bool, reader: nat, grp: set<nat>, rdrReshare: int)

  predicate Known(held: seq<Card>, c: Card) {
    exists i :: 0 <= i < |held| && (held[i].id == c.id || SameCard(held[i], c))
  }

  function Stamp(c: Card, l: Limits): Card {
    c.(originReader := Some(l.reader), originId := c.id, grp := l.grp, rdrReshare := l.rdrReshare)
  }

  /** The new-card message: too far, not to be reshared far enough, filtered, from ourselves,
      or already known are dropped; the rest is kept one hop further away. */
  function Accept(held: seq<Card>, c: Card, own: NodeId, l: Limits): Option<Card> {
    if c.caid == 0 || c.hop >= l.maxHops + 1 || c.reshare < l.minDown || !l.otherOk || own in c.remoteNodes then None
    else if Known(held, Stamp(c, l)) then None
    else Some(Stamp(c, l).(hop := c.hop + 1, cardType := RemoteCard))
  }

  ghost predicate ReceiveCard(s: Net, t: Net, p: Packet, l: Limits) {
    && p in s.wire && p.to in s.nodes && -128 <= l.maxHops <= 127
    && var held := ReceivedFrom(s.nodes[p.to], p.from);
       match Accept(CardsOf(held), p.traced.card, p.to, l)
       case None => t == s
       case Some(kept) =>
         t == Net(s.nodes[p.to := s.nodes[p.to].(received := s.nodes[p.to].received[p.from := held + [Traced(kept, p.traced.origin)]])], s.wire)
  }

  /** Cards are withdrawn, moved to the end of the list, or lost with their connection. */
  ghost predicate DropCards(s: Net, t: Net, n: NodeId) {
    && n in s.nodes && n in t.nodes
    && t == Net(s.nodes[n := s.nodes[n].(received := t.nodes[n].received)], s.wire)
    && t.nodes[n].received.Keys <= s.nodes[n].received.Keys
    && forall p :: p in t.nodes[n].received ==> multiset(t.nodes[n].received[p]) <= multiset(s.nodes[n].received[p])
  }

  datatype Step =
    | Rebuild(n: NodeId, p: Policy, offers: seq<Offer>, now: int)
    | Send(from: NodeId, to: NodeId, i: nat, r: Rules, x: Context)
    | Receive(packet: Packet, l: Limits)
    | Drop(n: NodeId)

  ghost predicate Next(s: Net, t: Net, step: Step) {
    match step
    case Rebuild(n, p, offers, now) => RebuildShares(s, t, n, p, offers, now)
    case Send(from, to, i, r, x) => SendCard(s, t, from, to, i, r, x)
    case Receive(packet, l) => ReceiveCard(s, t, packet, l)
    case Drop(n) => DropCards(s, t, n)
  }

  // ----- runs -----

  ghost predicate IsRun(states: seq<Net>, steps: seq<Step>) {
    && |states| == |steps| + 1
    && forall i :: 0 <= i < |steps| ==> Next(states[i], states[i + 1], steps[i])
  }

  /** Nothing received, shared or on its way yet. */
  const FRESH: Node := Node([], map[], 0x64)

  predicate Quiet(s: Net) { s.wire == {} && forall n :: n in s.nodes ==> s.nodes[n] == FRESH }

  /** No node merges by CAID. */
  predicate PathsKept(steps: seq<Step>) { forall i :: 0 <= i < |steps| && steps[i].Rebuild? ==> steps[i].p != MinimizeCaid }

  predicate IgnoreOff(steps: seq<Step>) { forall i :: 0 <= i < |steps| && steps[i].Send? ==> !steps[i].r.ignoreReshare }

  /** A remote card held at n that came from the peer has a path without repetitions and without
      n that begins at its origin and ends in the peer; its hop grew by one per node, and the path
      is shorter than the network is large. */
  predicate FreeOfLoops(c: Traced, n: NodeId, peer: NodeId, size: nat) {
    var path := c.card.remoteNodes;
    && Distinct(path) && n !in path && path != [] && path[0] == c.origin.node && path[|path| - 1] == peer
    && c.card.hop - c.origin.hop == |path| && |path| < size
  }

  ghost predicate AllFreeOfLoops(s: Net) {
    forall n, peer, i :: n in s.nodes && peer in s.nodes[n].received && 0 <= i < |s.nodes[n].received[peer]| ==>
      FreeOfLoops(s.nodes[n].received[peer][i], n, peer, |s.nodes|)
  }
}
