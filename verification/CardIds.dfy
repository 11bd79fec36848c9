/** What share ids mean in a run of the card network: a node never gives one id to two classes of
    cards, so a withdrawal, which carries nothing but an id, hits the card it is meant for. */
module CardIds {
  import opened Bytes
  import opened Cards
  import opened CardCodec
  import opened CardList
  import opened CardNetwork
  import ShareUpdate

  // ----- what an id names -----

  /** A card on its way from m, or received from m, shows what the listed card c shows: remote id,
      caid and the node it started from. */
  predicate Shows(d: Card, c: Card, m: NodeId) {
    && d.remoteId == c.remoteId % 0x100000000 && d.caid == c.caid % 0x10000
    && d.remoteNodes != [] && d.remoteNodes[0] == if c.remoteNodes == [] then m else c.remoteNodes[0]
  }

  predicate Numbering(node: Node) { ShareUpdate.GoodIds(ShareUpdate.Numbered(CardsOf(node.shared), node.shareId)) }

  /** A card that m sent carries an id that m gave, and agrees with the card that is listed under it. */
  ghost predicate SentBy(d: Card, node: Node, m: NodeId) {
    && 0 < d.id < node.shareId
    && forall i :: 0 <= i < |node.shared| && node.shared[i].card.id == d.id ==> Shows(d, node.shared[i].card, m)
  }

  /** The counters have not wrapped after k steps. */
  ghost predicate IdInv(s: Net, k: nat) {
    && (forall n :: n in s.nodes ==> Numbering(s.nodes[n]) && s.nodes[n].shareId <= 0x64 + k)
    && (forall p :: p in s.wire ==> p.from in s.nodes && SentBy(p.traced.card, s.nodes[p.from], p.from))
    && (forall n :: n in s.nodes ==> AllSent(s, s.nodes[n].received))
  }

  /** Whatever is held from m was sent by m. */
  ghost predicate AllSent(s: Net, received: map<NodeId, seq<Traced>>) {
    forall m: NodeId :: m in received ==> HeldSent(s, m, received[m])
  }

  ghost predicate HeldSent(s: Net, m: NodeId, held: seq<Traced>) {
    forall c :: c in held ==> m in s.nodes && SentBy(c.card, s.nodes[m], m)
  }

  /** What a step has to keep: nodes, numbering, and whatever was sent. */
  ghost predicate Carries(s: Net, t: Net, k: nat) {
    && t.nodes.Keys == s.nodes.Keys
    && (forall n :: n in s.nodes ==> Numbering(t.nodes[n]) && t.nodes[n].shareId <= 0x64 + k)
    && (forall d: Card, m: NodeId :: m in s.nodes && SentBy(d, s.nodes[m], m) ==> SentBy(d, t.nodes[m], m))
  }

  lemma StaySent(s: Net, t: Net, received: map<NodeId, seq<Traced>>, k: nat)
    requires AllSent(s, received) && Carries(s, t, k)
    ensures AllSent(t, received)
  {
    forall m: NodeId | m in received
      ensures HeldSent(t, m, received[m])
    {
      assert HeldSent(s, m, received[m]);
    }
  }

  lemma CarriedOn(s: Net, t: Net, k: nat)
    requires IdInv(s, k) && Carries(s, t, k + 1)
    requires forall p :: p in t.wire && p !in s.wire ==> p.from in s.nodes && SentBy(p.traced.card, t.nodes[p.from], p.from)
    requires forall n :: n in s.nodes ==> AllSent(t, t.nodes[n].received) || t.nodes[n].received == s.nodes[n].received
    ensures IdInv(t, k + 1)
  {
    hide SentBy, Numbering, AllSent;
    forall n | n in t.nodes
      ensures AllSent(t, t.nodes[n].received)
    {
      if t.nodes[n].received == s.nodes[n].received {
        StaySent(s, t, s.nodes[n].received, k + 1);
      }
    }
  }

  // ----- lists are unnumbered until they are compared -----

  lemma {:induction false} FoldUnnumbered(p: Policy, list: seq<Card>, offers: seq<Offer>)
    requires ShareUpdate.Unnumbered(list)
    requires forall o :: 0 <= o < |offers| && offers[o].freeCard ==> offers[o].card.id == 0
    ensures ShareUpdate.Unnumbered(Fold(p, list, offers))
    decreases |offers|
  {
    hide CardList.Add;
    if offers != [] {
      AddUnnumbered(p, list, offers[0]);
      FoldUnnumbered(p, CardList.Add(p, list, offers[0].card, offers[0].freeCard), offers[1..]);
    }
  }

  lemma AddUnnumbered(p: Policy, list: seq<Card>, offer: Offer)
    requires ShareUpdate.Unnumbered(list) && (offer.freeCard ==> offer.card.id == 0)
    ensures ShareUpdate.Unnumbered(CardList.Add(p, list, offer.card, offer.freeCard))
  {
    hide SameCard, SameCard2, EqualProviders, MergeProviders, MergeNodes;
  }

  // ----- the steps -----

  /** A card that takes an old id over is the same card, so what was sent under it still agrees. */
  lemma RebuildKeepsSent(before: Node, after: Node, built: seq<Card>, now: int, d: Card, m: NodeId)
    requires CardsOf(after.shared) == ShareUpdate.Compare(CardsOf(before.shared), built, now).news
    requires after.shareId == before.shareId && ShareUpdate.Unnumbered(built) && SentBy(d, before, m)
    ensures SentBy(d, after, m)
  {
    hide ShareUpdate.Report, ShareUpdate.AddedOnce, ShareUpdate.TimedOut;
    var olds := CardsOf(before.shared);
    var diff := ShareUpdate.Compare(olds, built, now);
    ShareUpdate.CompareAccounts(olds, built, now);
    forall i | 0 <= i < |after.shared| && after.shared[i].card.id == d.id
      ensures Shows(d, after.shared[i].card, m)
    {
      assert after.shared[i].card == diff.news[i];
      var old2 := diff.partners[i].value;
      PartnerIsOld(diff, olds, i);
      var j :| 0 <= j < |olds| && olds[j] == old2;
      assert Shows(d, before.shared[j].card, m);
    }
  }

  lemma PartnerIsOld(diff: ShareUpdate.Diff, olds: seq<Card>, i: nat)
    requires ShareUpdate.Conserved(diff, olds) && i < |diff.partners| && diff.partners[i].Some?
    ensures diff.partners[i].value in olds
  {
    PartnerPresent(diff.partners, i);
    assert diff.partners[i].value in multiset(ShareUpdate.Present(diff.partners));
    assert diff.partners[i].value in multiset(olds);
  }

  lemma {:induction false} PartnerPresent(ps: seq<Option<Card>>, i: nat)
    requires i < |ps| && ps[i].Some?
    ensures ps[i].value in ShareUpdate.Present(ps)
    decreases |ps|
  {
    if i < |ps| - 1 {
      PartnerPresent(ps[..|ps| - 1], i);
    }
  }

  lemma RebuildKeepsNumbering(before: Node, after: Node, built: seq<Card>, now: int)
    requires CardsOf(after.shared) == ShareUpdate.Compare(CardsOf(before.shared), built, now).news
    requires after.shareId == before.shareId && ShareUpdate.Unnumbered(built) && Numbering(before)
    ensures Numbering(after)
  {
    hide ShareUpdate.Report;
    ShareUpdate.AnnounceReady(CardsOf(before.shared), built, now, before.shareId);
  }

  lemma RebuildKeeps(s: Net, t: Net, n: NodeId, p: Policy, offers: seq<Offer>, now: int, k: nat)
    requires IdInv(s, k) && RebuildShares(s, t, n, p, offers, now)
    ensures IdInv(t, k + 1)
  {
    hide Numbering, SentBy, TracedBack, Fold, ShareUpdate.Report;
    var built := Fold(p, [], offers);
    assert forall o :: 0 <= o < |offers| ==> OfferedBy(s.nodes[n], n, offers[o]);
    FoldUnnumbered(p, [], offers);
    RebuildKeepsNumbering(s.nodes[n], t.nodes[n], built, now);
    forall d, m | m in s.nodes && SentBy(d, s.nodes[m], m)
      ensures SentBy(d, t.nodes[m], m)
    {
      if m == n {
        RebuildKeepsSent(s.nodes[n], t.nodes[n], built, now, d, n);
      }
    }
    CarriedOn(s, t, k);
  }

  /** A fresh id is new to everything that was sent. */
  lemma SendKeepsSent(node: Node, i: nat, d: Card, m: NodeId)
    requires i < |node.shared| && Numbering(node) && SentBy(d, node, m) && node.shareId + 1 < 0x100000000
    ensures SentBy(d, Sent(node, i), m)
  {
  }

  /** The sender afterwards. */
  function Sent(node: Node, i: nat): Node
    requires i < |node.shared|
  {
    var c := node.shared[i].(card := Identified(node.shared[i].card, node.shareId));
    Node(node.shared[i := c], node.received, NextId(node.shared[i].card, node.shareId))
  }

  lemma SendKeepsNumbering(node: Node, i: nat)
    requires i < |node.shared| && Numbering(node) && node.shareId + 1 < 0x100000000
    ensures Numbering(Sent(node, i))
  {
  }

  /** What is sent agrees with what is listed. */
  lemma JustSent(node: Node, i: nat, m: NodeId, x: Context, reshare: byte)
    requires i < |node.shared| && Numbering(node) && node.shareId + 1 < 0x100000000 && x.addOwn == Some(m)
    ensures SentBy(Project(Sent(node, i).shared[i].card, x, reshare), Sent(node, i), m)
  {
    hide Assigned, Rejected, ProjectProviders, AsGood, AsBad, Low16;
    var after := Sent(node, i);
    var c := after.shared[i].card;
    SendKeepsNumbering(node, i);
    assert Nodes(c, x) == c.remoteNodes + [m];
    assert 0 < c.id < after.shareId <= 0xFFFFFFFF;
    forall j | 0 <= j < |after.shared| && after.shared[j].card.id == c.id
      ensures j == i
    {
      var cards := CardsOf(after.shared);
      assert cards[j].id == cards[i].id;
    }
  }

  lemma SendKeeps(s: Net, t: Net, from: NodeId, to: NodeId, i: nat, r: Rules, x: Context, k: nat)
    requires IdInv(s, k) && SendCard(s, t, from, to, i, r, x) && 0x64 + k + 1 < 0x100000000
    ensures IdInv(t, k + 1)
  {
    hide Numbering, SentBy, Encode, Decode, Project, ValidForClient, NewReshare;
    var node := s.nodes[from];
    assert t.nodes == s.nodes[from := Sent(node, i)];
    var reshare := NewReshare(node.shared[i].card, r);
    SameReshare(node.shared[i].card, node.shareId, r);
    RoundTrip(Sent(node, i).shared[i].card, x, reshare);
    SendKeepsNumbering(node, i);
    JustSent(node, i, from, x, reshare);
    forall d, m | m in s.nodes && SentBy(d, s.nodes[m], m)
      ensures SentBy(d, t.nodes[m], m)
    {
      if m == from {
        SendKeepsSent(node, i, d, m);
      }
    }
    CarriedOn(s, t, k);
  }

  lemma SameReshare(c: Card, shareId: nat, r: Rules)
    ensures NewReshare(Identified(c, shareId), r) == NewReshare(c, r)
  {
  }

  lemma ReceiveKeeps(s: Net, t: Net, p: Packet, l: Limits, k: nat)
    requires IdInv(s, k) && ReceiveCard(s, t, p, l)
    ensures IdInv(t, k + 1)
  {
    hide Known, Numbering;
    OnlyReceived(s, t);
    if t != s {
      var held := ReceivedFrom(s.nodes[p.to], p.from);
      var kept := Traced(Accept(CardsOf(held), p.traced.card, p.to, l).value, p.traced.origin);
      SameSent(p.traced.card, kept.card, s.nodes[p.from], p.from);
      StaySent(s, t, s.nodes[p.to].received, k + 1);
      MoreSent(t, s.nodes[p.to].received, p.from, held, kept);
    }
    CarriedOn(s, t, k);
  }

  lemma MoreSent(s: Net, received: map<NodeId, seq<Traced>>, from: NodeId, held: seq<Traced>, kept: Traced)
    requires AllSent(s, received) && held == if from in received then received[from] else []
    requires from in s.nodes && SentBy(kept.card, s.nodes[from], from)
    ensures AllSent(s, received[from := held + [kept]])
  {
    hide SentBy;
    var more: map<NodeId, seq<Traced>> := received[from := held + [kept]];
    forall m: NodeId | m in more
      ensures HeldSent(s, m, more[m])
    {
      if m == from {
        assert HeldSent(s, m, held);
      } else {
        assert more[m] == received[m];
      }
    }
  }

  lemma SameSent(d: Card, e: Card, node: Node, m: NodeId)
    requires SentBy(d, node, m) && e.id == d.id && e.remoteId == d.remoteId && e.caid == d.caid && e.remoteNodes == d.remoteNodes
    ensures SentBy(e, node, m)
  {
  }

  /** What was received plays no part in what was sent. */
  lemma OnlyReceived(s: Net, t: Net)
    requires s.nodes.Keys == t.nodes.Keys
    requires forall n :: n in s.nodes ==> t.nodes[n].shared == s.nodes[n].shared && t.nodes[n].shareId == s.nodes[n].shareId
    ensures forall n :: n in s.nodes ==> (Numbering(s.nodes[n]) <==> Numbering(t.nodes[n]))
    ensures forall n, d :: n in s.nodes ==> (SentBy(d, s.nodes[n], n) <==> SentBy(d, t.nodes[n], n))
  {
  }

  lemma DropKeeps(s: Net, t: Net, n: NodeId, k: nat)
    requires IdInv(s, k) && DropCards(s, t, n)
    ensures IdInv(t, k + 1)
  {
    hide Numbering;
    OnlyReceived(s, t);
    StaySent(s, t, s.nodes[n].received, k + 1);
    LessSent(t, s.nodes[n].received, t.nodes[n].received);
    CarriedOn(s, t, k);
  }

  lemma LessSent(s: Net, received: map<NodeId, seq<Traced>>, less: map<NodeId, seq<Traced>>)
    requires AllSent(s, received) && less.Keys <= received.Keys
    requires forall p :: p in less ==> multiset(less[p]) <= multiset(received[p])
    ensures AllSent(s, less)
  {
    hide SentBy;
    forall m: NodeId | m in less
      ensures HeldSent(s, m, less[m])
    {
      assert HeldSent(s, m, received[m]);
      forall c | c in less[m]
        ensures c in received[m]
      {
        assert c in multiset(less[m]) && c in multiset(received[m]);
      }
    }
  }

  // ----- every run -----

  /** As long as fewer ids were given than the counter has values. */
  lemma {:induction false} RunKeeps(states: seq<Net>, steps: seq<Step>, k: nat)
    requires IsRun(states, steps) && Quiet(states[0]) && k < |states| && 0x64 + k < 0x100000000
    ensures IdInv(states[k], k)
  {
    hide IdInv, RebuildShares, SendCard, ReceiveCard, DropCards, Quiet;
    if k == 0 {
      QuietNumbers(states[0]);
    } else {
      RunKeeps(states, steps, k - 1);
      var s, t := states[k - 1], states[k - 1 + 1];
      assert Next(s, t, steps[k - 1]);
      match steps[k - 1] {
        case Rebuild(n, p, offers, now) => RebuildKeeps(s, t, n, p, offers, now, k - 1);
        case Send(from, to, i, r, x) => SendKeeps(s, t, from, to, i, r, x, k - 1);
        case Receive(packet, l) => ReceiveKeeps(s, t, packet, l, k - 1);
        case Drop(n) => DropKeeps(s, t, n, k - 1);
      }
    }
  }

  lemma QuietNumbers(s: Net)
    requires Quiet(s)
    ensures IdInv(s, 0)
  {
  }

  /** Every card is held once and no two have one id. */
  predicate Once(held: seq<Traced>) {
    && (forall c :: c in held ==> multiset(held)[c] == 1)
    && (forall c, d :: c in held && d in held && c.card.id == d.card.id ==> c == d)
  }

  ghost predicate AllOnce(s: Net) {
    forall n, m :: n in s.nodes && m in s.nodes[n].received ==> Once(s.nodes[n].received[m])
  }

  lemma OnceGrows(held: seq<Traced>, kept: Traced)
    requires Once(held) && forall i :: 0 <= i < |held| ==> held[i].card.id != kept.card.id
    ensures Once(held + [kept])
  {
    assert kept !in held;
    assert multiset(held)[kept] == 0;
  }

  lemma OnceShrinks(held: seq<Traced>, less: seq<Traced>)
    requires Once(held) && multiset(less) <= multiset(held)
    ensures Once(less)
  {
    forall c | c in less
      ensures c in held && multiset(less)[c] == 1
    {
      assert c in multiset(less) && c in multiset(held);
    }
  }

  lemma CountedTwice(held: seq<Traced>, i: nat, j: nat)
    requires i < j < |held| && held[i] == held[j]
    ensures multiset(held)[held[i]] >= 2
  {
    assert held == held[..j] + held[j..];
    assert held[i] == held[..j][i] && held[j] == held[j..][0];
    assert held[i] in multiset(held[..j]) && held[j] in multiset(held[j..]);
  }

  lemma OnceApart(held: seq<Traced>, i: nat, j: nat)
    requires Once(held) && i < j < |held|
    ensures held[i].card.id != held[j].card.id
  {
    if held[i].card.id == held[j].card.id {
      CountedTwice(held, i, j);
    }
  }

  /** In every run, whatever the counters do. */
  lemma {:induction false} EveryIdOnce(states: seq<Net>, steps: seq<Step>, k: nat)
    requires IsRun(states, steps) && Quiet(states[0]) && k < |states|
    ensures AllOnce(states[k])
  {
    hide RebuildShares, SendCard, ReceiveCard, DropCards, Once;
    if k > 0 {
      EveryIdOnce(states, steps, k - 1);
      assert Next(states[k - 1], states[k - 1 + 1], steps[k - 1]);
      NextOnce(states[k - 1], states[k], steps[k - 1]);
    }
  }

  lemma NextOnce(s: Net, t: Net, step: Step)
    requires AllOnce(s) && Next(s, t, step)
    ensures AllOnce(t)
  {
    hide Once, OfferedBy, TracedBack, Fold, Encode, Decode;
    if step.Receive? {
      var p := step.packet;
      var held := ReceivedFrom(s.nodes[p.to], p.from);
      if t != s {
        var kept := Traced(Accept(CardsOf(held), p.traced.card, p.to, step.l).value, p.traced.origin);
        assert forall i :: 0 <= i < |held| ==> CardsOf(held)[i].id != kept.card.id;
        EmptyOnce();
        OnceGrows(held, kept);
      }
    } else if step.Drop? {
      forall m | m in t.nodes[step.n].received
        ensures Once(t.nodes[step.n].received[m])
      {
        OnceShrinks(s.nodes[step.n].received[m], t.nodes[step.n].received[m]);
      }
    }
  }

  lemma EmptyOnce()
    ensures Once([])
  {
  }

  // ----- withdrawing a card -----

  /** cc_card_removed: every card with the id goes. */
  function Removed(held: seq<Traced>, id: nat): seq<Traced>
    decreases |held|
  {
    if held == [] then []
    else (if held[0].card.id == id then [] else [held[0]]) + Removed(held[1..], id)
  }

  lemma {:induction false} NoneRemoved(held: seq<Traced>, id: nat)
    requires forall i :: 0 <= i < |held| ==> held[i].card.id != id
    ensures Removed(held, id) == held
    decreases |held|
  {
    if held != [] {
      NoneRemoved(held[1..], id);
    }
  }

  lemma {:induction false} OneRemoved(held: seq<Traced>, id: nat, i: nat)
    requires i < |held| && held[i].card.id == id && forall j :: 0 <= j < |held| && j != i ==> held[j].card.id != id
    ensures Removed(held, id) == held[..i] + held[i + 1..]
    decreases |held|
  {
    if i == 0 {
      NoneRemoved(held[1..], id);
    } else {
      OneRemoved(held[1..], id, i - 1);
      assert held[..i] + held[i + 1..] == [held[0]] + (held[1..][..i - 1] + held[1..][i..]);
    }
  }

  /** When m withdraws the card it lists in place j, a node that holds cards of m loses nothing or
      exactly one, and that one shows remote id, caid and first node of the card withdrawn. */
  ghost predicate HitsMeant(s: Net, n: NodeId, m: NodeId, j: nat)
    requires n in s.nodes && m in s.nodes && m in s.nodes[n].received && j < |s.nodes[m].shared|
  {
    var held, c := s.nodes[n].received[m], s.nodes[m].shared[j].card;
    || ((forall i :: 0 <= i < |held| ==> held[i].card.id != c.id) && Removed(held, c.id) == held)
    || exists i :: 0 <= i < |held| && held[i].card.id == c.id && Shows(held[i].card, c, m)
                   && Removed(held, c.id) == held[..i] + held[i + 1..]
  }

  lemma WithdrawalHits(states: seq<Net>, steps: seq<Step>, k: nat, n: NodeId, m: NodeId, j: nat)
    requires IsRun(states, steps) && Quiet(states[0]) && k < |states| && 0x64 + k < 0x100000000
    requires n in states[k].nodes && m in states[k].nodes && m in states[k].nodes[n].received && j < |states[k].nodes[m].shared|
    ensures HitsMeant(states[k], n, m, j)
  {
    hide IsRun, Quiet, Once, Removed, Shows;
    RunKeeps(states, steps, k);
    EveryIdOnce(states, steps, k);
    var s := states[k];
    var held, c := s.nodes[n].received[m], s.nodes[m].shared[j].card;
    if i: nat :| i < |held| && held[i].card.id == c.id {
      assert AllSent(s, s.nodes[n].received);
      assert HeldSent(s, m, held);
      assert SentBy(held[i].card, s.nodes[m], m);
      assert Shows(held[i].card, c, m);
      forall l | 0 <= l < |held| && l != i
        ensures held[l].card.id != c.id
      {
        OnceApart(held, if l < i then l else i, if l < i then i else l);
      }
      OneRemoved(held, c.id, i);
    } else {
      NoneRemoved(held, c.id);
    }
  }
}
