/** Runs of the card network in which a node sends two of its own cards to a peer; on one of them
    the peer forwards both to a third node. */
module CardRuns {
  import opened Bytes
  import opened Cards
  import opened CardCodec
  import opened CardList
  import opened CardNetwork
  import ShareUpdate

  // ----- the cards -----

  /** As create_card2 makes it for a service of a reader: no id yet. */
  function Own(tab: nat): Card {
    Card(0, 0x10000 + 0x100 * tab, 0x100, 0, 2, ZERO8, [], [], [], [], Some(1), 0, CardByServiceReader, Some(tab), {}, 2, 3600, false)
  }

  /** The id that the counter of a node gives to the first and the second card it sends. */
  function IdOf(tab: nat): nat { 0x64 + tab }

  /** How a card arrives: the service table is not sent. */
  function Arriving(tab: nat, path: seq<NodeId>, hop: nat, reshare: nat): Card {
    Card(IdOf(tab), 0x10000 + 0x100 * tab, 0x100, hop, reshare, ZERO8, [], [], [], path, None, 0, RemoteCard, None, {}, 0, 0, false)
  }

  function Kept(tab: nat, path: seq<NodeId>, hop: nat, reshare: nat): Card {
    Arriving(tab, path, hop + 1, reshare).(originReader := Some(0), originId := IdOf(tab), rdrReshare := 10)
  }

  function Plain(n: NodeId): Context { Context(false, false, Some(n), None, []) }

  const RULES: Rules := Rules(10, 10, false, 10, true)

  const LIMITS: Limits := Limits(10, 0, true, 0, {}, 10)

  /** A card without providers and services fits the message and arrives. */
  lemma SmallCardArrives(c: Card, n: NodeId, reshare: byte)
    requires c.providers == [] && |c.remoteNodes| <= 1
    ensures |Encode(c, Plain(n), reshare)| <= CC_MAXMSGSIZE
    ensures Decode(Encode(c, Plain(n), reshare), false) == Some(Project(c, Plain(n), reshare))
  {
    hide Encode, Decode, Project, Assigned, Rejected;
    EncodeSize(c, Plain(n), reshare);
    NoExtNoSids(c, Plain(n));
    RoundTrip(c, Plain(n), reshare);
  }

  // ----- the nodes -----

  function Trace(a: NodeId): Origin { Origin(a, 0, 2) }

  function Made(a: NodeId, tab: nat, sent: nat): Traced {
    Traced(Own(tab).(id := if tab < sent then IdOf(tab) else 0), Trace(a))
  }

  /** A node that listed its own cards and sent some of them. */
  function Owning(a: NodeId, sent: nat): Node {
    Node([Made(a, 0, sent), Made(a, 1, sent)], map[], 0x64 + sent)
  }

  /** What a node keeps of the two cards when n of them arrived from the last node of the path. */
  function Keeping(a: NodeId, path: seq<NodeId>, reshare: nat, n: nat): (r: seq<Traced>)
    requires path != [] && n <= 2
    ensures |r| == n
  {
    [Traced(Kept(0, path, |path| - 1, reshare), Trace(a)), Traced(Kept(1, path, |path| - 1, reshare), Trace(a))][..n]
  }

  function Held(a: NodeId, path: seq<NodeId>, reshare: nat, n: nat): Node
    requires path != [] && n <= 2
  {
    Node([], if n == 0 then map[] else map[path[|path| - 1] := Keeping(a, path, reshare, n)], 0x64)
  }

  function Message(a: NodeId, path: seq<NodeId>, to: NodeId, tab: nat, reshare: nat): Packet
    requires path != []
  {
    Packet(path[|path| - 1], to, Traced(Arriving(tab, path, |path| - 1, reshare), Trace(a)))
  }

  // ----- the steps -----

  function OwnOffers(): seq<Offer> { [Offer(Own(0), true), Offer(Own(1), true)] }

  function KeptOffers(a: NodeId): seq<Offer> { [Offer(Kept(0, [a], 0, 2), false), Offer(Kept(1, [a], 0, 2), false)] }

  /** No policy merges the two own cards, as their service tables differ. */
  lemma OwnStayApart(p: Policy)
    ensures Fold(p, [], OwnOffers()) == [Own(0), Own(1)]
  {
    var offers := OwnOffers();
    assert offers[1..] == [Offer(Own(1), true)] && offers[1..][1..] == [];
    assert CardList.Add(p, [], Own(0), true) == [] + [Own(0)] == [Own(0)];
    assert CardList.Add(p, [Own(0)], Own(1), true) == [Own(0)] + [Own(1)] == [Own(0), Own(1)] by {
      assert !SameCard2(Own(1), Own(0), false);
      assert FindSame([Own(0)], Own(1), 0) == 1;
    }
    assert Fold(p, [Own(0)], offers[1..]) == Fold(p, [Own(0), Own(1)], []);
  }

  /** Where nothing was reported, the built list becomes the reported one. */
  lemma {:induction false} NothingReported(d: ShareUpdate.Diff, built: seq<Card>, now: int)
    requires d.left == []
    ensures ShareUpdate.Report(d, built, now).news == d.news + built
    decreases |built|
  {
    if built == [] {
      assert d.news + built == d.news;
    } else {
      assert d.news + [built[0]] + built[1..] == d.news + built;
      NothingReported(ShareUpdate.ReportOne(d, built[0], now), built[1..], now);
    }
  }

  lemma FirstList(s: Net, n: NodeId, p: Policy, offers: seq<Offer>, shared: seq<Traced>, now: int)
    requires n in s.nodes && s.nodes[n].shared == [] && CardsOf(shared) == Fold(p, [], offers)
    requires forall o :: 0 <= o < |offers| ==> OfferedBy(s.nodes[n], n, offers[o])
    requires forall i :: 0 <= i < |shared| ==> TracedBack(p, s.nodes[n], n, shared[i])
    ensures RebuildShares(s, Net(s.nodes[n := s.nodes[n].(shared := shared)], s.wire), n, p, offers, now)
  {
    hide Fold, OfferedBy, TracedBack, ShareUpdate.Report;
    NothingReported(ShareUpdate.Diff([], [], [], []), Fold(p, [], offers), now);
    assert CardsOf([]) == [];
  }

  lemma ListsOwn(s: Net, a: NodeId, p: Policy)
    requires a in s.nodes && s.nodes[a] == FRESH
    ensures RebuildShares(s, Net(s.nodes[a := Owning(a, 0)], s.wire), a, p, OwnOffers(), 0)
  {
    hide Fold;
    OwnStayApart(p);
    FirstList(s, a, p, OwnOffers(), Owning(a, 0).shared, 0);
  }

  lemma SendsOwn(s: Net, a: NodeId, b: NodeId, tab: nat)
    requires tab < 2 && a in s.nodes && b in s.nodes && s.nodes[a] == Owning(a, tab)
    ensures SendCard(s, Net(s.nodes[a := Owning(a, tab + 1)], s.wire + {Message(a, [a], b, tab, 2)}), a, b, tab, RULES, Plain(a))
  {
    hide Encode, Decode, Project;
    var c := Made(a, tab, tab + 1);
    assert Owning(a, tab).shared[tab := c] == Owning(a, tab + 1).shared;
    SmallCardArrives(c.card, a, 2);
    assert Project(c.card, Plain(a), 2) == Arriving(tab, [a], 0, 2) by {
      OwnArrives(tab, a);
    }
  }

  lemma OwnArrives(tab: nat, a: NodeId)
    requires tab < 2
    ensures Project(Own(tab).(id := IdOf(tab)), Plain(a), 2) == Arriving(tab, [a], 0, 2)
  {
    assert [] + [a] == [a];
  }

  /** The second of two cards with different ids is not taken for the first. */
  lemma Receives(s: Net, a: NodeId, path: seq<NodeId>, to: NodeId, tab: nat, reshare: nat)
    requires tab < 2 && 0 < |path| <= 2 && to in s.nodes && to !in path
    requires ReceivedFrom(s.nodes[to], path[|path| - 1]) == Keeping(a, path, reshare, tab)
    requires Message(a, path, to, tab, reshare) in s.wire
    ensures
      var node := s.nodes[to].(received := s.nodes[to].received[path[|path| - 1] := Keeping(a, path, reshare, tab + 1)]);
      ReceiveCard(s, Net(s.nodes[to := node], s.wire), Message(a, path, to, tab, reshare), LIMITS)
  {
    var held := ReceivedFrom(s.nodes[to], path[|path| - 1]);
    var c, kept := Arriving(tab, path, |path| - 1, reshare), Kept(tab, path, |path| - 1, reshare);
    assert !Known(CardsOf(held), Stamp(c, LIMITS));
    assert Accept(CardsOf(held), c, to, LIMITS) == Some(kept);
    assert held + [Traced(kept, Trace(a))] == Keeping(a, path, reshare, tab + 1);
  }

  lemma ReceivesNext(s: Net, a: NodeId, path: seq<NodeId>, to: NodeId, tab: nat, reshare: nat)
    requires tab < 2 && 0 < |path| <= 2 && to in s.nodes && to !in path && s.nodes[to] == Held(a, path, reshare, tab)
    requires Message(a, path, to, tab, reshare) in s.wire
    ensures ReceiveCard(s, Net(s.nodes[to := Held(a, path, reshare, tab + 1)], s.wire), Message(a, path, to, tab, reshare), LIMITS)
  {
    hide ReceiveCard, Message;
    var from := path[|path| - 1];
    assert tab == 0 ==> Keeping(a, path, reshare, tab) == [];
    Receives(s, a, path, to, tab, reshare);
    assert s.nodes[to].received[from := Keeping(a, path, reshare, tab + 1)] == map[from := Keeping(a, path, reshare, tab + 1)];
  }

  // ----- the beginning: two cards from a to b -----

  function Begun(s: Net, a: NodeId, b: NodeId, k: nat): Net
    requires k <= 5
    decreases k
  {
    if k == 0 then s
    else
      var t := Begun(s, a, b, k - 1);
      if k == 1 then Net(t.nodes[a := Owning(a, 0)], t.wire)
      else if k <= 3 then Net(t.nodes[a := Owning(a, k - 1)], t.wire + {Message(a, [a], b, k - 2, 2)})
      else Net(t.nodes[b := Held(a, [a], 2, k - 3)], t.wire)
  }

  function Begin(a: NodeId, b: NodeId, p: Policy, k: nat): Step
    requires k < 5
  {
    if k == 0 then Rebuild(a, p, OwnOffers(), 0)
    else if k <= 2 then Send(a, b, k - 1, RULES, Plain(a))
    else Receive(Message(a, [a], b, k - 3, 2), LIMITS)
  }

  lemma {:induction false} Underway(s: Net, a: NodeId, b: NodeId, tab: nat, k: nat)
    requires tab < 2 && tab + 2 <= k <= 5
    ensures Message(a, [a], b, tab, 2) in Begun(s, a, b, k).wire
    decreases k
  {
    hide Message;
    if k > tab + 2 {
      Underway(s, a, b, tab, k - 1);
    }
  }

  lemma Begins(s: Net, a: NodeId, b: NodeId, p: Policy, k: nat)
    requires k < 5 && a != b && Quiet(s) && a in s.nodes && b in s.nodes
    ensures Next(Begun(s, a, b, k), Begun(s, a, b, k + 1), Begin(a, b, p, k))
  {
    hide RebuildShares, SendCard, ReceiveCard;
    var t := Begun(s, a, b, k);
    if k == 0 {
      ListsOwn(t, a, p);
    } else if k <= 2 {
      SendsOwn(t, a, b, k - 1);
    } else {
      Underway(s, a, b, k - 3, k);
      ReceivesNext(t, a, [a], b, k - 3, 2);
    }
  }

  /** What the beginning leaves: b holds both cards and nothing else changed. */
  lemma BegunLeaves(s: Net, a: NodeId, b: NodeId)
    requires a != b && a in s.nodes && b in s.nodes
    ensures
      var t := Begun(s, a, b, 5);
      t.nodes == s.nodes[a := Owning(a, 2)][b := Held(a, [a], 2, 2)]
  {
    hide Owning, Held, Message;
    assert Begun(s, a, b, 2).nodes == s.nodes[a := Owning(a, 1)];
    assert Begun(s, a, b, 3).nodes == s.nodes[a := Owning(a, 2)];
    assert Begun(s, a, b, 4).nodes == s.nodes[a := Owning(a, 2)][b := Held(a, [a], 2, 1)];
    assert Begun(s, a, b, 5).nodes == s.nodes[a := Owning(a, 2)][b := Held(a, [a], 2, 2)];
  }

  // ----- the run on which b forwards both to c -----

  /** A listed card that b received from a. */
  function Copied(a: NodeId, tab: nat, sent: nat): Traced {
    Traced(Kept(tab, [a], 0, 2).(id := if tab < sent then IdOf(tab) else 0), Trace(a))
  }

  function Forwarding(a: NodeId, sent: nat): Node {
    Node([Copied(a, 0, sent), Copied(a, 1, sent)], Held(a, [a], 2, 2).received, 0x64 + sent)
  }

  lemma ReceivedStayApart(a: NodeId)
    ensures Fold(KeepAll, [], KeptOffers(a)) == [Copied(a, 0, 0).card, Copied(a, 1, 0).card]
  {
    var offers := KeptOffers(a);
    var k0, k1 := Kept(0, [a], 0, 2), Kept(1, [a], 0, 2);
    var c0, c1 := Copied(a, 0, 0).card, Copied(a, 1, 0).card;
    assert offers[1..] == [Offer(k1, false)] && offers[1..][1..] == [];
    assert CopyOf(k0) == c0 && CopyOf(k1) == c1 by {
      CopyIsSame(k0);
      CopyIsSame(k1);
    }
    assert CardList.Add(KeepAll, [], k0, false) == [] + [c0] == [c0];
    assert CardList.Add(KeepAll, [c0], k1, false) == [c0] + [c1] == [c0, c1] by {
      assert FindSame([c0], k1, 0) == 1;
    }
    assert Fold(KeepAll, [c0], offers[1..]) == Fold(KeepAll, [c0, c1], []);
  }

  lemma ListsReceived(s: Net, a: NodeId, b: NodeId)
    requires b in s.nodes && s.nodes[b] == Held(a, [a], 2, 2)
    ensures RebuildShares(s, Net(s.nodes[b := Forwarding(a, 0)], s.wire), b, KeepAll, KeptOffers(a), 0)
  {
    hide Fold;
    ReceivedStayApart(a);
    var cards := s.nodes[b].received[a];
    assert cards == Keeping(a, [a], 2, 2);
    assert cards[0].card == Kept(0, [a], 0, 2) && cards[1].card == Kept(1, [a], 0, 2);
    var shared := Forwarding(a, 0).shared;
    forall i | 0 <= i < |shared|
      ensures TracedBack(KeepAll, s.nodes[b], b, shared[i])
    {
      CopyIsSame(cards[i].card);
      assert Stands(KeepAll, shared[i].card, cards[i].card);
    }
    FirstList(s, b, KeepAll, KeptOffers(a), shared, 0);
  }

  lemma Forwards(s: Net, a: NodeId, b: NodeId, c: NodeId, tab: nat)
    requires tab < 2 && a != c && b in s.nodes && c in s.nodes && s.nodes[b] == Forwarding(a, tab)
    ensures SendCard(s, Net(s.nodes[b := Forwarding(a, tab + 1)], s.wire + {Message(a, [a, b], c, tab, 1)}), b, c, tab, RULES, Plain(b))
  {
    hide Encode, Decode, Project;
    var d := Copied(a, tab, tab + 1);
    assert Forwarding(a, tab).shared[tab := d] == Forwarding(a, tab + 1).shared;
    SmallCardArrives(d.card, b, 1);
    assert Project(d.card, Plain(b), 1) == Arriving(tab, [a, b], 1, 1) by {
      CopyArrives(a, tab, b);
    }
  }

  lemma CopyArrives(a: NodeId, tab: nat, b: NodeId)
    requires tab < 2
    ensures Project(Copied(a, tab, tab + 1).card, Plain(b), 1) == Arriving(tab, [a, b], 1, 1)
  {
    assert [a] + [b] == [a, b];
  }

  function Passed(s: Net, a: NodeId, b: NodeId, c: NodeId, k: nat): Net
    requires k <= 10
    decreases k
  {
    if k <= 5 then Begun(s, a, b, k)
    else
      var t := Passed(s, a, b, c, k - 1);
      if k == 6 then Net(t.nodes[b := Forwarding(a, 0)], t.wire)
      else if k <= 8 then Net(t.nodes[b := Forwarding(a, k - 6)], t.wire + {Message(a, [a, b], c, k - 7, 1)})
      else Net(t.nodes[c := Held(a, [a, b], 1, k - 8)], t.wire)
  }

  function Pass(a: NodeId, b: NodeId, c: NodeId, k: nat): Step
    requires k < 10
  {
    if k < 5 then Begin(a, b, KeepAll, k)
    else if k == 5 then Rebuild(b, KeepAll, KeptOffers(a), 0)
    else if k <= 7 then Send(b, c, k - 6, RULES, Plain(b))
    else Receive(Message(a, [a, b], c, k - 8, 1), LIMITS)
  }

  lemma {:induction false} UnderwayAgain(s: Net, a: NodeId, b: NodeId, c: NodeId, tab: nat, k: nat)
    requires tab < 2 && tab + 7 <= k <= 10
    ensures Message(a, [a, b], c, tab, 1) in Passed(s, a, b, c, k).wire
    decreases k
  {
    hide Message;
    if k > tab + 7 {
      UnderwayAgain(s, a, b, c, tab, k - 1);
    }
  }

  /** The nodes along the second half of the run. */
  lemma {:induction false} PassedNodes(s: Net, a: NodeId, b: NodeId, c: NodeId, k: nat)
    requires 5 <= k <= 10 && a != b && b != c && a != c && Quiet(s) && a in s.nodes && b in s.nodes && c in s.nodes
    ensures
      var t := Passed(s, a, b, c, k);
      && t.nodes.Keys == s.nodes.Keys
      && t.nodes[b] == (if k == 5 then Held(a, [a], 2, 2) else Forwarding(a, if k <= 8 then k - 6 else 2))
      && t.nodes[c] == Held(a, [a, b], 1, if k <= 8 then 0 else k - 8)
    decreases k
  {
    hide Owning, Forwarding, Message;
    if k == 5 {
      BegunLeaves(s, a, b);
    } else {
      PassedNodes(s, a, b, c, k - 1);
    }
  }

  lemma Passes(s: Net, a: NodeId, b: NodeId, c: NodeId, k: nat)
    requires k < 10 && a != b && b != c && a != c && Quiet(s) && a in s.nodes && b in s.nodes && c in s.nodes
    ensures Next(Passed(s, a, b, c, k), Passed(s, a, b, c, k + 1), Pass(a, b, c, k))
  {
    hide RebuildShares, SendCard, ReceiveCard, Begun, Begin, Held, Forwarding, Message;
    var t := Passed(s, a, b, c, k);
    if k < 5 {
      Begins(s, a, b, KeepAll, k);
    } else {
      PassedNodes(s, a, b, c, k);
      if k == 5 {
        ListsReceived(t, a, b);
      } else if k <= 7 {
        Forwards(t, a, b, c, k - 6);
      } else {
        UnderwayAgain(s, a, b, c, k - 8, k);
        ReceivesNext(t, a, [a, b], c, k - 8, 1);
      }
    }
  }

  function States(s: Net, a: NodeId, b: NodeId, c: NodeId): (r: seq<Net>)
    ensures |r| == 11 && r[0] == s
  {
    seq(11, (k: nat) requires k <= 10 => Passed(s, a, b, c, k))
  }

  function Steps(a: NodeId, b: NodeId, c: NodeId): (r: seq<Step>)
    ensures |r| == 10
  {
    seq(10, (k: nat) requires k < 10 => Pass(a, b, c, k))
  }

  /** Two different cards with one path, under different ids. */
  predicate ForwardedTwo(held: seq<Traced>, path: seq<NodeId>) {
    && |held| == 2 && held[0].card.remoteNodes == held[1].card.remoteNodes == path
    && held[0].card.id != held[1].card.id && held[0].card.remoteId != held[1].card.remoteId
  }

  /** From any quiet network with three nodes, the run of these ten steps leaves the third with two
      different cards of the first that the second forwarded. */
  lemma TwoForwarded(s: Net, a: NodeId, b: NodeId, c: NodeId)
    requires a != b && b != c && a != c && Quiet(s) && a in s.nodes && b in s.nodes && c in s.nodes
    ensures IsRun(States(s, a, b, c), Steps(a, b, c)) && PathsKept(Steps(a, b, c)) && IgnoreOff(Steps(a, b, c))
    ensures
      var t := States(s, a, b, c)[10];
      c in t.nodes && b in t.nodes[c].received && ForwardedTwo(t.nodes[c].received[b], [a, b])
  {
    hide Next, Passed;
    forall k | 0 <= k < 10
      ensures Next(States(s, a, b, c)[k], States(s, a, b, c)[k + 1], Steps(a, b, c)[k])
    {
      Passes(s, a, b, c, k);
    }
    PassedNodes(s, a, b, c, 10);
    assert States(s, a, b, c)[10].nodes[c].received[b] == Keeping(a, [a, b], 1, 2);
  }
}
