/** Why MINIMIZE_CAID is left out of loop-freedom: a run in which a card comes back to the node it
    started from, and the policies under which that cannot happen. */
module CardLoop {
  import opened Bytes
  import opened Cards
  import opened CardCodec
  import opened CardList
  import opened CardNetwork
  import opened CardPaths
  import CardRuns

  // ----- the list of b -----

  /** The two cards received from a, merged: the path is gone. */
  function Merger(sent: bool): Card {
    Card(if sent then 0x64 else 0, 0x10000, 0x100, 0, 2, ZERO8, [], [], [], [], Some(0), 0x64, RemoteCard, None, {}, 10, 0, false)
  }

  function Merging(a: NodeId, sent: bool): Node {
    Node([Traced(Merger(sent), CardRuns.Trace(a))], CardRuns.Held(a, [a], 2, 2).received, if sent then 0x65 else 0x64)
  }

  lemma ReceivedMerge(a: NodeId)
    ensures Fold(MinimizeCaid, [], CardRuns.KeptOffers(a)) == [Merger(false)]
  {
    var offers := CardRuns.KeptOffers(a);
    var k0, k1 := CardRuns.Kept(0, [a], 0, 2), CardRuns.Kept(1, [a], 0, 2);
    assert offers[1..] == [Offer(k1, false)] && offers[1..][1..] == [];
    var first := CopyOf(k0).(hop := 0);
    assert first.providers == [];
    assert AddCaid([], k0, false) == [] + [first] == [first];
    assert FindMergeable([first], k1, 0) == 0;
    assert Merged(first, k1) == Merger(false);
    assert AddCaid([first], k1, false) == [Merger(false)];
    assert Fold(MinimizeCaid, [first], offers[1..]) == Fold(MinimizeCaid, [Merger(false)], []);
  }

  // ----- the steps -----

  lemma RebuildsMerged(s: Net, a: NodeId, b: NodeId)
    requires b in s.nodes && s.nodes[b] == CardRuns.Held(a, [a], 2, 2)
    ensures RebuildShares(s, Net(s.nodes[b := Merging(a, false)], s.wire), b, MinimizeCaid, CardRuns.KeptOffers(a), 0)
  {
    hide Fold;
    ReceivedMerge(a);
    var cards := s.nodes[b].received[a];
    assert cards == CardRuns.Keeping(a, [a], 2, 2);
    assert cards[0].card == CardRuns.Kept(0, [a], 0, 2) && cards[1].card == CardRuns.Kept(1, [a], 0, 2);
    assert Stands(MinimizeCaid, Merger(false), cards[0].card);
    CardRuns.FirstList(s, b, MinimizeCaid, CardRuns.KeptOffers(a), Merging(a, false).shared, 0);
  }

  lemma SendsMerged(s: Net, a: NodeId, b: NodeId)
    requires a in s.nodes && b in s.nodes && s.nodes[b] == Merging(a, false)
    ensures SendCard(s, Net(s.nodes[b := Merging(a, true)], s.wire + {CardRuns.Message(a, [b], a, 0, 1)}), b, a, 0, CardRuns.RULES, CardRuns.Plain(b))
  {
    hide Encode, Decode, Project;
    assert Merging(a, false).shared[0 := Merging(a, true).shared[0]] == Merging(a, true).shared;
    CardRuns.SmallCardArrives(Merger(true), b, 1);
    MergedArrives(b);
  }

  lemma MergedArrives(b: NodeId)
    ensures Project(Merger(true), CardRuns.Plain(b), 1) == CardRuns.Arriving(0, [b], 0, 1)
  {
    assert [] + [b] == [b];
  }

  // ----- the run -----

  function Back(a: NodeId, b: NodeId): Node {
    CardRuns.Owning(a, 2).(received := map[b := CardRuns.Keeping(a, [b], 1, 1)])
  }

  function Returned(s: Net, a: NodeId, b: NodeId, k: nat): Net
    requires k <= 8
    decreases k
  {
    if k <= 5 then CardRuns.Begun(s, a, b, k)
    else
      var t := Returned(s, a, b, k - 1);
      if k == 6 then Net(t.nodes[b := Merging(a, false)], t.wire)
      else if k == 7 then Net(t.nodes[b := Merging(a, true)], t.wire + {CardRuns.Message(a, [b], a, 0, 1)})
      else Net(t.nodes[a := Back(a, b)], t.wire)
  }

  function Return(a: NodeId, b: NodeId, k: nat): Step
    requires k < 8
  {
    if k < 5 then CardRuns.Begin(a, b, MinimizeCaid, k)
    else if k == 5 then Rebuild(b, MinimizeCaid, CardRuns.KeptOffers(a), 0)
    else if k == 6 then Send(b, a, 0, CardRuns.RULES, CardRuns.Plain(b))
    else Receive(CardRuns.Message(a, [b], a, 0, 1), CardRuns.LIMITS)
  }

  lemma Returns(s: Net, a: NodeId, b: NodeId, k: nat)
    requires k < 8 && a != b && Quiet(s) && a in s.nodes && b in s.nodes
    ensures Next(Returned(s, a, b, k), Returned(s, a, b, k + 1), Return(a, b, k))
  {
    hide RebuildShares, SendCard, ReceiveCard, CardRuns.Begun, CardRuns.Begin, CardRuns.Message;
    var t := Returned(s, a, b, k);
    if k < 5 {
      CardRuns.Begins(s, a, b, MinimizeCaid, k);
    } else {
      CardRuns.BegunLeaves(s, a, b);
      if k == 5 {
        RebuildsMerged(t, a, b);
      } else if k == 6 {
        SendsMerged(t, a, b);
      } else {
        assert t.nodes[a] == CardRuns.Owning(a, 2);
        assert CardRuns.Keeping(a, [b], 1, 0) == [];
        CardRuns.Receives(t, a, [b], a, 0, 1);
        assert map[][b := CardRuns.Keeping(a, [b], 1, 1)] == map[b := CardRuns.Keeping(a, [b], 1, 1)];
      }
    }
  }

  function States(s: Net, a: NodeId, b: NodeId): (r: seq<Net>)
    ensures |r| == 9 && r[0] == s
  {
    seq(9, (k: nat) requires k <= 8 => Returned(s, a, b, k))
  }

  function Steps(a: NodeId, b: NodeId): (r: seq<Step>)
    ensures |r| == 8
  {
    seq(8, (k: nat) requires k < 8 => Return(a, b, k))
  }

  ghost predicate OnlyPolicy(steps: seq<Step>, p: Policy) { forall i :: 0 <= i < |steps| && steps[i].Rebuild? ==> steps[i].p == p }

  /** A node holds a remote card that started from that very node. */
  ghost predicate CameBack(s: Net) {
    exists n, peer, i :: n in s.nodes && peer in s.nodes[n].received && 0 <= i < |s.nodes[n].received[peer]|
      && s.nodes[n].received[peer][i].origin.node == n
  }

  lemma CameBackIsLoop(s: Net)
    requires AllFreeOfLoops(s)
    ensures !CameBack(s)
  {
  }

  /** Between any two nodes that merge by CAID there is a run, from any quiet network, in which a
      card comes back. */
  lemma CardComesBack(s: Net, a: NodeId, b: NodeId)
    requires a != b && Quiet(s) && a in s.nodes && b in s.nodes
    ensures IsRun(States(s, a, b), Steps(a, b)) && OnlyPolicy(Steps(a, b), MinimizeCaid)
    ensures CameBack(States(s, a, b)[8])
  {
    hide Next;
    forall k | 0 <= k < 8
      ensures Next(States(s, a, b)[k], States(s, a, b)[k + 1], Steps(a, b)[k])
    {
      Returns(s, a, b, k);
    }
    var t := States(s, a, b)[8];
    assert t.nodes[a] == Back(a, b);
    assert t.nodes[a].received[b][0].origin.node == a;
  }

  /** All runs of nodes with one policy are free of loops. */
  ghost predicate AlwaysFree(p: Policy) {
    forall states: seq<Net>, steps: seq<Step>, k: nat ::
      IsRun(states, steps) && Quiet(states[0]) && OnlyPolicy(steps, p) && k < |states| ==> AllFreeOfLoops(states[k])
  }

  /** Every run is free of loops exactly if the policy is not MINIMIZE_CAID. */
  lemma LoopFreeIff(p: Policy)
    ensures AlwaysFree(p) <==> p != MinimizeCaid
  {
    hide Next, Quiet, AllFreeOfLoops, States, Steps;
    if p == MinimizeCaid {
      var a: NodeId, b: NodeId := [0, 0, 0, 0, 0, 0, 0, 1], [0, 0, 0, 0, 0, 0, 0, 2];
      assert a[7] != b[7];
      var s := Net(map[a := FRESH, b := FRESH], {});
      assert Quiet(s) by {
        QuietPair(a, b);
      }
      CardComesBack(s, a, b);
      if AllFreeOfLoops(States(s, a, b)[8]) {
        CameBackIsLoop(States(s, a, b)[8]);
      }
    } else {
      forall states: seq<Net>, steps: seq<Step>, k: nat | IsRun(states, steps) && Quiet(states[0]) && OnlyPolicy(steps, p) && k < |states|
        ensures AllFreeOfLoops(states[k])
      {
        LoopFree(states, steps, k);
      }
    }
  }

  lemma QuietPair(a: NodeId, b: NodeId)
    ensures Quiet(Net(map[a := FRESH, b := FRESH], {}))
  {
  }
}
