/** What makes two cards the same, what a copy keeps, and what becomes of a card that is offered to a
    list or compared with the reported ones, told case by case. */
module CardRules {
  import opened Bytes
  import opened Cards
  import CardList
  import ShareUpdate

  // ----- what makes a card another one -----

  /** Remote id, caid, kind, service table, serial, groups and first node tell cards apart, and nothing
      else does. */
  lemma ToldApartBy(c: Card, d: Card)
    ensures SameCard(c, c.(remoteId := d.remoteId)) <==> d.remoteId == c.remoteId
    ensures SameCard(c, c.(caid := d.caid)) <==> d.caid == c.caid
    ensures SameCard(c, c.(cardType := d.cardType)) <==> d.cardType == c.cardType
    ensures SameCard(c, c.(sidtab := d.sidtab)) <==> d.sidtab == c.sidtab
    ensures SameCard(c, c.(hexserial := d.hexserial)) <==> d.hexserial == c.hexserial
    ensures SameCard(c, c.(grp := d.grp)) <==> d.grp == c.grp
    ensures SameCard(c, c.(remoteNodes := d.remoteNodes))
       <==> (c.remoteNodes == [] && d.remoteNodes == []) || (c.remoteNodes != [] && d.remoteNodes != [] && c.remoteNodes[0] == d.remoteNodes[0])
    ensures SameCard(c, d.(remoteId := c.remoteId, caid := c.caid, cardType := c.cardType, sidtab := c.sidtab,
                           hexserial := c.hexserial, grp := c.grp, remoteNodes := c.remoteNodes))
  {
  }

  /** For merging neither remote id, groups nor nodes count. */
  lemma MergedAcross(c: Card, d: Card)
    ensures SameCard2(c, d.(caid := c.caid, cardType := c.cardType, sidtab := c.sidtab, hexserial := c.hexserial), false)
    ensures SameCard2(c, c.(caid := d.caid), false) <==> d.caid == c.caid
    ensures SameCard2(c, c.(cardType := d.cardType), false) <==> d.cardType == c.cardType
    ensures SameCard2(c, c.(sidtab := d.sidtab), false) <==> d.sidtab == c.sidtab
    ensures SameCard2(c, c.(hexserial := d.hexserial), false) <==> d.hexserial == c.hexserial
  {
  }

  // ----- what a copy keeps -----

  /** The copy has no id, and providers and nodes once each; everything else is as it was. */
  lemma CopyKeeps(c: Card, prov: nat)
    ensures
      var d := CopyOf(c);
      && d.id == 0 && (HasProvider(d.providers, prov) <==> HasProvider(c.providers, prov)) && DistinctProviders(d.providers)
      && d.remoteId == c.remoteId && d.caid == c.caid && d.hop == c.hop && d.reshare == c.reshare && d.hexserial == c.hexserial
      && d.goodsids == c.goodsids && d.badsids == c.badsids && d.originReader == c.originReader && d.originId == c.originId
      && d.cardType == c.cardType && d.sidtab == c.sidtab && d.grp == c.grp && d.rdrReshare == c.rdrReshare
      && d.timeout == c.timeout && d.isExt == c.isExt
    ensures forall n :: n in CopyOf(c).remoteNodes <==> n in c.remoteNodes
    ensures Distinct(CopyOf(c).remoteNodes)
  {
    hide MergeProviders, MergeNodes;
    MergedProvidersMembers([], c.providers, prov);
    MergedNodes([], c.remoteNodes);
  }

  lemma {:induction false} MergedNodes(dst: seq<NodeId>, src: seq<NodeId>)
    requires Distinct(dst)
    ensures Distinct(MergeNodes(dst, src))
    ensures forall n :: n in MergeNodes(dst, src) <==> n in dst || n in src
    decreases |src|
  {
    if src != [] {
      var d := if src[0] in dst then dst else dst + [src[0]];
      MergedNodes(d, src[1..]);
    }
  }

  // ----- adding to a list -----

  /** By default a card of a new class is appended; one of a class that is there takes its place if it
      is nearer and is dropped otherwise. The list holds one card of the class, in place k. */
  lemma AddedByDefault(list: seq<Card>, c: Card, freeCard: bool, k: nat)
    requires k <= |list| && forall i :: 0 <= i < |list| ==> (SameCard(c, list[i]) <==> i == k)
    ensures
      var r := CardList.AddDefault(list, c, freeCard);
      var n := if freeCard then c else CopyOf(c);
      && (k == |list| ==> r == list + [n])
      && (k < |list| && c.hop < list[k].hop ==> r == if k == 0 then list[1..] + [n] else list[k := n])
      && (k < |list| && c.hop >= list[k].hop ==> r == list)
  {
    hide SameCard;
  }

  /** For MINIMIZE_HOPS the class is that of the merged cards with the same providers; a card that is not
      nearer adds its groups and providers. */
  lemma AddedByHops(list: seq<Card>, c: Card, freeCard: bool, k: nat)
    requires k <= |list|
    requires forall i :: 0 <= i < |list| ==> (SameCard2(c, list[i], false) && CardList.EqualProviders(c.providers, list[i].providers) <==> i == k)
    ensures
      var r := CardList.AddHops(list, c, freeCard);
      var n := if freeCard then c else CopyOf(c);
      && (k == |list| ==> r == list + [n])
      && (k < |list| && c.hop < list[k].hop ==> r == if k == 0 then list[1..] + [n] else list[k := n])
      && (k < |list| && c.hop >= list[k].hop ==>
            r == list[k := list[k].(grp := list[k].grp + c.grp, providers := MergeProviders(list[k].providers, c.providers))])
  {
    hide SameCard2, CardList.EqualProviders, MergeProviders;
    var i := CardList.FindEqual(list, c, 0);
    if k < |list| {
      FoundEqual(list, c, 0, k);
    }
  }

  lemma {:induction false} FoundEqual(list: seq<Card>, c: Card, from: nat, k: nat)
    requires from <= k < |list|
    requires forall i :: from <= i <= k ==> (SameCard2(c, list[i], false) && CardList.EqualProviders(c.providers, list[i].providers) <==> i == k)
    ensures CardList.FindEqual(list, c, from) == k
    decreases k - from
  {
    hide SameCard2, CardList.EqualProviders;
    if from < k {
      FoundEqual(list, c, from + 1, k);
    }
  }

  ghost predicate Named(ps: seq<Provider>, prov: nat) { exists p :: p in ps && p.prov == prov }

  lemma HasIsNamed(ps: seq<Provider>, prov: nat)
    ensures HasProvider(ps, prov) <==> Named(ps, prov)
  {
    if p :| p in ps && p.prov == prov {
      var j :| 0 <= j < |ps| && ps[j] == p;
      assert ps[j].prov == prov;
    }
    if HasProvider(ps, prov) {
      var j :| 0 <= j < |ps| && ps[j].prov == prov;
      assert ps[j] in ps;
    }
  }

  /** Providers are equal if there are as many and each of one list is in the other. */
  lemma ProvidersEqual(a: seq<Provider>, b: seq<Provider>)
    ensures CardList.EqualProviders(a, b) <==> |a| == |b| && forall i :: 0 <= i < |a| ==> Named(b, a[i].prov)
  {
    hide HasProvider, Named;
    forall i | 0 <= i < |a|
      ensures HasProvider(b, a[i].prov) <==> Named(b, a[i].prov)
    {
      HasIsNamed(b, a[i].prov);
    }
  }

  predicate MergesInto(c: Card, d: Card) {
    SameCard2(c, d, false) && |c.providers| - CardList.NumSame(c.providers, d.providers) + |d.providers| <= 128
  }

  /** For MINIMIZE_CAID a card is merged into the first one of its kind that then has at most 128
      providers, which loses its nodes; a card that is not merged enters with hop 0. */
  lemma AddedByCaid(list: seq<Card>, c: Card, k: nat)
    requires k <= |list|
    requires forall i :: 0 <= i < k ==> !MergesInto(c, list[i])
    requires k < |list| ==> MergesInto(c, list[k])
    ensures
      var r := CardList.AddCaid(list, c, false);
      && (k == |list| ==> |r| == |list| + 1 && r[..k] == list && r[k].hop == 0 && r[k].id == 0 && r[k] == CopyOf(c).(hop := 0))
      && (k < |list| ==>
            && |r| == |list| && r[k].remoteNodes == [] && r[k].grp == list[k].grp + c.grp && r[k].hop == list[k].hop && r[k].id == list[k].id
            && r[k].providers == MergeProviders(list[k].providers, c.providers) && r[k].goodsids == list[k].goodsids
            && (forall i :: 0 <= i < |list| && i != k ==> r[i] == list[i]))
  {
    hide SameCard2, MergeProviders, MergeNodes, CardList.NumSame;
    FoundMergeable(list, c, 0, k);
  }

  lemma {:induction false} FoundMergeable(list: seq<Card>, c: Card, from: nat, k: nat)
    requires from <= k <= |list| && forall i :: from <= i < k ==> !CardList.CanMerge(c, list[i])
    requires k < |list| ==> CardList.CanMerge(c, list[k])
    ensures CardList.FindMergeable(list, c, from) == k
    decreases k - from
  {
    hide CardList.CanMerge;
    if from < k {
      FoundMergeable(list, c, from + 1, k);
    }
  }

  // ----- comparing with the reported cards -----

  /** Whoever passes an id on is of the same class and, unless a remote card, not over its time. */
  lemma PartnerIsFresh(olds: seq<Card>, offered: seq<Card>, now: int, i: nat)
    requires i < |offered|
    ensures
      var d := ShareUpdate.Compare(olds, offered, now);
      && |d.partners| == |d.news| == |offered|
      && (d.partners[i].Some? ==>
            var o := d.partners[i].value;
            && SameCard(offered[i], o) && (o.cardType == RemoteCard || now <= o.timeout)
            && d.news[i].id == o.id && d.news[i].timeout == o.timeout)
      && (d.partners[i] == None ==> d.news[i] == offered[i] && i in d.added)
  {
    hide ShareUpdate.Report, ShareUpdate.Conserved, SameCard;
    ShareUpdate.CompareAccounts(olds, offered, now);
  }

  predicate Wanted(offer: Card, o: Card, now: int) { SameCard(offer, o) && (o.cardType == RemoteCard || now <= o.timeout) }

  /** No card is left over that an added one could have taken the id of. */
  ghost predicate NoneMissed(d: ShareUpdate.Diff, offered: seq<Card>, now: int) {
    && |d.partners| <= |offered|
    && forall i, o :: 0 <= i < |d.partners| && d.partners[i] == None && o in d.left ==> !Wanted(offered[i], o, now)
  }

  lemma OneMissesNone(d: ShareUpdate.Diff, done: seq<Card>, card: Card, now: int)
    requires NoneMissed(d, done, now) && |d.partners| == |done|
    ensures NoneMissed(ShareUpdate.ReportOne(d, card, now), done + [card], now)
  {
    hide SameCard;
    var e := ShareUpdate.ReportOne(d, card, now);
    var k := ShareUpdate.FindReported(d.left, card, now, 0);
    forall i, o | 0 <= i < |e.partners| && e.partners[i] == None && o in e.left
      ensures !Wanted((done + [card])[i], o, now)
    {
      assert o in d.left;
      if i < |done| {
        assert d.partners[i] == None;
      } else {
        var j :| 0 <= j < |d.left| && d.left[j] == o;
      }
    }
  }

  lemma {:induction false} ReportMissesNone(d: ShareUpdate.Diff, done: seq<Card>, offered: seq<Card>, now: int)
    requires NoneMissed(d, done, now) && |d.partners| == |done|
    ensures NoneMissed(ShareUpdate.Report(d, offered, now), done + offered, now)
    decreases |offered|
  {
    hide ShareUpdate.ReportOne, NoneMissed;
    if offered == [] {
      assert done + offered == done;
    } else {
      OneMissesNone(d, done, offered[0], now);
      OneMore(d, offered[0], now);
      ReportMissesNone(ShareUpdate.ReportOne(d, offered[0], now), done + [offered[0]], offered[1..], now);
      assert done + [offered[0]] + offered[1..] == done + offered;
    }
  }

  lemma OneMore(d: ShareUpdate.Diff, card: Card, now: int)
    ensures |ShareUpdate.ReportOne(d, card, now).partners| == |d.partners| + 1
  {
    hide SameCard;
  }

  /** So a card is added only if no reported card of its class that is still in time was left for it. */
  lemma AddedOnlyIfNew(olds: seq<Card>, offered: seq<Card>, now: int, i: nat, o: Card)
    requires i in ShareUpdate.Compare(olds, offered, now).added && o in ShareUpdate.Compare(olds, offered, now).left
    ensures i < |offered| && !(SameCard(offered[i], o) && (o.cardType == RemoteCard || now <= o.timeout))
  {
    hide ShareUpdate.Report, ShareUpdate.Conserved, SameCard;
    var start := ShareUpdate.Diff([], [], olds, []);
    assert [] + offered == offered;
    ReportMissesNone(start, [], offered, now);
    ShareUpdate.CompareAccounts(olds, offered, now);
    assert !Wanted(offered[i], o, now);
  }

  /** Announcing a card that some client wants gives it the counter and moves that on by one; a card that
      has an id, or that no client wants, is left as it is. */
  lemma AnnouncedShows(n: ShareUpdate.Numbered, i: nat, wanted: Card -> bool)
    requires i < |n.cards|
    ensures
      var m := ShareUpdate.AnnounceOne(n, i, wanted);
      && (n.cards[i].id == 0 && wanted(n.cards[i]) ==> m == ShareUpdate.Numbered(n.cards[i := n.cards[i].(id := n.shareId)], n.shareId + 1))
      && (n.cards[i].id != 0 || !wanted(n.cards[i]) ==> m == n)
  {
  }
}
