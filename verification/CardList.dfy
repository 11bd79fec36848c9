/** Building the list of shared cards (add_card_to_serverlist in module-cccshare.c): the
    default policy drops duplicates, MINIMIZE_CAID merges cards that differ in providers. */
module CardList {
  import opened Bytes
  import opened Cards

  const CS_MAXPROV: nat := 128

  /** What enters the list: the card itself if the caller gives it away, else a copy. */
  function Entering(card: Card, freeCard: bool): Card { if freeCard then card else CopyOf(card) }

  // ----- the default policy -----

  function FindSame(list: seq<Card>, card: Card, i: nat): (k: nat)
    requires i <= |list|
    ensures i <= k <= |list|
    ensures forall j :: i <= j < k ==> !SameCard(card, list[j])
    ensures k < |list| ==> SameCard(card, list[k])
    decreases |list| - i
  {
    if i == |list| || SameCard(card, list[i]) then i else FindSame(list, card, i + 1)
  }

  /** Insertion at an iterator whose element was just removed: in its place, but at the end of
      the list if it was the first. */
  function Replace(list: seq<Card>, k: nat, card: Card): seq<Card>
    requires k < |list|
  {
    if k == 0 then list[1..] + [card] else list[k := card]
  }

  function AddDefault(list: seq<Card>, card: Card, freeCard: bool): seq<Card> {
    var k := FindSame(list, card, 0);
    if k == |list| then list + [Entering(card, freeCard)]
    else if list[k].hop > card.hop then Replace(list, k, Entering(card, freeCard))
    else list
  }

  datatype Offer = Offer(card: Card, freeCard: bool)

  function FoldDefault(list: seq<Card>, offers: seq<Offer>): seq<Card>
    decreases |offers|
  {
    if offers == [] then list else FoldDefault(AddDefault(list, offers[0].card, offers[0].freeCard), offers[1..])
  }

  predicate OnePerClass(list: seq<Card>) {
    forall i, j :: 0 <= i < j < |list| ==> !SameCard(list[i], list[j])
  }

  /** The list represents the offers: no offer is missing a representative with at most its
      hop, and every representative has class and hop of some offer. */
  ghost predicate Represents(list: seq<Card>, offers: seq<Offer>) {
    && (forall o :: 0 <= o < |offers| ==> Represented(list, offers[o].card))
    && (forall i :: 0 <= i < |list| ==> Offered(offers, list[i]))
  }

  predicate Represented(list: seq<Card>, card: Card) {
    exists i :: 0 <= i < |list| && SameCard(list[i], card) && list[i].hop <= card.hop
  }

  predicate Offered(offers: seq<Offer>, card: Card) {
    exists o :: 0 <= o < |offers| && SameCard(card, offers[o].card) && card.hop == offers[o].card.hop
  }

  lemma EnteringSame(card: Card, freeCard: bool)
    ensures SameCard(Entering(card, freeCard), card) && Entering(card, freeCard).hop == card.hop
  {
    hide SameCard;
    CopyIsSame(card);
    SameCardEquivalence(card, card, card);
  }

  lemma AddKeepsOne(list: seq<Card>, card: Card, freeCard: bool)
    requires OnePerClass(list)
    ensures OnePerClass(AddDefault(list, card, freeCard))
  {
    hide SameCard, Entering;
    var k := FindSame(list, card, 0);
    var n := Entering(card, freeCard);
    EnteringSame(card, freeCard);
    forall i | 0 <= i < |list|
      ensures SameCard(n, list[i]) <==> SameCard(card, list[i])
      ensures SameCard(list[i], n) <==> SameCard(n, list[i])
    {
      SameCardEquivalence(n, card, list[i]);
      SameCardEquivalence(card, n, list[i]);
      SameCardEquivalence(list[i], n, n);
      SameCardEquivalence(n, list[i], n);
    }
    if k < |list| {
      forall i | 0 <= i < |list| && i != k
        ensures !SameCard(card, list[i])
      {
        SameCardEquivalence(list[k], card, list[i]);
        SameCardEquivalence(card, list[k], card);
        SameCardEquivalence(list[i], list[k], card);
        SameCardEquivalence(list[k], list[i], card);
      }
    }
  }

  /** Which cards the new list holds. */
  lemma AddMembers(list: seq<Card>, card: Card, freeCard: bool)
    ensures
      var r := AddDefault(list, card, freeCard);
      && (exists i :: 0 <= i < |r| && SameCard(r[i], card) && r[i].hop <= card.hop)
      && (forall i :: 0 <= i < |r| ==> r[i] == Entering(card, freeCard) || r[i] in list)
      && (forall i :: 0 <= i < |list| ==> list[i] in r || (SameCard(card, list[i]) && Entering(card, freeCard) in r && card.hop < list[i].hop))
  {
    hide SameCard, Entering;
    var k := FindSame(list, card, 0);
    var r := AddDefault(list, card, freeCard);
    EnteringSame(card, freeCard);
    if k == |list| {
      assert r[|list|] == Entering(card, freeCard);
      assert forall i :: 0 <= i < |list| ==> list[i] == r[i];
    } else if list[k].hop > card.hop {
      var at := if k == 0 then |r| - 1 else k;
      assert r[at] == Entering(card, freeCard);
      if k == 0 {
        assert forall i :: 1 <= i < |list| ==> r[i - 1] == list[i];
        assert forall i :: 0 <= i < |r| - 1 ==> r[i] == list[i + 1];
      } else {
        assert forall i :: 0 <= i < |list| && i != k ==> r[i] == list[i];
      }
    } else {
      SameCardEquivalence(card, list[k], card);
      assert SameCard(r[k], card);
    }
  }

  lemma StillRepresented(list: seq<Card>, card: Card, freeCard: bool, c: Card)
    requires Represented(list, c) || c == card
    ensures Represented(AddDefault(list, card, freeCard), c)
  {
    hide SameCard, Entering, AddDefault;
    var r := AddDefault(list, card, freeCard);
    var n := Entering(card, freeCard);
    AddMembers(list, card, freeCard);
    EnteringSame(card, freeCard);
    if c != card {
      var i :| 0 <= i < |list| && SameCard(list[i], c) && list[i].hop <= c.hop;
      if list[i] in r {
        var j :| 0 <= j < |r| && r[j] == list[i];
        assert SameCard(r[j], c);
      } else {
        var j :| 0 <= j < |r| && r[j] == n;
        SameCardEquivalence(n, card, list[i]);
        SameCardEquivalence(n, list[i], c);
        assert SameCard(r[j], c);
      }
    }
  }

  lemma StillOffered(offers: seq<Offer>, offer: Offer, c: Card)
    requires Offered(offers, c) || c == Entering(offer.card, offer.freeCard)
    ensures Offered(offers + [offer], c)
  {
    hide SameCard, Entering;
    var more := offers + [offer];
    EnteringSame(offer.card, offer.freeCard);
    if c == Entering(offer.card, offer.freeCard) {
      assert more[|offers|] == offer;
    } else {
      var o :| 0 <= o < |offers| && SameCard(c, offers[o].card) && c.hop == offers[o].card.hop;
      assert more[o] == offers[o];
    }
  }

  lemma AddRepresents(list: seq<Card>, offers: seq<Offer>, offer: Offer)
    requires Represents(list, offers)
    ensures Represents(AddDefault(list, offer.card, offer.freeCard), offers + [offer])
  {
    hide SameCard, Entering, AddDefault, Represented, Offered;
    var r := AddDefault(list, offer.card, offer.freeCard);
    var more := offers + [offer];
    AddMembers(list, offer.card, offer.freeCard);
    forall o | 0 <= o < |more|
      ensures Represented(r, more[o].card)
    {
      StillRepresented(list, offer.card, offer.freeCard, more[o].card);
    }
    forall i | 0 <= i < |r|
      ensures Offered(more, r[i])
    {
      StillOffered(offers, offer, r[i]);
    }
  }

  /** Folding any sequence of cards leaves exactly one card per class of same_card, with the
      smallest hop offered in that class. */
  lemma {:induction false} DefaultDeduplicates(list: seq<Card>, seen: seq<Offer>, offers: seq<Offer>)
    requires OnePerClass(list) && Represents(list, seen)
    ensures OnePerClass(FoldDefault(list, offers)) && Represents(FoldDefault(list, offers), seen + offers)
    decreases |offers|
  {
    hide AddDefault, Represents, OnePerClass;
    if offers == [] {
      assert seen + offers == seen;
    } else {
      AddKeepsOne(list, offers[0].card, offers[0].freeCard);
      AddRepresents(list, seen, offers[0]);
      DefaultDeduplicates(AddDefault(list, offers[0].card, offers[0].freeCard), seen + [offers[0]], offers[1..]);
      assert seen + [offers[0]] + offers[1..] == seen + offers;
    }
  }

  // ----- MINIMIZE_CAID -----

  /** num_same_providers: how many of a's providers b has. */
  function NumSame(a: seq<Provider>, b: seq<Provider>): (n: nat)
    ensures n <= |a|
    decreases |a|
  {
    if a == [] then 0 else NumSame(a[1..], b) + if HasProvider(b, a[0].prov) then 1 else 0
  }

  /** The predicted number of providers after a merge. */
  function NewCount(card: Card, card2: Card): nat {
    |card.providers| - NumSame(card.providers, card2.providers) + |card2.providers|
  }

  predicate CanMerge(card: Card, card2: Card) { SameCard2(card, card2, false) && NewCount(card, card2) <= CS_MAXPROV }

  function FindMergeable(list: seq<Card>, card: Card, i: nat): (k: nat)
    requires i <= |list|
    ensures i <= k <= |list|
    ensures k < |list| ==> CanMerge(card, list[k])
    ensures forall j :: i <= j < k ==> !CanMerge(card, list[j])
    decreases |list| - i
  {
    if i == |list| || CanMerge(card, list[i]) then i else FindMergeable(list, card, i + 1)
  }

  function Merged(card2: Card, card: Card): Card {
    card2.(grp := card2.grp + card.grp, providers := MergeProviders(card2.providers, card.providers), remoteNodes := [])
  }

  function AddCaid(list: seq<Card>, card: Card, freeCard: bool): seq<Card> {
    var k := FindMergeable(list, card, 0);
    if k == |list| then list + [if freeCard then card else CopyOf(card).(hop := 0)]
    else list[k := Merged(list[k], card)]
  }

  function FoldCaid(list: seq<Card>, offers: seq<Offer>): seq<Card>
    decreases |offers|
  {
    if offers == [] then list else FoldCaid(AddCaid(list, offers[0].card, offers[0].freeCard), offers[1..])
  }

  /** Some card of rep's class in the list has the provider; some such card has the group. */
  predicate CoversProvider(list: seq<Card>, rep: Card, prov: nat) {
    exists i :: 0 <= i < |list| && SameCard2(list[i], rep, false) && HasProvider(list[i].providers, prov)
  }

  predicate CoversGroup(list: seq<Card>, rep: Card, g: nat) {
    exists i :: 0 <= i < |list| && SameCard2(list[i], rep, false) && g in list[i].grp
  }

  predicate OffersProvider(offers: seq<Offer>, rep: Card, prov: nat) {
    exists o :: 0 <= o < |offers| && SameCard2(offers[o].card, rep, false) && HasProvider(offers[o].card.providers, prov)
  }

  predicate OffersGroup(offers: seq<Offer>, rep: Card, g: nat) {
    exists o :: 0 <= o < |offers| && SameCard2(offers[o].card, rep, false) && g in offers[o].card.grp
  }

  /** No card is too large. */
  predicate Bounded(list: seq<Card>) { forall i :: 0 <= i < |list| ==> |list[i].providers| <= CS_MAXPROV }

  predicate BoundedOffers(offers: seq<Offer>) { forall o :: 0 <= o < |offers| ==> |offers[o].card.providers| <= CS_MAXPROV }

  /** No card names a provider twice. */
  predicate AllDistinct(list: seq<Card>) { forall i :: 0 <= i < |list| ==> DistinctProviders(list[i].providers) }

  predicate OffersDistinct(offers: seq<Offer>) { forall o :: 0 <= o < |offers| ==> DistinctProviders(offers[o].card.providers) }

  /** Providers that a merge adds, and that src therefore must not repeat. */
  predicate NewOnesDistinct(dst: seq<Provider>, src: seq<Provider>) {
    forall i, j :: 0 <= i < j < |src| && !HasProvider(dst, src[i].prov) ==> src[i].prov != src[j].prov
  }

  lemma {:induction false} MoreInMore(a: seq<Provider>, b: seq<Provider>, p: Provider)
    ensures NumSame(a, b) <= NumSame(a, b + [p])
    ensures HasProvider(a, p.prov) && !HasProvider(b, p.prov) ==> NumSame(a, b) < NumSame(a, b + [p])
    ensures !HasProvider(a, p.prov) ==> NumSame(a, b) == NumSame(a, b + [p])
    decreases |a|
  {
    if a != [] {
      HasAppend(b, [p], a[0].prov);
      HasAppend([a[0]], a[1..], p.prov);
      assert a == [a[0]] + a[1..];
      assert [p][0] == p && [a[0]][0] == a[0];
      MoreInMore(a[1..], b, p);
    }
  }

  /** The count predicted for a merge is never too small, and it is the count after the merge
      exactly if no provider that is new is repeated. */
  lemma {:induction false} CountPredictedIff(dst: seq<Provider>, src: seq<Provider>)
    ensures |MergeProviders(dst, src)| <= |src| - NumSame(src, dst) + |dst|
    ensures |MergeProviders(dst, src)| == |src| - NumSame(src, dst) + |dst| <==> NewOnesDistinct(dst, src)
    decreases |src|
  {
    hide HasProvider;
    if src != [] {
      var rest, p := src[1..], src[0];
      var d := if HasProvider(dst, p.prov) then dst else dst + [p];
      CountPredictedIff(d, rest);
      if !HasProvider(dst, p.prov) {
        MoreInMore(rest, dst, p);
      }
      NewOnesStep(dst, src);
    }
  }

  lemma NewOnesStep(dst: seq<Provider>, src: seq<Provider>)
    requires src != []
    ensures
      var rest, p := src[1..], src[0];
      NewOnesDistinct(dst, src) <==>
        if HasProvider(dst, p.prov) then NewOnesDistinct(dst, rest)
        else !HasProvider(rest, p.prov) && NewOnesDistinct(dst + [p], rest)
  {
    var rest, p := src[1..], src[0];
    assert forall i :: 0 <= i < |rest| ==> rest[i] == src[i + 1];
    assert forall i :: 1 <= i < |src| ==> src[i] == rest[i - 1];
    forall i | 0 <= i < |rest|
      ensures HasProvider(dst + [p], rest[i].prov) <==> HasProvider(dst, rest[i].prov) || rest[i].prov == p.prov
    {
      HasAppend(dst, [p], rest[i].prov);
      assert [p][0] == p;
    }
  }

  lemma MergedWithNothing(src: seq<Provider>, prov: nat)
    ensures HasProvider(MergeProviders([], src), prov) <==> HasProvider(src, prov)
    ensures DistinctProviders(MergeProviders([], src))
    ensures |MergeProviders([], src)| <= |src|
  {
    MergedProvidersMembers([], src, prov);
    MergedNotLonger([], src);
  }

  lemma {:induction false} MergedNotLonger(dst: seq<Provider>, src: seq<Provider>)
    ensures |MergeProviders(dst, src)| <= |dst| + |src|
    decreases |src|
  {
    if src != [] {
      MergedNotLonger(if HasProvider(dst, src[0].prov) then dst else dst + [src[0]], src[1..]);
    }
  }

  lemma AddCaidBounded(list: seq<Card>, card: Card, freeCard: bool)
    requires Bounded(list) && |card.providers| <= CS_MAXPROV
    ensures Bounded(AddCaid(list, card, freeCard))
  {
    hide MergeProviders, SameCard2, NumSame, MergeNodes, NewOnesDistinct;
    var k := FindMergeable(list, card, 0);
    if k == |list| {
      MergedWithNothing(card.providers, 0);
    } else {
      CountPredictedIff(list[k].providers, card.providers);
    }
  }

  lemma AddCaidDistinct(list: seq<Card>, card: Card, freeCard: bool)
    requires AllDistinct(list) && DistinctProviders(card.providers)
    ensures AllDistinct(AddCaid(list, card, freeCard))
  {
    hide MergeProviders, DistinctProviders, SameCard2, NumSame, MergeNodes;
    var k := FindMergeable(list, card, 0);
    if k == |list| {
      MergedWithNothing(card.providers, 0);
    } else {
      MergedProvidersMembers(list[k].providers, card.providers, 0);
    }
  }

  lemma AddCaidCovers(list: seq<Card>, card: Card, freeCard: bool, rep: Card, prov: nat, g: nat)
    ensures
      var r := AddCaid(list, card, freeCard);
      && (CoversProvider(r, rep, prov) <==>
            CoversProvider(list, rep, prov) || (SameCard2(card, rep, false) && HasProvider(card.providers, prov)))
      && (CoversGroup(r, rep, g) <==>
            CoversGroup(list, rep, g) || (SameCard2(card, rep, false) && g in card.grp))
  {
    hide MergeProviders, NumSame, HasProvider, MergeNodes;
    var k := FindMergeable(list, card, 0);
    var r := AddCaid(list, card, freeCard);
    if k == |list| {
      MergedWithNothing(card.providers, prov);
      CoverIffParts(list, r, rep, prov, g);
      assert r[..|list|] == list;
    } else {
      MergedProvidersMembers(list[k].providers, card.providers, prov);
      CoverUpdated(list, k, Merged(list[k], card), rep, prov, g);
    }
  }

  lemma CoverIffParts(list: seq<Card>, r: seq<Card>, rep: Card, prov: nat, g: nat)
    requires |r| == |list| + 1 && r[..|list|] == list
    ensures CoversProvider(r, rep, prov) <==>
      CoversProvider(list, rep, prov) || (SameCard2(r[|list|], rep, false) && HasProvider(r[|list|].providers, prov))
    ensures CoversGroup(r, rep, g) <==>
      CoversGroup(list, rep, g) || (SameCard2(r[|list|], rep, false) && g in r[|list|].grp)
  {
    hide SameCard2, HasProvider;
    assert forall i :: 0 <= i < |list| ==> r[i] == list[i];
  }

  lemma CoverUpdated(list: seq<Card>, k: nat, c: Card, rep: Card, prov: nat, g: nat)
    requires k < |list| && (SameCard2(c, rep, false) <==> SameCard2(list[k], rep, false))
    requires HasProvider(list[k].providers, prov) ==> HasProvider(c.providers, prov)
    requires g in list[k].grp ==> g in c.grp
    ensures CoversProvider(list[k := c], rep, prov) <==>
      CoversProvider(list, rep, prov) || (SameCard2(c, rep, false) && HasProvider(c.providers, prov))
    ensures CoversGroup(list[k := c], rep, g) <==>
      CoversGroup(list, rep, g) || (SameCard2(c, rep, false) && g in c.grp)
  {
    hide SameCard2, HasProvider;
    var r := list[k := c];
    assert forall i :: 0 <= i < |list| && i != k ==> r[i] == list[i];
    assert r[k] == c;
  }

  /** Merging conserves coverage: every class keeps exactly the union of the providers and of
      the groups offered for it, no card grows beyond the limit, and none comes to name a
      provider twice. */
  lemma {:induction false} CaidConserves(list: seq<Card>, offers: seq<Offer>, rep: Card, prov: nat, g: nat)
    requires Bounded(list) && BoundedOffers(offers)
    ensures Bounded(FoldCaid(list, offers))
    ensures AllDistinct(list) && OffersDistinct(offers) ==> AllDistinct(FoldCaid(list, offers))
    ensures CoversProvider(FoldCaid(list, offers), rep, prov) <==> CoversProvider(list, rep, prov) || OffersProvider(offers, rep, prov)
    ensures CoversGroup(FoldCaid(list, offers), rep, g) <==> CoversGroup(list, rep, g) || OffersGroup(offers, rep, g)
    decreases |offers|
  {
    hide AddCaid, CoversProvider, CoversGroup, HasProvider, SameCard2, DistinctProviders;
    if offers != [] {
      var next := AddCaid(list, offers[0].card, offers[0].freeCard);
      AddCaidBounded(list, offers[0].card, offers[0].freeCard);
      if AllDistinct(list) && OffersDistinct(offers) {
        AddCaidDistinct(list, offers[0].card, offers[0].freeCard);
      }
      AddCaidCovers(list, offers[0].card, offers[0].freeCard, rep, prov, g);
      CaidConserves(next, offers[1..], rep, prov, g);
    }
  }

  // ----- MINIMIZE_HOPS -----

  /** equal_providers. */
  predicate EqualProviders(a: seq<Provider>, b: seq<Provider>) {
    |a| == |b| && forall i :: 0 <= i < |a| ==> HasProvider(b, a[i].prov)
  }

  function FindEqual(list: seq<Card>, card: Card, i: nat): (k: nat)
    requires i <= |list|
    ensures i <= k <= |list|
    ensures k < |list| ==> SameCard2(card, list[k], false) && EqualProviders(card.providers, list[k].providers)
    decreases |list| - i
  {
    if i == |list| || (SameCard2(card, list[i], false) && EqualProviders(card.providers, list[i].providers)) then i
    else FindEqual(list, card, i + 1)
  }

  function AddHops(list: seq<Card>, card: Card, freeCard: bool): seq<Card> {
    var k := FindEqual(list, card, 0);
    if k == |list| then list + [Entering(card, freeCard)]
    else if list[k].hop > card.hop then Replace(list, k, Entering(card, freeCard))
    else list[k := list[k].(grp := list[k].grp + card.grp, providers := MergeProviders(list[k].providers, card.providers))]
  }

  /** cfg.cc_minimize_cards. */
  datatype Policy = KeepAll | MinimizeHops | MinimizeCaid

  function Add(p: Policy, list: seq<Card>, card: Card, freeCard: bool): seq<Card> {
    match p
    case KeepAll => AddDefault(list, card, freeCard)
    case MinimizeHops => AddHops(list, card, freeCard)
    case MinimizeCaid => AddCaid(list, card, freeCard)
  }

  function Fold(p: Policy, list: seq<Card>, offers: seq<Offer>): seq<Card>
    decreases |offers|
  {
    if offers == [] then list else Fold(p, Add(p, list, offers[0].card, offers[0].freeCard), offers[1..])
  }

  /** As far as hop, path and reshare go, the card is one that was offered. */
  predicate SamePath(c: Card, d: Card) {
    c.hop == d.hop && c.remoteNodes == d.remoteNodes && c.reshare == d.reshare && c.cardType == d.cardType
  }

  predicate FromOffer(c: Card, offers: seq<Offer>) {
    exists o :: 0 <= o < |offers| && SamePath(c, Entering(offers[o].card, offers[o].freeCard))
  }

  lemma ReplaceMembers(list: seq<Card>, k: nat, c: Card, d: Card)
    requires k < |list| && d in Replace(list, k, c)
    ensures d == c || d in list
  {
  }

  lemma AddFromOffer(p: Policy, list: seq<Card>, offers: seq<Offer>, offer: Offer, d: Card)
    requires p != MinimizeCaid && forall c :: c in list ==> FromOffer(c, offers)
    requires d in Add(p, list, offer.card, offer.freeCard)
    ensures FromOffer(d, offers + [offer])
  {
    hide SameCard, SameCard2, EqualProviders, MergeProviders, Entering;
    var more := offers + [offer];
    var n := Entering(offer.card, offer.freeCard);
    if SamePath(d, n) {
      assert more[|offers|] == offer;
    } else {
      assert exists c :: c in list && SamePath(d, c) by {
        if p.KeepAll? {
          var k := FindSame(list, offer.card, 0);
          if k < |list| && list[k].hop > offer.card.hop {
            ReplaceMembers(list, k, n, d);
          }
          assert d in list;
        } else {
          var k := FindEqual(list, offer.card, 0);
          if k < |list| {
            if list[k].hop > offer.card.hop {
              ReplaceMembers(list, k, n, d);
              assert d in list;
            } else {
              assert SamePath(d, list[k]) || d in list;
              assert list[k] in list;
            }
          } else {
            assert d in list;
          }
        }
      }
      var c :| c in list && SamePath(d, c);
      var o :| 0 <= o < |offers| && SamePath(c, Entering(offers[o].card, offers[o].freeCard));
      assert more[o] == offers[o];
    }
  }

  /** Without CAID merging, every card of the built list has hop, path and reshare of an offered
      one. */
  lemma {:induction false} FoldFromOffer(p: Policy, list: seq<Card>, seen: seq<Offer>, offers: seq<Offer>, d: Card)
    requires p != MinimizeCaid && forall c :: c in list ==> FromOffer(c, seen)
    requires d in Fold(p, list, offers)
    ensures FromOffer(d, seen + offers)
    decreases |offers|
  {
    hide Add, FromOffer;
    if offers == [] {
      assert seen + offers == seen;
    } else {
      var next := Add(p, list, offers[0].card, offers[0].freeCard);
      forall c | c in next
        ensures FromOffer(c, seen + [offers[0]])
      {
        AddFromOffer(p, list, seen, offers[0], c);
      }
      FoldFromOffer(p, next, seen + [offers[0]], offers[1..], d);
      assert seen + [offers[0]] + offers[1..] == seen + offers;
    }
  }

  // ----- the program's own form -----

  /** One LLIST of cards, changed through an iterator. */
  class ServerList {
    var cards: seq<Card>

    constructor ()
      ensures cards == []
    {
      cards := [];
    }

    method NumSameProviders(card1: Card, card2: Card) returns (found: nat)
      ensures found == NumSame(card1.providers, card2.providers)
    {
      found := 0;
      var i := 0;
      while i < |card1.providers|
        invariant 0 <= i <= |card1.providers|
        invariant NumSame(card1.providers, card2.providers) == found + NumSame(card1.providers[i..], card2.providers)
      {
        var j := 0;
        while j < |card2.providers| && card2.providers[j].prov != card1.providers[i].prov
          invariant 0 <= j <= |card2.providers|
          invariant forall l :: 0 <= l < j ==> card2.providers[l].prov != card1.providers[i].prov
        {
          j := j + 1;
        }
        if j < |card2.providers| {
          found := found + 1;
        }
        assert card1.providers[i..][1..] == card1.providers[i + 1..];
        i := i + 1;
      }
    }

    /** The default branch of add_card_to_serverlist. */
    method AddCard(card: Card, freeCard: bool) returns (modified: bool)
      modifies this
      ensures cards == AddDefault(old(cards), card, freeCard)
      ensures modified <==> FindSame(old(cards), card, 0) == |old(cards)| || old(cards)[FindSame(old(cards), card, 0)].hop > card.hop
    {
      hide SameCard, Entering;
      var k := 0;
      while k < |cards| && !SameCard(card, cards[k])
        invariant 0 <= k <= |cards|
        invariant FindSame(cards, card, 0) == FindSame(cards, card, k)
      {
        k := k + 1;
      }
      if k == |cards| {
        cards := cards + [Entering(card, freeCard)];
        return true;
      }
      if cards[k].hop > card.hop {
        if k == 0 {
          cards := cards[1..] + [Entering(card, freeCard)];
        } else {
          cards := cards[..k] + [Entering(card, freeCard)] + cards[k + 1..];
          assert cards == old(cards)[k := Entering(card, freeCard)];
        }
        return true;
      }
      return false;
    }

    /** The MINIMIZE_CAID branch of add_card_to_serverlist. */
    method AddCardCaid(card: Card, freeCard: bool) returns (modified: bool)
      modifies this
      ensures cards == AddCaid(old(cards), card, freeCard)
      ensures modified <==> |cards| == |old(cards)| + 1
    {
      hide SameCard2, NumSame, MergeProviders, MergeNodes;
      var k := 0;
      while k < |cards|
        invariant 0 <= k <= |cards|
        invariant cards == old(cards) && FindMergeable(cards, card, 0) == FindMergeable(cards, card, k)
      {
        if SameCard2(card, cards[k], false) {
          var nsame := NumSameProviders(card, cards[k]);
          var ndiff := |card.providers| - nsame;
          var nnew := ndiff + |cards[k].providers|;
          if nnew <= CS_MAXPROV {
            cards := cards[k := cards[k].(grp := cards[k].grp + card.grp,
                                           providers := MergeProviders(cards[k].providers, card.providers),
                                           remoteNodes := [])];
            return false;
          }
        }
        k := k + 1;
      }
      cards := cards + [if freeCard then card else CopyOf(card).(hop := 0)];
      return true;
    }

    /** equal_providers. */
    method EqualProviderLists(card1: Card, card2: Card) returns (equal: bool)
      ensures equal == EqualProviders(card1.providers, card2.providers)
    {
      if |card1.providers| != |card2.providers| {
        return false;
      }
      var i := 0;
      while i < |card1.providers|
        invariant 0 <= i <= |card1.providers|
        invariant forall l :: 0 <= l < i ==> HasProvider(card2.providers, card1.providers[l].prov)
      {
        var j := 0;
        while j < |card2.providers| && card2.providers[j].prov != card1.providers[i].prov
          invariant 0 <= j <= |card2.providers|
          invariant forall l :: 0 <= l < j ==> card2.providers[l].prov != card1.providers[i].prov
        {
          j := j + 1;
        }
        if j == |card2.providers| {
          return false;
        }
        i := i + 1;
      }
      return true;
    }

    /** The MINIMIZE_HOPS branch of add_card_to_serverlist. */
    method AddCardHops(card: Card, freeCard: bool) returns (modified: bool)
      modifies this
      ensures cards == AddHops(old(cards), card, freeCard)
      ensures modified <==> FindEqual(old(cards), card, 0) == |old(cards)| || old(cards)[FindEqual(old(cards), card, 0)].hop > card.hop
    {
      hide SameCard2, EqualProviders, MergeProviders, Entering;
      var k := 0;
      while k < |cards|
        invariant 0 <= k <= |cards|
        invariant cards == old(cards) && FindEqual(cards, card, 0) == FindEqual(cards, card, k)
      {
        if SameCard2(card, cards[k], false) {
          var equal := EqualProviderLists(card, cards[k]);
          if equal {
            break;
          }
        }
        k := k + 1;
      }
      if k == |cards| {
        cards := cards + [Entering(card, freeCard)];
        return true;
      }
      if cards[k].hop > card.hop {
        if k == 0 {
          cards := cards[1..] + [Entering(card, freeCard)];
        } else {
          cards := cards[..k] + [Entering(card, freeCard)] + cards[k + 1..];
          assert cards == old(cards)[k := Entering(card, freeCard)];
        }
        return true;
      }
      cards := cards[k := cards[k].(grp := cards[k].grp + card.grp, providers := MergeProviders(cards[k].providers, card.providers))];
      return false;
    }
  }
}
