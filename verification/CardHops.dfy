/** Deduplication under MINIMIZE_HOPS (add_card_to_serverlist in module-cccshare.c): cards that
    agree in everything but path, and in their set of providers, are one card. */
module CardHops {
  import opened Cards
  import opened CardList

  /** The class of a card: same_card2 without groups, and the same providers. */
  predicate SameHops(a: Card, b: Card) { SameCard2(a, b, false) && EqualProviders(a.providers, b.providers) }

  ghost predicate SameProviders(a: seq<Provider>, b: seq<Provider>) { forall prov :: HasProvider(a, prov) <==> HasProvider(b, prov) }

  /** Lists without repetitions that are as long, and one in the other, name the same providers. */
  lemma EqualIsSame(a: seq<Provider>, b: seq<Provider>)
    requires DistinctProviders(a) && DistinctProviders(b)
    ensures EqualProviders(a, b) <==> SameProviders(a, b)
  {
    ProvsOf(a);
    ProvsOf(b);
    if EqualProviders(a, b) {
      SubsetOfSize(Provs(a), Provs(b));
      assert forall prov :: HasProvider(a, prov) <==> prov in Provs(a);
      assert forall prov :: HasProvider(b, prov) <==> prov in Provs(b);
    } else if SameProviders(a, b) {
      assert Provs(a) == Provs(b);
      forall i | 0 <= i < |a|
        ensures HasProvider(b, a[i].prov)
      {
        assert HasProvider(a, a[i].prov);
      }
    }
  }

  /** With repetitions the comparison depends on the order of its arguments. */
  lemma RepetitionsBreakSymmetry(p: Provider, q: Provider)
    requires p.prov != q.prov
    ensures EqualProviders([p, p], [p, q]) && !EqualProviders([p, q], [p, p])
  {
    assert HasProvider([p, q], [p, p][0].prov) && HasProvider([p, q], [p, p][1].prov) by {
      assert [p, q][0] == p;
    }
    assert !HasProvider([p, p], [p, q][1].prov);
  }

  ghost function Provs(a: seq<Provider>): set<nat> { set i | 0 <= i < |a| :: a[i].prov }

  lemma {:induction false} ProvsOf(a: seq<Provider>)
    requires DistinctProviders(a)
    ensures |Provs(a)| == |a|
    ensures forall prov :: prov in Provs(a) <==> HasProvider(a, prov)
    decreases |a|
  {
    if a != [] {
      var b := a[..|a| - 1];
      ProvsOf(b);
      var last := a[|a| - 1].prov;
      assert last !in Provs(b);
      assert Provs(a) == Provs(b) + {last} by {
        assert forall i :: 0 <= i < |b| ==> b[i] == a[i];
      }
    }
  }

  lemma SubsetOfSize(x: set<nat>, y: set<nat>)
    requires x <= y && |x| == |y|
    ensures x == y
  {
    assert |y - x| == 0;
  }

  lemma SameHopsEquivalence(a: Card, b: Card, c: Card)
    requires DistinctProviders(a.providers) && DistinctProviders(b.providers) && DistinctProviders(c.providers)
    ensures SameHops(a, a)
    ensures SameHops(a, b) ==> SameHops(b, a)
    ensures SameHops(a, b) && SameHops(b, c) ==> SameHops(a, c)
  {
    hide HasProvider, EqualProviders, DistinctProviders;
    EqualIsSame(a.providers, a.providers);
    EqualIsSame(a.providers, b.providers);
    EqualIsSame(b.providers, a.providers);
    EqualIsSame(b.providers, c.providers);
    EqualIsSame(a.providers, c.providers);
  }

  // ----- what an addition does -----

  /** Adding providers that are all there changes nothing. */
  lemma {:induction false} MergeNothingNew(dst: seq<Provider>, src: seq<Provider>)
    requires forall i :: 0 <= i < |src| ==> HasProvider(dst, src[i].prov)
    ensures MergeProviders(dst, src) == dst
    decreases |src|
  {
    if src != [] {
      assert HasProvider(dst, src[0].prov);
      MergeNothingNew(dst, src[1..]);
    }
  }

  lemma {:induction false} MergeAllNew(dst: seq<Provider>, src: seq<Provider>)
    requires DistinctProviders(dst + src)
    ensures MergeProviders(dst, src) == dst + src
    decreases |src|
  {
    if src == [] {
      assert dst + src == dst;
    } else {
      assert (dst + src)[|dst|] == src[0];
      assert forall i :: 0 <= i < |dst| ==> (dst + src)[i] == dst[i];
      assert dst + [src[0]] + src[1..] == dst + src;
      MergeAllNew(dst + [src[0]], src[1..]);
    }
  }

  lemma EnteringHops(card: Card, freeCard: bool)
    requires DistinctProviders(card.providers)
    ensures SameHops(Entering(card, freeCard), card) && Entering(card, freeCard).hop == card.hop
    ensures Entering(card, freeCard).providers == card.providers
  {
    hide EqualProviders, HasProvider;
    assert [] + card.providers == card.providers;
    MergeAllNew([], card.providers);
    SameHopsEquivalence(card, card, card);
  }

  /** A card met again with no fewer hops adds its groups and nothing else. */
  lemma MetAgain(old1: Card, card: Card)
    requires SameHops(card, old1) && DistinctProviders(card.providers) && DistinctProviders(old1.providers)
    ensures
      var m := old1.(grp := old1.grp + card.grp, providers := MergeProviders(old1.providers, card.providers));
      m == old1.(grp := old1.grp + card.grp)
  {
    MergeNothingNew(old1.providers, card.providers);
  }

  predicate OnePerHops(list: seq<Card>) { forall i, j :: 0 <= i < j < |list| ==> !SameHops(list[i], list[j]) }

  /** The hop of the class of a card, if the list has one. */
  predicate HopIs(list: seq<Card>, rep: Card, hop: nat) { exists i :: 0 <= i < |list| && SameHops(list[i], rep) && list[i].hop == hop }

  /** What the list is after one addition: one place holds the class of the card, with the
      smaller hop, and the others are as before, one of them perhaps moved. */
  lemma AddHopsPlaces(list: seq<Card>, card: Card, freeCard: bool)
    requires AllDistinct(list) && DistinctProviders(card.providers)
    ensures
      var k := FindEqual(list, card, 0);
      var r := AddHops(list, card, freeCard);
      var c := if k == |list| || list[k].hop > card.hop then Entering(card, freeCard) else list[k].(grp := list[k].grp + card.grp);
      && SameHops(c, card) && DistinctProviders(c.providers)
      && c.hop == (if k == |list| || list[k].hop > card.hop then card.hop else list[k].hop)
      && r == if k == |list| then list + [c] else if list[k].hop > card.hop then Replace(list, k, c) else list[k := c]
  {
    hide EqualProviders, HasProvider, SameCard2, MergeProviders, DistinctProviders;
    var k := FindEqual(list, card, 0);
    EnteringHops(card, freeCard);
    if k < |list| {
      MetAgain(list[k], card);
      SameHopsEquivalence(card, list[k], card);
      GroupsDoNotMatter(list[k], card.grp, card);
    }
  }

  lemma GroupsDoNotMatter(c: Card, g: set<nat>, d: Card)
    ensures SameHops(c.(grp := c.grp + g), d) == SameHops(c, d)
  {
  }

  /** One card per class before, one card per class after. */
  lemma AddHopsKeepsOne(list: seq<Card>, card: Card, freeCard: bool)
    requires AllDistinct(list) && OnePerHops(list) && DistinctProviders(card.providers)
    ensures AllDistinct(AddHops(list, card, freeCard)) && OnePerHops(AddHops(list, card, freeCard))
  {
    hide SameHops, DistinctProviders, AddHops, FindEqual;
    AddHopsPlaces(list, card, freeCard);
    var k := FindEqual(list, card, 0);
    var r := AddHops(list, card, freeCard);
    var c := if k == |list| || list[k].hop > card.hop then Entering(card, freeCard) else list[k].(grp := list[k].grp + card.grp);
    forall i | 0 <= i < |list| && i != k
      ensures !SameHops(list[i], c) && !SameHops(c, list[i])
    {
      NotOfClass(list, card, i);
      SameHopsEquivalence(list[i], c, card);
      SameHopsEquivalence(c, list[i], card);
      SameHopsEquivalence(c, list[i], c);
    }
  }

  lemma {:induction false} NotOfClass(list: seq<Card>, card: Card, i: nat)
    requires AllDistinct(list) && OnePerHops(list) && DistinctProviders(card.providers)
    requires i < |list| && i != FindEqual(list, card, 0)
    ensures !SameHops(list[i], card) && !SameHops(card, list[i])
  {
    hide SameHops, DistinctProviders;
    var k := FindEqual(list, card, 0);
    SameHopsEquivalence(list[i], card, list[i]);
    SameHopsEquivalence(card, list[i], card);
    if k < |list| {
      assert SameHops(card, list[k]) by { FoundIsSame(list, card); }
      SameHopsEquivalence(list[i], card, list[k]);
      SameHopsEquivalence(card, list[k], card);
      SameHopsEquivalence(list[k], card, list[i]);
    } else {
      FirstEqual(list, card, 0, i);
    }
  }

  lemma FoundIsSame(list: seq<Card>, card: Card)
    requires FindEqual(list, card, 0) < |list|
    ensures SameHops(card, list[FindEqual(list, card, 0)])
  {
  }

  lemma {:induction false} FirstEqual(list: seq<Card>, card: Card, from: nat, i: nat)
    requires from <= i < |list| && i < FindEqual(list, card, from)
    ensures !SameHops(card, list[i])
    decreases |list| - from
  {
    hide SameCard2, EqualProviders;
    if from < i {
      FirstEqual(list, card, from + 1, i);
    }
  }

  /** A class is in the list exactly if it has a hop, and then with that hop alone. */
  ghost predicate HopsAre(list: seq<Card>, rep: Card, hop: Option<nat>) {
    forall h: nat :: HopIs(list, rep, h) <==> hop == Some(h)
  }

  function Lower(hop: Option<nat>, card: Card, rep: Card): Option<nat> {
    if !SameHops(card, rep) then hop
    else match hop case None => Some(card.hop) case Some(h) => Some(Min(h, card.hop))
  }

  /** The class's hop after an addition. */
  lemma AddHopsHop(list: seq<Card>, card: Card, freeCard: bool, rep: Card, hop: Option<nat>)
    requires AllDistinct(list) && OnePerHops(list) && DistinctProviders(card.providers) && DistinctProviders(rep.providers)
    requires HopsAre(list, rep, hop)
    ensures HopsAre(AddHops(list, card, freeCard), rep, Lower(hop, card, rep))
  {
    hide SameHops, DistinctProviders, AddHops, FindEqual, OnePerHops, Replace;
    AddHopsPlaces(list, card, freeCard);
    var k := FindEqual(list, card, 0);
    var r := AddHops(list, card, freeCard);
    var c := if k == |list| || list[k].hop > card.hop then Entering(card, freeCard) else list[k].(grp := list[k].grp + card.grp);
    SameClass(c, card, rep);
    OthersOutside(list, card, rep);
    if k < |list| {
      FoundIsSame(list, card);
      SameHopsEquivalence(card, list[k], card);
      SameClass(list[k], card, rep);
      assert SameHops(card, rep) ==> HopIs(list, rep, list[k].hop);
    }
    forall h: nat
      ensures HopIs(r, rep, h) <==> Lower(hop, card, rep) == Some(h)
    {
      Places(list, k, c, r, rep, h);
      assert HopIs(list, rep, h) <==> hop == Some(h);
    }
  }

  lemma SameClass(a: Card, b: Card, rep: Card)
    requires SameHops(a, b)
    requires DistinctProviders(a.providers) && DistinctProviders(b.providers) && DistinctProviders(rep.providers)
    ensures SameHops(a, rep) <==> SameHops(b, rep)
  {
    hide SameHops, DistinctProviders;
    SameHopsEquivalence(a, b, rep);
    SameHopsEquivalence(b, a, rep);
  }

  /** Only the found place can be of the class of the card. */
  lemma {:induction false} OthersOutside(list: seq<Card>, card: Card, rep: Card)
    requires AllDistinct(list) && OnePerHops(list) && DistinctProviders(card.providers) && DistinctProviders(rep.providers)
    ensures SameHops(card, rep) ==> forall i :: 0 <= i < |list| && i != FindEqual(list, card, 0) ==> !SameHops(list[i], rep)
  {
    hide SameHops, DistinctProviders, OnePerHops, FindEqual;
    forall i | 0 <= i < |list| && i != FindEqual(list, card, 0) && SameHops(card, rep)
      ensures !SameHops(list[i], rep)
    {
      NotOfClass(list, card, i);
      SameHopsEquivalence(card, rep, list[i]);
      SameHopsEquivalence(list[i], rep, card);
    }
  }

  function Min(a: nat, b: nat): nat { if a < b then a else b }

  /** Places keep their hops wherever they are moved. */
  lemma Places(list: seq<Card>, k: nat, c: Card, r: seq<Card>, rep: Card, hop: nat)
    requires k <= |list|
    requires r == (if k == |list| then list + [c] else Replace(list, k, c)) || (k < |list| && r == list[k := c])
    ensures HopIs(r, rep, hop) <==>
      (SameHops(c, rep) && c.hop == hop) || exists i :: 0 <= i < |list| && i != k && SameHops(list[i], rep) && list[i].hop == hop
  {
    hide SameHops;
    if HopIs(r, rep, hop) {
      var j :| 0 <= j < |r| && SameHops(r[j], rep) && r[j].hop == hop;
      if k < |list| && r != list[k := c] && k == 0 {
        assert j < |r| - 1 ==> r[j] == list[j + 1];
      }
    }
    if SameHops(c, rep) && c.hop == hop {
      assert c == if k < |list| && r != list[k := c] && k == 0 then r[|r| - 1] else r[k];
    }
    if i :| 0 <= i < |list| && i != k && SameHops(list[i], rep) && list[i].hop == hop {
      assert list[i] == if k < |list| && r != list[k := c] && k == 0 then r[i - 1] else r[i];
    }
  }

  // ----- every sequence -----

  function FoldHops(list: seq<Card>, offers: seq<Offer>): seq<Card> { Fold(MinimizeHops, list, offers) }

  /** The smallest hop offered for a class, on top of what was there. */
  function Smallest(sofar: Option<nat>, offers: seq<Offer>, rep: Card): Option<nat>
    decreases |offers|
  {
    if offers == [] then sofar
    else Smallest(Lower(sofar, offers[0].card, rep), offers[1..], rep)
  }

  /** Folding any sequence of cards without repeated providers leaves exactly one card per
      class, with the smallest hop offered in that class. */
  lemma {:induction false} HopsDeduplicates(list: seq<Card>, offers: seq<Offer>, rep: Card, hop: Option<nat>)
    requires AllDistinct(list) && OnePerHops(list) && OffersDistinct(offers) && DistinctProviders(rep.providers)
    requires HopsAre(list, rep, hop)
    ensures OnePerHops(FoldHops(list, offers))
    ensures HopsAre(FoldHops(list, offers), rep, Smallest(hop, offers, rep))
    decreases |offers|
  {
    hide SameHops, DistinctProviders, AddHops, OnePerHops, AllDistinct, HopIs;
    if offers != [] {
      AddHopsKeepsOne(list, offers[0].card, offers[0].freeCard);
      AddHopsHop(list, offers[0].card, offers[0].freeCard, rep, hop);
      HopsDeduplicates(AddHops(list, offers[0].card, offers[0].freeCard), offers[1..], rep, Lower(hop, offers[0].card, rep));
    }
  }

  // ----- repetitions -----

  lemma {:induction false} NothingSame(a: seq<Provider>)
    ensures NumSame(a, []) == 0
    decreases |a|
  {
    if a != [] {
      NothingSame(a[1..]);
    }
  }

  /** The copy in the list names every provider once, so it is shorter exactly if the card repeats
      some. */
  lemma CopyLengthIff(card: Card)
    ensures |CopyOf(card).providers| == |card.providers| <==> DistinctProviders(card.providers)
    ensures forall i :: 0 <= i < |card.providers| ==> HasProvider(CopyOf(card).providers, card.providers[i].prov)
  {
    CountPredictedIff([], card.providers);
    NothingSame(card.providers);
    forall i | 0 <= i < |card.providers|
      ensures HasProvider(CopyOf(card).providers, card.providers[i].prov)
    {
      MergedProvidersMembers([], card.providers, card.providers[i].prov);
    }
  }

  /** A card that is copied into the list and offered again leaves one card exactly if it names no
      provider twice: otherwise its own copy is too short to be found, and the list comes to hold
      two cards of one class. */
  lemma OfferedTwiceIff(card: Card)
    ensures
      var list := FoldHops([], [Offer(card, false), Offer(card, false)]);
      && (|list| == 1 <==> DistinctProviders(card.providers))
      && (|list| != 1 ==> |list| == 2 && SameHops(list[0], list[1]))
  {
    hide MergeProviders, MergeNodes, DistinctProviders, HasProvider;
    var offer, c := Offer(card, false), CopyOf(card);
    CopyLengthIff(card);
    assert FindEqual([], card, 0) == 0;
    assert AddHops([], card, false) == [] + [c] == [c];
    var twice := AddHops([c], card, false);
    assert FindEqual([c], card, 0) == 0 <==> DistinctProviders(card.providers);
    SelfEqual(c.providers);
    assert [offer, offer][1..] == [offer] && [offer][1..] == [];
    assert Fold(MinimizeHops, [c], [offer]) == Fold(MinimizeHops, twice, []) == twice;
    assert FoldHops([], [offer, offer]) == Fold(MinimizeHops, [c], [offer]);
  }

  lemma SelfEqual(a: seq<Provider>)
    ensures EqualProviders(a, a)
  {
  }

  /** The smallest such card. */
  lemma RepeatedProviderStays(card: Card, p: Provider)
    requires card.providers == [p, p]
    ensures
      var list := FoldHops([], [Offer(card, false), Offer(card, false)]);
      |list| == 2 && list[0].providers == list[1].providers == [p]
  {
    hide MergeNodes;
    OfferedTwiceIff(card);
    assert [p, p][0].prov == [p, p][1].prov;
    assert !DistinctProviders(card.providers);
    assert HasProvider([p], p.prov) by { assert [p][0] == p; }
    assert [p, p][1..] == [p] && [p][1..] == [] && [] + [p] == [p];
    assert MergeProviders([], [p, p]) == MergeProviders([p], [p]) == MergeProviders([p], []) == [p];
    TwoCopies(card);
  }

  lemma TwoCopies(card: Card)
    requires |FoldHops([], [Offer(card, false), Offer(card, false)])| == 2
    ensures FoldHops([], [Offer(card, false), Offer(card, false)]) == [CopyOf(card), CopyOf(card)]
  {
    hide MergeProviders, MergeNodes, HasProvider, SameCard2;
    var offer, c := Offer(card, false), CopyOf(card);
    assert AddHops([], card, false) == [c];
    assert [offer, offer][1..] == [offer] && [offer][1..] == [];
    var twice := AddHops([c], card, false);
    assert Fold(MinimizeHops, [c], [offer]) == Fold(MinimizeHops, twice, []) == twice;
    assert FoldHops([], [offer, offer]) == Fold(MinimizeHops, [c], [offer]);
  }
}
