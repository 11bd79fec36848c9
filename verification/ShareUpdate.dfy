/** The final phase of update_card_list (module-cccshare.c): the new server cards are compared
    with the reported ones; what is matched keeps its id, what is left over is withdrawn, what
    is new is announced. */
module ShareUpdate {
  import opened Bytes
  import opened Cards

  predicate TimedOut(c: Card, now: int) { !c.cardType.RemoteCard? && c.timeout < now }

  /** find_reported_card: the reported card that stands for this one. */
  function FindReported(olds: seq<Card>, card: Card, now: int, i: nat): (k: nat)
    requires i <= |olds|
    ensures i <= k <= |olds|
    ensures k < |olds| ==> SameCard(card, olds[k]) && !TimedOut(olds[k], now)
    ensures forall j :: i <= j < k ==> !(SameCard(card, olds[j]) && !TimedOut(olds[j], now))
    decreases |olds| - i
  {
    if i == |olds| || (SameCard(card, olds[i]) && !TimedOut(olds[i], now)) then i
    else FindReported(olds, card, now, i + 1)
  }

  function Without(s: seq<Card>, k: nat): (r: seq<Card>)
    requires k < |s|
    ensures |r| == |s| - 1
  {
    s[..k] + s[k + 1..]
  }

  /** The new list, the positions of its new cards, the old cards left over, and, for every new
      card, the old one it took the place of. */
  datatype Diff = Diff(news: seq<Card>, added: seq<nat>, left: seq<Card>, partners: seq<Option<Card>>)

  /** report_card for the offered cards, in order. */
  function Report(d: Diff, offered: seq<Card>, now: int): Diff
    decreases |offered|
  {
    if offered == [] then d else Report(ReportOne(d, offered[0], now), offered[1..], now)
  }

  function ReportOne(d: Diff, card: Card, now: int): Diff {
    var k := FindReported(d.left, card, now, 0);
    if k < |d.left| then
      Diff(d.news + [card.(id := d.left[k].id, timeout := d.left[k].timeout)], d.added,
           Without(d.left, k), d.partners + [Some(d.left[k])])
    else Diff(d.news + [card], d.added + [|d.news|], d.left, d.partners + [None])
  }

  function Present(ps: seq<Option<Card>>): (r: seq<Card>)
    decreases |ps|
  {
    if ps == [] then []
    else Present(ps[..|ps| - 1]) + if ps[|ps| - 1].Some? then [ps[|ps| - 1].value] else []
  }

  /** Card for card: new card i either took id and timeout over from a card of its class that
      is not timed out, or it is as it was offered. */
  predicate Paired(d: Diff, offered: seq<Card>, now: int) {
    && |d.news| == |d.partners| == |offered|
    && forall i :: 0 <= i < |offered| ==> PairedAt(d.news[i], d.partners[i], offered[i], now)
  }

  predicate PairedAt(card: Card, partner: Option<Card>, offer: Card, now: int) {
    match partner
    case Some(o) => SameCard(offer, o) && !TimedOut(o, now) && card == offer.(id := o.id, timeout := o.timeout)
    case None => card == offer
  }

  /** The added positions are exactly the unmatched ones, each listed once. */
  predicate AddedOnce(d: Diff) {
    && (forall i :: 0 <= i < |d.partners| ==> (i in d.added <==> d.partners[i].None?))
    && (forall i :: i in d.added ==> i < |d.partners|)
    && (forall i, j :: 0 <= i < j < |d.added| ==> d.added[i] < d.added[j])
  }

  /** Every old card is left over or the partner of one new card. */
  predicate Conserved(d: Diff, olds: seq<Card>) {
    multiset(olds) == multiset(d.left) + multiset(Present(d.partners))
  }

  predicate Accounted(d: Diff, olds: seq<Card>, offered: seq<Card>, now: int) {
    Paired(d, offered, now) && AddedOnce(d) && Conserved(d, olds)
  }

  lemma WithoutMultiset(s: seq<Card>, k: nat)
    requires k < |s|
    ensures multiset(s) == multiset(Without(s, k)) + multiset{s[k]}
  {
    assert s == s[..k] + [s[k]] + s[k + 1..];
  }

  lemma ReportOneAccounts(d: Diff, olds: seq<Card>, offered: seq<Card>, card: Card, now: int)
    requires Accounted(d, olds, offered, now)
    ensures Accounted(ReportOne(d, card, now), olds, offered + [card], now)
  {
    hide SameCard, TimedOut, AddedOnce, Conserved;
    ReportOneAddedOnce(d, card, now);
    ReportOneConserves(d, olds, card, now);
  }

  lemma ReportOneAddedOnce(d: Diff, card: Card, now: int)
    requires AddedOnce(d) && |d.news| == |d.partners|
    ensures AddedOnce(ReportOne(d, card, now))
  {
    hide SameCard, TimedOut;
    var e := ReportOne(d, card, now);
    assert forall i :: 0 <= i < |d.partners| ==> e.partners[i] == d.partners[i];
    var k := FindReported(d.left, card, now, 0);
    var m := |d.partners|;
    assert m !in d.added;
    if k < |d.left| {
      assert e.added == d.added && e.partners[m].Some?;
    } else {
      assert e.added == d.added + [m] && e.partners[m].None?;
      forall x | 0 <= x < |d.added|
        ensures d.added[x] < m
      {
        assert d.added[x] in d.added;
      }
      AppendMember(d.added, m);
    }
  }

  lemma AppendMember(s: seq<nat>, m: nat)
    ensures forall i :: i in s + [m] <==> i in s || i == m
  {
  }

  lemma ReportOneConserves(d: Diff, olds: seq<Card>, card: Card, now: int)
    requires Conserved(d, olds)
    ensures Conserved(ReportOne(d, card, now), olds)
  {
    hide SameCard, TimedOut;
    var k := FindReported(d.left, card, now, 0);
    var e := ReportOne(d, card, now);
    assert e.partners[..|e.partners| - 1] == d.partners;
    if k < |d.left| {
      WithoutMultiset(d.left, k);
    }
  }

  /** Every old card is matched by at most one new card, which inherits its id, or is left
      over; every unmatched new card is listed once for announcement. */
  lemma {:induction false} ReportAccounts(d: Diff, olds: seq<Card>, done: seq<Card>, offered: seq<Card>, now: int)
    requires Accounted(d, olds, done, now)
    ensures Accounted(Report(d, offered, now), olds, done + offered, now)
    decreases |offered|
  {
    hide Accounted, ReportOne;
    if offered == [] {
      assert done + offered == done;
    } else {
      ReportOneAccounts(d, olds, done, offered[0], now);
      ReportAccounts(ReportOne(d, offered[0], now), olds, done + [offered[0]], offered[1..], now);
      assert done + [offered[0]] + offered[1..] == done + offered;
    }
  }

  function Compare(olds: seq<Card>, offered: seq<Card>, now: int): Diff {
    Report(Diff([], [], olds, []), offered, now)
  }

  lemma CompareAccounts(olds: seq<Card>, offered: seq<Card>, now: int)
    ensures Accounted(Compare(olds, offered, now), olds, offered, now)
  {
    hide Report;
    assert multiset(olds) == multiset(olds) + multiset(Present([]));
    ReportAccounts(Diff([], [], olds, []), olds, [], offered, now);
    assert [] + offered == offered;
  }

  // ----- ids -----

  /** Announcing the added cards in order: a card without an id gets the next one as soon as
      some client is sent it. */
  datatype Numbered = Numbered(cards: seq<Card>, shareId: nat)

  function Announce(n: Numbered, at: seq<nat>, wanted: Card -> bool): Numbered
    decreases |at|
  {
    if at == [] then n else Announce(AnnounceOne(n, at[0], wanted), at[1..], wanted)
  }

  function AnnounceOne(n: Numbered, i: nat, wanted: Card -> bool): Numbered {
    if i < |n.cards| && n.cards[i].id == 0 && wanted(n.cards[i]) then
      Numbered(n.cards[i := n.cards[i].(id := n.shareId)], n.shareId + 1)
    else n
  }

  /** Assigned ids are pairwise distinct and below the counter. */
  predicate GoodIds(n: Numbered) {
    && n.shareId > 0
    && (forall i :: 0 <= i < |n.cards| ==> n.cards[i].id < n.shareId)
    && (forall i, j :: 0 <= i < j < |n.cards| && n.cards[i].id != 0 ==> n.cards[i].id != n.cards[j].id)
  }

  lemma {:induction false} AnnounceKeepsIds(n: Numbered, at: seq<nat>, wanted: Card -> bool)
    requires GoodIds(n)
    ensures GoodIds(Announce(n, at, wanted))
    ensures |Announce(n, at, wanted).cards| == |n.cards| && n.shareId <= Announce(n, at, wanted).shareId
    ensures forall i :: 0 <= i < |n.cards| && n.cards[i].id != 0 ==> Announce(n, at, wanted).cards[i] == n.cards[i]
    ensures forall i :: 0 <= i < |n.cards| && i !in at ==> Announce(n, at, wanted).cards[i] == n.cards[i]
    ensures forall i :: 0 <= i < |n.cards| ==> Announce(n, at, wanted).cards[i] == n.cards[i].(id := Announce(n, at, wanted).cards[i].id)
    decreases |at|
  {
    if at != [] {
      AnnounceKeepsIds(AnnounceOne(n, at[0], wanted), at[1..], wanted);
    }
  }

  lemma {:induction false} AnnounceNumbers(n: Numbered, at: seq<nat>, wanted: Card -> bool, i: nat)
    requires GoodIds(n) && i < |n.cards| && i in at && n.cards[i].id == 0
    requires forall x, y :: 0 <= x < y < |at| ==> at[x] != at[y]
    ensures |Announce(n, at, wanted).cards| == |n.cards|
    ensures wanted(n.cards[i]) <==> Announce(n, at, wanted).cards[i].id != 0
    ensures wanted(n.cards[i]) ==> Announce(n, at, wanted).cards[i].id >= n.shareId
    decreases |at|
  {
    AnnounceKeepsIds(n, at, wanted);
    var m := AnnounceOne(n, at[0], wanted);
    if at[0] == i {
      assert i !in at[1..];
      AnnounceKeepsIds(m, at[1..], wanted);
    } else {
      AnnounceNumbers(m, at[1..], wanted, i);
    }
  }

  // ----- one update -----

  /** Ids of the reported cards, which is what a client that may see every card holds. */
  function IdSet(cards: seq<Card>): set<nat> { set i | 0 <= i < |cards| && cards[i].id != 0 :: cards[i].id }

  /** The ids at some positions of a list. */
  function IdsAt(cards: seq<Card>, at: seq<nat>): set<nat> {
    set i | i in at && i < |cards| && cards[i].id != 0 :: cards[i].id
  }

  /** Cards that are offered anew have no id yet. */
  predicate Unnumbered(offered: seq<Card>) { forall i :: 0 <= i < |offered| ==> offered[i].id == 0 }

  predicate DistinctIds(cards: seq<Card>) {
    forall i, j :: 0 <= i < j < |cards| && cards[i].id != 0 ==> cards[i].id != cards[j].id
  }

  /** Two lists between which the ids are divided. */
  predicate Apart(x: seq<Card>, y: seq<Card>) {
    && DistinctIds(x) && DistinctIds(y)
    && forall i, j :: 0 <= i < |x| && 0 <= j < |y| && x[i].id != 0 ==> x[i].id != y[j].id
  }

  lemma MoveKeepsApart(x: seq<Card>, y: seq<Card>, k: nat, c: Card)
    requires Apart(x, y) && k < |x| && c.id == x[k].id
    ensures Apart(Without(x, k), y + [c])
  {
    var w, z := Without(x, k), y + [c];
    assert forall i :: 0 <= i < |w| ==> w[i] == x[if i < k then i else i + 1];
    assert forall j :: 0 <= j < |z| ==> z[j] == if j < |y| then y[j] else c;
    forall i, j | 0 <= i < |w| && 0 <= j < |z| && w[i].id != 0
      ensures w[i].id != z[j].id
    {
      var i' := if i < k then i else i + 1;
      assert w[i] == x[i'];
    }
  }

  lemma IdSetConcat(x: seq<Card>, y: seq<Card>)
    ensures IdSet(x + y) == IdSet(x) + IdSet(y)
  {
    assert forall i :: 0 <= i < |x| ==> (x + y)[i] == x[i];
    assert forall i :: 0 <= i < |y| ==> (x + y)[|x| + i] == y[i];
    assert forall i :: |x| <= i < |x + y| ==> (x + y)[i] == y[i - |x|];
  }

  lemma IdSetOne(c: Card, d: Card)
    requires c.id == d.id
    ensures IdSet([c]) == IdSet([d])
  {
    assert [c][0] == c && [d][0] == d;
  }

  lemma MoveKeepsIds(x: seq<Card>, y: seq<Card>, k: nat, c: Card)
    requires k < |x| && c.id == x[k].id
    ensures IdSet(Without(x, k)) + IdSet(y + [c]) == IdSet(x) + IdSet(y)
  {
    hide IdSet;
    IdSetConcat(x[..k], x[k + 1..]);
    IdSetConcat(y, [c]);
    IdSetOne(c, x[k]);
    IdSetConcat(x[..k], [x[k]]);
    IdSetConcat(x[..k] + [x[k]], x[k + 1..]);
    assert x == x[..k] + [x[k]] + x[k + 1..];
  }

  lemma AppendKeepsApart(x: seq<Card>, y: seq<Card>, c: Card)
    requires Apart(x, y) && c.id == 0
    ensures Apart(x, y + [c]) && IdSet(y + [c]) == IdSet(y)
  {
    assert forall i :: 0 <= i < |y| ==> (y + [c])[i] == y[i];
  }

  lemma {:induction false} ReportMovesIds(d: Diff, offered: seq<Card>, now: int)
    requires Apart(d.left, d.news) && Unnumbered(offered)
    ensures
      var e := Report(d, offered, now);
      Apart(e.left, e.news) && IdSet(e.left) + IdSet(e.news) == IdSet(d.left) + IdSet(d.news)
    decreases |offered|
  {
    hide SameCard, TimedOut, Apart, IdSet, Without;
    if offered != [] {
      var k := FindReported(d.left, offered[0], now, 0);
      if k < |d.left| {
        var c := offered[0].(id := d.left[k].id, timeout := d.left[k].timeout);
        MoveKeepsApart(d.left, d.news, k, c);
        MoveKeepsIds(d.left, d.news, k, c);
      } else {
        AppendKeepsApart(d.left, d.news, offered[0]);
      }
      ReportMovesIds(ReportOne(d, offered[0], now), offered[1..], now);
    }
  }

  lemma ApartSets(x: seq<Card>, y: seq<Card>)
    requires Apart(x, y)
    ensures IdSet(x) !! IdSet(y)
  {
  }

  lemma GoodIdsOf(cards: seq<Card>, shareId: nat)
    requires shareId > 0 && DistinctIds(cards)
    requires forall id :: id in IdSet(cards) ==> id < shareId
    ensures GoodIds(Numbered(cards, shareId))
  {
    forall i | 0 <= i < |cards|
      ensures cards[i].id < shareId
    {
      if cards[i].id != 0 {
        assert cards[i].id in IdSet(cards);
      }
    }
  }

  /** One update: compared, then announced. */
  function Updated(olds: seq<Card>, offered: seq<Card>, now: int, shareId: nat, wanted: Card -> bool): Numbered {
    var d := Compare(olds, offered, now);
    Announce(Numbered(d.news, shareId), d.added, wanted)
  }

  /** Conservation: removing the ids left over from the old ones and adding those announced
      gives the ids of the new list, and ids stay pairwise distinct and below the counter. */
  lemma UpdateConserves(olds: seq<Card>, offered: seq<Card>, now: int, shareId: nat, wanted: Card -> bool)
    requires GoodIds(Numbered(olds, shareId)) && Unnumbered(offered)
    ensures
      var d := Compare(olds, offered, now);
      var n := Updated(olds, offered, now, shareId, wanted);
      && Accounted(d, olds, offered, now)
      && GoodIds(n) && |n.cards| == |d.news|
      && IdSet(n.cards) == IdSet(olds) - IdSet(d.left) + IdsAt(n.cards, d.added)
  {
    hide Accounted, Report;
    var d := Compare(olds, offered, now);
    var n := Updated(olds, offered, now, shareId, wanted);
    CompareAccounts(olds, offered, now);
    AccountedAdded(d, olds, offered, now);
    ReportMovesIds(Diff([], [], olds, []), offered, now);
    ApartSets(d.left, d.news);
    assert IdSet(olds) == IdSet(d.left) + IdSet(d.news);
    GoodIdsOf(d.news, shareId);
    AnnounceKeepsIds(Numbered(d.news, shareId), d.added, wanted);
    AnnouncedIds(d.news, n.cards, d.added);
  }

  lemma AccountedAdded(d: Diff, olds: seq<Card>, offered: seq<Card>, now: int)
    requires Accounted(d, olds, offered, now)
    ensures forall i :: i in d.added ==> i < |d.news|
  {
  }

  lemma AnnouncedIds(before: seq<Card>, after: seq<Card>, at: seq<nat>)
    requires |before| == |after| && forall i :: i in at ==> i < |after|
    requires forall i :: 0 <= i < |before| && before[i].id != 0 ==> after[i] == before[i]
    requires forall i :: 0 <= i < |before| && i !in at ==> after[i] == before[i]
    ensures IdSet(after) == IdSet(before) + IdsAt(after, at)
  {
    forall id
      ensures id in IdSet(after) <==> id in IdSet(before) || id in IdsAt(after, at)
    {
      if id in IdSet(before) {
        var i :| 0 <= i < |before| && before[i].id != 0 && before[i].id == id;
        assert after[i].id == id;
      }
    }
  }

  // ----- the program's own form -----

  /** The reported cards and the global id counter. The program keeps the cards in 32 lists by
      caid; cards of different lists are never the same card, so one list gives the same matches. */
  class ShareList {
    var reported: seq<Card>
    var shareId: nat

    ghost predicate Valid()
      reads this
    {
      GoodIds(Numbered(reported, shareId))
    }

    constructor ()
      ensures Valid() && reported == [] && shareId == 0x64
    {
      reported, shareId := [], 0x64;
    }

    /** find_reported_card and report_card: `card` gets the id of the card it stands for. */
    method ReportCard(d: Diff, card: Card, now: int) returns (e: Diff)
      ensures e == ReportOne(d, card, now)
    {
      hide SameCard, TimedOut;
      var k := 0;
      while k < |d.left|
        invariant 0 <= k <= |d.left|
        invariant FindReported(d.left, card, now, 0) == FindReported(d.left, card, now, k)
      {
        if SameCard(card, d.left[k]) && !TimedOut(d.left[k], now) {
          var old2 := d.left[k];
          return Diff(d.news + [card.(id := old2.id, timeout := old2.timeout)], d.added,
                      d.left[..k] + d.left[k + 1..], d.partners + [Some(old2)]);
        }
        k := k + 1;
      }
      e := Diff(d.news + [card], d.added + [|d.news|], d.left, d.partners + [None]);
    }

    /** The comparison of update_card_list, the withdrawal of what is left, and the
        announcement of what is new; returns the ids withdrawn and those announced. */
    method UpdateCardList(offered: seq<Card>, now: int, wanted: Card -> bool) returns (removed: seq<nat>, added: seq<nat>)
      requires Valid() && Unnumbered(offered)
      modifies this
      ensures Valid()
      ensures Numbered(reported, shareId) == Updated(old(reported), offered, now, old(shareId), wanted)
      ensures var left := Compare(old(reported), offered, now).left;
        (forall id :: id in removed <==> id in IdSet(left)) && (forall id :: id in added ==> id in IdSet(reported) && id >= old(shareId))
      ensures IdSet(reported) == IdSet(old(reported)) - (set id | id in removed) + (set id | id in added)
    {
      hide SameCard, TimedOut, ReportOne, Accounted, IdSet, GoodIds;
      UpdateConserves(reported, offered, now, shareId, wanted);
      var d := Diff([], [], reported, []);
      var i := 0;
      assert offered[0..] == offered;
      while i < |offered|
        invariant 0 <= i <= |offered|
        invariant Report(d, offered[i..], now) == Compare(old(reported), offered, now)
        invariant reported == old(reported) && shareId == old(shareId)
      {
        d := ReportCard(d, offered[i], now);
        assert offered[i..][1..] == offered[i + 1..];
        i := i + 1;
      }
      removed := Withdraw(d.left);
      reported := d.news;
      CompareAccounts(old(reported), offered, now);
      AccountedAdded(d, old(reported), offered, now);
      AccountedSorted(d, old(reported), offered, now);
      AnnounceReady(old(reported), offered, now, shareId);
      added := SendAll(d.added, wanted);
    }

    /** send_remove_card_to_clients: nothing is sent for a card that never got an id. */
    method Withdraw(left: seq<Card>) returns (ids: seq<nat>)
      ensures forall id :: id in ids <==> id in IdSet(left)
    {
      ids := [];
      var i := 0;
      while i < |left|
        invariant 0 <= i <= |left|
        invariant forall id :: id in ids <==> id in IdSet(left[..i])
      {
        assert left[..i + 1] == left[..i] + [left[i]];
        IdSetConcat(left[..i], [left[i]]);
        assert IdSet([left[i]]) == if left[i].id != 0 then {left[i].id} else {} by {
          assert [left[i]][0] == left[i];
        }
        if left[i].id != 0 {
          ids := ids + [left[i].id];
        }
        i := i + 1;
      }
      assert left[..|left|] == left;
    }

    /** send_card_to_all_clients: the card gets an id when the first client is sent it;
        0 if it got none. */
    method SendCard(i: nat, wanted: Card -> bool) returns (id: nat)
      requires Valid() && i < |reported| && reported[i].id == 0
      modifies this
      ensures Valid() && Numbered(reported, shareId) == AnnounceOne(Numbered(old(reported), old(shareId)), i, wanted)
      ensures reported == old(reported)[i := reported[i]] && id == reported[i].id && shareId >= old(shareId)
      ensures id != 0 ==> id >= old(shareId)
    {
      AnnounceOneGood(Numbered(reported, shareId), i, wanted);
      id := 0;
      if wanted(reported[i]) {
        id := shareId;
        shareId := shareId + 1;
        reported := reported[i := reported[i].(id := id)];
      }
    }

    /** send_card_to_all_clients for the new cards. */
    method SendAll(at: seq<nat>, wanted: Card -> bool) returns (ids: seq<nat>)
      requires Valid()
      requires forall i :: i in at ==> i < |reported| && reported[i].id == 0
      requires forall x, y :: 0 <= x < y < |at| ==> at[x] != at[y]
      modifies this
      ensures Valid() && Numbered(reported, shareId) == Announce(Numbered(old(reported), old(shareId)), at, wanted)
      ensures |reported| == |old(reported)|
      ensures forall id :: id in ids <==> id in IdsAt(reported, at)
      ensures forall id :: id in ids ==> id >= old(shareId) && id in IdSet(reported)
    {
      hide GoodIds, IdsAt, IdSet, AnnounceOne, Announce;
      ghost var n0 := Numbered(reported, shareId);
      AnnounceKeepsIds(n0, at, wanted);
      ids := [];
      var k := 0;
      assert at[0..] == at && at[..0] == [];
      NothingSent(reported);
      forall i | 0 <= i < |at|
        ensures at[i] < |reported| && reported[at[i]].id == 0
      {
        assert at[i] in at;
      }
      while k < |at|
        invariant 0 <= k <= |at| && Valid() && |reported| == |n0.cards|
        invariant Announce(n0, at, wanted) == Announce(Numbered(reported, shareId), at[k..], wanted)
        invariant forall i :: k <= i < |at| ==> at[i] < |reported| && reported[at[i]].id == 0
        invariant IdsAt(reported, at[..k]) == set id | id in ids
        invariant n0.shareId <= shareId && forall id :: id in ids ==> id >= n0.shareId
      {
        ghost var n := Numbered(reported, shareId);
        AnnounceFrom(n, at, k, wanted);
        var id := SendCard(at[k], wanted);
        SendStep(n.cards, reported, at, k);
        SetAppend(ids, id);
        if id != 0 {
          ids := ids + [id];
        }
        k := k + 1;
      }
      assert at[..|at|] == at;
      AnnounceFrom(Numbered(reported, shareId), at, k, wanted);
      SentAreReported(reported, at);
    }
  }

  lemma AnnounceFrom(n: Numbered, at: seq<nat>, k: nat, wanted: Card -> bool)
    requires k <= |at|
    ensures Announce(n, at[k..], wanted) == if k == |at| then n else Announce(AnnounceOne(n, at[k], wanted), at[k + 1..], wanted)
  {
    hide AnnounceOne;
    if k < |at| {
      assert at[k..][1..] == at[k + 1..];
    }
  }

  lemma SetAppend(ids: seq<nat>, id: nat)
    ensures (set x | x in ids + [id]) == (set x | x in ids) + {id}
  {
    AppendMember(ids, id);
  }

  lemma NothingSent(cards: seq<Card>)
    ensures IdsAt(cards, []) == {}
  {
  }

  lemma SentAreReported(cards: seq<Card>, at: seq<nat>)
    ensures IdsAt(cards, at) <= IdSet(cards)
  {
  }

  lemma SendStep(before: seq<Card>, after: seq<Card>, at: seq<nat>, k: nat)
    requires k < |at| && |after| == |before| && at[k] < |before|
    requires forall x, y :: 0 <= x < y < |at| ==> at[x] != at[y]
    requires after == before[at[k] := after[at[k]]]
    ensures forall i :: k < i < |at| && at[i] < |after| ==> after[at[i]] == before[at[i]]
    ensures IdsAt(after, at[..k + 1])
         == IdsAt(before, at[..k]) + if after[at[k]].id != 0 then {after[at[k]].id} else {}
  {
    assert at[..k + 1] == at[..k] + [at[k]];
    AppendMember(at[..k], at[k]);
    assert at[k] !in at[..k];
    assert forall i :: i in at[..k] && i < |before| ==> after[i] == before[i];
  }

  lemma AnnounceOneGood(n: Numbered, i: nat, wanted: Card -> bool)
    requires GoodIds(n)
    ensures GoodIds(AnnounceOne(n, i, wanted))
  {
  }

  lemma AccountedSorted(d: Diff, olds: seq<Card>, offered: seq<Card>, now: int)
    requires Accounted(d, olds, offered, now) && Unnumbered(offered)
    ensures forall x, y :: 0 <= x < y < |d.added| ==> d.added[x] != d.added[y]
    ensures forall i :: i in d.added ==> i < |d.news| && d.news[i].id == 0
  {
    hide SameCard, TimedOut, Conserved;
  }

  lemma AnnounceReady(olds: seq<Card>, offered: seq<Card>, now: int, shareId: nat)
    requires GoodIds(Numbered(olds, shareId)) && Unnumbered(offered)
    ensures GoodIds(Numbered(Compare(olds, offered, now).news, shareId))
  {
    hide Report, Accounted;
    var d := Compare(olds, offered, now);
    ReportMovesIds(Diff([], [], olds, []), offered, now);
    assert forall id :: id in IdSet(d.news) ==> id in IdSet(olds);
    GoodIdsOf(d.news, shareId);
  }
}
