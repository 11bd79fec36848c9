/** What a server hands out and what a reader keeps of it, told in the numbers of account, reader
    and card. */
module CardOffers {
  import opened Bytes
  import opened Cards
  import opened CardCodec
  import opened CardNetwork

  // ----- what is handed out -----

  /** The limit of the account. */
  function AccountLimit(r: Rules): int { if r.usrReshare == -1 then r.cfgReshare else r.usrReshare }

  /** The limit of the reader the card came from; without one there is none beside the account's. */
  function ReaderLimit(c: Card, r: Rules): int {
    if c.originReader == None then AccountLimit(r) else if c.rdrReshare == -1 then r.cfgReshare else c.rdrReshare
  }

  /** What the card itself allows, one less for a card from elsewhere, as a signed byte. */
  function OwnLimit(c: Card): int {
    var own := if c.reshare <= 127 then c.reshare else c.reshare - 256;
    if c.cardType != RemoteCard then own else if own == -128 then 127 else own - 1
  }

  predicate InWidth(c: Card) { c.reshare <= 255 && -128 <= c.rdrReshare <= 127 }

  /** n is the smallest of three numbers. */
  predicate Smallest(n: int, x: int, y: int, z: int) { n <= x && n <= y && n <= z && (n == x || n == y || n == z) }

  /** The reshare sent is the smallest of the limits of account, reader and card; a card by service
      of the users goes out with the account's, and ignoring reshare leaves the card's out. */
  lemma HandedOut(c: Card, r: Rules)
    requires InWidth(c)
    ensures
      var n := NewReshare(c, r);
      if c.cardType == CardByServiceUser then n == AccountLimit(r)
      else if r.ignoreReshare then Smallest(n, AccountLimit(r), ReaderLimit(c, r), ReaderLimit(c, r))
      else Smallest(n, AccountLimit(r), ReaderLimit(c, r), OwnLimit(c))
  {
  }

  /** For every card the account's limit holds, and for a card of a reader, not by service of the
      users, the reader's. */
  lemma NeverAboveLimits(c: Card, r: Rules)
    ensures NewReshare(c, r) <= AccountLimit(r)
    ensures c.originReader.Some? && c.cardType != CardByServiceUser && -128 <= c.rdrReshare <= 127 && c.rdrReshare != -1
        ==> NewReshare(c, r) <= c.rdrReshare
  {
  }

  /** A card is for a client unless a check refuses it, its reshare is used up, it is too far for the
      account, or it came through the client's node. */
  lemma ForClientUnless(c: Card, peer: NodeId, r: Rules)
    ensures !ValidForClient(c, peer, r) <==>
      || !r.otherOk
      || (c.cardType == RemoteCard && c.reshare == 0 && !r.ignoreReshare)
      || c.hop >= r.maxHops + 1
      || exists i :: 0 <= i < |c.remoteNodes| && c.remoteNodes[i] == peer
  {
  }

  /** A card without an id is given the counter, which goes on by one and from the last 32-bit number to
      zero; a card that has one keeps it. */
  lemma IdGiven(c: Card, shareId: nat)
    requires shareId <= 0xFFFFFFFF
    ensures c.id == 0 ==> Identified(c, shareId) == c.(id := shareId)
    ensures c.id == 0 ==> NextId(c, shareId) == if shareId == 4294967295 then 0 else shareId + 1
    ensures c.id != 0 ==> Identified(c, shareId) == c && NextId(c, shareId) == shareId
  {
  }

  /** What travels carries that reshare, in byte 11 and as the other side reads it, within the limits
      of account and card. */
  lemma SentWithinLimits(s: Net, t: Net, from: NodeId, to: NodeId, i: nat, r: Rules, x: Context)
    requires SendCard(s, t, from, to, i, r, x) && InWidth(s.nodes[from].shared[i].card)
    ensures
      var c := s.nodes[from].shared[i].card;
      var card := t.nodes[from].shared[i].card;
      var n := NewReshare(c, r);
      && 0 <= n <= AccountLimit(r) && |Encode(card, x, n)| > 11 && Encode(card, x, n)[11] as int == n
      && (c.cardType == RemoteCard && !r.ignoreReshare && c.reshare <= 127 ==> n <= c.reshare - 1)
      && c.hop <= r.maxHops && to !in c.remoteNodes
      && forall p :: p in t.wire && p !in s.wire ==>
           p.from == from && p.to == to && p.traced.card.reshare as int == n && p.traced.card.id == card.id % 0x100000000
           && p.traced.card.hop == card.hop % 256 && p.traced.card.remoteNodes == c.remoteNodes + [from]
  {
    hide Encode, Decode, Project;
    var c := s.nodes[from].shared[i].card;
    var card := t.nodes[from].shared[i].card;
    NeverAboveLimits(c, r);
    HandedOut(c, r);
    assert NewReshare(card, r) == NewReshare(c, r);
    RoundTrip(card, x, NewReshare(c, r));
    Projected(card, x, NewReshare(c, r));
    ByteEleven(card, x, NewReshare(c, r));
  }

  lemma Projected(c: Card, x: Context, reshare: byte)
    ensures
      var p := Project(c, x, reshare);
      p.reshare == reshare && p.id == c.id % 0x100000000 && p.hop == c.hop % 256 && p.remoteNodes == Nodes(c, x)
  {
    hide Assigned, Rejected, ProjectProviders, AsGood, AsBad, Low16;
  }

  lemma ByteEleven(c: Card, x: Context, reshare: byte)
    ensures |Encode(c, x, reshare)| > 11 && Encode(c, x, reshare)[11] == reshare
  {
    hide EncodeProviders, EncodeSids, EncodeCounts, Assigned, Rejected, Be4, Be2;
    var head := EncodeHead(c, x, reshare);
    assert head[11] == reshare;
  }

  // ----- what is kept -----

  /** A new card is kept exactly if it has a caid, is within the reader's hops, may be reshared as far
      as the reader asks, passes the filters, did not come through this node, and is neither of an id
      nor of a class that is held; it is kept as a remote card one hop further away. */
  lemma KeptIff(held: seq<Card>, c: Card, own: NodeId, l: Limits)
    ensures
      var kept := Accept(held, c, own, l);
      && (kept.Some? <==>
            && c.caid >= 1 && c.hop <= l.maxHops && l.minDown <= c.reshare && l.otherOk
            && (forall i :: 0 <= i < |c.remoteNodes| ==> c.remoteNodes[i] != own)
            && (forall i :: 0 <= i < |held| ==> held[i].id != c.id && !SameCard(held[i], c.(grp := l.grp))))
      && (kept.Some? ==>
            && kept.value.id == c.id && kept.value.originId == c.id && kept.value.remoteId == c.remoteId && kept.value.caid == c.caid
            && kept.value.hop == c.hop + 1 && kept.value.reshare == c.reshare && kept.value.cardType == RemoteCard
            && kept.value.originReader == Some(l.reader) && kept.value.grp == l.grp && kept.value.rdrReshare == l.rdrReshare
            && kept.value.remoteNodes == c.remoteNodes && kept.value.providers == c.providers && kept.value.hexserial == c.hexserial
            && kept.value.goodsids == c.goodsids && kept.value.badsids == c.badsids)
  {
    forall i | 0 <= i < |held|
      ensures SameCard(held[i], c.(grp := l.grp)) == SameCard(held[i], Stamp(c, l))
    {
    }
  }
}
