/** Sending and receiving one card as the program does it: card_valid_for_client and
    send_card_to_client (module-cccshare.c), which numbers the card in the share list, and the
    new-card message on the reader's side (module-cccam.c), with its checks before and after
    parsing. Both are proved against CardNetwork and CardCodec. */
module CardExchange {
  import opened Bytes
  import opened Cards
  import opened NodeCodec
  import opened CardCodec
  import opened CardNetwork
  import CardMessage
  import opened ShareUpdate

  /** Patching byte 11 of a written card changes the reshare and nothing else. */
  lemma PatchReshare(c: Card, x: Context, r1: byte, r2: byte)
    ensures |Encode(c, x, r1)| > 11 && Encode(c, x, r1)[11 := r2] == Encode(c, x, r2)
  {
    hide EncodeProviders, EncodeSids, EncodeNodes, EncodeCounts, Assigned, Rejected, Be4, Be2;
    var h1: seq<byte>, h2: seq<byte> := EncodeHead(c, x, r1), EncodeHead(c, x, r2);
    HeadPatched(c, x, r1, r2);
    var nn: byte := |Nodes(c, x)| % 256;
    var tail: seq<byte> := EncodeCounts(c, x) + EncodeProviders(c.providers, x.auAllowed)
      + EncodeSids(Assigned(c, x)) + EncodeSids(Rejected(c, x)) + [nn] + EncodeNodes(Nodes(c, x));
    assert Encode(c, x, r1) == h1 + tail;
    assert Encode(c, x, r2) == h2 + tail;
    assert (h1 + tail)[11 := r2] == h1[11 := r2] + tail;
  }

  lemma HeadPatched(c: Card, x: Context, r1: byte, r2: byte)
    ensures EncodeHead(c, x, r1)[11 := r2] == EncodeHead(c, x, r2)
  {
    hide Be4, Be2;
  }

  /** The peer's node id among the nodes of the card. */
  method CardValidForClient(c: Card, peer: NodeId, r: Rules) returns (ok: bool)
    ensures ok == ValidForClient(c, peer, r)
  {
    if !r.otherOk {
      return false;
    }
    if c.cardType == RemoteCard {
      if !r.ignoreReshare && c.reshare == 0 {
        return false;
      }
    }
    if r.maxHops < c.hop {
      return false;
    }
    var i := 0;
    while i < |c.remoteNodes|
      invariant 0 <= i <= |c.remoteNodes|
      invariant peer !in c.remoteNodes[..i]
    {
      if c.remoteNodes[i] == peer {
        return false;
      }
      i := i + 1;
    }
    return true;
  }

  /** send_card_to_client: nothing is sent if the card is not for this client or the reshare
      is used up; otherwise the listed card has an id from then on, and the message is the card
      written with it and with the new reshare. */
  method SendCardToClient(buf: array<byte>, shares: ShareList, i: nat, peer: NodeId, r: Rules, x: Context)
    returns (sent: bool, len: nat)
    requires i < |shares.reported| && buf.Length == CC_MAXMSGSIZE && |Encode(shares.reported[i], x, 0)| <= CC_MAXMSGSIZE
    modifies buf, shares
    ensures sent <==> ValidForClient(old(shares.reported[i]), peer, r) && NewReshare(old(shares.reported[i]), r) >= 0
    ensures !sent ==> shares.reported == old(shares.reported) && shares.shareId == old(shares.shareId)
    ensures sent ==>
      var c := old(shares.reported[i]);
      var card := Identified(c, old(shares.shareId));
      && shares.reported == old(shares.reported)[i := card] && shares.shareId == NextId(c, old(shares.shareId))
      && len <= CC_MAXMSGSIZE && buf[..len] == Encode(card, x, NewReshare(c, r) % 256)
  {
    hide Encode, NewReshare, ValidForClient;
    var c := shares.reported[i];
    var ok := CardValidForClient(c, peer, r);
    if !ok {
      return false, 0;
    }
    var new_reshare := NewReshare(c, r);
    if new_reshare < 0 {
      return false, 0;
    }
    if c.id == 0 {
      SameSize(c, shares.shareId, x, 0);
      c := c.(id := shares.shareId);
      shares.shareId := (shares.shareId + 1) % 0x100000000;
      shares.reported := shares.reported[i := c];
    }
    PatchReshare(c, x, 0, c.reshare % 256);
    len := CardMessage.WriteCard(buf, c, x);
    PatchReshare(c, x, c.reshare % 256, new_reshare % 256);
    buf[11] := new_reshare % 256;
    assert buf[..len] == old(buf[..])[..0] + Encode(c, x, c.reshare % 256)[11 := new_reshare % 256];
    sent := true;
  }

  lemma SameSize(c: Card, id: nat, x: Context, reshare: byte)
    ensures |Encode(c.(id := id), x, reshare)| == |Encode(c, x, reshare)|
  {
    hide Encode;
    EncodeSize(c, x, reshare);
    EncodeSize(c.(id := id), x, reshare);
  }

  /** The reader's list of cards from one server. */
  class CardReader {
    var cards: seq<Card>

    constructor ()
      ensures cards == []
    {
      cards := [];
    }

    /** The new-card message, from its payload. */
    method NewCard(data: seq<byte>, ext: bool, own: NodeId, l: Limits)
      requires |data| >= 12
      modifies this
      ensures cards ==
        match Decode(data, ext)
        case None => old(cards)
        case Some(c) => match Accept(old(cards), c, own, l) case None => old(cards) case Some(kept) => old(cards) + [kept]
    {
      hide Decode, FromBe, SameCard;
      FieldsOfDecode(data, ext);
      var caid := FromBe(data[8..10]);
      if caid == 0 || data[10] >= l.maxHops + 1 {
        return;
      }
      if data[11] < l.minDown {
        return;
      }
      if !l.otherOk {
        return;
      }
      var card := CardMessage.ReadCard(data, ext);
      if card.None? {
        return;
      }
      var c := card.value;
      var i := 0;
      while i < |c.remoteNodes|
        invariant 0 <= i <= |c.remoteNodes|
        invariant own !in c.remoteNodes[..i]
      {
        if c.remoteNodes[i] == own {
          return;
        }
        i := i + 1;
      }
      var stamped := Stamp(c, l);
      var k := 0;
      while k < |cards|
        invariant 0 <= k <= |cards| && cards == old(cards)
        invariant forall j :: 0 <= j < k ==> cards[j].id != stamped.id && !SameCard(cards[j], stamped)
      {
        if cards[k].id == stamped.id || SameCard(cards[k], stamped) {
          return;
        }
        k := k + 1;
      }
      cards := cards + [stamped.(cardType := RemoteCard, hop := stamped.hop + 1)];
    }
  }

  /** The bytes checked before parsing are the fields the parser finds. */
  lemma FieldsOfDecode(data: seq<byte>, ext: bool)
    requires |data| >= 12
    ensures
      match Decode(data, ext)
      case None => true
      case Some(c) => c.caid == FromBe(data[8..10]) && c.hop == data[10] && c.reshare == data[11]
  {
    hide FromBe, DecodeProviders, DecodeSids, DecodeNodes, AsGood, AsBad;
  }
}
