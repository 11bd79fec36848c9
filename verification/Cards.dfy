/** Shared cards as CCcam passes them on (struct cc_card in module-cccam-data.h), without the
    fields that only serve ratings and statistics. */
module Cards {
  import opened Bytes

  type Serial = s: seq<byte> | |s| == 8 witness seq(8, _ => 0)
  type NodeId = n: seq<byte> | |n| == 8 witness seq(8, _ => 0)
  type Sa = s: seq<byte> | |s| == 4 witness seq(4, _ => 0)

  datatype Option<+T> = None | Some(value: T)

  datatype Provider = Provider(prov: nat, sa: Sa)

  /** struct cc_srvid and, with the time until which it is blocked, struct cc_srvid_block. */
  datatype Sid = Sid(sid: nat, chid: nat, ecmlen: nat)
  datatype BadSid = BadSid(sid: nat, chid: nat, ecmlen: nat, blockedTill: int)

  datatype CardType = LocalCard | CardByServiceReader | CardByServiceUser | CardByCaid | RemoteCard

  /** `sidtab` names the service table the card was made from; `grp` is the set of group bits. */
  datatype Card = Card(
    id: nat, remoteId: nat, caid: nat, hop: nat, reshare: nat, hexserial: Serial,
    providers: seq<Provider>, badsids: seq<BadSid>, goodsids: seq<Sid>, remoteNodes: seq<NodeId>,
    originReader: Option<nat>, originId: nat, cardType: CardType, sidtab: Option<nat>, grp: set<nat>,
    rdrReshare: int, timeout: int, isExt: bool)

  // ----- comparing cards (module-cccam.c) -----

  predicate SameFirstNode(a: Card, b: Card) {
    if a.remoteNodes == [] || b.remoteNodes == [] then a.remoteNodes == b.remoteNodes
    else a.remoteNodes[0] == b.remoteNodes[0]
  }

  predicate SameCard2(a: Card, b: Card, compareGrp: bool) {
    && a.caid == b.caid && a.cardType == b.cardType && a.sidtab == b.sidtab
    && (!compareGrp || a.grp == b.grp) && a.hexserial == b.hexserial
  }

  predicate SameCard(a: Card, b: Card) {
    a.remoteId == b.remoteId && SameCard2(a, b, true) && SameFirstNode(a, b)
  }

  /** same_card is an equivalence. */
  lemma SameCardEquivalence(a: Card, b: Card, c: Card)
    ensures SameCard(a, a)
    ensures SameCard(a, b) ==> SameCard(b, a)
    ensures SameCard(a, b) && SameCard(b, c) ==> SameCard(a, c)
  {
  }

  // ----- copying a card into the share list (module-cccshare.c) -----

  predicate HasProvider(ps: seq<Provider>, prov: nat) { exists i :: 0 <= i < |ps| && ps[i].prov == prov }

  /** add_card_providers, first part: providers that are not there yet are appended. */
  function MergeProviders(dst: seq<Provider>, src: seq<Provider>): (r: seq<Provider>)
    ensures dst <= r
    decreases |src|
  {
    if src == [] then dst
    else MergeProviders(if HasProvider(dst, src[0].prov) then dst else dst + [src[0]], src[1..])
  }

  /** add_card_providers, second part: remote nodes that are not there yet are appended. */
  function MergeNodes(dst: seq<NodeId>, src: seq<NodeId>): (r: seq<NodeId>)
    ensures dst <= r
    decreases |src|
  {
    if src == [] then dst
    else MergeNodes(if src[0] in dst then dst else dst + [src[0]], src[1..])
  }

  /** create_card followed by add_card_providers with the nodes: the copy that enters a list. */
  function CopyOf(card: Card): Card {
    card.(id := 0, providers := MergeProviders([], card.providers), remoteNodes := MergeNodes([], card.remoteNodes))
  }

  predicate DistinctProviders(ps: seq<Provider>) {
    forall i, j :: 0 <= i < j < |ps| ==> ps[i].prov != ps[j].prov
  }

  /** Merging into an empty list keeps a list without repetitions as it is. */
  lemma {:induction false} MergeDistinctNodes(dst: seq<NodeId>, src: seq<NodeId>)
    requires Distinct(dst + src)
    ensures MergeNodes(dst, src) == dst + src
    decreases |src|
  {
    if src == [] {
      assert dst + src == dst;
    } else {
      assert (dst + src)[|dst|] == src[0];
      forall i | 0 <= i < |dst|
        ensures dst[i] != src[0]
      {
        assert (dst + src)[i] == dst[i];
      }
      assert dst + [src[0]] + src[1..] == dst + src;
      MergeDistinctNodes(dst + [src[0]], src[1..]);
    }
  }

  lemma {:induction false} MergedProvidersMembers(dst: seq<Provider>, src: seq<Provider>, prov: nat)
    ensures HasProvider(MergeProviders(dst, src), prov) <==> HasProvider(dst, prov) || HasProvider(src, prov)
    ensures DistinctProviders(dst) ==> DistinctProviders(MergeProviders(dst, src))
    decreases |src|
  {
    if src != [] {
      var d := if HasProvider(dst, src[0].prov) then dst else dst + [src[0]];
      MergedProvidersMembers(d, src[1..], prov);
      HasAppend(dst, [src[0]], prov);
      HasAppend([src[0]], src[1..], prov);
      assert src == [src[0]] + src[1..];
    }
  }

  lemma HasAppend(x: seq<Provider>, y: seq<Provider>, prov: nat)
    ensures HasProvider(x + y, prov) <==> HasProvider(x, prov) || HasProvider(y, prov)
  {
    if HasProvider(x, prov) {
      var i :| 0 <= i < |x| && x[i].prov == prov;
      assert (x + y)[i].prov == prov;
    }
    if HasProvider(y, prov) {
      var i :| 0 <= i < |y| && y[i].prov == prov;
      assert (x + y)[|x| + i].prov == prov;
    }
  }

  /** The copy is the same card, and nothing but repetitions is lost. */
  lemma CopyIsSame(card: Card)
    ensures SameCard(CopyOf(card), card) && CopyOf(card).hop == card.hop
    ensures Distinct(card.remoteNodes) ==> CopyOf(card).remoteNodes == card.remoteNodes
  {
    if Distinct(card.remoteNodes) {
      assert [] + card.remoteNodes == card.remoteNodes;
      MergeDistinctNodes([], card.remoteNodes);
    }
    if card.remoteNodes != [] {
      var n := card.remoteNodes[0];
      assert [] + [n] == [n];
      assert [n] <= MergeNodes([n], card.remoteNodes[1..]);
    }
  }
}
