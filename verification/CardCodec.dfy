/** The card message of CCcam: write_card (module-cccshare.c) and read_card (module-cccam.c). */
module CardCodec {
  import opened Bytes
  import opened Cards
  import opened NodeCodec

  const CC_MAXMSGSIZE: nat := 0x400

  /** A service table as far as write_card looks at it: its caids, its services, and whether
      its bit is set in the client's or the card's list of refused tables. */
  datatype SidTab = SidTab(caids: seq<nat>, srvids: seq<nat>, refused: bool)

  /** What write_card is called with beside the card. */
  datatype Context = Context(
    ext: bool, auAllowed: bool, addOwn: Option<NodeId>,
    ownTab: Option<seq<nat>>, tabs: seq<SidTab>)

  // ----- what is written -----

  function Take<T>(s: seq<T>, n: nat): seq<T> { if |s| <= n then s else s[..n] }

  function GoodSids(goods: seq<Sid>): (r: seq<nat>)
    ensures |r| == |goods|
  {
    seq(|goods|, (i: nat) requires i < |goods| => goods[i].sid)
  }

  /** The services that are blocked for good. */
  function PermanentlyBlocked(bads: seq<BadSid>): seq<nat>
    decreases |bads|
  {
    if bads == [] then []
    else if bads[0].blockedTill > 0 then PermanentlyBlocked(bads[1..])
    else [bads[0].sid] + PermanentlyBlocked(bads[1..])
  }

  function RefusedSids(caid: nat, tabs: seq<SidTab>): seq<nat>
    decreases |tabs|
  {
    if tabs == [] then []
    else (if tabs[0].refused && caid in tabs[0].caids then tabs[0].srvids else []) + RefusedSids(caid, tabs[1..])
  }

  function Assigned(c: Card, x: Context): (r: seq<nat>)
    ensures |r| <= 240
  {
    if !x.ext then [] else if x.ownTab.Some? then Take(x.ownTab.value, 240) else Take(GoodSids(c.goodsids), 200)
  }

  function Rejected(c: Card, x: Context): (r: seq<nat>)
    ensures |r| <= 240
  {
    if !x.ext then [] else if x.ownTab.Some? then Take(RefusedSids(c.caid, x.tabs), 240)
    else Take(PermanentlyBlocked(c.badsids), 200)
  }

  function Nodes(c: Card, x: Context): seq<NodeId> {
    c.remoteNodes + if x.addOwn.Some? then [x.addOwn.value] else []
  }

  const ZERO4: Sa := [0, 0, 0, 0]
  const ZERO8: Serial := [0, 0, 0, 0, 0, 0, 0, 0]

  function EncodeProviders(ps: seq<Provider>, au: bool): (s: seq<byte>)
    ensures |s| == 7 * |ps|
    decreases |ps|
  {
    if ps == [] then []
    else Be3(ps[0].prov) + (if au then ps[0].sa else ZERO4) + EncodeProviders(ps[1..], au)
  }

  function EncodeSids(sids: seq<nat>): (s: seq<byte>)
    ensures |s| == 2 * |sids|
    decreases |sids|
  {
    if sids == [] then [] else Be2(sids[0]) + EncodeSids(sids[1..])
  }

  function EncodeHead(c: Card, x: Context, reshare: byte): (s: seq<byte>)
    ensures |s| == 20
  {
    var hop: byte := c.hop % 256;
    Be4(c.id) + Be4(c.remoteId) + Be2(c.caid) + [hop, reshare] + if x.auAllowed then c.hexserial else ZERO8
  }

  function EncodeCounts(c: Card, x: Context): (s: seq<byte>)
    ensures |s| == if x.ext then 3 else 1
  {
    var np: byte, na: byte, nr: byte := |c.providers| % 256, |Assigned(c, x)|, |Rejected(c, x)|;
    if x.ext then [np, na, nr] else [np]
  }

  /** The whole message. */
  function Encode(c: Card, x: Context, reshare: byte): seq<byte> {
    var nn: byte := |Nodes(c, x)| % 256;
    EncodeHead(c, x, reshare) + EncodeCounts(c, x) + EncodeProviders(c.providers, x.auAllowed)
    + EncodeSids(Assigned(c, x)) + EncodeSids(Rejected(c, x)) + [nn] + EncodeNodes(Nodes(c, x))
  }

  lemma EncodeSize(c: Card, x: Context, reshare: byte)
    ensures |Encode(c, x, reshare)| == 20 + (if x.ext then 3 else 1) + 7 * |c.providers| + 2 * |Assigned(c, x)| + 2 * |Rejected(c, x)| + 1 + 8 * |Nodes(c, x)|
  {
    hide EncodeSids, EncodeProviders, EncodeNodes, EncodeHead, Assigned, Rejected;
  }

  // ----- what is read -----

  predicate IsBetacrypt(caid: nat) { caid / 0x100 == 0x17 }

  function DecodeProvider(s: seq<byte>, caid: nat, i: nat): Provider
    requires |s| == 7
  {
    var prov := FromBe(s[..3]);
    Provider(if prov == 0xFFFFFF && IsBetacrypt(caid) then i else prov, s[3..7])
  }

  /** n providers from the front of s, the first of them being number i of its card. */
  function DecodeProviders(s: seq<byte>, n: nat, caid: nat, i: nat): seq<Provider>
    requires |s| == 7 * n
  {
    if n == 0 then [] else [DecodeProvider(s[..7], caid, i)] + DecodeProviders(s[7..], n - 1, caid, i + 1)
  }

  function DecodeSids(s: seq<byte>, n: nat): seq<nat>
    requires |s| == 2 * n
  {
    if n == 0 then [] else [FromBe(s[..2])] + DecodeSids(s[2..], n - 1)
  }

  function AsGood(sids: seq<nat>): (r: seq<Sid>)
    ensures |r| == |sids|
  {
    seq(|sids|, (i: nat) requires i < |sids| => Sid(sids[i], 0, 0))
  }

  function AsBad(sids: seq<nat>): (r: seq<BadSid>)
    ensures |r| == |sids|
  {
    seq(|sids|, (i: nat) requires i < |sids| => BadSid(sids[i], 0, 0, 0))
  }

  function DecodeHead(b: seq<byte>, ext: bool): Card
    requires |b| >= 20
  {
    Card(FromBe(b[..4]), FromBe(b[4..8]), FromBe(b[8..10]), b[10], b[11], b[12..20],
         [], [], [], [], None, 0, RemoteCard, None, {}, 0, 0, ext)
  }

  function Fill(head: Card, provs: seq<Provider>, goods: seq<nat>, bads: seq<nat>, nodes: seq<NodeId>): Card {
    head.(providers := provs, goodsids := AsGood(goods), badsids := AsBad(bads), remoteNodes := nodes)
  }

  /** read_card on a message of |b| bytes. */
  function Decode(b: seq<byte>, ext: bool): Option<Card> {
    if |b| < 21 then None
    else if ext && |b| < 23 then None
    else if ext then DecodeBody(b, ext, 23, b[20], b[21], b[22])
    else DecodeBody(b, ext, 21, b[20], 0, 0)
  }

  /** The lists, given their lengths; a message that ends before the nodes has none. */
  function DecodeBody(b: seq<byte>, ext: bool, start: nat, np: nat, na: nat, nr: nat): Option<Card>
    requires 20 <= start <= |b|
  {
    var head := DecodeHead(b, ext);
    var o1 := start + 7 * np;
    var o2 := o1 + 2 * na;
    var o3 := o2 + 2 * nr;
    if |b| < o1 || |b| < o3 then None
    else
      var provs := DecodeProviders(b[start..o1], np, head.caid, 0);
      var goods := DecodeSids(b[o1..o2], na);
      var bads := DecodeSids(b[o2..o3], nr);
      if |b| < o3 + 1 then Some(Fill(head, provs, goods, bads, []))
      else
        var n := b[o3] as nat;
        if |b| < o3 + 1 + 8 * n then None
        else Some(Fill(head, provs, goods, bads, DecodeNodes(b[o3 + 1..o3 + 1 + 8 * n], n)))
  }

  // ----- the round trip -----

  function ProjectProvider(p: Provider, au: bool, caid: nat, i: nat): Provider {
    var prov := p.prov % 0x1000000;
    Provider(if prov == 0xFFFFFF && IsBetacrypt(caid) then i else prov, if au then p.sa else ZERO4)
  }

  function ProjectProviders(ps: seq<Provider>, au: bool, caid: nat): (r: seq<Provider>)
    ensures |r| == |ps|
  {
    seq(|ps|, (i: nat) requires i < |ps| => ProjectProvider(ps[i], au, caid, i))
  }

  function Low16(sids: seq<nat>): (r: seq<nat>)
    ensures |r| == |sids|
  {
    seq(|sids|, (i: nat) requires i < |sids| => sids[i] % 0x10000)
  }

  /** What the other side gets to know of a card: 24-bit providers, renumbered for Betacrypt,
      serial and shared addresses only where updates are allowed, services only in the extended
      format and only so many of them, and the sender as the last remote node. */
  function Project(c: Card, x: Context, reshare: byte): Card {
    Card(c.id % 0x100000000, c.remoteId % 0x100000000, c.caid % 0x10000, c.hop % 256, reshare,
         if x.auAllowed then c.hexserial else ZERO8,
         ProjectProviders(c.providers, x.auAllowed, c.caid % 0x10000),
         AsBad(Low16(Rejected(c, x))), AsGood(Low16(Assigned(c, x))), Nodes(c, x),
         None, 0, RemoteCard, None, {}, 0, 0, x.ext)
  }

  lemma {:induction false} ProvidersBack(ps: seq<Provider>, au: bool, caid: nat, i: nat)
    ensures DecodeProviders(EncodeProviders(ps, au), |ps|, caid, i)
         == seq(|ps|, (k: nat) requires k < |ps| => ProjectProvider(ps[k], au, caid, i + k))
    decreases |ps|
  {
    hide FromBe, Be3;
    if ps != [] {
      var s := EncodeProviders(ps, au);
      var sa: Sa := if au then ps[0].sa else ZERO4;
      assert s == Be3(ps[0].prov) + sa + EncodeProviders(ps[1..], au);
      assert s[..7][..3] == Be3(ps[0].prov) && s[..7][3..7] == sa && s[7..] == EncodeProviders(ps[1..], au);
      FromBe3(ps[0].prov);
      ProvidersBack(ps[1..], au, caid, i + 1);
    }
  }

  lemma {:induction false} SidsBack(sids: seq<nat>)
    ensures DecodeSids(EncodeSids(sids), |sids|) == Low16(sids)
    decreases |sids|
  {
    hide FromBe, Be2;
    if sids != [] {
      var s := EncodeSids(sids);
      assert s[..2] == Be2(sids[0]) && s[2..] == EncodeSids(sids[1..]);
      FromBe2(sids[0]);
      SidsBack(sids[1..]);
    }
  }

  lemma HeadBack(c: Card, x: Context, reshare: byte, b: seq<byte>)
    requires EncodeHead(c, x, reshare) <= b
    ensures DecodeHead(b, x.ext) == Card(c.id % 0x100000000, c.remoteId % 0x100000000, c.caid % 0x10000, c.hop % 256, reshare,
         if x.auAllowed then c.hexserial else ZERO8, [], [], [], [], None, 0, RemoteCard, None, {}, 0, 0, x.ext)
  {
    hide FromBe, Be4, Be2;
    var h := EncodeHead(c, x, reshare);
    assert b[..20] == h;
    assert b[..4] == h[..4] == Be4(c.id);
    assert b[4..8] == h[4..8] == Be4(c.remoteId);
    assert b[8..10] == h[8..10] == Be2(c.caid);
    assert b[12..20] == h[12..20] == if x.auAllowed then c.hexserial else ZERO8;
    FromBe4(c.id);
    FromBe4(c.remoteId);
    FromBe2(c.caid);
  }

  /** Slices of a concatenation. */
  lemma Parts(h: seq<byte>, n: seq<byte>, p: seq<byte>, g: seq<byte>, r: seq<byte>, k: seq<byte>, t: seq<byte>)
    requires |k| == 1
    ensures
      var b := h + n + p + g + r + k + t;
      var s := |h| + |n|;
      && h <= b && b[|h|..s] == n
      && b[s..s + |p|] == p
      && b[s + |p|..s + |p| + |g|] == g
      && b[s + |p| + |g|..s + |p| + |g| + |r|] == r
      && b[s + |p| + |g| + |r|] == k[0]
      && b[s + |p| + |g| + |r| + 1..s + |p| + |g| + |r| + 1 + |t|] == t
      && |b| == s + |p| + |g| + |r| + 1 + |t|
  {
  }

  lemma BodyUnfold(b: seq<byte>, ext: bool, start: nat, np: nat, na: nat, nr: nat, nn: nat)
    requires 20 <= start && |b| == start + 7 * np + 2 * na + 2 * nr + 1 + 8 * nn
    requires b[start + 7 * np + 2 * na + 2 * nr] == nn
    ensures
      var o1 := start + 7 * np;
      var o2 := o1 + 2 * na;
      var o3 := o2 + 2 * nr;
      var head := DecodeHead(b, ext);
      DecodeBody(b, ext, start, np, na, nr)
      == Some(Fill(head, DecodeProviders(b[start..o1], np, head.caid, 0), DecodeSids(b[o1..o2], na),
                   DecodeSids(b[o2..o3], nr), DecodeNodes(b[o3 + 1..o3 + 1 + 8 * nn], nn)))
  {
    hide DecodeHead, DecodeProviders, DecodeSids, DecodeNodes, Fill;
  }

  /** Decoding the lists of a message that is laid out as write_card does it. */
  lemma BodyAt(b: seq<byte>, ext: bool, start: nat, np: nat, na: nat, nr: nat, nn: nat, p: seq<byte>, g: seq<byte>, j: seq<byte>, t: seq<byte>)
    requires |p| == 7 * np && |g| == 2 * na && |j| == 2 * nr && |t| == 8 * nn
    requires start >= 20 && |b| == start + 7 * np + 2 * na + 2 * nr + 1 + 8 * nn
    requires b[start + 7 * np + 2 * na + 2 * nr] == nn
    requires
      var o1 := start + 7 * np;
      var o2 := o1 + 2 * na;
      var o3 := o2 + 2 * nr;
      b[start..o1] == p && b[o1..o2] == g && b[o2..o3] == j && b[o3 + 1..o3 + 1 + 8 * nn] == t
    ensures
      var head := DecodeHead(b, ext);
      DecodeBody(b, ext, start, np, na, nr)
      == Some(Fill(head, DecodeProviders(p, np, head.caid, 0), DecodeSids(g, na), DecodeSids(j, nr), DecodeNodes(t, nn)))
  {
    hide DecodeBody, DecodeHead, DecodeProviders, DecodeSids, DecodeNodes, Fill;
    BodyUnfold(b, ext, start, np, na, nr, nn);
  }

  /** Where the parts of a written card are. */
  lemma LaidOut(c: Card, x: Context, reshare: byte)
    ensures
      var b := Encode(c, x, reshare);
      var a, r := Assigned(c, x), Rejected(c, x);
      var start := if x.ext then 23 else 21;
      var o1 := start + 7 * |c.providers|;
      var o2 := o1 + 2 * |a|;
      var o3 := o2 + 2 * |r|;
      && |b| == o3 + 1 + 8 * |Nodes(c, x)| && EncodeHead(c, x, reshare) <= b
      && b[20..start] == EncodeCounts(c, x)
      && b[start..o1] == EncodeProviders(c.providers, x.auAllowed)
      && b[o1..o2] == EncodeSids(a) && b[o2..o3] == EncodeSids(r)
      && b[o3] == |Nodes(c, x)| % 256 && b[o3 + 1..o3 + 1 + 8 * |Nodes(c, x)|] == EncodeNodes(Nodes(c, x))
  {
    hide EncodeHead, EncodeCounts, EncodeProviders, EncodeSids, EncodeNodes, Assigned, Rejected;
    var nn: byte := |Nodes(c, x)| % 256;
    Parts(EncodeHead(c, x, reshare), EncodeCounts(c, x), EncodeProviders(c.providers, x.auAllowed),
          EncodeSids(Assigned(c, x)), EncodeSids(Rejected(c, x)), [nn], EncodeNodes(Nodes(c, x)));
  }

  /** read_card undoes write_card for every card that fits the message. */
  lemma RoundTrip(c: Card, x: Context, reshare: byte)
    requires |Encode(c, x, reshare)| <= CC_MAXMSGSIZE
    ensures Decode(Encode(c, x, reshare), x.ext) == Some(Project(c, x, reshare))
  {
    hide Encode, Decode, DecodeBody, EncodeHead, EncodeProviders, EncodeSids, EncodeNodes, DecodeHead, DecodeProviders, DecodeSids,
         DecodeNodes, Assigned, Rejected, Fill, Project;
    var a, r, t := Assigned(c, x), Rejected(c, x), EncodeNodes(Nodes(c, x));
    NoExtNoSids(c, x);
    LaidOut(c, x, reshare);
    var b := Encode(c, x, reshare);
    assert |c.providers| < 256 && |Nodes(c, x)| < 256;
    CountsAt(b, EncodeCounts(c, x), x.ext);
    DecodeHere(b, x.ext, |c.providers|, |a|, |r|);
    BodyAt(b, x.ext, if x.ext then 23 else 21, |c.providers|, |a|, |r|, |Nodes(c, x)|,
           EncodeProviders(c.providers, x.auAllowed), EncodeSids(a), EncodeSids(r), t);
    FillBack(c, x, reshare, b);
  }

  /** Each part of the message decodes to its projection. */
  lemma FillBack(c: Card, x: Context, reshare: byte, b: seq<byte>)
    requires EncodeHead(c, x, reshare) <= b
    ensures
      var head := DecodeHead(b, x.ext);
      var a, r := Assigned(c, x), Rejected(c, x);
      Fill(head, DecodeProviders(EncodeProviders(c.providers, x.auAllowed), |c.providers|, head.caid, 0),
           DecodeSids(EncodeSids(a), |a|), DecodeSids(EncodeSids(r), |r|),
           DecodeNodes(EncodeNodes(Nodes(c, x)), |Nodes(c, x)|)) == Project(c, x, reshare)
  {
    hide EncodeHead, EncodeProviders, EncodeSids, EncodeNodes, DecodeHead, DecodeProviders, DecodeSids, DecodeNodes, Assigned, Rejected,
         AsGood, AsBad, Low16, ProjectProvider;
    HeadBack(c, x, reshare, b);
    ProvidersBack(c.providers, x.auAllowed, c.caid % 0x10000, 0);
    SidsBack(Assigned(c, x));
    SidsBack(Rejected(c, x));
    NodesBack(Nodes(c, x));
    assert ProjectProviders(c.providers, x.auAllowed, c.caid % 0x10000)
        == seq(|c.providers|, (k: nat) requires k < |c.providers| => ProjectProvider(c.providers[k], x.auAllowed, c.caid % 0x10000, 0 + k));
  }

  lemma DecodeHere(b: seq<byte>, ext: bool, np: nat, na: nat, nr: nat)
    requires |b| >= (if ext then 23 else 21) && b[20] == np
    requires if ext then b[21] == na && b[22] == nr else na == nr == 0
    ensures Decode(b, ext) == DecodeBody(b, ext, if ext then 23 else 21, np, na, nr)
  {
    hide DecodeBody;
  }

  lemma NoExtNoSids(c: Card, x: Context)
    ensures !x.ext ==> Assigned(c, x) == [] && Rejected(c, x) == []
  {
  }

  lemma CountsAt(b: seq<byte>, n: seq<byte>, ext: bool)
    requires |n| == (if ext then 3 else 1) && |b| >= 20 + |n| && b[20..20 + |n|] == n
    ensures b[20] == n[0] && (ext ==> b[21] == n[1] && b[22] == n[2])
  {
    assert b[20] == b[20..20 + |n|][0];
    if ext {
      assert b[21] == b[20..23][1] && b[22] == b[20..23][2];
    }
  }

  // ----- sending a received card on -----

  lemma {:induction false} ReceivedAllBlocked(sids: seq<nat>)
    ensures |PermanentlyBlocked(AsBad(sids))| == |sids|
    decreases |sids|
  {
    if sids != [] {
      ReceivedAllBlocked(sids[1..]);
      assert AsBad(sids)[1..] == AsBad(sids[1..]);
    }
  }

  /** Services beyond the 200 that a received list is cut to. */
  function Cut(n: nat): nat { if n > 200 then n - 200 else 0 }

  /** A received card that is written again in the same format is eight bytes longer, for the own
      node, less the services that are cut. */
  lemma ForwardedSize(c: Card, x: Context, y: Context, reshare: byte, again: byte)
    requires y.ext == x.ext && y.ownTab == None && y.addOwn.Some?
    ensures
      var sent := Encode(c, x, reshare);
      var onward := Encode(Project(c, x, reshare), y, again);
      |onward| == |sent| + 8 - 2 * Cut(|Assigned(c, x)|) - 2 * Cut(|Rejected(c, x)|)
  {
    hide Encode, Assigned, Rejected, PermanentlyBlocked, ProjectProvider;
    EncodeSize(c, x, reshare);
    EncodeSize(Project(c, x, reshare), y, again);
    ForwardedSids(c, x, y, reshare);
    NoExtNoSids(c, x);
  }

  lemma ForwardedSids(c: Card, x: Context, y: Context, reshare: byte)
    requires y.ext == x.ext && y.ownTab == None
    ensures x.ext ==> |Assigned(Project(c, x, reshare), y)| == |Assigned(c, x)| - Cut(|Assigned(c, x)|)
    ensures x.ext ==> |Rejected(Project(c, x, reshare), y)| == |Rejected(c, x)| - Cut(|Rejected(c, x)|)
    ensures !x.ext ==> Assigned(Project(c, x, reshare), y) == [] && Rejected(Project(c, x, reshare), y) == []
  {
    hide PermanentlyBlocked, ProjectProvider, RefusedSids;
    ReceivedAllBlocked(Low16(Rejected(c, x)));
  }

  /** So not every card that was received can be sent on: one of five providers and 120 nodes
      arrives in 1017 bytes, and with the own node it is a byte longer than the buffer. */
  lemma ForwardedCardTooLong(c: Card, x: Context, y: Context, reshare: byte, again: byte)
    requires |c.providers| == 5 && |c.remoteNodes| == 119 && !x.ext && x.addOwn.Some?
    requires !y.ext && y.ownTab == None && y.addOwn.Some?
    ensures |Encode(c, x, reshare)| == 1017
    ensures |Encode(Project(c, x, reshare), y, again)| == CC_MAXMSGSIZE + 1
  {
    hide Encode, Assigned, Rejected, Project;
    EncodeSize(c, x, reshare);
    NoExtNoSids(c, x);
    ForwardedSize(c, x, y, reshare, again);
  }
}
