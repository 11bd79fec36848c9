/** Where things stand in a card message, and which messages are read. */
module CardLayout {
  import opened Bytes
  import opened Cards
  import opened NodeCodec
  import opened CardCodec

  // ----- the fixed part -----

  /** Id, remote id and caid with the high byte first, hop, reshare, serial and the counts. */
  lemma FieldsAt(c: Card, x: Context, reshare: byte)
    ensures
      var b := Encode(c, x, reshare);
      && |b| >= (if x.ext then 24 else 22)
      && FromBe(b[0..4]) == c.id % 0x100000000 && FromBe(b[4..8]) == c.remoteId % 0x100000000
      && FromBe(b[8..10]) == c.caid % 0x10000 && b[10] as int == c.hop % 256 && b[11] == reshare
      && b[12..20] == (if x.auAllowed then c.hexserial else [0, 0, 0, 0, 0, 0, 0, 0])
      && b[20] as int == |c.providers| % 256
      && (x.ext ==> b[21] as int == |Assigned(c, x)| && b[22] as int == |Rejected(c, x)|)
  {
    hide Encode, FromBe, EncodeProviders, EncodeSids, EncodeNodes, Assigned, Rejected;
    LaidOut(c, x, reshare);
    var b, h := Encode(c, x, reshare), EncodeHead(c, x, reshare);
    HeadAt(c, x, reshare, b);
    CountsAt(b, EncodeCounts(c, x), x.ext);
  }

  lemma HeadAt(c: Card, x: Context, reshare: byte, b: seq<byte>)
    requires EncodeHead(c, x, reshare) <= b
    ensures FromBe(b[0..4]) == c.id % 0x100000000 && FromBe(b[4..8]) == c.remoteId % 0x100000000
    ensures FromBe(b[8..10]) == c.caid % 0x10000 && b[10] as int == c.hop % 256 && b[11] == reshare
    ensures b[12..20] == if x.auAllowed then c.hexserial else [0, 0, 0, 0, 0, 0, 0, 0]
  {
    hide FromBe, Be4, Be2;
    var h := EncodeHead(c, x, reshare);
    assert b[..20] == h;
    assert b[0..4] == h[0..4] == Be4(c.id);
    assert b[4..8] == h[4..8] == Be4(c.remoteId);
    assert b[8..10] == h[8..10] == Be2(c.caid);
    assert b[12..20] == h[12..20];
    assert h[10] as int == c.hop % 256 && h[11] == reshare;
    FromBe4(c.id);
    FromBe4(c.remoteId);
    FromBe2(c.caid);
  }

  // ----- the lists -----

  lemma {:induction false} ProviderIn(ps: seq<Provider>, au: bool, k: nat)
    requires k < |ps|
    ensures
      var s := EncodeProviders(ps, au)[7 * k..7 * k + 7];
      FromBe(s[0..3]) == ps[k].prov % 0x1000000 && s[3..7] == if au then ps[k].sa else [0, 0, 0, 0]
    decreases |ps|
  {
    hide FromBe, Be3;
    var s := EncodeProviders(ps, au);
    var sa: Sa := if au then ps[0].sa else ZERO4;
    assert s == Be3(ps[0].prov) + sa + EncodeProviders(ps[1..], au);
    if k == 0 {
      assert s[0..7][0..3] == Be3(ps[0].prov) && s[0..7][3..7] == sa;
      FromBe3(ps[0].prov);
    } else {
      ProviderIn(ps[1..], au, k - 1);
      assert s[7..] == EncodeProviders(ps[1..], au);
      assert s[7 * k..7 * k + 7] == s[7..][7 * (k - 1)..7 * (k - 1) + 7];
    }
  }

  lemma {:induction false} SidIn(sids: seq<nat>, k: nat)
    requires k < |sids|
    ensures FromBe(EncodeSids(sids)[2 * k..2 * k + 2]) == sids[k] % 0x10000
    decreases |sids|
  {
    hide FromBe, Be2;
    var s := EncodeSids(sids);
    if k == 0 {
      assert s[0..2] == Be2(sids[0]);
      FromBe2(sids[0]);
    } else {
      SidIn(sids[1..], k - 1);
      assert s[2..] == EncodeSids(sids[1..]);
      assert s[2 * k..2 * k + 2] == s[2..][2 * (k - 1)..2 * (k - 1) + 2];
    }
  }

  lemma {:induction false} NodeIn(ns: seq<NodeId>, k: nat)
    requires k < |ns|
    ensures EncodeNodes(ns)[8 * k..8 * k + 8] == ns[k]
    decreases |ns|
  {
    var s := EncodeNodes(ns);
    if k > 0 {
      NodeIn(ns[1..], k - 1);
      assert s[8..] == EncodeNodes(ns[1..]);
      assert s[8 * k..8 * k + 8] == s[8..][8 * (k - 1)..8 * (k - 1) + 8];
    }
  }

  lemma Within(b: seq<byte>, lo: nat, hi: nat, part: seq<byte>, a: nat, n: nat)
    requires lo <= hi <= |b| && b[lo..hi] == part && a + n <= |part|
    ensures b[lo + a..lo + a + n] == part[a..a + n]
  {
    var y, z := part[a..a + n], b[lo + a..lo + a + n];
    assert |y| == |z| == n;
    forall i | 0 <= i < n
      ensures y[i] == z[i]
    {
      assert y[i] == part[a + i] == b[lo..hi][a + i] == b[lo + (a + i)];
    }
  }

  function Start(x: Context): nat { if x.ext then 23 else 21 }

  /** Providers follow, seven bytes each: the number and the shared address. */
  lemma ProviderAt(c: Card, x: Context, reshare: byte, k: nat)
    requires k < |c.providers|
    ensures
      var b, at := Encode(c, x, reshare), Start(x) + 7 * k;
      && at + 7 <= |b| && FromBe(b[at..at + 3]) == c.providers[k].prov % 0x1000000
      && b[at + 3..at + 7] == if x.auAllowed then c.providers[k].sa else [0, 0, 0, 0]
  {
    hide Encode, FromBe, EncodeProviders, EncodeSids, EncodeNodes, EncodeHead, EncodeCounts, Assigned, Rejected, Nodes;
    LaidOut(c, x, reshare);
    var b, at := Encode(c, x, reshare), Start(x) + 7 * k;
    ProviderIn(c.providers, x.auAllowed, k);
    var p := EncodeProviders(c.providers, x.auAllowed);
    Within(b, Start(x), Start(x) + 7 * |c.providers|, p, 7 * k, 7);
    var s := p[7 * k..7 * k + 7];
    assert b[at..at + 7] == s;
    assert b[at..at + 3] == s[0..3] && b[at + 3..at + 7] == s[3..7];
  }

  /** Then the services assigned, two bytes each. */
  lemma AssignedAt(c: Card, x: Context, reshare: byte, k: nat)
    requires k < |Assigned(c, x)|
    ensures
      var b, at := Encode(c, x, reshare), Start(x) + 7 * |c.providers| + 2 * k;
      at + 2 <= |b| && FromBe(b[at..at + 2]) == Assigned(c, x)[k] % 0x10000
  {
    hide Encode, FromBe, EncodeProviders, EncodeSids, EncodeNodes, EncodeHead, EncodeCounts, Assigned, Rejected, Nodes;
    LaidOut(c, x, reshare);
    var o1 := Start(x) + 7 * |c.providers|;
    SidIn(Assigned(c, x), k);
    Within(Encode(c, x, reshare), o1, o1 + 2 * |Assigned(c, x)|, EncodeSids(Assigned(c, x)), 2 * k, 2);
  }

  /** Then those rejected. */
  lemma RejectedAt(c: Card, x: Context, reshare: byte, k: nat)
    requires k < |Rejected(c, x)|
    ensures
      var b, at := Encode(c, x, reshare), Start(x) + 7 * |c.providers| + 2 * |Assigned(c, x)| + 2 * k;
      at + 2 <= |b| && FromBe(b[at..at + 2]) == Rejected(c, x)[k] % 0x10000
  {
    hide Encode, FromBe, EncodeProviders, EncodeSids, EncodeNodes, EncodeHead, EncodeCounts, Assigned, Rejected, Nodes;
    LaidOut(c, x, reshare);
    var o2 := Start(x) + 7 * |c.providers| + 2 * |Assigned(c, x)|;
    SidIn(Rejected(c, x), k);
    Within(Encode(c, x, reshare), o2, o2 + 2 * |Rejected(c, x)|, EncodeSids(Rejected(c, x)), 2 * k, 2);
  }

  /** Then the number of nodes and the nodes, eight bytes each, the own one last. */
  lemma NodeAt(c: Card, x: Context, reshare: byte, k: nat)
    requires k < |c.remoteNodes| + if x.addOwn.Some? then 1 else 0
    ensures
      var b := Encode(c, x, reshare);
      var at := Start(x) + 7 * |c.providers| + 2 * |Assigned(c, x)| + 2 * |Rejected(c, x)|;
      && at + 1 + 8 * k + 8 <= |b| && b[at] as int == (|c.remoteNodes| + if x.addOwn.Some? then 1 else 0) % 256
      && b[at + 1 + 8 * k..at + 1 + 8 * k + 8] == if k < |c.remoteNodes| then c.remoteNodes[k] else x.addOwn.value
  {
    hide Encode, FromBe, EncodeProviders, EncodeSids, EncodeNodes, EncodeHead, EncodeCounts, Assigned, Rejected;
    LaidOut(c, x, reshare);
    var ns := Nodes(c, x);
    var o3 := Start(x) + 7 * |c.providers| + 2 * |Assigned(c, x)| + 2 * |Rejected(c, x)|;
    NodeIn(ns, k);
    Within(Encode(c, x, reshare), o3 + 1, o3 + 1 + 8 * |ns|, EncodeNodes(ns), 8 * k, 8);
  }

  // ----- which services -----

  lemma {:induction false} BlockedMembers(bads: seq<BadSid>, sid: nat)
    ensures sid in PermanentlyBlocked(bads) <==> exists i :: 0 <= i < |bads| && bads[i].sid == sid && bads[i].blockedTill <= 0
    decreases |bads|
  {
    if bads != [] {
      BlockedMembers(bads[1..], sid);
      assert forall i :: 0 < i < |bads| ==> bads[i] == bads[1..][i - 1];
      if sid in PermanentlyBlocked(bads[1..]) {
        var i :| 0 <= i < |bads[1..]| && bads[1..][i].sid == sid && bads[1..][i].blockedTill <= 0;
        assert bads[i + 1].sid == sid;
      }
    }
  }

  lemma {:induction false} RefusedMembers(caid: nat, tabs: seq<SidTab>, sid: nat)
    ensures sid in RefusedSids(caid, tabs)
       <==> exists i :: 0 <= i < |tabs| && tabs[i].refused && caid in tabs[i].caids && sid in tabs[i].srvids
    decreases |tabs|
  {
    if tabs != [] {
      RefusedMembers(caid, tabs[1..], sid);
      assert forall i :: 0 < i < |tabs| ==> tabs[i] == tabs[1..][i - 1];
      if sid in RefusedSids(caid, tabs[1..]) {
        var i :| 0 <= i < |tabs[1..]| && tabs[1..][i].refused && caid in tabs[1..][i].caids && sid in tabs[1..][i].srvids;
        assert tabs[i + 1].refused;
      }
    }
  }

  /** Services are written in the extended format only; of a card of a service table the first 240 of
      the table, and of the refused tables for its caid. */
  lemma ServicesOfTable(c: Card, x: Context, sid: nat)
    ensures !x.ext ==> Assigned(c, x) == [] && Rejected(c, x) == []
    ensures x.ext && x.ownTab.Some? ==>
      && Assigned(c, x) <= x.ownTab.value && |Assigned(c, x)| == (if |x.ownTab.value| <= 240 then |x.ownTab.value| else 240)
      && Rejected(c, x) <= RefusedSids(c.caid, x.tabs)
      && |Rejected(c, x)| == (if |RefusedSids(c.caid, x.tabs)| <= 240 then |RefusedSids(c.caid, x.tabs)| else 240)
    ensures sid in RefusedSids(c.caid, x.tabs)
       <==> exists i :: 0 <= i < |x.tabs| && x.tabs[i].refused && c.caid in x.tabs[i].caids && sid in x.tabs[i].srvids
  {
    hide RefusedSids;
    RefusedMembers(c.caid, x.tabs, sid);
  }

  /** Of any other card the first 200 of its good services, and of those blocked for good. */
  lemma ServicesOfCard(c: Card, x: Context, sid: nat)
    requires x.ext && x.ownTab == None
    ensures |Assigned(c, x)| == if |c.goodsids| <= 200 then |c.goodsids| else 200
    ensures forall k :: 0 <= k < |Assigned(c, x)| ==> Assigned(c, x)[k] == c.goodsids[k].sid
    ensures Rejected(c, x) <= PermanentlyBlocked(c.badsids)
    ensures sid in PermanentlyBlocked(c.badsids) <==> exists i :: 0 <= i < |c.badsids| && c.badsids[i].sid == sid && c.badsids[i].blockedTill <= 0
    ensures |Rejected(c, x)| == if |PermanentlyBlocked(c.badsids)| <= 200 then |PermanentlyBlocked(c.badsids)| else 200
  {
    hide PermanentlyBlocked;
    BlockedMembers(c.badsids, sid);
  }

  // ----- what is read -----

  /** A message is refused exactly if it is shorter than its fixed part, than its lists, or than the
      nodes it announces; without room for the node count it has no nodes. */
  lemma RefusedIff(b: seq<byte>, ext: bool)
    ensures Decode(b, ext) == None <==>
      || |b| <= 20 || (ext && |b| <= 22)
      || (var lists := (if ext then 23 + 2 * (b[21] as int) + 2 * (b[22] as int) else 21) + 7 * (b[20] as int);
          |b| < lists || (|b| > lists && |b| < lists + 1 + 8 * (b[lists] as int)))
  {
    hide DecodeProviders, DecodeSids, DecodeNodes, Fill, DecodeHead;
  }

  /** What is read is a remote card of the format it came in, not yet numbered by a reader. */
  lemma ReadShows(b: seq<byte>, ext: bool)
    requires Decode(b, ext).Some?
    ensures
      var c := Decode(b, ext).value;
      && c.id == FromBe(b[..4]) && c.remoteId == FromBe(b[4..8]) && c.caid == FromBe(b[8..10])
      && c.hop == b[10] && c.reshare == b[11] && c.hexserial == b[12..20] && c.cardType == RemoteCard && c.isExt == ext
      && c.originReader == None && c.grp == {} && c.sidtab == None
      && |c.goodsids| == (if ext then b[21] as int else 0) && |c.badsids| == (if ext then b[22] as int else 0)
      && (forall i :: 0 <= i < |c.badsids| ==> c.badsids[i].blockedTill == 0)
  {
    hide FromBe, DecodeSids, DecodeNodes, DecodeProviders;
    SidsRead(b, ext);
  }

  /** Its providers, seven bytes each; one of all ones counts for its place with Betacrypt. */
  lemma ReadProvider(b: seq<byte>, ext: bool, k: nat)
    requires Decode(b, ext).Some? && k < b[20] as int
    ensures
      var c := Decode(b, ext).value;
      var at := (if ext then 23 else 21) + 7 * k;
      && |c.providers| == b[20] as int && at + 7 <= |b| && ReadAs(c.providers[k], b[at..at + 7], FromBe(b[8..10]), k)
  {
    hide FromBe, DecodeSids, DecodeNodes, DecodeProviders, ReadAs, AsGood, AsBad;
    var start := if ext then 23 else 21;
    var np := b[20] as nat;
    var s := b[start..start + 7 * np];
    ProvidersRead(s, np, FromBe(b[8..10]), 0);
    Within(b, start, start + 7 * np, s, 7 * k, 7);
  }

  /** Its services, two bytes each, of any channel and length, the rejected ones blocked for good; and its
      nodes, eight bytes each. */
  lemma ReadLists(b: seq<byte>, k: nat)
    requires Decode(b, true).Some?
    ensures
      var c := Decode(b, true).value;
      var o1 := 23 + 7 * (b[20] as int);
      var o2 := o1 + 2 * (b[21] as int);
      var o3 := o2 + 2 * (b[22] as int);
      && |c.goodsids| == b[21] as int && |c.badsids| == b[22] as int && o3 <= |b|
      && (k < |c.goodsids| ==> o1 + 2 * k + 2 <= |b| && c.goodsids[k] == Sid(FromBe(b[o1 + 2 * k..o1 + 2 * k + 2]), 0, 0))
      && (k < |c.badsids| ==> o2 + 2 * k + 2 <= |b| && c.badsids[k] == BadSid(FromBe(b[o2 + 2 * k..o2 + 2 * k + 2]), 0, 0, 0))
      && (k < |c.remoteNodes| ==> o3 + 1 + 8 * k + 8 <= |b| && c.remoteNodes[k] == b[o3 + 1 + 8 * k..o3 + 1 + 8 * k + 8])
      && |c.remoteNodes| == (if |b| == o3 then 0 else b[o3] as int)
  {
    hide FromBe, DecodeSids, DecodeNodes, DecodeProviders;
    var o1 := 23 + 7 * (b[20] as int);
    var o2 := o1 + 2 * (b[21] as int);
    var o3 := o2 + 2 * (b[22] as int);
    SidCount(b[o1..o2], b[21]);
    SidCount(b[o2..o3], b[22]);
    if k < b[21] as int {
      SidRead(b[o1..o2], b[21], k);
      Within(b, o1, o2, b[o1..o2], 2 * k, 2);
    }
    if k < b[22] as int {
      SidRead(b[o2..o3], b[22], k);
      Within(b, o2, o3, b[o2..o3], 2 * k, 2);
    }
    if |b| > o3 {
      var n := b[o3] as nat;
      var s := b[o3 + 1..o3 + 1 + 8 * n];
      NodesRead(s, n, k);
      if k < n {
        Within(b, o3 + 1, o3 + 1 + 8 * n, s, 8 * k, 8);
      }
    }
  }

  lemma {:induction false} SidRead(s: seq<byte>, n: nat, k: nat)
    requires |s| == 2 * n && k < n
    ensures |DecodeSids(s, n)| == n && DecodeSids(s, n)[k] == FromBe(s[2 * k..2 * k + 2])
    decreases n
  {
    hide FromBe;
    SidCount(s, n);
    if k > 0 {
      SidRead(s[2..], n - 1, k - 1);
      Within(s, 2, |s|, s[2..], 2 * (k - 1), 2);
    }
  }

  lemma {:induction false} NodesRead(s: seq<byte>, n: nat, k: nat)
    requires |s| == 8 * n
    ensures |DecodeNodes(s, n)| == n && (k < n ==> DecodeNodes(s, n)[k] == s[8 * k..8 * k + 8])
    decreases n
  {
    if n > 0 {
      NodesRead(s[8..], n - 1, if k > 0 then k - 1 else 0);
      if 0 < k < n {
        Within(s, 8, |s|, s[8..], 8 * (k - 1), 8);
      }
    }
  }

  lemma SidsRead(b: seq<byte>, ext: bool)
    ensures forall s, n :: |s| == 2 * n ==> |DecodeSids(s, n)| == n
  {
    forall s, n: nat | |s| == 2 * n
      ensures |DecodeSids(s, n)| == n
    {
      SidCount(s, n);
    }
  }

  lemma {:induction false} SidCount(s: seq<byte>, n: nat)
    requires |s| == 2 * n
    ensures |DecodeSids(s, n)| == n
    decreases n
  {
    if n > 0 {
      SidCount(s[2..], n - 1);
    }
  }

  /** Seven bytes as a provider, the k-th of its card. */
  predicate ReadAs(p: Provider, s: seq<byte>, caid: nat, k: nat)
    requires |s| == 7
  {
    && p.sa == s[3..7]
    && p.prov == var prov := FromBe(s[..3]); if prov == 0xFFFFFF && caid / 0x100 == 0x17 then k else prov
  }

  lemma {:induction false} ProvidersRead(s: seq<byte>, n: nat, caid: nat, i: nat)
    requires |s| == 7 * n
    ensures |DecodeProviders(s, n, caid, i)| == n
    ensures forall k :: 0 <= k < n ==> 7 * k + 7 <= |s| && ReadAs(DecodeProviders(s, n, caid, i)[k], s[7 * k..7 * k + 7], caid, i + k)
    decreases n
  {
    hide FromBe;
    if n > 0 {
      ProvidersRead(s[7..], n - 1, caid, i + 1);
      forall k | 0 <= k < n
        ensures 7 * k + 7 <= |s| && ReadAs(DecodeProviders(s, n, caid, i)[k], s[7 * k..7 * k + 7], caid, i + k)
      {
        if k > 0 {
          Within(s, 7, |s|, s[7..], 7 * (k - 1), 7);
          assert s[7..][7 * (k - 1)..7 * (k - 1) + 7] == s[7 * k..7 * k + 7];
        }
      }
    }
  }
}
