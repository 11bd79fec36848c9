/** write_card and read_card as the program runs them (module-cccshare.c, module-cccam.c): a cleared
    buffer filled at a moving offset while counts in front of it go up, and lists appended to
    while the offset moves on. What is written is the encoding of CardCodec, and what is parsed is
    what its decoding finds. */
module CardMessage {
  import opened Bytes
  import opened Cards
  import opened NodeCodec
  import opened CardCodec

  /** The buffer while it is filled: head, counts, lists so far, zeros. */
  ghost predicate Filled(s: seq<byte>, h: seq<byte>, n: seq<byte>, p: seq<byte>) {
    && |h| == 20 && (|n| == 1 || |n| == 3) && |h| + |n| + |p| <= |s|
    && s == h + n + p + Zeros(|s| - |h| - |n| - |p|)
  }

  /** Writing at the end of what is filled. */
  lemma FilledPut(s: seq<byte>, h: seq<byte>, n: seq<byte>, p: seq<byte>, ofs: nat, x: seq<byte>, t: seq<byte>)
    requires Filled(s, h, n, p) && ofs == |h| + |n| + |p| && ofs + |x| <= |s|
    requires t == s[..ofs] + x + s[ofs + |x|..]
    ensures Filled(t, h, n, p + x)
  {
    assert s[..ofs] == h + n + p;
    assert s[ofs + |x|..] == Zeros(|s| - ofs - |x|);
    assert h + n + p + x == h + n + (p + x);
  }

  /** A byte counter among the counts goes up. */
  lemma FilledCount(s: seq<byte>, h: seq<byte>, n: seq<byte>, p: seq<byte>, i: nat, v: byte)
    requires Filled(s, h, n, p) && i < |n|
    ensures s[20 + i] == n[i] && Filled(s[20 + i := v], h, n[i := v], p)
  {
    assert s[20 + i] == (h + n)[20 + i];
    assert h + n[i := v] == (h + n)[20 + i := v];
  }

  lemma FilledZeros(s: seq<byte>, h: seq<byte>, n: seq<byte>, p: seq<byte>, k: nat)
    requires Filled(s, h, n, p) && |h| + |n| + |p| + k <= |s|
    ensures Filled(s, h, n, p + Zeros(k))
  {
    assert Zeros(|s| - |h| - |n| - |p|) == Zeros(k) + Zeros(|s| - |h| - |n| - |p| - k);
    assert h + n + p + (Zeros(k) + Zeros(|s| - |h| - |n| - |p| - k))
        == h + n + (p + Zeros(k)) + Zeros(|s| - |h| - |n| - |p| - k);
  }

  lemma {:induction false} EncodeSidsSnoc(sids: seq<nat>, x: nat)
    ensures EncodeSids(sids + [x]) == EncodeSids(sids) + Be2(x)
    decreases |sids|
  {
    hide Be2;
    if sids == [] {
      assert (sids + [x])[1..] == [];
      assert EncodeSids([x]) == Be2(x) + EncodeSids([]);
    } else {
      assert (sids + [x])[1..] == sids[1..] + [x];
      EncodeSidsSnoc(sids[1..], x);
    }
  }

  lemma {:induction false} EncodeProvidersSnoc(ps: seq<Provider>, p: Provider, au: bool)
    ensures EncodeProviders(ps + [p], au) == EncodeProviders(ps, au) + Be3(p.prov) + (if au then p.sa else ZERO4)
    decreases |ps|
  {
    hide Be3;
    if ps == [] {
      assert (ps + [p])[1..] == [];
      assert EncodeProviders([p], au) == Be3(p.prov) + (if au then p.sa else ZERO4) + EncodeProviders([], au);
    } else {
      assert (ps + [p])[1..] == ps[1..] + [p];
      EncodeProvidersSnoc(ps[1..], p, au);
    }
  }

  /** One provider: three bytes, and four more where updates are allowed. */
  method PutProvider(buf: array<byte>, ofs: nat, prov: Provider, au: bool, ghost h: seq<byte>, ghost n: seq<byte>, ghost p: seq<byte>)
    requires Filled(buf[..], h, n, p) && ofs == |h| + |n| + |p| && ofs + 7 <= buf.Length
    modifies buf
    ensures n != [] && Filled(buf[..], h, n[0 := Add(n[0], 1)], p + Be3(prov.prov) + if au then prov.sa else ZERO4)
  {
    hide Filled, Be3, Add;
    FilledBounds(buf[..], h, n, p);
    ghost var p1 := p + Be3(prov.prov);
    Put(buf, ofs, Be3(prov.prov));
    FilledPut(old(buf[..]), h, n, p, ofs, Be3(prov.prov), buf[..]);
    ghost var p2 := p1 + if au then prov.sa else ZERO4;
    PutSa(buf, ofs + 3, prov.sa, au, h, n, p1);
    FilledCount(buf[..], h, n, p2, 0, Add(n[0], 1));
    buf[20] := Add(buf[20], 1);
  }

  method PutSa(buf: array<byte>, ofs: nat, sa: Sa, au: bool, ghost h: seq<byte>, ghost n: seq<byte>, ghost p: seq<byte>)
    requires Filled(buf[..], h, n, p) && ofs == |h| + |n| + |p| && ofs + 4 <= buf.Length
    modifies buf
    ensures Filled(buf[..], h, n, p + if au then sa else ZERO4)
  {
    hide Filled;
    if au {
      Put(buf, ofs, sa);
      FilledPut(old(buf[..]), h, n, p, ofs, sa, buf[..]);
    } else {
      FilledZeros(buf[..], h, n, p, 4);
      assert Zeros(4) == ZERO4;
    }
  }

  lemma FilledBounds(s: seq<byte>, h: seq<byte>, n: seq<byte>, p: seq<byte>)
    requires Filled(s, h, n, p)
    ensures |h| == 20 && (|n| == 1 || |n| == 3) && 20 + |n| + |p| <= |s|
    ensures s[..20 + |n| + |p|] == h + n + p
  {
  }

  /** One service, counted in buf[20 + i]. */
  method PutSid(buf: array<byte>, ofs: nat, sid: nat, i: nat, ghost h: seq<byte>, ghost n: seq<byte>, ghost p: seq<byte>)
    requires Filled(buf[..], h, n, p) && ofs == |h| + |n| + |p| && ofs + 2 <= buf.Length && i < |n|
    modifies buf
    ensures Filled(buf[..], h, n[i := Add(n[i], 1)], p + Be2(sid))
    ensures buf[20 + i] == Add(old(buf[20 + i]), 1) && old(buf[20 + i]) == n[i]
  {
    hide Filled, Be2;
    FilledBounds(buf[..], h, n, p);
    FilledCount(buf[..], h, n, p, i, 0);
    Put(buf, ofs, Be2(sid));
    FilledPut(old(buf[..]), h, n, p, ofs, Be2(sid), buf[..]);
    FilledCount(buf[..], h, n, p + Be2(sid), i, Add(n[i], 1));
    buf[20 + i] := Add(buf[20 + i], 1);
  }

  /** The loops that write services until their counter reaches a limit. `done` of them were
      written before this list. */
  method PutSids(buf: array<byte>, ofs0: nat, sids: seq<nat>, i: nat, limit: nat,
                 ghost h: seq<byte>, ghost n0: seq<byte>, ghost p0: seq<byte>, ghost done: seq<nat>)
    returns (ofs: nat, ghost n: seq<byte>)
    requires i < |n0| && |done| < limit < 256 && n0[i] == |done|
    requires Filled(buf[..], h, n0, p0 + EncodeSids(done)) && ofs0 == |h| + |n0| + |p0| + 2 * |done|
    requires |h| + |n0| + |p0| + 2 * |Take(done + sids, limit)| <= buf.Length
    modifies buf
    ensures n == n0[i := |Take(done + sids, limit)|]
    ensures Filled(buf[..], h, n, p0 + EncodeSids(Take(done + sids, limit)))
    ensures ofs == |h| + |n| + |p0| + 2 * |Take(done + sids, limit)|
    ensures buf[20 + i] == |Take(done + sids, limit)|
  {
    hide Filled, Be2, EncodeSids;
    ghost var all := done + sids;
    ghost var sofar := done;
    ofs, n := ofs0, n0;
    FilledBounds(buf[..], h, n, p0 + EncodeSids(done));
    FilledCount(buf[..], h, n, p0 + EncodeSids(done), i, 0);
    assert n0[i := |done|] == n0;
    var l := 0;
    while l < |sids|
      invariant 0 <= l <= |sids|
      invariant sofar == all[..|done| + l] && |sofar| < limit
      invariant n == n0[i := |sofar|] && |n| == |n0|
      invariant Filled(buf[..], h, n, p0 + EncodeSids(sofar))
      invariant ofs == |h| + |n| + |p0| + 2 * |sofar| && buf[20 + i] == |sofar|
    {
      ghost var next := sofar + [sids[l]];
      assert all[..|done| + l + 1] == next;
      assert |next| <= |Take(all, limit)|;
      PutSid(buf, ofs, sids[l], i, h, n, p0 + EncodeSids(sofar));
      EncodeSidsSnoc(sofar, sids[l]);
      assert p0 + EncodeSids(sofar) + Be2(sids[l]) == p0 + EncodeSids(next);
      assert Add(n[i], 1) == |next|;
      n := n[i := |next|];
      sofar := next;
      ofs := ofs + 2;
      if buf[20 + i] >= limit {
        assert sofar == Take(all, limit);
        return;
      }
      l := l + 1;
    }
    assert all[..|all|] == all && Take(all, limit) == all;
  }

  lemma {:induction false} RefusedSnoc(caid: nat, tabs: seq<SidTab>, t: SidTab)
    ensures RefusedSids(caid, tabs + [t]) == RefusedSids(caid, tabs) + if t.refused && caid in t.caids then t.srvids else []
    decreases |tabs|
  {
    if tabs == [] {
      assert (tabs + [t])[1..] == [];
      assert RefusedSids(caid, [t]) == (if t.refused && caid in t.caids then t.srvids else []) + RefusedSids(caid, []);
    } else {
      assert (tabs + [t])[1..] == tabs[1..] + [t];
      RefusedSnoc(caid, tabs[1..], t);
    }
  }

  lemma {:induction false} RefusedPrefix(caid: nat, tabs: seq<SidTab>, k: nat)
    requires k <= |tabs|
    ensures RefusedSids(caid, tabs[..k]) <= RefusedSids(caid, tabs)
    decreases |tabs|
  {
    if k > 0 {
      assert tabs[..k][1..] == tabs[1..][..k - 1];
      RefusedPrefix(caid, tabs[1..], k - 1);
    }
  }

  lemma TakeOfPrefix(part: seq<nat>, all: seq<nat>, limit: nat)
    requires part <= all
    ensures |Take(part, limit)| <= |Take(all, limit)|
    ensures |part| >= limit ==> Take(part, limit) == Take(all, limit)
  {
  }

  /** The refused services: two loops over the service tables, left together at 240. */
  method PutRefused(buf: array<byte>, ofs0: nat, caid: nat, tabs: seq<SidTab>,
                    ghost h: seq<byte>, ghost n0: seq<byte>, ghost p0: seq<byte>)
    returns (ofs: nat, ghost n: seq<byte>)
    requires |n0| == 3 && n0[2] == 0 && Filled(buf[..], h, n0, p0) && ofs0 == |h| + 3 + |p0|
    requires |h| + 3 + |p0| + 2 * |Take(RefusedSids(caid, tabs), 240)| <= buf.Length
    modifies buf
    ensures n == n0[2 := |Take(RefusedSids(caid, tabs), 240)|]
    ensures Filled(buf[..], h, n, p0 + EncodeSids(Take(RefusedSids(caid, tabs), 240)))
    ensures ofs == |h| + 3 + |p0| + 2 * |Take(RefusedSids(caid, tabs), 240)|
  {
    hide Filled, EncodeSids, RefusedSids, Take;
    NothingYet(p0);
    RefusedNone(caid);
    ghost var done := [];
    ofs, n := ofs0, n0;
    FilledBounds(buf[..], h, n, p0);
    FilledCount(buf[..], h, n, p0, 2, 0);
    assert n0[2 := 0] == n0;
    assert tabs[..0] == [];
    var i := 0;
    while i < |tabs|
      invariant 0 <= i <= |tabs|
      invariant done == RefusedSids(caid, tabs[..i]) && |done| < 240
      invariant n == n0[2 := |done|]
      invariant Filled(buf[..], h, n, p0 + EncodeSids(done))
      invariant ofs == |h| + 3 + |p0| + 2 * |done| && buf[22] == |done|
    {
      assert tabs[..i + 1] == tabs[..i] + [tabs[i]];
      RefusedSnoc(caid, tabs[..i], tabs[i]);
      RefusedPrefix(caid, tabs, i + 1);
      ghost var next := RefusedSids(caid, tabs[..i + 1]);
      TakeOfPrefix(next, RefusedSids(caid, tabs), 240);
      if tabs[i].refused && caid in tabs[i].caids {
        ofs, n := PutSids(buf, ofs, tabs[i].srvids, 2, 240, h, n, p0, done);
        assert n0[2 := |done|][2 := |Take(next, 240)|] == n0[2 := |Take(next, 240)|];
      } else {
        assert done + [] == done;
        TakeShort(done, 240);
      }
      TakeSize(next, 240);
      if buf[22] >= 240 {
        return;
      }
      done := next;
      i := i + 1;
    }
    assert tabs[..|tabs|] == tabs;
    TakeShort(done, 240);
  }

  lemma NothingYet(p: seq<byte>)
    ensures p + EncodeSids([]) == p
  {
  }

  lemma RefusedNone(caid: nat)
    ensures RefusedSids(caid, []) == []
  {
  }

  lemma TakeShort(s: seq<nat>, limit: nat)
    requires |s| < limit
    ensures Take(s, limit) == s
  {
  }

  lemma TakeSize(s: seq<nat>, limit: nat)
    ensures |Take(s, limit)| == if |s| < limit then |s| else limit
    ensures |s| < limit ==> Take(s, limit) == s
  {
  }

  lemma {:induction false} BlockedSnoc(bads: seq<BadSid>, b: BadSid)
    ensures PermanentlyBlocked(bads + [b]) == PermanentlyBlocked(bads) + if b.blockedTill > 0 then [] else [b.sid]
    decreases |bads|
  {
    if bads == [] {
      assert (bads + [b])[1..] == [];
      assert PermanentlyBlocked([]) == [];
    } else {
      assert (bads + [b])[1..] == bads[1..] + [b];
      BlockedSnoc(bads[1..], b);
    }
  }

  lemma {:induction false} BlockedPrefix(bads: seq<BadSid>, k: nat)
    requires k <= |bads|
    ensures PermanentlyBlocked(bads[..k]) <= PermanentlyBlocked(bads)
    decreases |bads|
  {
    if k > 0 {
      assert bads[..k][1..] == bads[1..][..k - 1];
      BlockedPrefix(bads[1..], k - 1);
    }
  }

  /** The blocked services of a card without a service table. */
  method PutBlocked(buf: array<byte>, ofs0: nat, bads: seq<BadSid>,
                    ghost h: seq<byte>, ghost n0: seq<byte>, ghost p0: seq<byte>)
    returns (ofs: nat, ghost n: seq<byte>)
    requires |n0| == 3 && n0[2] == 0 && Filled(buf[..], h, n0, p0) && ofs0 == |h| + 3 + |p0|
    requires |h| + 3 + |p0| + 2 * |Take(PermanentlyBlocked(bads), 200)| <= buf.Length
    modifies buf
    ensures n == n0[2 := |Take(PermanentlyBlocked(bads), 200)|]
    ensures Filled(buf[..], h, n, p0 + EncodeSids(Take(PermanentlyBlocked(bads), 200)))
    ensures ofs == |h| + 3 + |p0| + 2 * |Take(PermanentlyBlocked(bads), 200)|
  {
    hide Filled, EncodeSids, PermanentlyBlocked, Take, Be2;
    NothingYet(p0);
    BlockedNone();
    ghost var done := [];
    ofs, n := ofs0, n0;
    FilledBounds(buf[..], h, n, p0);
    FilledCount(buf[..], h, n, p0, 2, 0);
    assert n0[2 := 0] == n0;
    assert bads[..0] == [];
    var i := 0;
    while i < |bads|
      invariant 0 <= i <= |bads|
      invariant done == PermanentlyBlocked(bads[..i]) && |done| < 200
      invariant n == n0[2 := |done|]
      invariant Filled(buf[..], h, n, p0 + EncodeSids(done))
      invariant ofs == |h| + 3 + |p0| + 2 * |done| && buf[22] == |done|
    {
      assert bads[..i + 1] == bads[..i] + [bads[i]];
      BlockedSnoc(bads[..i], bads[i]);
      BlockedPrefix(bads, i + 1);
      ghost var next := PermanentlyBlocked(bads[..i + 1]);
      TakeOfPrefix(next, PermanentlyBlocked(bads), 200);
      TakeSize(next, 200);
      if bads[i].blockedTill > 0 {
        assert done + [] == done;
        i := i + 1;
        continue;
      }
      PutSid(buf, ofs, bads[i].sid, 2, h, n, p0 + EncodeSids(done));
      EncodeSidsSnoc(done, bads[i].sid);
      assert p0 + EncodeSids(done) + Be2(bads[i].sid) == p0 + EncodeSids(next);
      assert n[2 := |next|] == n0[2 := |next|] && Add(n[2], 1) == |next|;
      n := n[2 := |next|];
      ofs := ofs + 2;
      if buf[22] >= 200 {
        assert next[..200] == next;
        TakeAll(next, 200);
        return;
      }
      done := next;
      i := i + 1;
    }
    assert bads[..|bads|] == bads;
    TakeShort(done, 200);
  }

  lemma TakeAll(s: seq<nat>, limit: nat)
    requires |s| == limit
    ensures Take(s, limit) == s
  {
  }

  lemma BlockedNone()
    ensures PermanentlyBlocked([]) == []
  {
  }

  /** All providers. */
  method PutProviders(buf: array<byte>, ofs0: nat, ps: seq<Provider>, au: bool, ghost h: seq<byte>, ghost n0: seq<byte>)
    returns (ofs: nat, ghost n: seq<byte>)
    requires Filled(buf[..], h, n0, []) && ofs0 == |h| + |n0| && n0[0] == 0
    requires |h| + |n0| + 7 * |ps| <= buf.Length
    modifies buf
    ensures n == n0[0 := |ps| % 256] && ofs == |h| + |n0| + 7 * |ps|
    ensures Filled(buf[..], h, n, EncodeProviders(ps, au))
  {
    hide Filled, EncodeProviders, Be3, Add;
    FilledBounds(buf[..], h, n0, []);
    ofs, n := ofs0, n0;
    assert ps[..0] == [] && n0[0 := 0] == n0;
    var i := 0;
    while i < |ps|
      invariant 0 <= i <= |ps|
      invariant n == n0[0 := i % 256] && ofs == |h| + |n0| + 7 * i
      invariant Filled(buf[..], h, n, EncodeProviders(ps[..i], au))
    {
      PutProvider(buf, ofs, ps[i], au, h, n, EncodeProviders(ps[..i], au));
      assert ps[..i + 1] == ps[..i] + [ps[i]];
      EncodeProvidersSnoc(ps[..i], ps[i], au);
      CountUp(n0, i);
      n := n[0 := Add(n[0], 1)];
      ofs := ofs + 7;
      i := i + 1;
    }
    assert ps[..|ps|] == ps;
  }

  lemma CountUp(n: seq<byte>, i: nat)
    requires n != []
    ensures n[0 := i % 256][0 := Add(i % 256, 1)] == n[0 := (i + 1) % 256]
  {
  }

  /** The node count and the nodes: the count is at the end of the lists and goes up. */
  method PutNodes(buf: array<byte>, ofs0: nat, ns: seq<NodeId>, ghost h: seq<byte>, ghost n: seq<byte>, ghost p: seq<byte>)
    returns (ofs: nat)
    requires Filled(buf[..], h, n, p) && ofs0 == |h| + |n| + |p|
    requires |h| + |n| + |p| + 1 + 8 * |ns| <= buf.Length && |ns| < 256
    modifies buf
    ensures ofs == |h| + |n| + |p| + 1 + 8 * |ns|
    ensures Filled(buf[..], h, n, p + [|ns| as byte] + EncodeNodes(ns))
  {
    hide Filled, EncodeNodes;
    FilledBounds(buf[..], h, n, p);
    FilledZeros(buf[..], h, n, p, 1);
    assert Zeros(1) == [0];
    ofs := ofs0 + 1;
    assert p + [0] + [] == p + [0];
    assert ns[..0] == [];
    var i := 0;
    while i < |ns|
      invariant 0 <= i <= |ns|
      invariant ofs == ofs0 + 1 + 8 * i
      invariant Filled(buf[..], h, n, p + [i as byte] + EncodeNodes(ns[..i]))
    {
      ghost var s, q := buf[..], p + [i as byte] + EncodeNodes(ns[..i]);
      Put(buf, ofs, ns[i]);
      FilledPut(s, h, n, q, ofs, ns[i], buf[..]);
      assert ns[..i + 1] == ns[..i] + [ns[i]];
      EncodeNodesSnoc(ns[..i], ns[i]);
      assert q + ns[i] == p + [i as byte] + EncodeNodes(ns[..i + 1]);
      FilledTail(buf[..], h, n, p, i, EncodeNodes(ns[..i + 1]), i + 1);
      buf[ofs0] := Add(buf[ofs0], 1);
      ofs := ofs + 8;
      i := i + 1;
    }
    assert ns[..|ns|] == ns;
  }

  lemma FilledTail(s: seq<byte>, h: seq<byte>, n: seq<byte>, p: seq<byte>, v: byte, t: seq<byte>, w: byte)
    requires Filled(s, h, n, p + [v] + t)
    ensures |h| + |n| + |p| < |s| && s[|h| + |n| + |p|] == v
    ensures Filled(s[|h| + |n| + |p| := w], h, n, p + [w] + t)
  {
    var z := Zeros(|s| - |h| - |n| - |p + [v] + t|);
    var k := |h| + |n| + |p|;
    assert s == (h + n + p) + [v] + (t + z);
    assert s[k := w] == (h + n + p) + [w] + (t + z);
    assert (h + n + p) + [w] + (t + z) == h + n + (p + [w] + t) + z;
  }

  /** write_card. */
  method WriteCard(buf: array<byte>, c: Card, x: Context) returns (ofs: nat)
    requires buf.Length == CC_MAXMSGSIZE && |Encode(c, x, c.reshare % 256)| <= CC_MAXMSGSIZE
    modifies buf
    ensures ofs <= CC_MAXMSGSIZE && buf[..ofs] == Encode(c, x, c.reshare % 256)
  {
    hide Filled, Encode, EncodeSids, EncodeProviders, EncodeNodes, EncodeHead, EncodeCounts, Assigned, Rejected;
    NoExtNoSids(c, x);
    EncodeSize(c, x, c.reshare % 256);
    PutHead(buf, c, x);
    ghost var h := EncodeHead(c, x, c.reshare % 256);
    ghost var n := if x.ext then [0, 0, 0] else [0];
    ofs := if x.ext then 23 else 21;
    ghost var ps := EncodeProviders(c.providers, x.auAllowed);
    ofs, n := PutProviders(buf, ofs, c.providers, x.auAllowed, h, n);
    ghost var p := ps;
    if x.ext {
      ofs, n := PutAssigned(buf, ofs, c, x, h, n, p);
      p := p + EncodeSids(Assigned(c, x));
      ofs, n := PutRejected(buf, ofs, c, x, h, n, p);
      p := p + EncodeSids(Rejected(c, x));
    } else {
      NothingYet(p);
      p := ps + EncodeSids(Assigned(c, x)) + EncodeSids(Rejected(c, x));
    }
    var nodes := if x.addOwn.Some? then c.remoteNodes + [x.addOwn.value] else c.remoteNodes;
    assert nodes == Nodes(c, x) by {
      assert c.remoteNodes + [] == c.remoteNodes;
    }
    ofs := PutNodes(buf, ofs, nodes, h, n, p);
    FilledBounds(buf[..], h, n, p + [|nodes| as byte] + EncodeNodes(nodes));
    CountsAre(c, x, n);
    EncodeLayout(c, x, c.reshare % 256, p);
    assert buf[..ofs] == buf[..][..ofs];
  }

  lemma CountsAre(c: Card, x: Context, n: seq<byte>)
    requires if x.ext then |n| == 3 && n[0] == |c.providers| % 256 && n[1] == |Assigned(c, x)| && n[2] == |Rejected(c, x)|
             else n == [|c.providers| % 256]
    ensures n == EncodeCounts(c, x)
  {
    hide Assigned, Rejected;
  }

  lemma EncodeLayout(c: Card, x: Context, reshare: byte, p: seq<byte>)
    requires |Nodes(c, x)| < 256
    requires p == EncodeProviders(c.providers, x.auAllowed) + EncodeSids(Assigned(c, x)) + EncodeSids(Rejected(c, x))
    ensures EncodeHead(c, x, reshare) + EncodeCounts(c, x) + (p + [|Nodes(c, x)| as byte] + EncodeNodes(Nodes(c, x))) == Encode(c, x, reshare)
  {
    hide EncodeSids, EncodeProviders, EncodeNodes, EncodeHead, EncodeCounts, Assigned, Rejected;
    Layout(EncodeHead(c, x, reshare), EncodeCounts(c, x), EncodeProviders(c.providers, x.auAllowed), EncodeSids(Assigned(c, x)),
           EncodeSids(Rejected(c, x)), [|Nodes(c, x)| as byte], EncodeNodes(Nodes(c, x)));
  }

  /** Clearing the buffer and writing the twenty fixed bytes. */
  method PutHead(buf: array<byte>, c: Card, x: Context)
    requires buf.Length == CC_MAXMSGSIZE
    modifies buf
    ensures Filled(buf[..], EncodeHead(c, x, c.reshare % 256), if x.ext then [0, 0, 0] else [0], [])
  {
    hide Filled, EncodeHead, Be4, Be2;
    var hop: byte, reshare: byte := c.hop % 256, c.reshare % 256;
    var head := Be4(c.id) + Be4(c.remoteId) + Be2(c.caid) + [hop, reshare] + if x.auAllowed then c.hexserial else ZERO8;
    forall k | 0 <= k < buf.Length {
      buf[k] := 0;
    }
    assert buf[..] == Zeros(CC_MAXMSGSIZE);
    Put(buf, 0, head);
    HeadFilled(buf[..], head, if x.ext then [0, 0, 0] else [0]);
    HeadIs(c, x, head);
  }

  lemma Layout(h: seq<byte>, n: seq<byte>, p: seq<byte>, g: seq<byte>, j: seq<byte>, k: seq<byte>, t: seq<byte>)
    ensures h + n + p + g + j + k + t == h + n + (p + g + j + k + t)
  {
  }

  lemma HeadFilled(s: seq<byte>, head: seq<byte>, n: seq<byte>)
    requires |s| == CC_MAXMSGSIZE && |head| == 20 && (n == [0, 0, 0] || n == [0])
    requires s == [] + head + Zeros(CC_MAXMSGSIZE)[20..]
    ensures Filled(s, head, n, [])
  {
    assert n == Zeros(|n|);
    assert Zeros(CC_MAXMSGSIZE)[20..] == Zeros(|n|) + Zeros(CC_MAXMSGSIZE - 20 - |n|);
  }

  lemma HeadIs(c: Card, x: Context, head: seq<byte>)
    requires
      var hop: byte, reshare: byte := c.hop % 256, c.reshare % 256;
      head == Be4(c.id) + Be4(c.remoteId) + Be2(c.caid) + [hop, reshare] + if x.auAllowed then c.hexserial else ZERO8
    ensures head == EncodeHead(c, x, c.reshare % 256)
  {
  }

  method PutAssigned(buf: array<byte>, ofs0: nat, c: Card, x: Context, ghost h: seq<byte>, ghost n0: seq<byte>, ghost p: seq<byte>)
    returns (ofs: nat, ghost n: seq<byte>)
    requires x.ext && |n0| == 3 && n0[1] == 0 && Filled(buf[..], h, n0, p) && ofs0 == |h| + 3 + |p|
    requires |h| + 3 + |p| + 2 * |Assigned(c, x)| <= buf.Length
    modifies buf
    ensures n == n0[1 := |Assigned(c, x)|] && ofs == |h| + 3 + |p| + 2 * |Assigned(c, x)|
    ensures Filled(buf[..], h, n, p + EncodeSids(Assigned(c, x)))
  {
    hide Filled, EncodeSids, Take;
    NothingYet(p);
    if x.ownTab.Some? {
      assert [] + x.ownTab.value == x.ownTab.value;
      ofs, n := PutSids(buf, ofs0, x.ownTab.value, 1, 240, h, n0, p, []);
    } else {
      assert [] + GoodSids(c.goodsids) == GoodSids(c.goodsids);
      ofs, n := PutSids(buf, ofs0, GoodSids(c.goodsids), 1, 200, h, n0, p, []);
    }
  }

  method PutRejected(buf: array<byte>, ofs0: nat, c: Card, x: Context, ghost h: seq<byte>, ghost n0: seq<byte>, ghost p: seq<byte>)
    returns (ofs: nat, ghost n: seq<byte>)
    requires x.ext && |n0| == 3 && n0[2] == 0 && Filled(buf[..], h, n0, p) && ofs0 == |h| + 3 + |p|
    requires |h| + 3 + |p| + 2 * |Rejected(c, x)| <= buf.Length
    modifies buf
    ensures n == n0[2 := |Rejected(c, x)|] && ofs == |h| + 3 + |p| + 2 * |Rejected(c, x)|
    ensures Filled(buf[..], h, n, p + EncodeSids(Rejected(c, x)))
  {
    hide Filled, EncodeSids, Take;
    if x.ownTab.Some? {
      ofs, n := PutRefused(buf, ofs0, c.caid, x.tabs, h, n0, p);
    } else {
      ofs, n := PutBlocked(buf, ofs0, c.badsids, h, n0, p);
    }
  }

  // ----- reading -----

  method ReadProviders(buf: seq<byte>, start: nat, nprov: nat, caid: nat) returns (providers: seq<Provider>, offset: nat)
    requires start + 7 * nprov <= |buf|
    ensures providers == DecodeProviders(buf[start..start + 7 * nprov], nprov, caid, 0) && offset == start + 7 * nprov
  {
    hide DecodeProviders, FromBe;
    providers, offset := [], start;
    assert buf[start..start + 7 * nprov] == buf[offset..offset + 7 * nprov];
    var i := 0;
    while i < nprov
      invariant 0 <= i <= nprov && offset == start + 7 * i
      invariant DecodeProviders(buf[start..start + 7 * nprov], nprov, caid, 0)
             == providers + DecodeProviders(buf[offset..offset + 7 * (nprov - i)], nprov - i, caid, i)
    {
      var prov := FromBe(buf[offset..offset + 3]);
      if prov == 0xFFFFFF && IsBetacrypt(caid) {
        prov := i;
      }
      var p := Provider(prov, buf[offset + 3..offset + 7]);
      DecodeProvidersStep(buf, offset, nprov - i, caid, i, p);
      providers := providers + [p];
      offset := offset + 7;
      i := i + 1;
    }
    DecodeProvidersEnd(buf[offset..offset], caid, nprov);
  }

  lemma DecodeProvidersEnd(s: seq<byte>, caid: nat, i: nat)
    requires s == []
    ensures DecodeProviders(s, 0, caid, i) == []
  {
  }

  lemma DecodeProvidersStep(buf: seq<byte>, offset: nat, n: nat, caid: nat, i: nat, p: Provider)
    requires n > 0 && offset + 7 * n <= |buf|
    requires
      var prov := FromBe(buf[offset..offset + 3]);
      p == Provider(if prov == 0xFFFFFF && IsBetacrypt(caid) then i else prov, buf[offset + 3..offset + 7])
    ensures DecodeProviders(buf[offset..offset + 7 * n], n, caid, i)
         == [p] + DecodeProviders(buf[offset + 7..offset + 7 + 7 * (n - 1)], n - 1, caid, i + 1)
  {
    hide FromBe;
    var s := buf[offset..offset + 7 * n];
    SliceOfSlice(buf, offset, offset + 7 * n, 7);
    SliceOfSlice(buf, offset, offset + 7, 3);
    assert s[..7][3..7] == s[..7][3..] == buf[offset + 3..offset + 7];
  }

  method ReadSids(buf: seq<byte>, start: nat, n: nat) returns (sids: seq<nat>, offset: nat)
    requires start + 2 * n <= |buf|
    ensures sids == DecodeSids(buf[start..start + 2 * n], n) && offset == start + 2 * n
  {
    hide DecodeSids, FromBe;
    sids, offset := [], start;
    var i := 0;
    while i < n
      invariant 0 <= i <= n && offset == start + 2 * i
      invariant DecodeSids(buf[start..start + 2 * n], n) == sids + DecodeSids(buf[offset..offset + 2 * (n - i)], n - i)
    {
      DecodeSidsStep(buf, offset, n - i);
      sids := sids + [FromBe(buf[offset..offset + 2])];
      offset := offset + 2;
      i := i + 1;
    }
    DecodeSidsEnd(buf[offset..offset]);
  }

  lemma DecodeSidsEnd(s: seq<byte>)
    requires s == []
    ensures DecodeSids(s, 0) == []
  {
  }

  lemma DecodeSidsStep(buf: seq<byte>, offset: nat, n: nat)
    requires n > 0 && offset + 2 * n <= |buf|
    ensures DecodeSids(buf[offset..offset + 2 * n], n)
         == [FromBe(buf[offset..offset + 2])] + DecodeSids(buf[offset + 2..offset + 2 + 2 * (n - 1)], n - 1)
  {
    hide FromBe;
    var s := buf[offset..offset + 2 * n];
    SliceOfSlice(buf, offset, offset + 2 * n, 2);
  }

  /** read_card. */
  method ReadCard(buf: seq<byte>, ext: bool) returns (card: Option<Card>)
    ensures card == Decode(buf, ext)
  {
    hide DecodeProviders, DecodeSids, DecodeNodes, DecodeHead, FromBe, AsGood, AsBad;
    if |buf| < 21 {
      return None;
    }
    var head := DecodeHead(buf, ext);
    var nprov, nassign, nreject := buf[20] as nat, 0, 0;
    var offset := 21;
    if ext {
      if |buf| < 23 {
        return None;
      }
      nassign, nreject := buf[21] as nat, buf[22] as nat;
      offset := offset + 2;
    }
    if |buf| < offset + nprov * 7 {
      return None;
    }
    var providers, goods, bads := [], [], [];
    providers, offset := ReadProviders(buf, offset, nprov, head.caid);
    if |buf| < offset + nassign * 2 + nreject * 2 {
      return None;
    }
    goods, offset := ReadSids(buf, offset, nassign);
    bads, offset := ReadSids(buf, offset, nreject);
    if |buf| < offset + 1 {
      return Some(Fill(head, providers, goods, bads, []));
    }
    var count := buf[offset] as nat;
    offset := offset + 1;
    if |buf| < offset + count * 8 {
      return None;
    }
    var nodes := ReadNodes(buf, offset, count);
    card := Some(Fill(head, providers, goods, bads, nodes));
  }
}
