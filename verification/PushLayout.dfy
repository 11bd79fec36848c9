/** Where things stand in the two forms of the push message, which messages are read, and the hop
    limits told from the four numbers that set them. */
module PushLayout {
  import opened Bytes
  import opened Cards
  import opened NodeCodec
  import opened CachePush
  import opened CccamPush

  // ----- single fields -----

  /** The hash goes out with its low byte first. */
  lemma HashLowByteFirst(n: nat)
    ensures Be4(HashSwap(n)) == [n % 256, n / 0x100 % 256, n / 0x10000 % 256, n / 0x1000000 % 256]
  {
    hide HashSwap;
    var a, b, c, d := n / 0x1000000 % 256, n / 0x10000 % 256, n / 0x100 % 256, n % 256;
    var m := d * 0x1000000 + c * 0x10000 + b * 0x100 + a;
    SwapIs(n);
    Digits(d, c, b, a);
  }

  lemma SwapIs(n: nat)
    ensures HashSwap(n) == n % 256 * 0x1000000 + n / 0x100 % 256 * 0x10000 + n / 0x10000 % 256 * 0x100 + n / 0x1000000 % 256
  {
  }

  lemma Digits(d: byte, c: byte, b: byte, a: byte)
    ensures Be4((d as int) * 0x1000000 + (c as int) * 0x10000 + (b as int) * 0x100 + a as int) == [d, c, b, a]
  {
    var n: nat := (d as int) * 0x1000000 + (c as int) * 0x10000 + (b as int) * 0x100 + a as int;
    assert n % 256 == a && n / 256 == (d as int) * 0x10000 + (c as int) * 0x100 + b as int;
    var m: nat := n / 256;
    assert m % 256 == b && m / 256 == (d as int) * 0x100 + c as int;
    assert m / 0x100 % 256 == c;
    assert Be4(n) == Be3(m) + [a];
  }

  /** Seven bits of cycle time, and the half in the eighth; nothing without a cycle time or half. */
  lemma CycleBits(cycletime: byte, next: byte)
    ensures cycletime == 0 || next >= 2 ==> CycleByte(cycletime, next) == 0
    ensures 1 <= cycletime <= 127 && next == 0 ==> CycleByte(cycletime, next) == cycletime
    ensures 1 <= cycletime <= 127 && next == 1 ==> CycleByte(cycletime, next) as int == 128 + cycletime
    ensures cycletime >= 128 && next <= 1 ==> CycleByte(cycletime, next) == cycletime
    ensures CycleOf(cycletime) == (cycletime % 128, cycletime / 128)
  {
  }

  /** Of the first byte of the ECM only the two table numbers for odd and even words are passed on. */
  lemma TableNumbers(x: byte)
    ensures OddEven(x) == if x == 128 || x == 129 then x else 0
  {
  }

  /** A word that was found, by whatever way, is pushed as found; one not yet handled as that; and
      nothing else. */
  lemma WhatIsPushed(rc: int)
    ensures (rc <= 3 ==> Pushable(rc) && PushedRc(rc) == 0) && Pushable(100) && PushedRc(100) == 100
    ensures rc >= 4 && rc != 100 ==> !Pushable(rc)
  {
  }

  // ----- the message of camd35 -----

  /** The head of a message: command, length from byte 20 on with the low byte first, code,
      identifiers, cycle and table number. */
  lemma HeadAt(er: Request, own: NodeId)
    requires Pushable(er.rc)
    ensures
      var b := Encode(er, own);
      && |b| == 66 + 8 * |er.lastNodes| && b[0] == 0x3F
      && b[1] as int + 256 * (b[2] as int) == (46 + 8 * |er.lastNodes|) % 0x10000
      && b[3] as int == (if er.rc <= 3 then 0 else 100) && b[4..8] == [0, 0, 0, 0] && b[16..18] == [0, 0]
      && FromBe(b[8..10]) == er.srvid % 0x10000 && FromBe(b[10..12]) == er.caid % 0x10000 && FromBe(b[12..16]) == er.prid % 0x100000000
      && b[19] == (if er.ecm0 == 128 || er.ecm0 == 129 then er.ecm0 else 0)
      && (er.cycletime == 0 || er.nextCw >= 2 ==> b[18] == 0)
      && (1 <= er.cycletime <= 127 && er.nextCw <= 1 ==> b[18] as int == er.cycletime as int + 128 * (er.nextCw as int))
      && (er.cycletime >= 128 && er.nextCw <= 1 ==> b[18] == er.cycletime)
  {
    hide Be2, Be4, FromBe, EncodeNodes, CycleByte, OddEven;
    CycleBits(er.cycletime, er.nextCw);
    TableNumbers(er.ecm0);
    WhatIsPushed(er.rc);
    var b, h, i := Encode(er, own), EncodeHead(er), EncodeIds(er, 46 + 8 * |er.lastNodes|);
    assert b[..57] == h && h[..20] == i && b[..20] == i;
    assert b[4..8] == i[4..8] == [0, 0, 0, 0] && b[16..18] == i[16..18] == [0, 0];
    assert b[8..10] == i[8..10] == Be2(er.srvid) && b[10..12] == i[10..12] == Be2(er.caid) && b[12..16] == i[12..16] == Be4(er.prid);
    assert b[0] == i[0] && b[1] == i[1] && b[2] == i[2] && b[3] == i[3] && b[18] == i[18] && b[19] == i[19];
    LowHigh(46 + 8 * |er.lastNodes|);
    FromBe2(er.srvid);
    FromBe2(er.caid);
    FromBe4(er.prid);
  }

  lemma LowHigh(n: nat)
    ensures n % 256 + 256 * (n / 256 % 256) == n % 0x10000
  {
    assert n / 0x100 == n / 0x10000 * 0x100 + n / 256 % 256;
  }

  /** Then the digest, the hash with its low byte first, the word, the number of nodes, the nodes with
      the own one first, and whether the word is local. */
  lemma TailAt(er: Request, own: NodeId, k: nat)
    requires Pushable(er.rc) && k <= |er.lastNodes|
    ensures
      var b := Encode(er, own);
      && |b| == 66 + 8 * |er.lastNodes|
      && b[20..36] == er.ecmd5 && b[40..56] == er.cw && b[56] as int == (|er.lastNodes| + 1) % 256
      && b[36..40] == [er.cspHash % 256, er.cspHash / 0x100 % 256, er.cspHash / 0x10000 % 256, er.cspHash / 0x1000000 % 256]
      && b[57 + 8 * k..57 + 8 * k + 8] == (if k == 0 then own else er.lastNodes[k - 1])
      && b[|b| - 1] == (if er.localGenerated then 1 else 255)
  {
    hide Be2, Be4, HashSwap, EncodeNodes, CycleByte, OddEven, EncodeIds;
    var ns := [own] + er.lastNodes;
    var b, h, t := Encode(er, own), EncodeHead(er), EncodeNodes(ns);
    assert b[..57] == h;
    assert b[20..36] == h[20..36] == er.ecmd5 && b[36..40] == h[36..40] == Be4(HashSwap(er.cspHash)) && b[40..56] == h[40..56] == er.cw;
    assert b[56] == h[56];
    HashLowByteFirst(er.cspHash);
    assert b[57..57 + |t|] == t;
    NodeOf(ns, k);
    Part(b, 57, t, 8 * k);
  }

  lemma {:induction false} NodeOf(ns: seq<NodeId>, k: nat)
    requires k < |ns|
    ensures EncodeNodes(ns)[8 * k..8 * k + 8] == ns[k]
    decreases |ns|
  {
    var s := EncodeNodes(ns);
    if k > 0 {
      NodeOf(ns[1..], k - 1);
      Part(s, 8, EncodeNodes(ns[1..]), 8 * (k - 1));
    }
  }

  lemma Part(b: seq<byte>, lo: nat, part: seq<byte>, a: nat)
    requires lo + |part| <= |b| && b[lo..lo + |part|] == part && a + 8 <= |part|
    ensures b[lo + a..lo + a + 8] == part[a..a + 8]
  {
    var y, z := part[a..a + 8], b[lo + a..lo + a + 8];
    forall i | 0 <= i < 8
      ensures y[i] == z[i]
    {
      assert y[i] == part[a + i] == b[lo..lo + |part|][a + i] == b[lo + (a + i)];
    }
  }

  /** A message is ignored exactly if its code is neither found nor unhandled, or its length is below
      36; a length of 36 is the old format, without nodes and flag. */
  lemma ReadsIff(b: seq<byte>)
    requires Readable(b)
    ensures
      var size := b[1] as int + 256 * (b[2] as int);
      && (Decode(b).Some? ==> Decode(b).value.cycletime as int == b[18] as int % 128 && Decode(b).value.nextCw as int == b[18] as int / 128)
      && (Decode(b) == None <==> (b[3] != 0 && b[3] != 100) || size <= 35)
      && (Decode(b).Some? && size == 36 ==> Decode(b).value.lastNodes == [] && !Decode(b).value.localGenerated)
      && (Decode(b).Some? && size >= 37 ==> (Decode(b).value.localGenerated <==> b[57 + 8 * (b[56] as int)] == 1))
      && (Decode(b).Some? ==> Decode(b).value.rc == b[3] as int && Decode(b).value.ecm0 == if b[19] == 128 || b[19] == 129 then b[19] else 0)
  {
    hide FromBe, HashSwap, DecodeNodes;
  }

  // ----- the message of CCcam -----

  /** The identifiers stand elsewhere, the length is always 36, and from byte 18 on it is the same. */
  lemma CcHeadAt(er: Request, own: NodeId)
    requires Pushable(er.rc)
    ensures
      var b := EncodeCc(er, own);
      && |b| == 66 + 8 * |er.lastNodes|
      && FromBe(b[0..2]) == er.caid % 0x10000 && FromBe(b[2..6]) == er.prid % 0x100000000 && FromBe(b[10..12]) == er.srvid % 0x10000
      && b[6..10] == [0, 0, 0, 0] && b[12] == 36 && b[13] == 0 && b[14] as int == (if er.rc <= 3 then 0 else 100) && b[15..18] == [0, 0, 0]
      && b[18..] == Encode(er, own)[18..]
  {
    hide Be2, Be4, FromBe, Encode;
    HeadAt(er, own);
    WhatIsPushed(er.rc);
    var b, i := EncodeCc(er, own), EncodeCcIds(er);
    assert b[..18] == i;
    assert b[0..2] == i[0..2] == Be2(er.caid) && b[2..6] == i[2..6] == Be4(er.prid) && b[10..12] == i[10..12] == Be2(er.srvid);
    assert b[6..10] == i[6..10] == [0, 0, 0, 0] && b[15..18] == i[15..18] == [0, 0, 0];
    FromBe2(er.srvid);
    FromBe2(er.caid);
    FromBe4(er.prid);
  }

  lemma CcReadsIff(b: seq<byte>)
    requires ReadableCc(b)
    ensures DecodeCc(b) == None <==> (b[14] != 0 && b[14] != 100) || b[12] != 36 || b[13] != 0
    ensures DecodeCc(b).Some? ==>
      && DecodeCc(b).value.rc == b[14] as int && DecodeCc(b).value.ecm0 == (if b[19] == 128 || b[19] == 129 then b[19] else 0)
      && (DecodeCc(b).value.localGenerated <==> b[57 + 8 * (b[56] as int)] == 1)
  {
    hide FromBe, HashSwap, CycleOf, DecodeNodes;
  }

  // ----- limits -----

  function Or(x: Option<Limits>, y: Option<Limits>): (int, int) {
    (if x.Some? && x.value.maxhop != 0 then x.value.maxhop else if y.Some? && y.value.maxhop != 0 then y.value.maxhop else 10,
     if x.Some? && x.value.maxhopLg != 0 then x.value.maxhopLg else if y.Some? && y.value.maxhopLg != 0 then y.value.maxhopLg else 0)
  }

  /** The reader's number counts before the account's, and ten if neither is set; for local words the
      number set, at most ten, but never less than the other limit. */
  lemma LimitsAre(reader: Option<Limits>, account: Option<Limits>)
    ensures
      var c := Connection(reader, account);
      var (hops, lg) := Or(reader, account);
      && Limit(c, false) == hops
      && (lg == 0 ==> Limit(c, true) == hops)
      && (lg != 0 ==> Limit(c, true) == if lg >= 10 then (if hops >= 10 then hops else 10) else if lg >= hops then lg else hops)
  {
  }

  /** Asking for the limit of local words writes it back where the number was set, to the reader before the
      account, and nowhere else. */
  lemma WrittenBack(reader: Option<Limits>, account: Option<Limits>)
    ensures
      var c := Connection(reader, account);
      if reader.Some? && reader.value.maxhopLg != 0 then
        Clamped(c) == Connection(Some(Limits(reader.value.maxhop, Limit(c, true))), account)
      else if account.Some? && account.value.maxhopLg != 0 then
        Clamped(c) == Connection(reader, Some(Limits(account.value.maxhop, Limit(c, true))))
      else Clamped(c) == c
  {
  }

  /** Receiving: too many nodes for the limit are refused; otherwise the first node becomes the peer's
      id if none is known, and a word without nodes gets the peer's. */
  lemma ReceivedShows(er: Request, newFormat: bool, c: Connection, peer: Option<NodeId>)
    ensures
      var (kept, peer') := Received(er, newFormat, c, peer);
      && (kept == None <==> newFormat && |er.lastNodes| >= Limit(c, er.localGenerated) + 1)
      && (kept == None ==> peer' == peer)
      && (kept.Some? && peer.Some? ==> peer' == peer)
      && (kept.Some? && peer == None && |er.lastNodes| >= 1 ==> peer' == Some(er.lastNodes[0]))
      && (kept.Some? && peer == None && er.lastNodes == [] ==> peer' == None && kept.value == er)
      && (kept.Some? && er.lastNodes != [] ==> kept.value == er)
      && (kept.Some? && er.lastNodes == [] && peer.Some? ==> kept.value == er.(lastNodes := [peer.value]))
  {
  }
}
