/** The push message of the CCcam protocol (module-cccam-cacheex.c): other places for the
    identifiers than in the camd35 form, a length field that is always 36, and the same from
    the cycle byte on. */
module CccamPush {
  import opened Bytes
  import opened Cards
  import opened NodeCodec
  import opened CachePush

  /** The first 18 bytes. */
  function EncodeCcIds(er: Request): (s: seq<byte>)
    requires Pushable(er.rc)
    ensures |s| == 18
  {
    var rc: byte := PushedRc(er.rc);
    Be2(er.caid) + Be4(er.prid) + [0, 0, 0, 0] + Be2(er.srvid) + [36, 0, rc, 0, 0, 0]
  }

  /** The whole message of cc_cacheex_push_out. */
  function EncodeCc(er: Request, own: NodeId): seq<byte>
    requires Pushable(er.rc)
  {
    EncodeCcIds(er) + Encode(er, own)[18..]
  }

  predicate ReadableCc(b: seq<byte>) { |b| >= 57 && |b| >= 57 + 8 * (b[56] as int) + 1 }

  /** cc_cacheex_push_in up to the limits and filters; None: ignored. */
  function DecodeCc(b: seq<byte>): Option<Request>
    requires ReadableCc(b)
  {
    if b[14] != E_FOUND && b[14] != E_UNHANDLED then None
    else if b[12] as int + 256 * (b[13] as int) != 36 then None
    else
      var cycle := CycleOf(b[18]);
      var n := b[56] as nat;
      Some(Request(b[14], FromBe(b[10..12]), FromBe(b[0..2]), FromBe(b[2..6]), cycle.0, cycle.1, OddEven(b[19]),
                   b[20..36], HashSwap(FromBe(b[36..40])), b[40..56], DecodeNodes(b[57..57 + 8 * n], n), b[57 + 8 * n] == 1))
  }

  lemma IdFields(er: Request)
    requires Pushable(er.rc)
    ensures
      var h := EncodeCcIds(er);
      && h[0..2] == Be2(er.caid) && h[2..6] == Be4(er.prid) && h[10..12] == Be2(er.srvid)
      && h[12] == 36 && h[13] == 0 && h[14] == PushedRc(er.rc)
  {
    hide Be2, Be4;
  }

  /** Behind the identifiers both forms are the same. */
  lemma SameTail(er: Request, own: NodeId)
    requires Pushable(er.rc)
    ensures
      var b, c := Encode(er, own), EncodeCc(er, own);
      && |c| == |b| && |b| >= 58
      && (forall i :: 18 <= i < |b| ==> c[i] == b[i])
      && (forall i, j :: 18 <= i <= j <= |b| ==> c[i..j] == b[i..j])
      && c[..18] == EncodeCcIds(er)
  {
    hide EncodeHead, EncodeNodes, EncodeCcIds;
  }

  lemma InIds(h: seq<byte>, c: seq<byte>)
    requires |h| == 18 && |c| >= 18 && c[..18] == h
    ensures c[0..2] == h[0..2] && c[2..6] == h[2..6] && c[10..12] == h[10..12]
    ensures c[12] == h[12] && c[13] == h[13] && c[14] == h[14]
  {
  }

  /** What the camd35 form reads from its own message, behind the identifiers. */
  lemma TailBack(er: Request, own: NodeId)
    requires Pushable(er.rc) && |er.lastNodes| < 255
    ensures
      var b := Encode(er, own);
      var n := |er.lastNodes| + 1;
      && |b| == 57 + 8 * n + 1 && b[56] == n
      && b[18] == CycleByte(er.cycletime, er.nextCw) && b[19] == OddEven(er.ecm0)
      && b[20..36] == er.ecmd5 && b[36..40] == Be4(HashSwap(er.cspHash)) && b[40..56] == er.cw
      && b[57..57 + 8 * n] == EncodeNodes([own] + er.lastNodes)
      && (b[57 + 8 * n] == 1 <==> er.localGenerated)
  {
    hide EncodeHead, EncodeNodes, Be2, Be4, HashSwap, CycleByte, OddEven;
    var lg: byte := if er.localGenerated then 1 else 0xFF;
    HeadFields(er);
    PrefixFields(EncodeHead(er), Encode(er, own));
  }

  /** cc_cacheex_push_in reads back what cc_cacheex_push_out wrote, exactly as the camd35 form
      does. */
  lemma CcRoundTrip(er: Request, own: NodeId)
    requires Pushable(er.rc) && |er.lastNodes| < 255
    requires er.srvid < 0x10000 && er.caid < 0x10000 && er.prid < 0x100000000 && er.cspHash < 0x100000000
    ensures ReadableCc(EncodeCc(er, own))
    ensures DecodeCc(EncodeCc(er, own)) == Decode(Encode(er, own))
  {
    hide Encode, Decode, EncodeCcIds, EncodeCc, EncodeNodes, DecodeNodes, FromBe, Be2, Be4, HashSwap, CycleByte, CycleOf;
    var c := EncodeCc(er, own);
    RoundTrip(er, own);
    SameTail(er, own);
    TailBack(er, own);
    IdFields(er);
    InIds(EncodeCcIds(er), c);
    FromBe2(er.srvid);
    FromBe2(er.caid);
    FromBe4(er.prid);
    FromBe4(HashSwap(er.cspHash));
    HashSwapTwice(er.cspHash);
    NodesBack([own] + er.lastNodes);
  }
}
